# Codex: a verified model of its gates, servers, queues and normalizers

This project models, in Dafny, the parts of the Codex repository whose correctness is
hard to see from one function body, and proves what they are for.

- **The MCP regression gates.** A conformance report, full or compacted to a baseline, is
  read into a map from check identities to outcomes, with a list of problems. A gate
  compares two reports. `RegressionReport`, `RegressionReader`, `RegressionMeaning`,
  `RegressionProblems`, `RegressionGate`, `RegressionTheorems` and `RegressionCompaction` model the gate of the
  compliance runner; `ReviewReport`, `ReviewReader`, `ReviewGate` and `ReviewTheorems` the
  stricter gate of the regression suite; `OfficialCase` and `OfficialTheorems` how scenario
  results become the checks that the gate reads. `Ordering` holds the sorted
  listings and `Common` the shared values.
- **The MCP fixture server.** `FixtureServer` is the legacy handshake of one connection and
  the stdio loop, `SessionTable` the session table under every interleaving of request
  threads, `HttpFixture` the handler object with its dictionary of connection objects, and
  `SseCodec` the event-stream encoder against a parser written from sections 9.2.5 and
  9.2.6 of the WHATWG HTML Standard; `HttpBody` puts the reply bodies on top of both.
- **The app-server message pump.** `MessagePump` is the client that waits for responses and
  notifications on one queue; `PumpTheorems` says that nothing is lost in it.
- **The analytics queue.** `AnalyticsQueue` is the bounded channel with its worker and flush
  barrier under every schedule, `FlushTheorems` says that no flush is left unanswered,
  `UsageDedupe` the bounded set of emitted keys, and `EventBatches` the greedy batcher.
- **The agent spawn graph.** `SpawnGraph` models the store's edges and the queue that
  evaluates its recursive query, `SpawnListing` the ordered listing and when the query
  ends, `SpawnLaws` what closing and re-parenting do.
- **Normalizers and the updater.** `ReleaseVersion` and `VersionTheorems` (release tags and
  PEP 440 versions), `DiffCount` (added and deleted lines of a unified diff), `HostPath`
  (paths of either platform), `LintArgs` and `LintTheorems` (the lint wrapper's arguments),
  `UpdateLoop` (the updater and its latched termination signal).

Code that updates variables in loops is a method with invariants, proved equal to a
specification function; objects are classes; threads and signals are state machines over
arbitrary schedules. What is promised is then proved about the specification functions.

A JSON field that the source reads with a type guard is `Typed<T>`: a value of the right
type or `Wrong`, which stands for a missing field and for one of another type alike, as in
the source. Closed vocabularies are datatypes, and an error message is a constructor of a
problem datatype, so a problem list has the source's entries and order, not its wording.

Results where the natural property fails, with the exact condition under which it holds:

- The verdict against a compact baseline is the verdict against the report if and only if
  every mode, transport and scenario of the report has a check that is not skipped. An
  all-skipped report passes against itself and fails against its own compact form. Reports
  assembled by the runner always meet the condition.
- A successful case implies successful scenarios. The converse needs every check to have a
  known status: an unknown one fails the case while the scenario's verdict is success.
- A wait is the first match overall if and only if that match is stored or is not an
  arriving server request: the waiting loop answers those without looking at them, but
  finds them once they are stored.
- The recursive descendants query ends if and only if the root is not its own matching
  descendant; nothing in the store rejects such an edge.
- Appending a path segment works if and only if the path is `/` or has a component: a bare
  `//` or `\\` stops being a Windows path.
- Normalizing lint arguments is a fixpoint if and only if the default manifest path is not
  `--` or the user gave a manifest.
- The event-stream encoding reads back if and only if no text holds a raw line end.
- A termination signal is kept until the updater returns if and only if no restart replaces
  the updater's image while the signal is pending. The image is replaced after restarting a
  server from a new executable; a signal that arrives during that restart is lost.
- Counting a diff is exact, and counts of two texts add up, if and only if no file header
  follows a hunk without a git header in between.
- Every server request is answered if and only if the process was alive each time an answer
  was due; each one is or is not answered by its own delivery alone.
- A fact is refused if and only if every slot of the queue is taken or held for a flush, so
  it can be refused while fewer than 256 messages are queued.

## Model

| member | source | states |
|---|---|---|
| `RegressionReport.NumberedNamesAreStable` | scripts/mcp_conformance/run_codex_compliance.py:1443-1449 | Numbering repeated observations of a check never splits its identity: for every nonempty stem and every number in decimal digits, ASCII or not, `stem#number` names the stem. |
| `RegressionReader.TabulateCases` | scripts/mcp_conformance/run_codex_compliance.py:1593-1613 | The loop over the cases yields the table and the problems, in order, of the case list. |
| `RegressionReader.ReadCheckList` | scripts/mcp_conformance/run_codex_compliance.py:1639-1664 | The loop over one case's checks yields the merged statuses, the problems and the observed scenarios of the list. |
| `RegressionReader.ReadSlot` | scripts/mcp_conformance/run_codex_compliance.py:1627-1677 | One mode and transport: a missing case and an empty check list are problems, and an official case must observe the expected scenarios. |
| `RegressionReader.ReadMode` | scripts/mcp_conformance/run_codex_compliance.py:1615-1677 | One mode of a full report adds the statuses and problems of both its transports. |
| `RegressionReader.ReadFull` | scripts/mcp_conformance/run_codex_compliance.py:1593-1679 | Reading a full report yields its statuses and all its problems in order, the malformed ones included. |
| `RegressionReader.ReadBucket` | scripts/mcp_conformance/run_codex_compliance.py:1515-1554 | A bucket of a compact baseline adds its status to every well-formed new identity, and reports malformed and repeated ones. |
| `RegressionReader.CompactMode` | scripts/mcp_conformance/run_codex_compliance.py:1556-1591 | The per-mode demands on a compact baseline: a check for each transport and the expected scenarios. |
| `RegressionReader.ReadCompact` | scripts/mcp_conformance/run_codex_compliance.py:1493-1591 | Reading a compact baseline yields its statuses and all its problems in order. |
| `RegressionReader.RequiredChecks` | scripts/mcp_conformance/run_codex_compliance.py:1459-1679 | Reading any report, of whatever kind and however malformed, yields its statuses and problems. |
| `RegressionMeaning.TableHoldsFirst` | scripts/mcp_conformance/run_codex_compliance.py:1593-1613 | A mode and transport is in the table iff some required case has it, and then with the first such case. |
| `RegressionMeaning.CaseProblemsMeaning` | scripts/mcp_conformance/run_codex_compliance.py:1593-1613 | The case list has no problem iff every case is well formed and no required case is repeated. |
| `RegressionMeaning.FullStatusesMeaning` | scripts/mcp_conformance/run_codex_compliance.py:1615-1679 | A status is recorded for an identity iff a check of the first case of its slot says so; no identity is recorded without a status. |
| `RegressionMeaning.FullReportAccepted` | scripts/mcp_conformance/run_codex_compliance.py:1459-1679 | A full report has no problem iff a stated condition on the report alone holds (header, cases, checks, scenarios). |
| `RegressionMeaning.CheckMeaning` | scripts/mcp_conformance/run_codex_compliance.py:1425-1456 | A check of either transport is read, as one identity and status, iff its fields have the right types, its texts are not empty and its success agrees with its status; the identity is spelled out field by field. |
| `RegressionMeaning.RecordMeaning` | scripts/mcp_conformance/run_codex_compliance.py:1525-1547 | A compact record is read as an identity iff it holds exactly its fields, names one of the two transports and has a check id. |
| `RegressionProblems.FullReportReported` | scripts/mcp_conformance/run_codex_compliance.py:1459-1679 | Which problems a full report is said to have, each iff its own condition on the report holds. |
| `RegressionProblems.CompactReportReported` | scripts/mcp_conformance/run_codex_compliance.py:1493-1591 | The same for a compact baseline: missing, malformed and repeated identities, absent cases and scenarios. |
| `RegressionProblems.OtherReportReported` | scripts/mcp_conformance/run_codex_compliance.py:1493-1497 | A report of another kind is refused for that, besides what its header lacks. |
| `RegressionMeaning.RecordProblemsMeaning` | scripts/mcp_conformance/run_codex_compliance.py:1515-1554 | A bucket has no problem iff all its records are well formed and distinct. |
| `RegressionMeaning.CompactStatusesMeaning` | scripts/mcp_conformance/run_codex_compliance.py:1493-1591 | A compact baseline means PASS exactly on its passing list, FAIL exactly on its failing list and SKIP nowhere. |
| `RegressionMeaning.CompactReportAccepted` | scripts/mcp_conformance/run_codex_compliance.py:1493-1591 | A compact baseline has no problem iff a stated condition on the baseline alone holds. |
| `RegressionGate.SplitFailures` | scripts/mcp_conformance/run_codex_compliance.py:1772-1781 | The loop over the candidate splits its failures, in order, into those the baseline has and new ones, and reports shipping failures. |
| `RegressionGate.SplitBaseline` | scripts/mcp_conformance/run_codex_compliance.py:1783-1798 | The loop over the baseline lists, in order, what is missing and what is fixed, and reports shipping failures of the baseline. |
| `RegressionGate.EvaluateGate` | scripts/mcp_conformance/run_codex_compliance.py:1744-1809 | The gate computes the sorted known, new, missing and fixed sets, all errors and the verdict, for any two reports. |
| `RegressionTheorems.GatePassesIff` | scripts/mcp_conformance/run_codex_compliance.py:1744-1809 | The gate passes iff both reports are well formed, record one OAuth policy, have no shipping failure, and the candidate neither loses a check nor fails one that did not fail. |
| `RegressionTheorems.ListsMeaning` | scripts/mcp_conformance/run_codex_compliance.py:1772-1798 | Which checks each of the four lists of a verdict holds, by the statuses of the check in both reports: known and new failures, missing and fixed checks, both ways. |
| `RegressionTheorems.ErrorsComeFrom` | scripts/mcp_conformance/run_codex_compliance.py:1744-1798 | The errors of a verdict come from the problems, OAuth policies and statuses of the two reports, each on its own side. |
| `RegressionTheorems.ProblemsAreIssues` | scripts/mcp_conformance/run_codex_compliance.py:1750-1756 | A problem is among the errors as the baseline's or the candidate's iff it is one of that report. |
| `RegressionTheorems.PoliciesAreCompared` | scripts/mcp_conformance/run_codex_compliance.py:1758-1765 | The errors name a missing OAuth policy iff one report has none, and differing policies iff both have one and they differ. |
| `RegressionTheorems.ShippingFailuresAreIssues` | scripts/mcp_conformance/run_codex_compliance.py:1772-1788 | The errors name a shipping check of either report iff that report fails a shipping check of that id. |
| `RegressionTheorems.GateReflexive` | scripts/mcp_conformance/run_codex_compliance.py:1744-1809 | A report passes against itself iff it is well formed, records its OAuth policy and has no shipping failure. |
| `RegressionTheorems.GateTransitive` | scripts/mcp_conformance/run_codex_compliance.py:1744-1809 | Passing composes: c2 against c1 and c1 against c0 give c2 against c0. |
| `RegressionTheorems.GateAntisymmetric` | scripts/mcp_conformance/run_codex_compliance.py:1744-1809 | Two reports pass against each other iff each passes against itself, they share the policy and agree on PASS and on FAIL everywhere. |
| `RegressionCompaction.CompactionAccepts` | scripts/mcp_conformance/run_codex_compliance.py:1682-1726 | A report can be compacted iff it passes against itself. |
| `RegressionCompaction.CompactionKeepsOutcomes` | scripts/mcp_conformance/run_codex_compliance.py:1682-1726 | Reading the compact form gives every identity its statuses minus SKIP, for every report. |
| `RegressionCompaction.CompactionKeepsLists` | scripts/mcp_conformance/run_codex_compliance.py:1682-1809 | For every candidate the known, new, missing and fixed lists are the same against a report and against its compact form. |
| `RegressionCompaction.CompactFormAccepted` | scripts/mcp_conformance/run_codex_compliance.py:1556-1591 | The compact form of a well-formed report is well formed iff every mode, transport and scenario has a check that is not skipped. |
| `RegressionCompaction.CompactionKeepsVerdict` | scripts/mcp_conformance/run_codex_compliance.py:1682-1809 | For every candidate, passing against the compact baseline is passing against the report together with that coverage. |
| `RegressionCompaction.CompactionIdempotent` | scripts/mcp_conformance/run_codex_compliance.py:1682-1726 | Compacting a compact baseline gives it back iff the report is covered. |
| `OfficialCase.LoadChecks` | scripts/mcp_conformance/official_conformance.py:317-342 | The loop keeps, in order, the readable entries whose status is not INFO. |
| `OfficialCase.LoadedChecksMeaning` | scripts/mcp_conformance/official_conformance.py:317-342 | A check is loaded iff some readable entry reads as it and its status is not INFO; its id and name are never empty. |
| `OfficialTheorems.EntryMeaning` | scripts/mcp_conformance/official_conformance.py:321-324 | An entry without an id is numbered, one without a name goes by its id, one without a status failed. |
| `OfficialTheorems.JudgeMeaning` | scripts/mcp_conformance/official_conformance.py:455-477 | A scenario succeeds iff the runner returned 0, the adapter succeeded, some readable entry is more than information, and each has a status that is no failure and no warning. |
| `OfficialCase.CountNames` | scripts/mcp_conformance/run_codex_compliance.py:1177-1189 | The counter holds how often each check name occurs. |
| `OfficialCase.AssembleCase` | scripts/mcp_conformance/run_codex_compliance.py:1177-1222 | The loops assemble, per scenario, the official checks with repeated names numbered and the harness checks, then the supplemental checks, and the case's success. |
| `OfficialTheorems.ResultMeaning` | scripts/mcp_conformance/run_codex_compliance.py:1111-1139 | A check is recorded as passed iff its status is SUCCESS, as skipped iff SKIPPED or INFO, as failed otherwise; its name is numbered iff another check of the scenario has the same one. |
| `OfficialTheorems.HarnessChecksMeaning` | scripts/mcp_conformance/run_codex_compliance.py:1190-1222 | What the checks that the harness adds are named and say. |
| `OfficialTheorems.CaseSucceedsIff` | scripts/mcp_conformance/run_codex_compliance.py:1111-1222 | The assembled case succeeds iff some scenario ran, every scenario succeeded with only known statuses, and the supplemental checks succeeded. |
| `OfficialTheorems.UnknownStatusFailsTheCase` | scripts/mcp_conformance/run_codex_compliance.py:1111-1139 | An unknown status fails the case although the scenario's verdict is success. |
| `OfficialTheorems.FailedScenarioReachesGate` | scripts/mcp_conformance/run_codex_compliance.py:1190-1202 | Every unsuccessful scenario records a FAIL under its own name, the gate lists it as known or new, and in the shipping mode no gate passes. |
| `OfficialTheorems.RunnerReportsAreCovered` | scripts/mcp_conformance/run_codex_compliance.py:1190-1202 | Every well-formed report the runner assembles has a check that is not skipped for each mode, transport and scenario. |
| `OfficialTheorems.RunnerBaselinesCompactSafely` | scripts/mcp_conformance/run_codex_compliance.py:1682-1809 | No candidate is judged differently against the compact form of a report the runner assembled. |
| `OfficialTheorems.UncoveredVerdictChanges` | scripts/mcp_conformance/run_codex_compliance.py:1556-1591 | For every catalog without empty scenario names, the all-skipped report passes against itself and fails against its compact form. |
| `ReviewReader.ReadCaseChecks` | scripts/mcp_conformance/review_regressions.py:969-988 | The loop over a case's checks yields the outcomes, the problems and whether all new outcomes are successes. |
| `ReviewReader.ReadCases` | scripts/mcp_conformance/review_regressions.py:944-993 | The loop over the cases yields the outcomes, the observed cases and the problems, in order. |
| `ReviewReader.ReadNames` | scripts/mcp_conformance/review_regressions.py:890-903 | The loop over the case names of a compact baseline yields the observed cases and the problems. |
| `ReviewReader.ReadBucket` | scripts/mcp_conformance/review_regressions.py:909-938 | A bucket records its outcome for every well-formed new identity of an expected case and reports the others. |
| `ReviewReader.RequiredReviewChecks` | scripts/mcp_conformance/review_regressions.py:859-1029 | Reading any review report yields its outcomes, its observed cases and its problems, totals and success flag included. |
| `ReviewGate.SplitReviewFailures` | scripts/mcp_conformance/review_regressions.py:1086-1092 | The loop over the candidate splits its failures, in order, into known and new. |
| `ReviewGate.SplitReviewBaseline` | scripts/mcp_conformance/review_regressions.py:1094-1099 | The loop over the baseline lists, in order, what is missing and what is fixed. |
| `ReviewGate.EvaluateReviewGate` | scripts/mcp_conformance/review_regressions.py:1070-1110 | The review gate computes the sorted known, new, missing and fixed sets, the problems of both reports and the verdict. |
| `ReviewTheorems.ReviewReportAccepted` | scripts/mcp_conformance/review_regressions.py:859-1029 | A full review report has no problem iff its header, its cases, its coverage, its totals and its success flag are right, and then each check stands for the outcome its case records. |
| `ReviewTheorems.OutcomesAreValid` | scripts/mcp_conformance/review_regressions.py:859-1029 | Whatever a report holds, the outcomes read from it are about expected cases and review checks. |
| `ReviewTheorems.CompactReviewReadsBack` | scripts/mcp_conformance/review_regressions.py:1032-1067 | Reading the compact form of every compactable report gives the identical outcomes with no problem, recomputed totals included. |
| `ReviewTheorems.ReviewCompactionIsInvisible` | scripts/mcp_conformance/review_regressions.py:1032-1110 | Compaction is idempotent, and the whole verdict of every candidate is the same against either form. |
| `ReviewTheorems.ReviewGatePassesIff` | scripts/mcp_conformance/review_regressions.py:1070-1110 | The review gate passes iff both reports are accepted and every check of the baseline is present and not newly failing. |
| `ReviewTheorems.ReviewListsMeaning` | scripts/mcp_conformance/review_regressions.py:1086-1099 | Which checks each of the four lists of the review verdict holds, by the outcome of the check in both reports. |
| `ReviewTheorems.TotalsMeaning` | scripts/mcp_conformance/review_regressions.py:1002-1020 | The totals a report must show count its passing and failing checks, its cases, and the cases with a check and no failing one. |
| `ReviewTheorems.ReviewGateTransitive` | scripts/mcp_conformance/review_regressions.py:1070-1110 | Passing composes. |
| `ReviewTheorems.ReviewGateAntisymmetric` | scripts/mcp_conformance/review_regressions.py:1070-1110 | Two reports pass against each other iff both are accepted and record the same outcomes. |
| `FixtureServer.ProtocolServer.Handle` | scripts/mcp_conformance/server.py:306-362 | Handling a message updates the connection object and yields the plan exactly as the value-level step does, malformed messages and notifications included. |
| `FixtureServer.InitializeIsAnswered` | scripts/mcp_conformance/server.py:487-520 | In every message list, a valid initialize request is answered with the handshake result under its own id. |
| `FixtureServer.NotificationsGetNoResponse` | scripts/mcp_conformance/server.py:306-362 | A notification gets no response, whatever it is and whenever it comes. |
| `FixtureServer.RefusalsMeaning` | scripts/mcp_conformance/server.py:306-541 | The code and status of every refusal: what is no JSON-RPC call, bad parameters, initialize without a version, discover, and any other request before the handshake. |
| `FixtureServer.ResponsesCarryTheId` | scripts/mcp_conformance/server.py:306-541 | Every response carries the id of its request, or null when there is none. |
| `FixtureServer.HandshakeMeaning` | scripts/mcp_conformance/server.py:350-362 | After any messages a connection has seen initialize iff a valid initialize request occurred, and is initialized iff one was followed by the initialized notification. |
| `FixtureServer.NoResultBeforeHandshake` | scripts/mcp_conformance/server.py:487-572 | No request other than initialize gets a result unless the handshake happened before it. |
| `FixtureServer.ServedAfterHandshake` | scripts/mcp_conformance/server.py:487-572 | After the handshake every well-formed request other than initialize and discover is served. |
| `FixtureServer.PlanAt` | scripts/mcp_conformance/server.py:306-348 | The i-th plan of a connection is the step from the state its first i messages left. |
| `FixtureServer.RunStdio` | scripts/mcp_conformance/server.py:1641-1671 | The stdio loop writes, line by line, a parse error or the notifications and response of one connection's plans. |
| `SessionTable.ObjectsAreIndependent` | scripts/mcp_conformance/server.py:1412-1431 | Under every interleaving of lookups, handlings and deletions, each connection object answers exactly what a fresh connection answers to the messages that reached it. |
| `SessionTable.NoResultBeforeItsHandshake` | scripts/mcp_conformance/server.py:487-572 | Under every interleaving no request but initialize gets a result on a connection object unless the handshake was completed on that object before. |
| `SessionTable.TableFollowsHistory` | scripts/mcp_conformance/server.py:1542-1568 | Under every interleaving a session id means the connection of its newest registration, until it is deleted. |
| `SessionTable.EveryEventIsJustified` | scripts/mcp_conformance/server.py:1505-1568 | Under every interleaving a message is answered at most once, on the object its session id meant when it arrived, and is refused only when the id meant nothing. |
| `SessionTable.OnlyGoodSessionsInitialize` | scripts/mcp_conformance/server.py:1542-1568 | A session completes the handshake only if the request that created it was a well-formed initialize. |
| `SessionTable.SessionActsLikeStdio` | scripts/mcp_conformance/server.py:1641-1671 | Under every interleaving a session's plans hold what a stdio server writes when fed the session's messages. |
| `HttpBody.BodyCarriesPlanIff` | scripts/mcp_conformance/server.py:1509-1540 | A client reads from a reply's body, JSON or event stream, exactly the plan's notifications and response iff the plan has no notifications or streams a response. |
| `HttpBody.SessionBodiesActLikeStdio` | scripts/mcp_conformance/server.py:1509-1540 | With handlers that stream whenever they notify, the bodies of a session's replies carry, under every interleaving and profile, the texts a stdio server writes for the session's messages. |
| `HttpFixture.FixtureHttpServer.constructor` | scripts/mcp_conformance/server.py:1377-1392 | A new server has an empty session table. |
| `HttpFixture.FixtureHttpServer.LegacyState` | scripts/mcp_conformance/server.py:1542-1568 | Initialize registers a fresh connection object, discover gets an unregistered one, and anything else the object its session header names or none. |
| `HttpFixture.FixtureHttpServer.DoPost` | scripts/mcp_conformance/server.py:1480-1568 | A POST changes exactly one entry of the session table, on connection objects shared by reference, and replies as the function on the table's values does. |
| `HttpFixture.FixtureHttpServer.DoDelete` | scripts/mcp_conformance/server.py:1412-1431 | A DELETE removes exactly the named session if it exists and says whether it did. |
| `HttpFixture.RunsAreWellformed` | scripts/mcp_conformance/server.py:1542-1568 | In every reachable state of the interleaving model no two session ids share a connection object. |
| `HttpFixture.UninterruptedPost` | scripts/mcp_conformance/server.py:1505-1568 | A POST that runs undisturbed in the interleaving model has the table and reply of one `DoPost`. |
| `HttpFixture.UninterruptedDelete` | scripts/mcp_conformance/server.py:1412-1431 | A deletion in the interleaving model has the table and answer of one `DoDelete`. |
| `SseCodec.SseRoundTrip` | scripts/mcp_conformance/server.py:1344-1371 | For every profile and every list of texts, a standard parser reads back exactly those texts in order iff none holds a raw CR or LF. |
| `SseCodec.OneMoreText` | scripts/mcp_conformance/server.py:1344-1371 | Each text adds `data: `, itself and two line ends, LF for the plain profile and CR for the others. |
| `SseCodec.CommentsFirst` | scripts/mcp_conformance/server.py:1349-1363 | In front stand nothing, one keep-alive comment line ended by CR, or 4097 flood lines, by profile. |
| `SseCodec.FloodLineIs` | scripts/mcp_conformance/server.py:1350-1355 | A flood line is the keep-alive comment, a space, 2026 fill bytes and CR. |
| `SseCodec.ParseTexts` | scripts/mcp_conformance/server.py:1365-1371 | The same for the texts without a prefix, under either line separator. |
| `SseCodec.BrokenTextIsLost` | scripts/mcp_conformance/server.py:1365-1371 | A text with a raw line end is never the first event read back. |
| `SseCodec.CommentsAreInvisible` | scripts/mcp_conformance/server.py:1349-1363 | Any number of comment lines before a stream dispatches nothing and changes nothing. |
| `SseCodec.FloodExceedsLimit` | scripts/mcp_conformance/server.py:49-53 | The flood is 4097 lines of exactly 2048 bytes, more than 8 MiB, and dispatches no event. |
| `MessagePump.AppServerClient.HandleServerRequest` | scripts/mcp_conformance/run_codex_compliance.py:319-353 | A server request is kept, an elicitation recorded and the answer with the request's own id sent; if the process is gone the answer alone is missing. |
| `MessagePump.AppServerClient.RequestMessage` | scripts/mcp_conformance/run_codex_compliance.py:242-276 | The request loop leaves the client and the outcome that the function over the delivered stream gives, timeouts and a closed stream included. |
| `MessagePump.AppServerClient.WaitForNotification` | scripts/mcp_conformance/run_codex_compliance.py:278-317 | The same for the notification wait, over the stored events from any index and then the stream. |
| `PumpTheorems.ResponseConserves` | scripts/mcp_conformance/run_codex_compliance.py:242-276 | A request consumes a stretch of the stream, returns only its last message and only if that is its response, keeps and records everything else in order, and sends exactly the answers that could be written; it fails for want of a write iff the last delivery went unanswered. |
| `PumpTheorems.RequestReturnsIff` | scripts/mcp_conformance/run_codex_compliance.py:242-276 | A request that was sent returns a message iff that message answers its id without a method and everything before it is a delivered message that needed no answer or got one; it fails as closed at the end of the stream, as exited at a request it cannot answer, and as timed out otherwise, each iff that comes first. |
| `PumpTheorems.RequestIsSent` | scripts/mcp_conformance/run_codex_compliance.py:242-252 | A request is written first, under the next id and with its own name and parameters, and uses the id up; if the process is gone nothing is written or read. |
| `PumpTheorems.NotificationAt` | scripts/mcp_conformance/run_codex_compliance.py:278-317 | After any deliveries that go by, a wait ends with what the next one calls for: the match, a closed stream, a timeout or an unanswerable request; and it times out when nothing is left. |
| `PumpTheorems.AnswerMeaning` | scripts/mcp_conformance/run_codex_compliance.py:319-353 | An answer carries the request's own id: an elicitation is accepted with the configured content for its parameters, or the built-in content, and any other request is unsupported by its name. |
| `PumpTheorems.ElicitationsAreRecorded` | scripts/mcp_conformance/run_codex_compliance.py:323-326 | The parameters of a message are recorded iff it is an elicitation request that has some. |
| `PumpTheorems.NotificationConserves` | scripts/mcp_conformance/run_codex_compliance.py:278-317 | A wait keeps everything it consumes, returns the first match that is not a server request, and sends exactly the answers that could be written. |
| `PumpTheorems.CallConserves` | scripts/mcp_conformance/run_codex_compliance.py:242-353 | Every call splits what it consumes into what it keeps and what it returns, answers exactly the server requests whose answer could be written, and uses up one request id per request. |
| `PumpTheorems.RunConserves` | scripts/mcp_conformance/run_codex_compliance.py:242-353 | Over every sequence of calls, failed ones included, the events are the consumed stream in order with exactly the returned responses removed, and the answers sent are, in order, one with its own id for each consumed server request whose answer could be written. |
| `PumpTheorems.AnsweredIffWritable` | scripts/mcp_conformance/run_codex_compliance.py:319-353 | Over every sequence of calls a consumed server request is answered, in its place, iff the process was alive when its own answer was due. |
| `PumpTheorems.AllAnsweredIff` | scripts/mcp_conformance/run_codex_compliance.py:319-353 | Every server request among the events is answered iff the process was alive at every one of them. |
| `PumpTheorems.GoneProcessAnswersNothing` | scripts/mcp_conformance/run_codex_compliance.py:319-353 | A run in which a server request is not answered: any request that arrives when the process is gone is kept, its wait fails, and no answer is sent. |
| `PumpTheorems.WaitReturnsFirst` | scripts/mcp_conformance/run_codex_compliance.py:278-317 | A wait returns the first match among the stored events and then the arrivals that are not server requests, and fails iff there is none. |
| `PumpTheorems.WaitIsFirstOverallIff` | scripts/mcp_conformance/run_codex_compliance.py:278-317 | It is the first match overall iff that match is stored or is not a server request. |
| `PumpTheorems.ArrivingRequestIsPassedOver` | scripts/mcp_conformance/run_codex_compliance.py:278-317 | An arriving server request of the awaited name is stored and passed over, and returned when the wait is repeated. |
| `PumpTheorems.EventsOnlyGrow` | scripts/mcp_conformance/run_codex_compliance.py:242-353 | No sequence of calls drops or reorders a stored event. |
| `PumpTheorems.AskingLateMissesNothing` | scripts/mcp_conformance/run_codex_compliance.py:278-317 | Noting the event count, making any calls and then waiting from that count finds the first match kept since, even one an intervening request consumed. |
| `AnalyticsQueue.EveryScheduleKeepsInvariant` | codex-rs/analytics/src/client.rs:146-183 | Under every schedule of producers, flushers and worker: no slot is taken twice and none is free while a flush waits; accepted messages are reduced, in hand or in the channel, in acceptance order; and acknowledgements come last. |
| `AnalyticsQueue.IngestedInOrder` | codex-rs/analytics/src/client.rs:146-183 | Under every schedule the channel holds at most 256 messages and the accepted facts are, each once and in order, ingested, in hand or queued. |
| `AnalyticsQueue.FlushBarrier` | codex-rs/analytics/src/client.rs:244-265 | A flush that is acknowledged entered the channel at exactly one place, and everything that entered before it has been reduced in order and its events handed on for sending. |
| `FlushTheorems.ReducedFlushesAreAnswered` | codex-rs/analytics/src/client.rs:146-165 | Under every schedule a flush the reducer has seen is acknowledged or being answered by the worker; while the worker is idle all of them are acknowledged. |
| `FlushTheorems.FlushGetsSlot` | codex-rs/analytics/src/client.rs:244-260 | A flush call takes a free slot at once and can enter the channel with it; without a free slot it waits behind those already waiting. |
| `FlushTheorems.FirstWaitingGetsSlot` | codex-rs/analytics/src/client.rs:244-260 | The slot of the next message the worker takes goes to the flush that has waited longest. |
| `FlushTheorems.WorkerAnswersAll` | codex-rs/analytics/src/client.rs:146-165 | From every reachable state, worker steps alone lead to an empty channel where everything accepted has been reduced in order, its events handed on, and every flush that entered acknowledged. |
| `FlushTheorems.EveryFlushCompletes` | codex-rs/analytics/src/client.rs:244-265 | No flush call can be stuck: from every reachable state, worker steps and entries of calls that hold a slot acknowledge every call that holds a slot, waits for one or has entered. |
| `AnalyticsQueue.RefusedIffNoSlot` | codex-rs/analytics/src/client.rs:174-183 | In every reachable state a fact is refused, leaving the queue alone, iff each of the 256 slots holds a message or is held for a flush; while no flush holds one, iff 256 messages are queued. |
| `AnalyticsQueue.RefusedBelowTheBound` | codex-rs/analytics/src/client.rs:244-265 | A fact can be refused with 255 messages queued, when the freed slot is held for a waiting flush. |
| `UsageDedupe.EmittedKeys.ShouldEnqueueAppUsed` | codex-rs/analytics/src/client.rs:185-201 | The set of emitted keys and the answer after an app call. |
| `UsageDedupe.EmittedKeys.ShouldEnqueuePluginUsed` | codex-rs/analytics/src/client.rs:203-224 | The same for a plugin call, which may empty the set and then return without a key. |
| `UsageDedupe.SetsAreSeparate` | codex-rs/analytics/src/client.rs:185-224 | Calls of both kinds, in any order, act on each of the two sets as the calls of its own kind alone do. |
| `UsageDedupe.RunsAreAccounted` | codex-rs/analytics/src/client.rs:185-224 | In every sequence of calls on a set it holds exactly the keys accepted since it was last emptied. |
| `UsageDedupe.RefusedIffRecent` | codex-rs/analytics/src/client.rs:185-224 | A call is refused iff it has a key accepted since the set was last emptied. |
| `UsageDedupe.KeyMeaning` | codex-rs/analytics/src/client.rs:185-224 | What is remembered of a call: the turn with the connector, or with the plugin id, which goes before the remote one. |
| `UsageDedupe.RepeatIsRefused` | codex-rs/analytics/src/client.rs:185-224 | The call after a call, with a new key and room in the set, is refused iff both have the same key. |
| `UsageDedupe.EmptiedIff` | codex-rs/analytics/src/client.rs:185-211 | A set of 4096 keys is emptied by every plugin call, and by an app call iff it has a connector. |
| `UsageDedupe.AcceptedAtMost` | codex-rs/analytics/src/client.rs:185-224 | The set never exceeds 4096 keys, and with a keyed acceptances in all no key is accepted more than ceil(a / 4096) times. |
| `EventBatches.TrackEventRequestBatches` | codex-rs/analytics/src/client.rs:739-760 | The batching loop computes the greedy batches. |
| `EventBatches.BatchesAreASplit` | codex-rs/analytics/src/client.rs:739-760 | The batches hold the events in order, none is empty, and an event that must travel alone does. |
| `EventBatches.BatchesAreFewest` | codex-rs/analytics/src/client.rs:739-760 | No order-preserving split that isolates the same events has fewer batches. |
| `SpawnGraph.ListChildren` | codex-rs/state/src/runtime/threads.rs:261-281 | The direct children through a matching edge, in strictly ascending order. |
| `SpawnGraph.ClimbsNest` | codex-rs/state/src/runtime/threads.rs:123-148 | Since parents are unique, two climbs from one thread pass through each other. |
| `SpawnGraph.DepthIsUnique` | codex-rs/state/src/runtime/threads.rs:283-335 | Unless the root descends from itself every descendant has one depth. |
| `SpawnGraph.AfterInvariant` | codex-rs/state/src/runtime/threads.rs:283-335 | After any number of rows the recursive query has emitted and queued only true descendants at their depths, and expanded everything emitted. |
| `SpawnGraph.EmptyQueueIsComplete` | codex-rs/state/src/runtime/threads.rs:283-335 | When nothing is queued every descendant has been emitted. |
| `SpawnListing.QueryEndsIff` | codex-rs/state/src/runtime/threads.rs:283-335 | The recursive query ends iff the root is not its own matching descendant. |
| `SpawnListing.SelfEdgeNeverEnds` | codex-rs/state/src/runtime/threads.rs:123-147 | On a store that records a thread as its own parent the query from it does not end. |
| `SpawnListing.EndsWithoutCycle` | codex-rs/state/src/runtime/threads.rs:283-335 | It then ends within as many rows as there are edges. |
| `SpawnListing.EndedIsListing` | codex-rs/state/src/runtime/threads.rs:283-335 | Ordering the emitted rows gives the listing: exactly the descendants, strictly ordered by depth and id. |
| `SpawnListing.ListingIsUnique` | codex-rs/agent-graph-store/src/store.rs:49-59 | There is one listing. |
| `SpawnListing.ListedOnce` | codex-rs/agent-graph-store/src/store.rs:49-59 | The listed ids are exactly the threads reachable through edges that all match, each once. |
| `SpawnListing.AgentGraphStore.UpsertEdge` | codex-rs/state/src/runtime/threads.rs:123-148 | Upserting replaces the child's parent and status and no other edge. |
| `SpawnListing.AgentGraphStore.SetEdgeStatus` | codex-rs/state/src/runtime/threads.rs:150-161 | Setting a status changes that edge's status alone, and nothing for an unknown child. |
| `SpawnLaws.UpsertMeaning` | codex-rs/state/src/runtime/threads.rs:123-148 | After an upsert the child is a child of its new parent alone, under a filter iff that matches the new status; every other child relation is as before. |
| `SpawnLaws.StatusMeaning` | codex-rs/state/src/runtime/threads.rs:150-161 | After setting a status, to open or closed, the thread is listed under its parent iff the filter matches that status; every other child relation is as before. |
| `SpawnLaws.LastStatusWins` | codex-rs/state/src/runtime/threads.rs:150-161 | The last status set counts, so reopening undoes closing; an unknown child changes nothing. |
| `SpawnLaws.UpsertMovesSubtree` | codex-rs/state/src/runtime/threads.rs:123-148 | For every root, filter and thread, cycles included: after an upsert a thread descends from the root iff it did without the child's old edge, or it is the child or below it, the new edge matches, and the new parent is the root or below it. |
| `SpawnListing.AgentGraphStore.ListDescendants` | codex-rs/agent-graph-store/src/local.rs:87-109 | The query loop returns the ids of the listing, for any filter. |
| `SpawnLaws.ClosingMeaning` | codex-rs/agent-graph-store/src/local.rs:247-343 | After closing an edge a thread is open-reachable iff it was and its path avoids that edge. |
| `SpawnLaws.ClosingCutsSubtree` | codex-rs/agent-graph-store/src/local.rs:247-343 | Closing one edge removes exactly the subtree under it from the open listing and keeps the order of the rest. |
| `SpawnLaws.StatusIsIgnored` | codex-rs/agent-graph-store/src/store.rs:49-59 | Without a filter statuses do not matter. |
| `SpawnLaws.UpsertKeepsAcyclic` | codex-rs/state/src/runtime/threads.rs:123-148 | An upsert keeps an acyclic graph acyclic iff the child is neither the parent nor above it. |
| `SpawnLaws.AcyclicListingsEnd` | codex-rs/state/src/runtime/threads.rs:283-335 | On an acyclic graph every listing ends, whatever root and filter. |
| `ReleaseVersion.ParseIff` | sdk/python/release_version.py:68-82 | The reading from the end accepts exactly the normalized version pattern. |
| `ReleaseVersion.ParseSound` | sdk/python/release_version.py:68-82 | What is read prints back as the string. |
| `ReleaseVersion.ParseComplete` | sdk/python/release_version.py:68-82 | Every valid version reads back as itself, so the pattern is unambiguous. |
| `VersionTheorems.NormalizeIdempotent` | sdk/python/release_version.py:68-82 | Normalizing twice is normalizing once, for every accepted string. |
| `VersionTheorems.TagRoundTrip` | sdk/python/release_version.py:45-82 | Exactly the accepted versions have a tag, and it normalizes to what the version normalizes to. |
| `VersionTheorems.StableTag` | sdk/python/release_version.py:45-65 | The tag of a plain release is its dotted numbers behind `rust-v`. |
| `VersionTheorems.AlphaTag` | sdk/python/release_version.py:59-65 | The tag of an alpha spells `-alpha.` and its number. |
| `VersionTheorems.BetaTag` | sdk/python/release_version.py:59-65 | The tag of a beta spells `-beta.` and its number. |
| `VersionTheorems.CandidateTag` | sdk/python/release_version.py:59-65 | The tag of a release candidate spells `-rc.` and its number. |
| `VersionTheorems.HotfixTag` | sdk/python/release_version.py:51-57 | The tag of an alpha post-release spells `-alpha.`, the alpha and the hotfix number. |
| `VersionTheorems.OtherTagSpelling` | sdk/python/release_version.py:59-61 | Post-releases of anything but an alpha keep their own spelling. |
| `VersionTheorems.SameTagIff` | sdk/python/release_version.py:45-82 | Any two strings share a tag iff they normalize equally. |
| `VersionTheorems.RuntimeRecovered` | sdk/python/release_version.py:35-47 | Every runtime version is resolved and recovered exactly from its tag. |
| `VersionTheorems.OnlyRuntimeVersionsResolve` | sdk/python/release_version.py:35-43 | A string is resolved iff it prints a valid runtime version. |
| `VersionTheorems.RuntimeVersionsSpelled` | sdk/python/release_version.py:9-42 | Spelled out: three numbers, optionally an alpha, optionally its post-release, and nothing else. |
| `VersionTheorems.SpellingsAgree` | sdk/python/release_version.py:68-82 | With or without a prefix and a dot, a pre-release normalizes to one spelling. |
| `VersionTheorems.HotfixSpellingsAgree` | sdk/python/release_version.py:68-75 | So does an alpha hotfix, with or without the prefix and the dot. |
| `VersionTheorems.SpaceIsIgnored` | sdk/python/release_version.py:68-69 | White space around a version is ignored. |
| `DiffCount.AcceptedLineCounts` | codex-rs/analytics/src/accepted_lines.rs:27-61 | The line loop computes the counts of the text. |
| `DiffCount.CountIsTrueTotalPlusSurplus` | codex-rs/analytics/src/accepted_lines.rs:27-61 | For every structured diff, with or without git headers and whatever its lines contain, counting the printed text gives the true total plus exactly the file headers of the sections that follow a hunk without a git header. |
| `DiffCount.CountIsExactIff` | codex-rs/analytics/src/accepted_lines.rs:27-61 | Counting is exact iff no section hides its file headers in the hunk before it. |
| `DiffCount.CountIsExact` | codex-rs/analytics/src/accepted_lines.rs:27-61 | In particular for every diff whose sections all have their git header. |
| `DiffCount.PlainFilesOvercount` | codex-rs/analytics/src/accepted_lines.rs:27-61 | Any two one-line changes in a plain unified diff are counted as three lines of either kind instead of two. |
| `DiffCount.CountOfJoin` | codex-rs/analytics/src/accepted_lines.rs:27-61 | Counting any two texts that meet at a line end gives the sum plus exactly the second text's leading file headers if the first ends inside a hunk. |
| `DiffCount.CountAddsIff` | codex-rs/analytics/src/accepted_lines.rs:27-61 | Counts add up iff the first text does not end inside a hunk or the second has no file header before its first hunk or git header. |
| `DiffCount.CountAdds` | codex-rs/analytics/src/accepted_lines.rs:27-61 | In particular over texts that meet at a line end and a git header. |
| `DiffCount.HeaderInHunkIsCounted` | codex-rs/analytics/src/accepted_lines.rs:27-61 | Texts at which counts do not add up: any hunk header line followed by any old-file header line. |
| `HostPath.JoinLaw` | codex-rs/app-server-client/src/path.rs:13-58 | For every accepted path and segment, joining keeps the platform and appends exactly the segment iff the path is `/` or has a component. |
| `HostPath.BareRootLosesPlatform` | codex-rs/app-server-client/src/path.rs:33-58 | Joining any segment to a bare `//` or `\\` gives a path that is no longer a Windows path. |
| `HostPath.JoinAllLaw` | codex-rs/app-server-client/src/path.rs:21-42 | The same for every list of segments: the result is accepted, of the same platform, and has exactly the added components. |
| `HostPath.JoinKeepsPlatform` | codex-rs/app-server-client/src/path.rs:33-58 | Joining keeps the platform iff the path is not a bare Windows root. |
| `LintArgs.ParseWrapperArgs` | tools/argument-comment-lint/wrapper_common.py:55-104 | The parse loop computes the parsed arguments, dangling and swallowed values included. |
| `LintArgs.BuildFinalArgs` | tools/argument-comment-lint/wrapper_common.py:107-122 | The appends build defaults, lint arguments, separator and cargo arguments. |
| `LintTheorems.ParseNormalized` | tools/argument-comment-lint/wrapper_common.py:55-122 | Parsing the rebuilt arguments finds the user's lint arguments after the defaults and the cargo arguments before the default targets, all in order. |
| `LintTheorems.FlagsMeaning` | tools/argument-comment-lint/wrapper_common.py:55-104 | Which arguments count, by their places: a flag is set iff it stands there and is not the value of the one before, or a value follows it. |
| `LintTheorems.NormalizedSpelled` | tools/argument-comment-lint/wrapper_common.py:55-122 | The whole rebuilt command line in terms of the arguments given: which defaults go in front, and when all targets are selected. |
| `LintTheorems.TargetsMeaning` | tools/argument-comment-lint/wrapper_common.py:23-33 | Every target selection counts, on its own or with a value. |
| `LintTheorems.FixpointIff` | tools/argument-comment-lint/wrapper_common.py:55-122 | Rebuilding the rebuilt arguments returns them unchanged iff the default manifest is not `--` or the user gave a manifest. |
| `LintTheorems.SeparatorManifestGrows` | tools/argument-comment-lint/wrapper_common.py:107-122 | In the excluded case every further pass makes the arguments longer. |
| `UpdateLoop.ReexecutesIff` | codex-rs/app-server-daemon/src/lib.rs:821-827 | An attempt replaces the updater's image iff the executables differ, a server was running and the exec succeeds. |
| `UpdateLoop.AttemptMeaning` | codex-rs/app-server-daemon/src/lib.rs:363-406 | The outcome of an attempt, both ways: with the updater's own executable installed a server is left alone iff it reports no version or the installed one, otherwise it is restarted. |
| `UpdateLoop.AttemptsFollowInstall` | codex-rs/app-server-daemon/src/update_loop.rs:97-131 | In every schedule, an attempt or a retry is preceded by an install of the executable it is for, with nothing but attempts since. |
| `UpdateLoop.AfterAttempt` | codex-rs/app-server-daemon/src/update_loop.rs:113-131 | After an attempt the loop waits to retry it iff it met a lock; otherwise the next thing it does is another install. |
| `UpdateLoop.EveryScheduleAccounts` | codex-rs/app-server-daemon/src/update_loop.rs:60-131 | Over every schedule, across replaced images: a signal is consumed only by the step that makes the loop return, the loop returns only so, and a signal that arrived in the current image is pending until then. |
| `UpdateLoop.SignalIsKeptIff` | codex-rs/app-server-daemon/src/update_loop.rs:60-131 | Over every schedule an arrived signal stays pending until the loop returns iff no attempt replaces the image while it is pending. |
| `UpdateLoop.SameExecutableIsUndisturbed` | codex-rs/app-server-daemon/src/update_loop.rs:141-153 | In particular whenever nothing but the running executable is installed. |
| `UpdateLoop.PendingSignalHoldsIff` | codex-rs/app-server-daemon/src/update_loop.rs:102-131 | From every state with a pending signal, whatever follows: the signal is never forgotten, and no attempt is made beyond the one in progress, iff the updater is not in the middle of restarting another executable. |
| `UpdateLoop.NoRestartAfterSignalIff` | codex-rs/app-server-daemon/src/update_loop.rs:102-131 | When a signal arrives, at most the attempt in progress is made, whatever follows, iff that attempt does not restart another executable. |
| `UpdateLoop.NextCheckReturnsIff` | codex-rs/app-server-daemon/src/update_loop.rs:114-117 | The next poll makes the loop return iff a signal arrived in the current image; on a schedule that loses none, iff any arrived. |
| `UpdateLoop.SignalIsLost` | codex-rs/app-server-daemon/src/update_loop.rs:156-166 | A schedule that loses a signal: it arrives while a server is restarted from a new executable, the image is replaced, and the new one restarts again without returning. |
| `UpdateLoop.UpdaterProcess.SleepOrTerminate` | codex-rs/app-server-daemon/src/update_loop.rs:88-93 | A wait ends by its timer or by consuming the signal, and the machine follows. |
| `UpdateLoop.UpdaterProcess.TryRestart` | codex-rs/app-server-daemon/src/lib.rs:363-406 | An attempt has the outcome of its mode, and either leads to the retry or interval wait or starts a new image that holds nothing of the old one. |
| `UpdateLoop.UpdaterProcess.UpdateOnce` | codex-rs/app-server-daemon/src/update_loop.rs:102-131 | The retry loop ends in the interval wait, in a new image or by consuming a signal, as the machine does. |
| `UpdateLoop.UpdaterProcess.RunImages` | codex-rs/app-server-daemon/src/update_loop.rs:60-80 | On every script of outside events the nested loops, image after image, return iff the machine does, after exactly the machine's restart attempts. |

## Left out

- The scenario catalog, `scenarios_for_mode` and its requested subsets: the expected scenarios per mode are a parameter of the gate.
- `_cimd_registration_checks`, adapter reports and runner processes: their results are inputs of the assembled case.
- Files, processes, sockets, threads, wall-clock timeouts and printed reports around all of the modelled code: their outcomes are inputs or schedules.
- The wording of error messages: a problem is a constructor, so lists keep their entries and order only.
- Unhashable or oddly typed JSON values that would raise an exception instead of an entry in an error list.
- NumberedNamesAreStable: decimal digits are those of Unicode 15.0; the source's depend on the interpreter's Unicode version.
- The modern protocol mode, header validation, origin checks, and the tool, resource and prompt handlers: what is served after the handshake is a function parameter, and pagination fixtures are fixed lists.
- ResponsesCarryTheId: requires that the handlers behind the handshake, which are a parameter, answer under the id they are given.
- ObjectsAreIndependent: handling one message is one atomic step, as the handshake flags are the only shared state; finer interleavings inside one handling are not modelled.
- ListDescendants: requires that the root is not its own matching descendant, since the query does not end otherwise; `QueryEndsIff` states that both ways.
- Thread deletion, path-based thread lookups and `insert_thread_spawn_edge_if_absent`: easy members over the same edge map.
- FlushBarrier: the reducer is an uninterpreted function, and a closed channel, the worker's end, the sender, authentication filtering and the queue's capture file are not modelled.
- Sharing of the two key sets between threads: a call holds the lock throughout, so calls are a sequence.
- CountAddsIff: is about texts that meet at a line end; otherwise the last line of the first and the first line of the second become one.
- RunImages: installing, restarting and waiting are events of a script; a new image starts with its signal handler in place, so a signal that kills it before that and a failure to read its own identity are not modelled.
- Agent identities and their cryptography, OAuth and URL handling, redaction, table-of-contents generation, packaging and user interfaces.
