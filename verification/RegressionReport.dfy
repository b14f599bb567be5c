/**
  Conformance reports and their reading.

  A report is JSON.  The reader only ever asks whether a field has the type it
  expects, so every field is `Typed`: `Is(v)` when it has that type, `Wrong` for
  any other value and for an absent key (both read as "not that type").
  Closed vocabularies (protocol versions, sources, statuses) are datatypes; a
  string outside the vocabulary is `Wrong`.
 */
module RegressionReport {
  import opened Common
  import opened Ordering

  // A field that may be null, must otherwise be text.
  datatype Nullable = Null | NotText | Text(text: string)

  datatype Mode = Shipping | Legacy | Modern
  datatype Transport = Stdio | OfficialHttp | OtherTransport(name: string)
  datatype Source = Harness | Official | Supplemental
  datatype Status = PASS | FAIL | SKIP

  datatype Identity = Identity(mode: Mode, transport: Transport, source: Source, scenario: string, checkId: string)

  datatype RawCheck = RawCheck(
    source: Typed<Source>, scenario: Nullable, name: Typed<string>, checkId: Nullable,
    status: Typed<Status>, success: Typed<bool>)
  datatype RawCase = RawCase(mode: Typed<Mode>, transport: Typed<Transport>, checks: Typed<seq<Typed<RawCheck>>>)
  datatype RawIdentity = RawIdentity(
    mode: Typed<Mode>, transport: Typed<Transport>, source: Typed<Source>,
    scenario: Typed<string>, checkId: Typed<string>)
  datatype Buckets = Buckets(passing: Typed<seq<Typed<RawIdentity>>>, failing: Typed<seq<Typed<RawIdentity>>>)
  datatype OfficialMetadata = OfficialMetadata(
    repository: Typed<string>, gitRef: Typed<string>, authenticationIncluded: Typed<bool>,
    scenarios: Typed<map<Mode, Typed<seq<string>>>>)
  datatype BaselineKind = Full | CompactV1 | OtherKind

  datatype Report = Report(
    schemaVersion: Typed<int>,
    versionCheck: Typed<Typed<bool>>,
    modernFeatureEnablement: Typed<bool>,
    automaticAuthRequired: Typed<bool>,
    official: Typed<OfficialMetadata>,
    baselineKind: BaselineKind,
    requiredModes: Typed<seq<Mode>>,
    transports: Typed<seq<Transport>>,
    compactChecks: Typed<Buckets>,
    cases: Typed<seq<Typed<RawCase>>>)

  // The pinned scenario catalog (authentication included), per protocol version.
  datatype Catalog = Catalog(shipping: seq<string>, legacy: seq<string>, modern: seq<string>) {
    function Expected(mode: Mode): seq<string> {
      match mode
      case Shipping => shipping
      case Legacy => legacy
      case Modern => modern
    }
  }

  const REPORT_SCHEMA_VERSION := 4
  const OFFICIAL_REPOSITORY := "modelcontextprotocol/conformance"
  const OFFICIAL_GIT_REF := "49103de6ed70804e940637bf3e9e29e4a3f54e64"
  const MODES: seq<Mode> := [Shipping, Legacy, Modern]
  const TRANSPORTS: seq<Transport> := [Stdio, OfficialHttp]

  datatype Problem =
    | WrongSchema | NoVersionCheck | ModernDisabled
    | NoOfficialMetadata | OtherRepository | OtherRevision | AuthExcluded | NoCatalog
    | UnsupportedBaseline | WrongRequiredModes | WrongTransports | NoCompactChecks
    | NoBucket(bucket: Status) | MalformedIdentity(bucket: Status) | DuplicateIdentity(bucket: Status)
    | IncompleteCatalog(mode: Mode)
    | MissingCase(mode: Mode, transport: Transport)
    | ScenariosNotObserved(mode: Mode, names: seq<string>)
    | ScenariosUnexpected(mode: Mode, names: seq<string>)
    | NoCases | MalformedCase | MalformedRequiredCase
    | DuplicateCase(mode: Mode, transport: Transport)
    | NoChecks(mode: Mode, transport: Transport)
    | MalformedCheck(mode: Mode, transport: Transport)

  // ---------------------------------------------------------------- identities

  type Statuses = map<Identity, set<Status>>

  function StatusesOf(m: Statuses, id: Identity): set<Status> {
    if id in m then m[id] else {}
  }

  function Record(m: Statuses, id: Identity, s: Status): Statuses {
    m[id := StatusesOf(m, id) + {s}]
  }

  function LastHash(name: string): (k: int)
    ensures -1 <= k < |name|
    ensures k >= 0 ==> name[k] == '#'
    ensures forall j :: k < j < |name| ==> name[j] != '#'
  {
    if name == [] then -1
    else if name[|name| - 1] == '#' then |name| - 1
    else LastHash(name[..|name| - 1])
  }

  // The zeros of the decimal digits of Unicode 15.0 beyond ASCII; the nine others follow each.
  const OTHER_ZEROS: seq<int> :=
    [0x660, 0x6F0, 0x7C0, 0x966, 0x9E6, 0xA66, 0xAE6, 0xB66, 0xBE6, 0xC66,
     0xCE6, 0xD66, 0xDE6, 0xE50, 0xED0, 0xF20, 0x1040, 0x1090, 0x17E0, 0x1810,
     0x1946, 0x19D0, 0x1A80, 0x1A90, 0x1B50, 0x1BB0, 0x1C40, 0x1C50, 0xA620, 0xA8D0,
     0xA900, 0xA9D0, 0xA9F0, 0xAA50, 0xABF0, 0xFF10, 0x104A0, 0x10D30, 0x11066, 0x110F0,
     0x11136, 0x111D0, 0x112F0, 0x11450, 0x114D0, 0x11650, 0x116C0, 0x11730, 0x118E0, 0x11950,
     0x11C50, 0x11D50, 0x11DA0, 0x11F50, 0x16A60, 0x16AC0, 0x16B50, 0x1D7CE, 0x1D7D8, 0x1D7E2,
     0x1D7EC, 0x1D7F6, 0x1E140, 0x1E2F0, 0x1E4F0, 0x1E950, 0x1FBF0]

  predicate IsOtherDecimal(n: int) { exists i :: 0 <= i < |OTHER_ZEROS| && OTHER_ZEROS[i] <= n < OTHER_ZEROS[i] + 10 }

  predicate IsDecimalDigit(c: char) { '0' <= c <= '9' || (c as int >= 0x660 && IsOtherDecimal(c as int)) }

  predicate IsDecimal(s: string) {
    s != [] && forall i :: 0 <= i < |s| ==> IsDecimalDigit(s[i])
  }

  // Drop the arrival number `#n` that the runner appends to repeated names.
  function StableName(name: string): string {
    var k := LastHash(name);
    if k > 0 && IsDecimal(name[k + 1..]) then name[..k] else name
  }

  // Numbering repeated observations of one check never splits its identity.
  lemma NumberedNamesAreStable(stem: string, number: string)
    requires stem != [] && IsDecimal(number)
    ensures StableName(stem + "#" + number) == stem
  {
    var name := stem + "#" + number;
    var k := LastHash(name);
    assert name[|stem|] == '#';
    forall j | |stem| < j < |name| ensures name[j] != '#' {
      assert name[j] == number[j - |stem| - 1];
    }
    assert k == |stem|;
    assert name[k + 1..] == number && name[..k] == stem;
  }

  function CheckIdentity(mode: Mode, transport: Transport, c: RawCheck): Option<Identity> {
    if c.source.Wrong? then None
    else if c.name.Wrong? || c.name.value == [] then None
    else if c.scenario.NotText? || (c.scenario.Text? && c.scenario.text == []) then None
    else if c.checkId.NotText? || (c.checkId.Text? && c.checkId.text == []) then None
    else Some(Identity(mode, transport, c.source.value,
                       if c.scenario.Text? then c.scenario.text else "",
                       if c.checkId.Text? then c.checkId.text else StableName(c.name.value)))
  }

  // What one entry of a case's check list says, or None when it is malformed.
  function ReadCheck(mode: Mode, transport: Transport, c: Typed<RawCheck>): Option<(Identity, Status)> {
    if c.Wrong? then None
    else
      var id := CheckIdentity(mode, transport, c.value);
      if id.None? || c.value.status.Wrong? || c.value.success.Wrong? ||
         c.value.success.value != (c.value.status.value != FAIL)
      then None
      else Some((id.value, c.value.status.value))
  }

  function ReadIdentity(r: Typed<RawIdentity>): Option<Identity> {
    if r.Wrong? || r.value.mode.Wrong? || r.value.transport.Wrong? || r.value.transport.value !in TRANSPORTS ||
       r.value.source.Wrong? || r.value.scenario.Wrong? || r.value.checkId.Wrong? || r.value.checkId.value == []
    then None
    else Some(Identity(r.value.mode.value, r.value.transport.value, r.value.source.value,
                       r.value.scenario.value, r.value.checkId.value))
  }

  function AsRecord(id: Identity): Typed<RawIdentity> {
    Is(RawIdentity(Is(id.mode), Is(id.transport), Is(id.source), Is(id.scenario), Is(id.checkId)))
  }

  // ------------------------------------------------ specification of the reader

  function HeaderProblems(r: Report): seq<Problem> {
    (if r.schemaVersion != Is(REPORT_SCHEMA_VERSION) then [WrongSchema] else []) +
    (if r.versionCheck != Is(Is(true)) then [NoVersionCheck] else []) +
    (if r.modernFeatureEnablement != Is(true) then [ModernDisabled] else []) +
    (if r.official.Wrong? then [NoOfficialMetadata] else
       (if r.official.value.repository != Is(OFFICIAL_REPOSITORY) then [OtherRepository] else []) +
       (if r.official.value.gitRef != Is(OFFICIAL_GIT_REF) then [OtherRevision] else []) +
       (if r.official.value.authenticationIncluded != Is(true) then [AuthExcluded] else []) +
       (if r.official.value.scenarios.Wrong? then [NoCatalog] else []))
  }

  function Selected(r: Report, mode: Mode): Typed<seq<string>> {
    if r.official.Is? && r.official.value.scenarios.Is? && mode in r.official.value.scenarios.value
    then r.official.value.scenarios.value[mode] else Wrong
  }

  function CatalogProblems(r: Report, catalog: Catalog, mode: Mode): seq<Problem> {
    if Selected(r, mode) == Is(catalog.Expected(mode)) then [] else [IncompleteCatalog(mode)]
  }

  function ToSet(s: seq<string>): set<string> { set x | x in s }

  function SortedNames(s: set<string>): (r: seq<string>)
    ensures r == [] <==> s == {}
  {
    StringLessIsOrder();
    Sorted(s, StringLess)
  }

  function ScenarioProblems(mode: Mode, expected: set<string>, observed: set<string>): seq<Problem> {
    var missing := SortedNames(expected - observed);
    var unexpected := SortedNames(observed - expected);
    (if missing != [] then [ScenariosNotObserved(mode, missing)] else []) +
    (if unexpected != [] then [ScenariosUnexpected(mode, unexpected)] else [])
  }

  // Full reports: the first case of each (mode, transport) counts.
  type CaseTable = map<(Mode, Transport), RawCase>

  predicate IsRequiredCase(c: Typed<RawCase>) {
    c.Is? && c.value.mode.Is? && c.value.transport.Is?
  }

  function CaseKey(c: RawCase): (Mode, Transport)
    requires c.mode.Is? && c.transport.Is?
  {
    (c.mode.value, c.transport.value)
  }

  function Table(cases: seq<Typed<RawCase>>): CaseTable {
    if cases == [] then map[] else
      var t := Table(cases[..|cases| - 1]);
      var c := cases[|cases| - 1];
      if IsRequiredCase(c) && CaseKey(c.value) !in t then t[CaseKey(c.value) := c.value] else t
  }

  function CaseProblems(cases: seq<Typed<RawCase>>): seq<Problem> {
    if cases == [] then [] else
      var c := cases[|cases| - 1];
      CaseProblems(cases[..|cases| - 1]) +
      if c.Wrong? then [MalformedCase]
      else if c.value.mode.Wrong? then []
      else if c.value.transport.Wrong? then [MalformedRequiredCase]
      else if CaseKey(c.value) in Table(cases[..|cases| - 1])
           then [DuplicateCase(c.value.mode.value, c.value.transport.value)]
      else []
  }

  function CasesOf(r: Report): seq<Typed<RawCase>> {
    if r.cases.Is? then r.cases.value else []
  }

  function ReadChecks(acc: Statuses, mode: Mode, transport: Transport, checks: seq<Typed<RawCheck>>): Statuses {
    if checks == [] then acc else
      var m := ReadChecks(acc, mode, transport, checks[..|checks| - 1]);
      match ReadCheck(mode, transport, checks[|checks| - 1])
      case None => m
      case Some((id, s)) => Record(m, id, s)
  }

  function CheckProblems(mode: Mode, transport: Transport, checks: seq<Typed<RawCheck>>): seq<Problem> {
    if checks == [] then [] else
      CheckProblems(mode, transport, checks[..|checks| - 1]) +
      if ReadCheck(mode, transport, checks[|checks| - 1]).None? then [MalformedCheck(mode, transport)] else []
  }

  predicate NamesScenario(id: Identity) {
    id.transport == OfficialHttp && id.source in {Official, Harness}
  }

  function ObservedScenarios(mode: Mode, transport: Transport, checks: seq<Typed<RawCheck>>): set<string> {
    set i | 0 <= i < |checks| && ReadCheck(mode, transport, checks[i]).Some? &&
            NamesScenario(ReadCheck(mode, transport, checks[i]).value.0)
          :: ReadCheck(mode, transport, checks[i]).value.0.scenario
  }

  // The checks of a required slot, empty when the case is absent or unusable.
  function SlotChecks(t: CaseTable, mode: Mode, transport: Transport): seq<Typed<RawCheck>> {
    if (mode, transport) in t && t[(mode, transport)].checks.Is? then t[(mode, transport)].checks.value else []
  }

  function SlotProblems(catalog: Catalog, t: CaseTable, mode: Mode, transport: Transport): seq<Problem> {
    var checks := SlotChecks(t, mode, transport);
    if (mode, transport) !in t then [MissingCase(mode, transport)]
    else if checks == [] then [NoChecks(mode, transport)]
    else
      CheckProblems(mode, transport, checks) +
      if transport == OfficialHttp
      then ScenarioProblems(mode, ToSet(catalog.Expected(mode)), ObservedScenarios(mode, transport, checks))
      else []
  }

  function ModeStatuses(acc: Statuses, t: CaseTable, mode: Mode): Statuses {
    ReadChecks(ReadChecks(acc, mode, Stdio, SlotChecks(t, mode, Stdio)), mode, OfficialHttp,
               SlotChecks(t, mode, OfficialHttp))
  }

  function ModesStatuses(t: CaseTable, modes: seq<Mode>): Statuses {
    if modes == [] then map[]
    else ModeStatuses(ModesStatuses(t, modes[..|modes| - 1]), t, modes[|modes| - 1])
  }

  function ModeProblems(r: Report, catalog: Catalog, t: CaseTable, mode: Mode): seq<Problem> {
    CatalogProblems(r, catalog, mode) + SlotProblems(catalog, t, mode, Stdio) +
      SlotProblems(catalog, t, mode, OfficialHttp)
  }

  function ForModes(modes: seq<Mode>, f: Mode -> seq<Problem>): seq<Problem> {
    if modes == [] then [] else ForModes(modes[..|modes| - 1], f) + f(modes[|modes| - 1])
  }

  function FullModes(r: Report, catalog: Catalog, t: CaseTable): Mode -> seq<Problem> {
    mode => ModeProblems(r, catalog, t, mode)
  }

  function FullProblems(r: Report, catalog: Catalog): seq<Problem> {
    HeaderProblems(r) + (if r.cases.Wrong? then [NoCases] else []) + CaseProblems(CasesOf(r)) +
    ForModes(MODES, FullModes(r, catalog, Table(CasesOf(r))))
  }

  // Compact baselines: two lists of identities.
  function ReadRecords(acc: Statuses, s: Status, records: seq<Typed<RawIdentity>>): Statuses {
    if records == [] then acc else
      var m := ReadRecords(acc, s, records[..|records| - 1]);
      match ReadIdentity(records[|records| - 1])
      case None => m
      case Some(id) => Record(m, id, s)
  }

  function Seen(records: seq<Typed<RawIdentity>>): set<Identity> {
    set i | 0 <= i < |records| && ReadIdentity(records[i]).Some? :: ReadIdentity(records[i]).value
  }

  function RecordProblems(s: Status, records: seq<Typed<RawIdentity>>): seq<Problem> {
    if records == [] then [] else
      var id := ReadIdentity(records[|records| - 1]);
      RecordProblems(s, records[..|records| - 1]) +
      if id.None? then [MalformedIdentity(s)]
      else if id.value in Seen(records[..|records| - 1]) then [DuplicateIdentity(s)]
      else []
  }

  function BucketStatuses(acc: Statuses, s: Status, records: Typed<seq<Typed<RawIdentity>>>): Statuses {
    if records.Wrong? then acc else ReadRecords(acc, s, records.value)
  }

  function BucketProblems(s: Status, records: Typed<seq<Typed<RawIdentity>>>): seq<Problem> {
    if records.Wrong? then [NoBucket(s)] else RecordProblems(s, records.value)
  }

  predicate HasCase(ids: set<Identity>, mode: Mode, transport: Transport) {
    exists id :: id in ids && id.mode == mode && id.transport == transport
  }

  function CompactScenarios(ids: set<Identity>, mode: Mode): set<string> {
    set id | id in ids && id.mode == mode && NamesScenario(id) :: id.scenario
  }

  function CompactModeProblems(r: Report, catalog: Catalog, ids: set<Identity>, mode: Mode): seq<Problem> {
    CatalogProblems(r, catalog, mode) +
    (if HasCase(ids, mode, Stdio) then [] else [MissingCase(mode, Stdio)]) +
    (if HasCase(ids, mode, OfficialHttp) then [] else [MissingCase(mode, OfficialHttp)]) +
    ScenarioProblems(mode, ToSet(catalog.Expected(mode)), CompactScenarios(ids, mode))
  }

  function CompactModes(r: Report, catalog: Catalog, ids: set<Identity>): Mode -> seq<Problem> {
    mode => CompactModeProblems(r, catalog, ids, mode)
  }

  predicate BothTransports(ts: Typed<seq<Transport>>) {
    ts.Is? && |ts.value| == 2 && (set t | t in ts.value) == {Stdio, OfficialHttp}
  }

  function CompactStatuses(r: Report): Statuses {
    if r.compactChecks.Wrong? then map[]
    else BucketStatuses(BucketStatuses(map[], PASS, r.compactChecks.value.passing), FAIL, r.compactChecks.value.failing)
  }

  function CompactPreamble(r: Report): seq<Problem> {
    HeaderProblems(r) +
    (if r.requiredModes == Is(MODES) then [] else [WrongRequiredModes]) +
    (if BothTransports(r.transports) then [] else [WrongTransports])
  }

  function CompactBody(r: Report, catalog: Catalog, buckets: Buckets): seq<Problem> {
    BucketProblems(PASS, buckets.passing) + BucketProblems(FAIL, buckets.failing) +
    ForModes(MODES, CompactModes(r, catalog, CompactStatuses(r).Keys))
  }

  function CompactProblems(r: Report, catalog: Catalog): seq<Problem> {
    CompactPreamble(r) +
    if r.compactChecks.Wrong? then [NoCompactChecks] else CompactBody(r, catalog, r.compactChecks.value)
  }

  // The identity-to-statuses map a report stands for, and everything wrong with it.
  function ReportStatuses(r: Report): Statuses {
    match r.baselineKind
    case Full => ModesStatuses(Table(CasesOf(r)), MODES)
    case CompactV1 => CompactStatuses(r)
    case OtherKind => map[]
  }

  function ReportProblems(r: Report, catalog: Catalog): seq<Problem> {
    match r.baselineKind
    case Full => FullProblems(r, catalog)
    case CompactV1 => CompactProblems(r, catalog)
    case OtherKind => HeaderProblems(r) + [UnsupportedBaseline]
  }
}
