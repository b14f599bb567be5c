/**
  The updater loop and its latched termination signal, across the images that replace one
  another when the updater re-executes itself.  Installing, restarting and the passing of
  time are inputs; when both the timer and the signal are ready, the wait may pick either.
 */
module UpdateLoop {
  import opened Common

  // The digest that tells one executable from another.
  type Identity = string

  // ------------------------------------------------------------ one restart attempt

  datatype RestartMode = IfVersionChanged | Always
  datatype RefreshMode = KeepImage | ReexecIfManagedBinaryChanged

  function UpdateModes(running: Identity, managed: Identity): (RestartMode, RefreshMode) {
    if running == managed then (IfVersionChanged, KeepImage) else (Always, ReexecIfManagedBinaryChanged)
  }

  // What an attempt meets: another operation holding the lock, a failure on the way, no
  // managed server, or a running one that reports its version or does not answer.
  datatype Attempt =
    | Locked
    | Broken
    | NoServer
    | Server(reported: Option<string>, managedVersion: string)

  datatype RestartOutcome = Busy | NotReady | AlreadyCurrent | NotRunning | Restarted | Failed

  function OutcomeOf(mode: RestartMode, a: Attempt): RestartOutcome {
    match a
    case Locked => Busy
    case Broken => Failed
    case NoServer => NotRunning
    case Server(reported, managedVersion) =>
      if mode == IfVersionChanged && reported.None? then NotReady
      else if mode == IfVersionChanged && reported.value == managedVersion then AlreadyCurrent
      else Restarted
  }

  predicate ShouldReexec(refresh: RefreshMode, outcome: RestartOutcome) {
    refresh == ReexecIfManagedBinaryChanged && outcome == Restarted
  }

  // ------------------------------------------------------------ the machine

  datatype Place =
    | InitialWait | Installing | Checking | Restarting | RetryWait | IntervalWait
    | Returned

  // `arrived` counts the signals delivered, `arrivedHere` those delivered to the current
  // image; a signal that is already pending absorbs the next.
  datatype Updater = Updater(
    place: Place, running: Identity, managed: Identity, pending: bool, arrived: nat, arrivedHere: nat, consumed: nat)

  function Started(running: Identity): Updater { Updater(InitialWait, running, running, false, 0, 0, 0) }

  datatype Step =
    | Arrive                                    // the process receives SIGTERM
    | TimerFires                                // the wait picks the timer
    | SignalTaken                               // the wait picks the signal
    | Installed(managed: Option<Identity>)      // the installed executable, unless something failed
    | Check                                     // the signal is polled before a restart attempt
    | Restart(attempt: Attempt, image: Option<Identity>)  // an attempt, and the image an exec would start

  predicate Waits(p: Place) { p.InitialWait? || p.RetryWait? || p.IntervalWait? }

  predicate Ready(place: Place, pending: bool, step: Step) {
    match step
    case Arrive => true
    case TimerFires => Waits(place)
    case SignalTaken => Waits(place) && pending
    case Installed(_) => place == Installing
    case Check => place == Checking
    case Restart(_, _) => place == Restarting
  }

  predicate Enabled(u: Updater, step: Step) { Ready(u.place, u.pending, step) }

  function Stop(u: Updater): Updater { u.(place := Returned, pending := false, consumed := u.consumed + 1) }

  // The exec replaces the image and everything it had latched.
  function Replaced(u: Updater, image: Identity): Updater {
    Updater(InitialWait, image, image, false, u.arrived, 0, u.consumed)
  }

  function AttemptOutcome(running: Identity, managed: Identity, a: Attempt): RestartOutcome {
    OutcomeOf(UpdateModes(running, managed).0, a)
  }

  predicate Reexecutes(running: Identity, managed: Identity, step: Step) {
    && step.Restart? && step.image.Some?
    && ShouldReexec(UpdateModes(running, managed).1, AttemptOutcome(running, managed, step.attempt))
  }

  function Next(u: Updater, step: Step): Updater
    requires Enabled(u, step)
  {
    match step
    case Arrive => u.(pending := true, arrived := u.arrived + 1, arrivedHere := u.arrivedHere + 1)
    case TimerFires => u.(place := if u.place == RetryWait then Checking else Installing)
    case SignalTaken => Stop(u)
    case Installed(managed) =>
      if managed.Some? then u.(place := Checking, managed := managed.value) else u.(place := IntervalWait)
    case Check => if u.pending then Stop(u) else u.(place := Restarting)
    case Restart(a, image) =>
      if Reexecutes(u.running, u.managed, step) then Replaced(u, image.value)
      else u.(place := if AttemptOutcome(u.running, u.managed, a) == Busy then RetryWait else IntervalWait)
  }

  function Stepped(u: Updater, step: Step): Updater { if Enabled(u, step) then Next(u, step) else u }

  // Any schedule; a step that is not enabled does nothing.
  function Run(u: Updater, steps: seq<Step>): Updater {
    if steps == [] then u else Stepped(Run(u, steps[..|steps| - 1]), steps[|steps| - 1])
  }

  // The restart attempts a schedule makes.
  function Restarts(u: Updater, steps: seq<Step>): nat {
    if steps == [] then 0 else
      var n := |steps| - 1;
      Restarts(u, steps[..n]) + if steps[n].Restart? && Enabled(Run(u, steps[..n]), steps[n]) then 1 else 0
  }

  // An image is replaced only when the executables differ and a running server was restarted.
  lemma ReexecutesIff(running: Identity, managed: Identity, step: Step)
    ensures Reexecutes(running, managed, step) <==>
            running != managed && step.Restart? && step.image.Some? && step.attempt.Server?
  {}

  // What an attempt amounts to, by the executables and what it met: only with the updater's
  // own executable installed does the version matter, and a server is restarted exactly
  // unless it then reports none or the installed one.
  lemma AttemptMeaning(running: Identity, managed: Identity, a: Attempt)
    ensures var outcome := AttemptOutcome(running, managed, a);
            && (outcome == Busy <==> a == Locked)
            && (outcome == Failed <==> a == Broken)
            && (outcome == NotRunning <==> a == NoServer)
            && (outcome == NotReady <==> a.Server? && running == managed && a.reported == None)
            && (outcome == AlreadyCurrent <==> a.Server? && running == managed && a.reported == Some(a.managedVersion))
            && (outcome == Restarted <==>
                  a.Server? && (running == managed ==> a.reported.Some? && a.reported.value != a.managedVersion))
  {}

  // A schedule attempts a restart only after an install, and waits to retry only after an
  // attempt that met a lock.
  predicate Attempting(p: Place) { p.Checking? || p.Restarting? || p.RetryWait? }

  ghost predicate InstalledAt(u: Updater, steps: seq<Step>, i: nat)
    requires i < |steps|
  {
    && Run(u, steps[..i]).place == Installing
    && steps[i] == Installed(Some(Run(u, steps).managed))
    && forall j :: i < j <= |steps| ==> Attempting(Run(u, steps[..j]).place)
  }

  lemma {:induction false} AttemptsFollowInstall(id: Identity, steps: seq<Step>) returns (i: nat)
    requires Attempting(Run(Started(id), steps).place)
    ensures i < |steps| && InstalledAt(Started(id), steps, i)
  {
    var n, u := |steps| - 1, Started(id);
    var before := Run(u, steps[..n]);
    if Attempting(before.place) {
      i := AttemptsFollowInstall(id, steps[..n]);
      assert steps[..n][..i] == steps[..i];
      forall j | i < j <= |steps| ensures Attempting(Run(u, steps[..j]).place) {
        if j <= n { assert steps[..n][..j] == steps[..j]; } else { assert steps[..j] == steps; }
      }
    } else {
      i := n;
      assert steps[..|steps|] == steps;
    }
  }

  // After an attempt the updater waits to retry it exactly when it met a lock, and otherwise
  // waits for the next update; a wait that ends goes on to an install or to the same attempt.
  lemma AfterAttempt(u: Updater, a: Attempt, image: Option<Identity>)
    requires u.place == Restarting && !Reexecutes(u.running, u.managed, Restart(a, image))
    ensures Stepped(u, Restart(a, image)) == u.(place := if a.Locked? then RetryWait else IntervalWait)
    ensures Stepped(Stepped(u, Restart(a, image)), TimerFires) ==
            u.(place := if a.Locked? then Checking else Installing)
  {
    AttemptMeaning(u.running, u.managed, a);
  }

  // ------------------------------------------------------------ what holds over every schedule

  // A signal is taken only by the step that makes the loop return, the loop returns only by
  // taking one, and what arrived in the current image is pending until then.
  ghost predicate Accounted(u: Updater) {
    && (u.place == Returned <==> u.consumed == 1) && u.consumed <= 1
    && (u.place == Returned ==> u.arrived > 0) && u.arrivedHere <= u.arrived
    && (u.place != Returned ==> (u.pending <==> u.arrivedHere > 0))
    && (u.place == InitialWait ==> u.managed == u.running)
  }

  lemma {:induction false} EveryScheduleAccounts(id: Identity, steps: seq<Step>)
    ensures Accounted(Run(Started(id), steps))
  {
    if steps != [] { EveryScheduleAccounts(id, steps[..|steps| - 1]); }
  }

  // ------------------------------------------------------------ when a signal is kept

  // No attempt replaces the image while a signal is pending.
  ghost predicate Undisturbed(u: Updater, steps: seq<Step>) {
    forall i :: 0 <= i < |steps| ==> !Discards(Run(u, steps[..i]), steps[i])
  }

  predicate Discards(u: Updater, step: Step) {
    Enabled(u, step) && u.pending && Reexecutes(u.running, u.managed, step)
  }

  // Until the loop returns, a signal that arrived is pending.
  ghost predicate Kept(u: Updater) { u.place != Returned ==> (u.pending <==> u.arrived > 0) }

  ghost predicate AlwaysKept(u: Updater, steps: seq<Step>) {
    forall n :: 0 <= n <= |steps| ==> Kept(Run(u, steps[..n]))
  }

  lemma PrefixAt(u: Updater, steps: seq<Step>, i: nat)
    requires i < |steps|
    ensures Run(u, steps[..i + 1]) == Stepped(Run(u, steps[..i]), steps[i])
  {
    assert steps[..i + 1][..i] == steps[..i];
  }

  // Over every schedule, an arrived signal stays pending until the loop returns exactly when
  // no attempt replaces the image while it is pending.
  lemma SignalIsKeptIff(id: Identity, steps: seq<Step>)
    ensures AlwaysKept(Started(id), steps) <==> Undisturbed(Started(id), steps)
  {
    if Undisturbed(Started(id), steps) {
      forall n | 0 <= n <= |steps| ensures Kept(Run(Started(id), steps[..n])) { UndisturbedKeeps(id, steps, n); }
    }
    if AlwaysKept(Started(id), steps) {
      forall i | 0 <= i < |steps| ensures !Discards(Run(Started(id), steps[..i]), steps[i]) {
        KeptIsUndisturbed(id, steps, i);
      }
    }
  }

  lemma {:induction false} UndisturbedKeeps(id: Identity, steps: seq<Step>, n: nat)
    requires n <= |steps| && Undisturbed(Started(id), steps)
    ensures Kept(Run(Started(id), steps[..n]))
  {
    if n == 0 {
      assert steps[..0] == [];
    } else {
      UndisturbedKeeps(id, steps, n - 1);
      PrefixAt(Started(id), steps, n - 1);
      StepKeeps(Run(Started(id), steps[..n - 1]), steps[n - 1]);
    }
  }

  lemma StepKeeps(u: Updater, step: Step)
    requires Kept(u) && !Discards(u, step)
    ensures Kept(Stepped(u, step))
  {}

  lemma KeptIsUndisturbed(id: Identity, steps: seq<Step>, i: nat)
    requires i < |steps| && AlwaysKept(Started(id), steps)
    ensures !Discards(Run(Started(id), steps[..i]), steps[i])
  {
    PrefixAt(Started(id), steps, i);
    EveryScheduleAccounts(id, steps[..i]);
    assert Kept(Run(Started(id), steps[..i + 1]));
  }

  // A schedule that installs nothing but the running executable disturbs nothing.
  lemma SameExecutableIsUndisturbed(id: Identity, steps: seq<Step>)
    requires forall i :: 0 <= i < |steps| && steps[i].Installed? ==> steps[i].managed in {None, Some(id)}
    ensures Undisturbed(Started(id), steps)
  {
    forall i | 0 <= i < |steps| ensures !Discards(Run(Started(id), steps[..i]), steps[i]) {
      SameExecutable(id, steps, i);
    }
  }

  lemma {:induction false} SameExecutable(id: Identity, steps: seq<Step>, n: nat)
    requires n <= |steps|
    requires forall i :: 0 <= i < |steps| && steps[i].Installed? ==> steps[i].managed in {None, Some(id)}
    ensures var u := Run(Started(id), steps[..n]); u.running == id && u.managed == id
  {
    if n == 0 {
      assert steps[..0] == [];
    } else {
      SameExecutable(id, steps, n - 1);
      PrefixAt(Started(id), steps, n - 1);
      StepInstallsSame(Run(Started(id), steps[..n - 1]), steps[n - 1], id);
    }
  }

  lemma StepInstallsSame(u: Updater, step: Step, id: Identity)
    requires u.running == id && u.managed == id && (step.Installed? ==> step.managed in {None, Some(id)})
    ensures Stepped(u, step).running == id && Stepped(u, step).managed == id
  {}

  // ------------------------------------------------------------ what a pending signal prevents

  // The one place from which a pending signal can be lost: a restart of another executable
  // that passed its poll before the signal came.
  predicate Exposed(u: Updater) { u.place == Restarting && u.running != u.managed }

  ghost predicate NeverForgotten(u: Updater) {
    forall steps :: Run(u, steps).pending || Run(u, steps).place == Returned
  }

  ghost predicate RestartsBounded(u: Updater, bound: nat) {
    forall steps :: Restarts(u, steps) <= bound
  }

  function InProgress(u: Updater): nat { if u.place == Restarting then 1 else 0 }

  // From a pending signal on, whatever follows: it is never forgotten, and no attempt begins
  // beyond one whose poll came before it, exactly unless the updater is exposed.
  lemma PendingSignalHoldsIff(u: Updater)
    requires u.pending
    ensures NeverForgotten(u) <==> !Exposed(u)
    ensures RestartsBounded(u, InProgress(u)) <==> !Exposed(u)
  {
    if Exposed(u) {
      ExposedLosesSignal(u, u.running);
      var script := [ServerAttempt(u.running)] + ImageScript(u.running);
      assert !Run(u, script).pending && Restarts(u, script) == 2;
    } else {
      forall steps ensures Run(u, steps).pending || Run(u, steps).place == Returned { PendingStays(u, steps); }
      forall steps ensures Restarts(u, steps) <= InProgress(u) { PendingStays(u, steps); }
    }
  }

  lemma {:induction false} PendingStays(u: Updater, steps: seq<Step>)
    requires (u.pending || u.place == Returned) && !Exposed(u)
    ensures var v := Run(u, steps);
            && (v.pending || v.place == Returned)
            && Restarts(u, steps) <= InProgress(u)
            && (v.place == Restarting ==> u.place == Restarting && v.managed == v.running && Restarts(u, steps) == 0)
  {
    if steps != [] { PendingStays(u, steps[..|steps| - 1]); }
  }

  function Made(u: Updater, step: Step): nat { if step.Restart? && Enabled(u, step) then 1 else 0 }

  lemma {:induction false} RunAppend(u: Updater, a: seq<Step>, b: seq<Step>)
    ensures Run(u, a + b) == Run(Run(u, a), b)
    ensures Restarts(u, a + b) == Restarts(u, a) + Restarts(Run(u, a), b)
  {
    if b == [] {
      assert a + b == a;
    } else {
      assert (a + b)[..|a + b| - 1] == a + b[..|b| - 1];
      RunAppend(u, a, b[..|b| - 1]);
    }
  }

  lemma RunOne(u: Updater, step: Step)
    ensures Run(u, [step]) == Stepped(u, step) && Restarts(u, [step]) == Made(u, step)
  {
    assert [step][..0] == [];
  }

  lemma RunFirst(u: Updater, step: Step, rest: seq<Step>)
    ensures Run(u, [step] + rest) == Run(Stepped(u, step), rest)
    ensures Restarts(u, [step] + rest) == Made(u, step) + Restarts(Stepped(u, step), rest)
  {
    RunAppend(u, [step], rest);
    RunOne(u, step);
  }

  // An attempt that finds a running server.
  function ServerAttempt(image: Identity): Step { Restart(Server(None, ""), Some(image)) }

  // A new image waits, installs and attempts a restart.
  function ImageScript(image: Identity): seq<Step> {
    [TimerFires] + ([Installed(Some(image))] + ([Check] + [ServerAttempt(image)]))
  }

  lemma ImageRestarts(u: Updater, image: Identity)
    requires u.place == InitialWait && u.running == image && !u.pending
    ensures Run(u, ImageScript(image)) == u.(place := IntervalWait, managed := image)
    ensures Restarts(u, ImageScript(image)) == 1
  {
    var u1 := u.(place := Installing);
    var u2 := u1.(place := Checking, managed := image);
    RunFirst(u, TimerFires, [Installed(Some(image))] + ([Check] + [ServerAttempt(image)]));
    RunFirst(u1, Installed(Some(image)), [Check] + [ServerAttempt(image)]);
    RunFirst(u2, Check, [ServerAttempt(image)]);
    RunOne(u2.(place := Restarting), ServerAttempt(image));
  }

  // From an exposed state the attempt replaces the image, and the new image restarts again.
  lemma ExposedLosesSignal(u: Updater, image: Identity)
    requires Exposed(u)
    ensures var script := [ServerAttempt(image)] + ImageScript(image);
            Run(u, script) == Replaced(u, image).(place := IntervalWait) && Restarts(u, script) == 2
  {
    ReexecutesIff(u.running, u.managed, ServerAttempt(image));
    RunFirst(u, ServerAttempt(image), ImageScript(image));
    ImageRestarts(Replaced(u, image), image);
  }

  // When a signal arrives, at most the attempt already under way is made, whatever follows,
  // exactly unless that attempt restarts another executable.
  lemma NoRestartAfterSignalIff(id: Identity, before: seq<Step>)
    ensures var v := Run(Started(id), before);
            var u := Run(Started(id), before + [Arrive]);
            RestartsBounded(u, InProgress(v)) <==> !Exposed(v)
  {
    assert (before + [Arrive])[..|before|] == before;
    PendingSignalHoldsIff(Run(Started(id), before + [Arrive]));
  }

  // The next poll makes the loop return exactly when a signal arrived in this image, and so,
  // on an undisturbed schedule, when any signal arrived at all.
  lemma NextCheckReturnsIff(id: Identity, steps: seq<Step>)
    requires Run(Started(id), steps).place == Checking
    ensures var u := Run(Started(id), steps);
            && (Run(Started(id), steps + [Check]).place == Returned <==> u.arrivedHere > 0)
            && (Undisturbed(Started(id), steps) ==> (u.arrivedHere > 0 <==> u.arrived > 0))
  {
    EveryScheduleAccounts(id, steps);
    assert (steps + [Check])[..|steps|] == steps;
    if Undisturbed(Started(id), steps) {
      UndisturbedKeeps(id, steps, |steps|);
      assert steps[..|steps|] == steps;
    }
  }

  // A new executable is installed, and a signal arrives during the restart that follows.
  function ExposingScript(new_: Identity): seq<Step> {
    [TimerFires] + ([Installed(Some(new_))] + ([Check] + [Arrive]))
  }

  lemma BecomesExposed(old_: Identity, new_: Identity)
    requires old_ != new_
    ensures Run(Started(old_), ExposingScript(new_)) == Updater(Restarting, old_, new_, true, 1, 1, 0)
    ensures Restarts(Started(old_), ExposingScript(new_)) == 0
  {
    var u := Started(old_);
    var u1 := u.(place := Installing);
    var u2 := u1.(place := Checking, managed := new_);
    RunFirst(u, TimerFires, [Installed(Some(new_))] + ([Check] + [Arrive]));
    RunFirst(u1, Installed(Some(new_)), [Check] + [Arrive]);
    RunFirst(u2, Check, [Arrive]);
    RunOne(u2.(place := Restarting), Arrive);
  }

  // A signal that is lost: it arrives while a server is restarted from a new executable.  The
  // new image installs and restarts again, and nothing makes it return.
  lemma SignalIsLost(old_: Identity, new_: Identity)
    requires old_ != new_
    ensures var script := ExposingScript(new_) + ([ServerAttempt(new_)] + ImageScript(new_));
            var u := Run(Started(old_), script);
            && u.arrived == 1 && u.consumed == 0 && !u.pending && u.place == IntervalWait
            && Restarts(Started(old_), script) == 2
  {
    BecomesExposed(old_, new_);
    RunAppend(Started(old_), ExposingScript(new_), [ServerAttempt(new_)] + ImageScript(new_));
    ExposedLosesSignal(Run(Started(old_), ExposingScript(new_)), new_);
  }

  // ------------------------------------------------------------ the loops of the process

  lemma StepTaken(id: Identity, script: seq<Step>, pos: nat)
    requires pos < |script|
    ensures var u, step := Run(Started(id), script[..pos]), script[pos];
            && Run(Started(id), script[..pos + 1]) == Stepped(u, step)
            && Restarts(Started(id), script[..pos + 1]) == Restarts(Started(id), script[..pos]) + Made(u, step)
  {
    assert script[..pos + 1][..pos] == script[..pos];
  }

  // An event that cannot end the current wait, or an arrival, only shows in the pending flag.
  lemma EventPasses(id: Identity, script: seq<Step>, pos: nat)
    requires pos < |script|
    requires var u := Run(Started(id), script[..pos]); script[pos] == Arrive || !Enabled(u, script[pos])
    ensures var u, v := Run(Started(id), script[..pos]), Run(Started(id), script[..pos + 1]);
            && v.place == u.place && v.running == u.running && v.managed == u.managed
            && v.pending == (u.pending || script[pos] == Arrive)
            && Restarts(Started(id), script[..pos + 1]) == Restarts(Started(id), script[..pos])
  {
    StepTaken(id, script, pos);
  }

  lemma WaitEnds(id: Identity, script: seq<Step>, pos: nat)
    requires pos < |script| && script[pos] != Arrive
    requires var u := Run(Started(id), script[..pos]); Waits(u.place) && Enabled(u, script[pos])
    ensures var u, v := Run(Started(id), script[..pos]), Run(Started(id), script[..pos + 1]);
            && v.running == u.running && v.managed == u.managed
            && Restarts(Started(id), script[..pos + 1]) == Restarts(Started(id), script[..pos])
            && (if script[pos] == TimerFires
                then v.place == (if u.place == RetryWait then Checking else Installing) && v.pending == u.pending
                else v.place == Returned && !v.pending)
  {
    StepTaken(id, script, pos);
  }

  lemma PollEnds(id: Identity, script: seq<Step>, pos: nat)
    requires pos < |script| && script[pos] != Arrive
    requires var u := Run(Started(id), script[..pos]); u.place == Checking && Enabled(u, script[pos])
    ensures var u, v := Run(Started(id), script[..pos]), Run(Started(id), script[..pos + 1]);
            && v.running == u.running && v.managed == u.managed && !v.pending
            && v.place == (if u.pending then Returned else Restarting)
            && Restarts(Started(id), script[..pos + 1]) == Restarts(Started(id), script[..pos])
  {
    StepTaken(id, script, pos);
  }

  lemma AttemptEnds(id: Identity, script: seq<Step>, pos: nat)
    requires pos < |script| && script[pos] != Arrive
    requires var u := Run(Started(id), script[..pos]); u.place == Restarting && Enabled(u, script[pos])
    ensures script[pos].Restart?
    ensures var u, v, step := Run(Started(id), script[..pos]), Run(Started(id), script[..pos + 1]), script[pos];
            && Restarts(Started(id), script[..pos + 1]) == Restarts(Started(id), script[..pos]) + 1
            && (if Reexecutes(u.running, u.managed, step)
                then v.place == InitialWait && v.running == v.managed == step.image.value && !v.pending
                else v.place == (if AttemptOutcome(u.running, u.managed, step.attempt) == Busy
                                 then RetryWait else IntervalWait) &&
                     v.running == u.running && v.managed == u.managed && v.pending == u.pending)
  {
    StepTaken(id, script, pos);
  }

  lemma {:induction false} ReturnedStays(id: Identity, script: seq<Step>, pos: nat)
    requires pos <= |script| && Run(Started(id), script[..pos]).place == Returned
    ensures Run(Started(id), script).place == Returned
    ensures Restarts(Started(id), script) == Restarts(Started(id), script[..pos])
    decreases |script| - pos
  {
    if pos == |script| {
      assert script[..pos] == script;
    } else {
      StepTaken(id, script, pos);
      ReturnedStays(id, script, pos + 1);
    }
  }

  datatype Wake = TimedOut | Terminated | Asleep
  datatype Control = Continue | Stopped | Reexecuted | Unfinished

  // The process against a script of outside events: each wait skips to the first event that
  // can end it, noting arrivals on the way.  Where the script ends, the process is still waiting.
  class UpdaterProcess {
    const first: Identity
    const script: seq<Step>
    var pos: nat
    var pending: bool
    var restarts: nat
    var running: Identity

    constructor (first: Identity, script: seq<Step>)
      ensures At(InitialWait, first) && pos == 0 && this.script == script && this.first == first
    {
      this.first, this.script := first, script;
      pos, pending, restarts, running := 0, false, 0, first;
    }

    // Where the machine is, with the signal, the image and the installed executable the
    // process holds.
    ghost predicate At(place: Place, managed: Identity)
      reads this
    {
      && pos <= |script|
      && var u := Run(Started(first), script[..pos]);
         && u.place == place && u.pending == pending && u.running == running && u.managed == managed
         && restarts == Restarts(Started(first), script[..pos])
    }

    ghost predicate SomewhereAt(place: Place)
      reads this
    {
      exists managed :: At(place, managed)
    }

    // The script ended before the process could go on.
    ghost predicate Blocked()
      reads this
    {
      Run(Started(first), script).place != Returned && restarts == Restarts(Started(first), script)
    }

    lemma BlockedAt(place: Place, managed: Identity)
      requires At(place, managed) && pos == |script| && place != Returned
      ensures Blocked()
    {
      assert script[..pos] == script;
    }

    method Await(place: Place, ghost managed: Identity) returns (found: bool)
      requires At(place, managed)
      modifies this`pos, this`pending
      ensures At(place, managed) && pos >= old(pos)
      ensures found ==> pos < |script| && script[pos] != Arrive && Ready(place, pending, script[pos])
      ensures !found ==> pos == |script|
    {
      while pos < |script|
        invariant At(place, managed) && pos >= old(pos)
        decreases |script| - pos
      {
        if script[pos] != Arrive && Ready(place, pending, script[pos]) { return true; }
        EventPasses(first, script, pos);
        if script[pos] == Arrive { pending := true; }
        pos := pos + 1;
      }
      found := false;
    }

    method SleepOrTerminate(place: Place, ghost managed: Identity) returns (wake: Wake)
      requires At(place, managed) && Waits(place)
      modifies this`pos, this`pending
      ensures wake == TimedOut ==> At(if place == RetryWait then Checking else Installing, managed) && pos > old(pos)
      ensures wake == Terminated ==> At(Returned, managed)
      ensures wake == Asleep ==> Blocked()
    {
      var found := Await(place, managed);
      if !found {
        BlockedAt(place, managed);
        return Asleep;
      }
      wake := EndWait(place, managed);
    }

    method EndWait(place: Place, ghost managed: Identity) returns (wake: Wake)
      requires At(place, managed) && Waits(place)
      requires pos < |script| && script[pos] != Arrive && Ready(place, pending, script[pos])
      modifies this`pos, this`pending
      ensures pos == old(pos) + 1 && wake == if script[old(pos)] == TimerFires then TimedOut else Terminated
      ensures wake == TimedOut ==> At(if place == RetryWait then Checking else Installing, managed)
      ensures wake == Terminated ==> At(Returned, managed)
    {
      WaitEnds(first, script, pos);
      wake := if script[pos] == TimerFires then TimedOut else Terminated;
      if wake == Terminated { pending := false; }
      pos := pos + 1;
    }

    // The executable that was installed; none when something failed.
    method InstallLatest(ghost managed: Identity) returns (ended: bool, installed: Option<Identity>)
      requires At(Installing, managed)
      modifies this`pos, this`pending
      ensures ended && installed.Some? ==> At(Checking, installed.value) && pos > old(pos)
      ensures ended && installed.None? ==> At(IntervalWait, managed) && pos > old(pos)
      ensures !ended ==> Blocked()
    {
      ended := Await(Installing, managed);
      if !ended {
        BlockedAt(Installing, managed);
        return false, None;
      }
      StepTaken(first, script, pos);
      installed := script[pos].managed;
      pos := pos + 1;
    }

    method PollSignal(ghost managed: Identity) returns (control: Control)
      requires At(Checking, managed)
      modifies this`pos, this`pending
      ensures control == Continue ==> At(Restarting, managed) && pos > old(pos)
      ensures control == Stopped ==> At(Returned, managed)
      ensures control == Unfinished ==> Blocked()
      ensures control != Reexecuted
    {
      var found := Await(Checking, managed);
      if !found {
        BlockedAt(Checking, managed);
        return Unfinished;
      }
      PollEnds(first, script, pos);
      control := if pending then Stopped else Continue;
      pending := false;
      pos := pos + 1;
    }

    // An attempt; when it replaces the image, the new image holds nothing of the old one.
    method TryRestart(managed: Identity) returns (control: Control, outcome: RestartOutcome)
      requires At(Restarting, managed)
      modifies this
      ensures control == Continue ==> At(if outcome == Busy then RetryWait else IntervalWait, managed) && pos > old(pos)
      ensures control == Reexecuted ==> At(InitialWait, running) && pos > old(pos)
      ensures control == Unfinished ==> Blocked()
      ensures control != Stopped
      ensures control != Unfinished ==>
                && 0 < pos <= |script| && script[pos - 1].Restart?
                && outcome == AttemptOutcome(old(running), managed, script[pos - 1].attempt)
                && (control == Reexecuted <==> Reexecutes(old(running), managed, script[pos - 1]))
    {
      var found := Await(Restarting, managed);
      if !found {
        BlockedAt(Restarting, managed);
        return Unfinished, Failed;
      }
      control, outcome := MakeAttempt(managed);
    }

    method MakeAttempt(managed: Identity) returns (control: Control, outcome: RestartOutcome)
      requires At(Restarting, managed)
      requires pos < |script| && script[pos] != Arrive && Ready(Restarting, pending, script[pos])
      modifies this
      ensures pos == old(pos) + 1 && script[old(pos)].Restart?
      ensures outcome == AttemptOutcome(old(running), managed, script[old(pos)].attempt)
      ensures control == if Reexecutes(old(running), managed, script[old(pos)]) then Reexecuted else Continue
      ensures control == Continue ==> At(if outcome == Busy then RetryWait else IntervalWait, managed)
      ensures control == Reexecuted ==> At(InitialWait, running)
    {
      AttemptEnds(first, script, pos);
      var attempt, image := script[pos].attempt, script[pos].image;
      var (mode, refresh) := UpdateModes(running, managed);
      outcome := OutcomeOf(mode, attempt);
      control := Continue;
      restarts := restarts + 1;
      pos := pos + 1;
      if ShouldReexec(refresh, outcome) && image.Some? {
        control, pending, running := Reexecuted, false, image.value;
      }
    }

    method UpdateOnce(ghost managed: Identity) returns (control: Control)
      requires At(Installing, managed)
      modifies this
      ensures control == Continue ==> SomewhereAt(IntervalWait) && pos > old(pos)
      ensures control == Reexecuted ==> At(InitialWait, running) && pos > old(pos)
      ensures control == Stopped ==> SomewhereAt(Returned)
      ensures control == Unfinished ==> Blocked()
    {
      var ended, installed := InstallLatest(managed);
      if !ended { return Unfinished; }
      if installed.None? { return Continue; }
      while true
        invariant At(Checking, installed.value) && pos > old(pos)
        decreases |script| - pos
      {
        control := PollSignal(installed.value);
        if control != Continue { return; }
        var outcome;
        control, outcome := TryRestart(installed.value);
        if control != Continue || outcome != Busy { return; }
        var wake := SleepOrTerminate(RetryWait, installed.value);
        if wake == Terminated { return Stopped; }
        if wake == Asleep { return Unfinished; }
      }
    }

    // One image of the updater.
    method RunImage() returns (control: Control)
      requires At(InitialWait, running)
      modifies this
      ensures control == Reexecuted ==> At(InitialWait, running) && pos > old(pos)
      ensures control == Stopped ==> SomewhereAt(Returned)
      ensures control == Unfinished ==> Blocked()
      ensures control != Continue
    {
      var place := InitialWait;
      while true
        invariant SomewhereAt(place) && (place == InitialWait || place == IntervalWait) && pos >= old(pos)
        decreases |script| - pos
      {
        ghost var managed :| At(place, managed);
        var wake := SleepOrTerminate(place, managed);
        if wake == Terminated { return Stopped; }
        if wake == Asleep { return Unfinished; }
        control := UpdateOnce(managed);
        if control != Continue { return; }
        place := IntervalWait;
      }
    }

    // The nested loops, image after image, follow the machine: on every script they return
    // exactly when it does, after exactly its restart attempts.
    method RunImages() returns (returned: bool)
      requires At(InitialWait, first) && running == first
      modifies this
      ensures returned <==> Run(Started(first), script).place == Returned
      ensures restarts == Restarts(Started(first), script)
    {
      while true
        invariant At(InitialWait, running)
        decreases |script| - pos
      {
        var control := RunImage();
        if control == Unfinished { return false; }
        if control == Stopped {
          ReturnedStays(first, script, pos);
          return true;
        }
      }
    }
  }
}
