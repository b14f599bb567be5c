/**
  Normalizing the lint wrapper's arguments is a fixpoint, and loses nothing of the user's.
 */
module LintTheorems {
  import opened LintArgs

  lemma {:induction false} ScanAppend(s: Scan, a: seq<string>, b: seq<string>)
    ensures ScanArgs(s, a + b) == ScanArgs(ScanArgs(s, a), b)
  {
    if b == [] {
      assert a + b == a;
    } else {
      assert (a + b)[..|a + b| - 1] == a + b[..|b| - 1];
      ScanAppend(s, a, b[..|b| - 1]);
    }
  }

  lemma ScanOne(s: Scan, arg: string)
    ensures ScanArgs(s, [arg]) == ScanArg(s, arg)
  {
    assert [arg][..0] == [];
  }

  // ------------------------------------------------------------ lint arguments on their own

  // The flags a list of lint arguments sets, and the flag left waiting at its end.
  function LintFlags(f: Flags, lint: seq<string>): (Flags, Awaited) {
    if lint == [] then (f, Nothing) else
      var (g, w) := LintFlags(f, lint[..|lint| - 1]);
      LintArg(g, w, lint[|lint| - 1])
  }

  lemma LintArgAccumulates(f: Flags, g: Flags, w: Awaited, arg: string)
    ensures LintArg(Or(f, g), w, arg) == (Or(f, LintArg(g, w, arg).0), LintArg(g, w, arg).1)
  {}

  // Flags only accumulate, and what waits does not depend on them.
  lemma {:induction false} FlagsAccumulate(f: Flags, lint: seq<string>)
    ensures LintFlags(f, lint).0 == Or(f, LintFlags(NO_FLAGS, lint).0)
    ensures LintFlags(f, lint).1 == LintFlags(NO_FLAGS, lint).1
  {
    if lint != [] {
      var n := |lint| - 1;
      FlagsAccumulate(f, lint[..n]);
      var (g, w) := LintFlags(NO_FLAGS, lint[..n]);
      LintArgAccumulates(f, g, w, lint[n]);
    }
  }

  ghost predicate NoSeparator(args: seq<string>) { forall i :: 0 <= i < |args| ==> args[i] != SEPARATOR }

  lemma {:induction false} ScanLint(p: Parsed, lint: seq<string>)
    requires NoSeparator(lint)
    ensures ScanArgs(Scan(p, false, Nothing), lint) ==
            Scan(p.(lintArgs := p.lintArgs + lint, flags := LintFlags(p.flags, lint).0), false,
                 LintFlags(p.flags, lint).1)
  {
    if lint == [] {
      assert p.lintArgs + lint == p.lintArgs;
    } else {
      var n := |lint| - 1;
      ScanLint(p, lint[..n]);
      assert lint == lint[..n] + [lint[n]];
      assert p.lintArgs + lint == p.lintArgs + lint[..n] + [lint[n]];
    }
  }

  // What the parser keeps as lint arguments has no separator and, on its own, sets the same flags.
  lemma {:induction false} ParsedLint(argv: seq<string>)
    ensures Explained(ScanArgs(START, argv))
  {
    if argv != [] {
      var n := |argv| - 1;
      ParsedLint(argv[..n]);
      ArgStaysExplained(ScanArgs(START, argv[..n]), argv[n]);
    }
  }

  ghost predicate Explained(s: Scan) {
    && NoSeparator(s.parsed.lintArgs)
    && LintFlags(NO_FLAGS, s.parsed.lintArgs) == (s.parsed.flags, s.waiting)
    && (!s.afterSeparator ==> s.parsed.cargoArgs == [])
    && (s.parsed.cargoTarget <==> HasTarget(s.parsed.cargoArgs))
  }

  lemma ArgStaysExplained(s: Scan, arg: string)
    requires Explained(s)
    ensures Explained(ScanArg(s, arg))
  {
    if s.afterSeparator {
      TargetsExtend(s.parsed.cargoArgs, arg);
    } else if arg != SEPARATOR {
      LintFlagsExtend(s.parsed.lintArgs, arg);
    }
  }

  lemma LintFlagsExtend(lint: seq<string>, arg: string)
    ensures var (g, w) := LintFlags(NO_FLAGS, lint); LintFlags(NO_FLAGS, lint + [arg]) == LintArg(g, w, arg)
  {
    assert (lint + [arg])[..|lint|] == lint;
  }

  ghost predicate HasTarget(cargo: seq<string>) { exists i :: 0 <= i < |cargo| && SelectsTarget(cargo[i]) }

  lemma TargetsExtend(cargo: seq<string>, arg: string)
    ensures HasTarget(cargo + [arg]) <==> HasTarget(cargo) || SelectsTarget(arg)
  {
    var all := cargo + [arg];
    assert forall i :: 0 <= i < |cargo| ==> all[i] == cargo[i];
    assert all[|cargo|] == arg;
    if HasTarget(cargo) {
      var i :| 0 <= i < |cargo| && SelectsTarget(cargo[i]);
      assert SelectsTarget(all[i]);
    }
  }

  lemma {:induction false} ScanCargo(p: Parsed, w: Awaited, cargo: seq<string>)
    ensures ScanArgs(Scan(p, true, w), cargo) ==
            Scan(p.(cargoArgs := p.cargoArgs + cargo, cargoTarget := p.cargoTarget || HasTarget(cargo)), true, w)
  {
    if cargo == [] {
      assert p.cargoArgs + cargo == p.cargoArgs;
    } else {
      var n := |cargo| - 1;
      ScanCargo(p, w, cargo[..n]);
      assert cargo == cargo[..n] + [cargo[n]];
      TargetsExtend(cargo[..n], cargo[n]);
      assert p.cargoArgs + cargo == p.cargoArgs + cargo[..n] + [cargo[n]];
    }
  }

  // ------------------------------------------------------------ parsing a rebuilt command line

  // Lint arguments, then the separator and cargo arguments if there are any.
  function CommandLine(lint: seq<string>, cargo: seq<string>): seq<string> {
    lint + (if cargo != [] then [SEPARATOR] + cargo else [])
  }

  lemma ParseCommandLine(lint: seq<string>, cargo: seq<string>)
    requires NoSeparator(lint)
    ensures Parse(CommandLine(lint, cargo)) == Parsed(lint, cargo, LintFlags(NO_FLAGS, lint).0, HasTarget(cargo))
  {
    ScanLint(START.parsed, lint);
    var s := ScanArgs(START, lint);
    assert [] + lint == lint;
    if cargo == [] {
      assert lint + [] == lint;
    } else {
      ScanAppend(START, lint, [SEPARATOR] + cargo);
      ScanAppend(s, [SEPARATOR], cargo);
      ScanOne(s, SEPARATOR);
      ScanCargo(s.parsed, s.waiting, cargo);
      assert [] + cargo == cargo;
    }
  }

  lemma LintFlagsAppend(a: seq<string>, b: seq<string>)
    requires LintFlags(NO_FLAGS, a).1 == Nothing
    ensures LintFlags(NO_FLAGS, a + b).0 == Or(LintFlags(NO_FLAGS, a).0, LintFlags(NO_FLAGS, b).0)
  {
    LintFlagsJoin(a, b);
    FlagsAccumulate(LintFlags(NO_FLAGS, a).0, b);
  }

  lemma {:induction false} LintFlagsJoin(a: seq<string>, b: seq<string>)
    requires LintFlags(NO_FLAGS, a).1 == Nothing
    ensures LintFlags(NO_FLAGS, a + b) == LintFlags(LintFlags(NO_FLAGS, a).0, b)
  {
    if b == [] {
      assert a + b == a;
    } else {
      assert (a + b)[..|a + b| - 1] == a + b[..|b| - 1];
      LintFlagsJoin(a, b[..|b| - 1]);
    }
  }

  lemma DefaultArgs(m: string)
    ensures LintFlags(NO_FLAGS, []) == (NO_FLAGS, Nothing)
    ensures LintFlags(NO_FLAGS, ["--manifest-path", m]) == (NO_FLAGS.(manifestPath := true), Nothing)
    ensures LintFlags(NO_FLAGS, ["--workspace"]) == (NO_FLAGS.(packageSelection := true), Nothing)
    ensures LintFlags(NO_FLAGS, ["--no-deps"]) == (NO_FLAGS.(noDeps := true), Nothing)
  {
    assert ["--workspace"][..0] == [] && ["--no-deps"][..0] == [];
    assert ["--manifest-path", m][..1] == ["--manifest-path"] && ["--manifest-path"][..0] == [];
    assert "--workspace"[2] == 'w' && "--no-deps"[3] == 'o' && "--no-deps"[2] == 'n';
    assert "--manifest-path"[2] == 'm' && "--manifest-path="[2] == 'm' && "--package"[2] == 'p' &&
           "--package="[2] == 'p' && "--fix"[2] == 'f';
  }

  // The flags the defaults set are those the user left unset.
  lemma DefaultFlags(f: Flags, m: string)
    requires m != SEPARATOR || f.manifestPath
    ensures LintFlags(NO_FLAGS, Defaults(f, m)) ==
            (Flags(!f.manifestPath, !f.packageSelection && !f.manifestPath, !f.noDeps, false, false), Nothing)
    ensures NoSeparator(Defaults(f, m))
  {
    var a := if f.manifestPath then [] else ["--manifest-path", m];
    var b := if f.packageSelection || f.manifestPath then [] else ["--workspace"];
    var c := if f.noDeps then [] else ["--no-deps"];
    DefaultArgs(m);
    LintFlagsJoin(a, b);
    FlagsAccumulate(LintFlags(NO_FLAGS, a).0, b);
    LintFlagsJoin(a + b, c);
    FlagsAccumulate(LintFlags(NO_FLAGS, a + b).0, c);
  }

  lemma NoSeparatorAppend(a: seq<string>, b: seq<string>)
    requires NoSeparator(a) && NoSeparator(b)
    ensures NoSeparator(a + b)
  {}

  // Parsing the normalized arguments: the user's lint arguments after the defaults, the
  // user's cargo arguments before the default target selection, all in order.
  lemma ParseNormalized(argv: seq<string>, m: string)
    requires m != SEPARATOR || Parse(argv).flags.manifestPath
    ensures var p := Parse(argv);
            var f := LintFlags(NO_FLAGS, Defaults(p.flags, m)).0;
            Parse(Normalized(argv, m)) ==
            Parsed(Defaults(p.flags, m) + p.lintArgs, CargoArgs(p), Or(f, p.flags), HasTarget(CargoArgs(p)))
  {
    var p := Parse(argv);
    ParsedLint(argv);
    DefaultFlags(p.flags, m);
    NoSeparatorAppend(Defaults(p.flags, m), p.lintArgs);
    LintFlagsAppend(Defaults(p.flags, m), p.lintArgs);
    assert Normalized(argv, m) == CommandLine(Defaults(p.flags, m) + p.lintArgs, CargoArgs(p));
    ParseCommandLine(Defaults(p.flags, m) + p.lintArgs, CargoArgs(p));
  }

  lemma CargoSettled(p: Parsed)
    requires p.cargoTarget <==> HasTarget(p.cargoArgs)
    ensures p.flags.fix || HasTarget(CargoArgs(p))
  {
    if !p.flags.fix && !p.cargoTarget {
      TargetsExtend(p.cargoArgs, ALL_TARGETS);
      assert SelectsTarget(ALL_TARGETS);
    } else {
      assert CargoArgs(p) == p.cargoArgs;
    }
  }

  lemma NormalizedIsFixpoint(argv: seq<string>, m: string)
    requires m != SEPARATOR || Parse(argv).flags.manifestPath
    ensures Normalized(Normalized(argv, m), m) == Normalized(argv, m)
  {
    var p := Parse(argv);
    ParsedLint(argv);
    DefaultFlags(p.flags, m);
    ParseNormalized(argv, m);
    CargoSettled(p);
    var q := Parse(Normalized(argv, m));
    assert Defaults(q.flags, m) == [];
    assert CargoArgs(q) == CargoArgs(p);
    assert [] + q.lintArgs == q.lintArgs;
  }

  // With a manifest called `--` and none given by the user, the default manifest is cut off by
  // its own value, so every further pass adds defaults again.
  lemma {:induction false} SeparatorManifestGrows(argv: seq<string>, n: nat)
    requires !Parse(argv).flags.manifestPath
    ensures |Passes(argv, n + 2)| > |Passes(argv, n + 1)| && !Parse(Passes(argv, n + 1)).flags.manifestPath
  {
    if n > 0 { SeparatorManifestGrows(argv, n - 1); }
    NextPassGrows(Passes(argv, n));
  }

  // The arguments after `n` passes with a manifest called `--`.
  function Passes(argv: seq<string>, n: nat): seq<string> {
    if n == 0 then argv else Normalized(Passes(argv, n - 1), SEPARATOR)
  }

  lemma NextPassGrows(argv: seq<string>)
    requires !Parse(argv).flags.manifestPath
    ensures |Normalized(Normalized(argv, SEPARATOR), SEPARATOR)| > |Normalized(argv, SEPARATOR)|
    ensures !Parse(Normalized(argv, SEPARATOR)).flags.manifestPath
  {
    var p := Parse(argv);
    var args := Normalized(argv, SEPARATOR);
    var rest := args[2..];
    assert args == ["--manifest-path", SEPARATOR] + rest;
    ParseCut(rest);
    var q := Parse(args);
    assert q.cargoArgs == rest && q.lintArgs == ["--manifest-path"] && q.flags == NO_FLAGS;
    assert Build(q, SEPARATOR)[0] == "--manifest-path";
    assert |Defaults(q.flags, SEPARATOR)| == 4;
  }

  lemma ParseCut(rest: seq<string>)
    ensures Parse(["--manifest-path", SEPARATOR] + rest) == Parsed(["--manifest-path"], rest, NO_FLAGS, HasTarget(rest))
  {
    var head := ["--manifest-path", SEPARATOR];
    ScanAppend(START, head, rest);
    assert head[..1] == ["--manifest-path"];
    ScanOne(START, "--manifest-path");
    var s := ScanArgs(START, head);
    assert s == Scan(Parsed(["--manifest-path"], [], NO_FLAGS, false), true, ManifestPath);
    ScanCargo(s.parsed, s.waiting, rest);
    assert [] + rest == rest;
  }

  // Normalizing is a fixpoint exactly unless the default manifest is named `--` and is needed.
  lemma FixpointIff(argv: seq<string>, m: string)
    ensures Normalized(Normalized(argv, m), m) == Normalized(argv, m) <==>
            m != SEPARATOR || Parse(argv).flags.manifestPath
  {
    if m != SEPARATOR || Parse(argv).flags.manifestPath {
      NormalizedIsFixpoint(argv, m);
    } else {
      NextPassGrows(argv);
    }
  }

  // ------------------------------------------------------------ which arguments count

  predicate TakesValue(arg: string) { arg in ["--manifest-path", "-p", "--package", "--lib", "--lib-path"] }

  // The i-th argument is the value of the one before it.
  predicate IsValue(lint: seq<string>, i: nat)
    requires i < |lint|
  {
    i > 0 && TakesValue(lint[i - 1]) && !IsValue(lint, i - 1)
  }

  predicate ManifestAt(lint: seq<string>, i: nat)
    requires i < |lint|
  {
    if IsValue(lint, i) then lint[i - 1] == "--manifest-path" else "--manifest-path=" <= lint[i]
  }

  predicate PackageAt(lint: seq<string>, i: nat)
    requires i < |lint|
  {
    if IsValue(lint, i) then lint[i - 1] == "-p" || lint[i - 1] == "--package"
    else lint[i] == "--workspace" || "--package=" <= lint[i]
  }

  predicate FlagAt(lint: seq<string>, i: nat, flag: string)
    requires i < |lint|
  {
    !IsValue(lint, i) && lint[i] == flag
  }

  predicate HasManifest(lint: seq<string>) { exists i: nat :: i < |lint| && ManifestAt(lint, i) }
  predicate HasPackage(lint: seq<string>) { exists i: nat :: i < |lint| && PackageAt(lint, i) }
  predicate HasFlag(lint: seq<string>, flag: string) { exists i: nat :: i < |lint| && FlagAt(lint, i, flag) }

  lemma FlagLetters()
    ensures "--manifest-path"[2] == "--manifest-path="[2] == 'm' && "--package"[2] == "--package="[2] == 'p'
    ensures "--fix"[2] == 'f' && "--workspace"[2] == 'w' && "--no-deps"[2] == 'n' && "-p"[1] == 'p'
    ensures "--lib"[2] == "--lib-path"[2] == "--lib="[2] == "--lib-path="[2] == 'l'
    ensures |"--manifest-path"| == 15 && |"--manifest-path="| == 16 && |"--package"| == 9 && |"--package="| == 10
    ensures |"--lib"| == 5 && "--lib-path"[5] == '-' && "--lib="[5] == '='
    ensures |"--lib-path"| == 10 && |"--lib-path="| == 11
  {}

  // What an argument that is no value does.
  lemma EffectMeaning(arg: string)
    ensures var (f, w) := Effect(arg);
            && (f.manifestPath <==> "--manifest-path=" <= arg)
            && (f.packageSelection <==> arg == "--workspace" || "--package=" <= arg)
            && (f.noDeps <==> arg == "--no-deps") && (f.fix <==> arg == "--fix")
            && (w == ManifestPath <==> arg == "--manifest-path")
            && (w == PackageSelection <==> arg == "-p" || arg == "--package")
            && (w == LibrarySelection <==> arg == "--lib" || arg == "--lib-path")
  {
    FlagLetters();
  }

  lemma {:induction false} IsValueOfPrefix(lint: seq<string>, n: nat, i: nat)
    requires i < n <= |lint|
    ensures IsValue(lint[..n], i) == IsValue(lint, i)
  {
    if i > 0 { IsValueOfPrefix(lint, n, i - 1); }
  }

  lemma ManifestExtends(lint: seq<string>, arg: string)
    ensures HasManifest(lint + [arg]) <==> HasManifest(lint) || ManifestAt(lint + [arg], |lint|)
  {
    PlacesOfPrefix(lint, arg);
    var all := lint + [arg];
    if HasManifest(lint) {
      var i: nat :| i < |lint| && ManifestAt(lint, i);
      assert ManifestAt(all, i);
    }
    if HasManifest(all) {
      var i: nat :| i < |all| && ManifestAt(all, i);
      if i < |lint| { assert ManifestAt(lint, i); }
    }
  }

  lemma PackageExtends(lint: seq<string>, arg: string)
    ensures HasPackage(lint + [arg]) <==> HasPackage(lint) || PackageAt(lint + [arg], |lint|)
  {
    PlacesOfPrefix(lint, arg);
    var all := lint + [arg];
    if HasPackage(lint) {
      var i: nat :| i < |lint| && PackageAt(lint, i);
      assert PackageAt(all, i);
    }
    if HasPackage(all) {
      var i: nat :| i < |all| && PackageAt(all, i);
      if i < |lint| { assert PackageAt(lint, i); }
    }
  }

  lemma FlagExtends(lint: seq<string>, arg: string, flag: string)
    ensures HasFlag(lint + [arg], flag) <==> HasFlag(lint, flag) || FlagAt(lint + [arg], |lint|, flag)
  {
    PlacesOfPrefix(lint, arg);
    var all := lint + [arg];
    if HasFlag(lint, flag) {
      var i: nat :| i < |lint| && FlagAt(lint, i, flag);
      assert FlagAt(all, i, flag);
    }
    if HasFlag(all, flag) {
      var i: nat :| i < |all| && FlagAt(all, i, flag);
      if i < |lint| { assert FlagAt(lint, i, flag); }
    }
  }

  lemma PlacesOfPrefix(lint: seq<string>, arg: string)
    ensures var all := lint + [arg]; forall i: nat :: i < |lint| ==>
              all[i] == lint[i] && IsValue(all, i) == IsValue(lint, i) &&
              ManifestAt(all, i) == ManifestAt(lint, i) && PackageAt(all, i) == PackageAt(lint, i)
  {
    var all := lint + [arg];
    forall i: nat | i < |lint| ensures IsValue(all, i) == IsValue(lint, i) {
      assert all[..|lint|] == lint;
      IsValueOfPrefix(all, |lint|, i);
    }
  }

  // What waits at the end: the last argument takes a value and is none itself.
  predicate Waits(lint: seq<string>) { lint != [] && TakesValue(lint[|lint| - 1]) && !IsValue(lint, |lint| - 1) }

  predicate EndsIn(lint: seq<string>, arg: string) { Waits(lint) && lint[|lint| - 1] == arg }

  // The flags say which arguments were given, values aside.
  ghost predicate Told(lint: seq<string>, f: Flags) {
    && (f.manifestPath <==> HasManifest(lint))
    && (f.packageSelection <==> HasPackage(lint))
    && (f.noDeps <==> HasFlag(lint, "--no-deps"))
    && (f.fix <==> HasFlag(lint, "--fix"))
  }

  ghost predicate WaitTold(lint: seq<string>, w: Awaited) {
    && (w != Nothing <==> Waits(lint))
    && (w == ManifestPath <==> EndsIn(lint, "--manifest-path"))
    && (w == PackageSelection <==> EndsIn(lint, "-p") || EndsIn(lint, "--package"))
  }

  lemma ValueIffWaits(lint: seq<string>, arg: string)
    ensures IsValue(lint + [arg], |lint|) <==> Waits(lint)
  {
    PlacesOfPrefix(lint, arg);
  }

  lemma OneMoreWait(lint: seq<string>, arg: string, f: Flags, w: Awaited)
    requires WaitTold(lint, w)
    ensures WaitTold(lint + [arg], LintArg(f, w, arg).1)
  {
    EffectMeaning(arg);
    ValueIffWaits(lint, arg);
  }

  // What one more argument adds, as a value or on its own.
  lemma OneMoreGiven(lint: seq<string>, arg: string, flag: string)
    ensures var all, n := lint + [arg], |lint|;
            && (ManifestAt(all, n) <==>
                  if Waits(lint) then EndsIn(lint, "--manifest-path") else "--manifest-path=" <= arg)
            && (PackageAt(all, n) <==>
                  if Waits(lint) then EndsIn(lint, "-p") || EndsIn(lint, "--package")
                  else arg == "--workspace" || "--package=" <= arg)
            && (FlagAt(all, n, flag) <==> !Waits(lint) && arg == flag)
  {
    ValueIffWaits(lint, arg);
    var all, n := lint + [arg], |lint|;
    assert all[n] == arg && (n > 0 ==> all[n - 1] == lint[n - 1]);
  }

  lemma OneMoreTold(lint: seq<string>, arg: string, f: Flags, w: Awaited)
    requires Told(lint, f) && WaitTold(lint, w)
    ensures Told(lint + [arg], LintArg(f, w, arg).0)
  {
    EffectMeaning(arg);
    ManifestExtends(lint, arg);
    PackageExtends(lint, arg);
    FlagExtends(lint, arg, "--no-deps");
    FlagExtends(lint, arg, "--fix");
    OneMoreGiven(lint, arg, "--no-deps");
    OneMoreGiven(lint, arg, "--fix");
  }

  lemma {:induction false} FlagsMeaning(lint: seq<string>)
    ensures Told(lint, LintFlags(NO_FLAGS, lint).0) && WaitTold(lint, LintFlags(NO_FLAGS, lint).1)
  {
    if lint != [] {
      var n := |lint| - 1;
      FlagsMeaning(lint[..n]);
      var (f, w) := LintFlags(NO_FLAGS, lint[..n]);
      OneMoreTold(lint[..n], lint[n], f, w);
      OneMoreWait(lint[..n], lint[n], f, w);
      assert lint[..n] + [lint[n]] == lint;
    }
  }

  // ------------------------------------------------------------ the whole command line

  // The user's arguments: lint arguments and, behind a separator, cargo arguments.
  function UserArgs(lint: seq<string>, separated: bool, cargo: seq<string>): seq<string> {
    lint + (if separated then [SEPARATOR] + cargo else [])
  }

  lemma ParseUserArgs(lint: seq<string>, separated: bool, cargo: seq<string>)
    requires NoSeparator(lint) && (separated || cargo == [])
    ensures Parse(UserArgs(lint, separated, cargo)) ==
            Parsed(lint, cargo, LintFlags(NO_FLAGS, lint).0, HasTarget(cargo))
  {
    ParseCommandLine(lint, cargo);
    if separated && cargo == [] {
      assert lint + ([SEPARATOR] + cargo) == lint + [SEPARATOR];
      ScanAppend(START, lint, [SEPARATOR]);
      ScanOne(ScanArgs(START, lint), SEPARATOR);
      assert lint + [] == lint;
    }
  }

  // What the normalized command line is, in terms of the arguments the user gave.
  lemma NormalizedSpelled(lint: seq<string>, separated: bool, cargo: seq<string>, m: string)
    requires NoSeparator(lint) && (separated || cargo == [])
    ensures var targets := if HasFlag(lint, "--fix") || HasTarget(cargo) then [] else ["--all-targets"];
            Normalized(UserArgs(lint, separated, cargo), m) ==
            (if HasManifest(lint) then [] else ["--manifest-path", m]) +
            (if HasPackage(lint) || HasManifest(lint) then [] else ["--workspace"]) +
            (if HasFlag(lint, "--no-deps") then [] else ["--no-deps"]) +
            lint + (if cargo + targets != [] then ["--"] + (cargo + targets) else [])
  {
    ParseUserArgs(lint, separated, cargo);
    FlagsMeaning(lint);
  }

  // Every target selection keeps the default away, on its own or with a value.
  lemma TargetsMeaning(value: string)
    ensures forall t :: t in ["--all-targets", "--lib", "--bins", "--tests", "--examples", "--benches", "--doc"] ==>
              SelectsTarget(t)
    ensures forall t :: t in ["--bin", "--test", "--example", "--bench"] ==>
              SelectsTarget(t) && SelectsTarget(t + "=" + value)
  {}
}
