/**
  The argument normalizer of the lint wrapper: parse the user's arguments, then rebuild
  them with the defaults filled in.
 */
module LintArgs {

  datatype Awaited = Nothing | ManifestPath | PackageSelection | LibrarySelection

  datatype Flags = Flags(manifestPath: bool, packageSelection: bool, noDeps: bool, librarySelection: bool, fix: bool)
  const NO_FLAGS := Flags(false, false, false, false, false)

  datatype Parsed = Parsed(lintArgs: seq<string>, cargoArgs: seq<string>, flags: Flags, cargoTarget: bool)

  // The loop state: what was parsed, whether `--` was passed, and which flag waits for its value.
  datatype Scan = Scan(parsed: Parsed, afterSeparator: bool, waiting: Awaited)
  const START := Scan(Parsed([], [], NO_FLAGS, false), false, Nothing)

  const SEPARATOR := "--"
  const ALL_TARGETS := "--all-targets"

  predicate SelectsTarget(arg: string) {
    || arg in ["--all-targets", "--lib", "--bins", "--tests", "--examples", "--benches", "--doc"]
    || arg in ["--bin", "--test", "--example", "--bench"]
    || "--bin=" <= arg || "--test=" <= arg || "--example=" <= arg || "--bench=" <= arg
  }

  function Satisfied(f: Flags, e: Awaited): Flags {
    match e
    case ManifestPath => f.(manifestPath := true)
    case PackageSelection => f.(packageSelection := true)
    case LibrarySelection => f.(librarySelection := true)
    case Nothing => f
  }

  function Or(a: Flags, b: Flags): Flags {
    Flags(a.manifestPath || b.manifestPath, a.packageSelection || b.packageSelection, a.noDeps || b.noDeps,
          a.librarySelection || b.librarySelection, a.fix || b.fix)
  }

  // What an argument of its own sets, and whether it waits for a value.
  function Effect(arg: string): (Flags, Awaited) {
    if arg == "--manifest-path" then (NO_FLAGS, ManifestPath)
    else if "--manifest-path=" <= arg then (NO_FLAGS.(manifestPath := true), Nothing)
    else if arg == "-p" || arg == "--package" then (NO_FLAGS, PackageSelection)
    else if "--package=" <= arg then (NO_FLAGS.(packageSelection := true), Nothing)
    else OtherEffect(arg)
  }

  function OtherEffect(arg: string): (Flags, Awaited) {
    if arg == "--fix" then (NO_FLAGS.(fix := true), Nothing)
    else if arg == "--workspace" then (NO_FLAGS.(packageSelection := true), Nothing)
    else if arg == "--no-deps" then (NO_FLAGS.(noDeps := true), Nothing)
    else if arg == "--lib" || arg == "--lib-path" then (NO_FLAGS, LibrarySelection)
    else if "--lib=" <= arg || "--lib-path=" <= arg then (NO_FLAGS.(librarySelection := true), Nothing)
    else (NO_FLAGS, Nothing)
  }

  // One lint argument: a value for a waiting flag, or an argument of its own.
  function LintArg(f: Flags, w: Awaited, arg: string): (Flags, Awaited) {
    if w != Nothing then (Satisfied(f, w), Nothing) else (Or(f, Effect(arg).0), Effect(arg).1)
  }

  function ScanArg(s: Scan, arg: string): Scan {
    var p := s.parsed;
    if s.afterSeparator then
      s.(parsed := p.(cargoArgs := p.cargoArgs + [arg], cargoTarget := p.cargoTarget || SelectsTarget(arg)))
    else if arg == SEPARATOR then s.(afterSeparator := true)
    else
      var (flags, waiting) := LintArg(p.flags, s.waiting, arg);
      Scan(p.(lintArgs := p.lintArgs + [arg], flags := flags), false, waiting)
  }

  function ScanArgs(s: Scan, argv: seq<string>): Scan {
    if argv == [] then s else ScanArg(ScanArgs(s, argv[..|argv| - 1]), argv[|argv| - 1])
  }

  function Parse(argv: seq<string>): Parsed { ScanArgs(START, argv).parsed }

  // What the wrapper puts in front of the user's lint arguments.
  function Defaults(f: Flags, manifest: string): seq<string> {
    (if f.manifestPath then [] else ["--manifest-path", manifest]) +
    (if f.packageSelection || f.manifestPath then [] else ["--workspace"]) +
    (if f.noDeps then [] else ["--no-deps"])
  }

  function CargoArgs(p: Parsed): seq<string> {
    p.cargoArgs + (if p.flags.fix || p.cargoTarget then [] else [ALL_TARGETS])
  }

  function Build(p: Parsed, manifest: string): seq<string> {
    Defaults(p.flags, manifest) + p.lintArgs + (if CargoArgs(p) != [] then [SEPARATOR] + CargoArgs(p) else [])
  }

  function Normalized(argv: seq<string>, manifest: string): seq<string> { Build(Parse(argv), manifest) }

  // ------------------------------------------------------------ the loops

  method ParseWrapperArgs(argv: seq<string>) returns (p: Parsed)
    ensures p == Parse(argv)
  {
    var lintArgs, cargoArgs: seq<string> := [], [];
    var flags, cargoTarget := NO_FLAGS, false;
    var afterSeparator, waiting := false, Nothing;
    for i := 0 to |argv|
      invariant Scan(Parsed(lintArgs, cargoArgs, flags, cargoTarget), afterSeparator, waiting) ==
                ScanArgs(START, argv[..i])
    {
      assert argv[..i + 1][..i] == argv[..i];
      var arg := argv[i];
      if afterSeparator {
        cargoArgs := cargoArgs + [arg];
        if SelectsTarget(arg) { cargoTarget := true; }
        continue;
      }
      if arg == SEPARATOR {
        afterSeparator := true;
        continue;
      }
      lintArgs := lintArgs + [arg];
      if waiting != Nothing {
        match waiting {
          case ManifestPath => flags := flags.(manifestPath := true);
          case PackageSelection => flags := flags.(packageSelection := true);
          case LibrarySelection => flags := flags.(librarySelection := true);
        }
        waiting := Nothing;
        continue;
      }
      flags, waiting := NoteLintArg(flags, arg);
    }
    assert argv[..|argv|] == argv;
    p := Parsed(lintArgs, cargoArgs, flags, cargoTarget);
  }

  // An argument that is not the value of a waiting flag.
  method NoteLintArg(flags: Flags, arg: string) returns (g: Flags, w: Awaited)
    ensures (g, w) == LintArg(flags, Nothing, arg)
  {
    g, w := flags, Nothing;
    if arg == "--manifest-path" {
      w := ManifestPath;
    } else if "--manifest-path=" <= arg {
      g := flags.(manifestPath := true);
    } else if arg == "-p" || arg == "--package" {
      w := PackageSelection;
    } else if "--package=" <= arg {
      g := flags.(packageSelection := true);
    } else {
      g, w := NoteOtherArg(flags, arg);
    }
  }

  method NoteOtherArg(flags: Flags, arg: string) returns (g: Flags, w: Awaited)
    ensures (g, w) == (Or(flags, OtherEffect(arg).0), OtherEffect(arg).1)
  {
    g, w := flags, Nothing;
    if arg == "--fix" {
      g := flags.(fix := true);
    } else if arg == "--workspace" {
      g := flags.(packageSelection := true);
    } else if arg == "--no-deps" {
      g := flags.(noDeps := true);
    } else if arg == "--lib" || arg == "--lib-path" {
      w := LibrarySelection;
    } else if "--lib=" <= arg || "--lib-path=" <= arg {
      g := flags.(librarySelection := true);
    }
  }

  method BuildFinalArgs(p: Parsed, manifest: string) returns (args: seq<string>)
    ensures args == Build(p, manifest)
  {
    args := [];
    var cargoArgs := p.cargoArgs;
    if !p.flags.manifestPath { args := args + ["--manifest-path", manifest]; }
    if !p.flags.packageSelection && !p.flags.manifestPath { args := args + ["--workspace"]; }
    if !p.flags.noDeps { args := args + ["--no-deps"]; }
    if !p.flags.fix && !p.cargoTarget { cargoArgs := cargoArgs + [ALL_TARGETS]; }
    args := args + p.lintArgs;
    if cargoArgs != [] { args := args + ([SEPARATOR] + cargoArgs); }
  }
}
