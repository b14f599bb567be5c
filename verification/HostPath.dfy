/**
  Paths under the rules of the app-server host's platform.
 */
module HostPath {
  import opened Common

  predicate IsLetter(c: char) { 'a' <= c <= 'z' || 'A' <= c <= 'Z' }

  predicate IsWindows(p: string) {
    || (|p| >= 3 && IsLetter(p[0]) && p[1] == ':' && (p[2] == '\\' || p[2] == '/'))
    || "\\\\" <= p
    || "//" <= p
  }

  predicate IsAbsolute(raw: string) { "/" <= raw || IsWindows(raw) }

  function FromAbsolute(raw: string): Option<string> {
    if IsAbsolute(raw) then Some(raw) else None
  }

  predicate IsSeparator(windows: bool, c: char) { c == '/' || (windows && c == '\\') }

  // One more character: a separator opens a part, anything else lengthens the last one.
  function Push(parts: seq<string>, windows: bool, c: char): (r: seq<string>)
    requires parts != []
    ensures r != []
  {
    if IsSeparator(windows, c) then parts + [""] else parts[..|parts| - 1] + [parts[|parts| - 1] + [c]]
  }

  function Split(s: string, windows: bool): (r: seq<string>)
    ensures r != []
  {
    if s == [] then [""] else Push(Split(s[..|s| - 1], windows), windows, s[|s| - 1])
  }

  function NonEmpty(parts: seq<string>): seq<string> {
    if parts == [] then [] else
      NonEmpty(parts[..|parts| - 1]) + (if parts[|parts| - 1] == "" then [] else [parts[|parts| - 1]])
  }

  function Components(p: string): seq<string> { NonEmpty(Split(p, IsWindows(p))) }

  function TrimEnd(s: string, windows: bool): (t: string)
    ensures t <= s && (t == [] || !IsSeparator(windows, t[|t| - 1]))
    ensures forall i :: |t| <= i < |s| ==> IsSeparator(windows, s[i])
  {
    if s != [] && IsSeparator(windows, s[|s| - 1]) then TrimEnd(s[..|s| - 1], windows) else s
  }

  function Join(p: string, segment: string): string {
    var windows := IsWindows(p);
    TrimEnd(p, windows) + [if windows then '\\' else '/'] + segment
  }

  function JoinAll(p: string, segments: seq<string>): string {
    if segments == [] then p else Join(JoinAll(p, segments[..|segments| - 1]), segments[|segments| - 1])
  }

  // ------------------------------------------------------------ splitting

  ghost predicate IsSegment(windows: bool, s: string) {
    s != [] && forall i :: 0 <= i < |s| ==> !IsSeparator(windows, s[i])
  }

  lemma {:induction false} SplitAtSeparator(a: string, c: char, b: string, windows: bool)
    requires IsSeparator(windows, c)
    ensures Split(a + [c] + b, windows) == Split(a, windows) + Split(b, windows)
    decreases |b|
  {
    if b == [] {
      assert a + [c] + b == a + [c];
      SplitOneMore(a, c, windows);
    } else {
      var n := |b| - 1;
      SplitAtSeparator(a, c, b[..n], windows);
      LastCharacter(a, c, b);
      SplitOneMore(a + [c] + b[..n], b[n], windows);
      SplitOneMore(b[..n], b[n], windows);
      PushAppend(Split(a, windows), Split(b[..n], windows), windows, b[n]);
    }
  }

  lemma SplitOneMore(s: string, c: char, windows: bool)
    ensures Split(s + [c], windows) == Push(Split(s, windows), windows, c)
  {
    assert (s + [c])[..|s|] == s;
  }

  lemma LastCharacter(a: string, c: char, b: string)
    requires b != []
    ensures a + [c] + b == (a + [c] + b[..|b| - 1]) + [b[|b| - 1]]
    ensures b == b[..|b| - 1] + [b[|b| - 1]]
  {}

  lemma PushAppend(a: seq<string>, b: seq<string>, windows: bool, c: char)
    requires b != []
    ensures Push(a + b, windows, c) == a + Push(b, windows, c)
  {}

  lemma {:induction false} SplitSegment(s: string, windows: bool)
    requires forall i :: 0 <= i < |s| ==> !IsSeparator(windows, s[i])
    ensures Split(s, windows) == [s]
  {
    if s != [] {
      SplitSegment(s[..|s| - 1], windows);
      assert s == s[..|s| - 1] + [s[|s| - 1]];
    }
  }

  lemma {:induction false} NonEmptyAppend(a: seq<string>, b: seq<string>)
    ensures NonEmpty(a + b) == NonEmpty(a) + NonEmpty(b)
  {
    if b == [] {
      assert a + b == a;
    } else {
      assert (a + b)[..|a + b| - 1] == a + b[..|b| - 1];
      NonEmptyAppend(a, b[..|b| - 1]);
    }
  }

  lemma SingleNonEmpty(s: string)
    ensures NonEmpty([s]) == if s == "" then [] else [s]
  {
    assert [s][..0] == [];
  }

  lemma {:induction false} TrimKeepsParts(s: string, windows: bool)
    ensures NonEmpty(Split(TrimEnd(s, windows), windows)) == NonEmpty(Split(s, windows))
  {
    if s != [] && IsSeparator(windows, s[|s| - 1]) {
      TrimKeepsParts(s[..|s| - 1], windows);
      NonEmptyAppend(Split(s[..|s| - 1], windows), [""]);
      SingleNonEmpty("");
    }
  }

  lemma {:induction false} NoPartsMeansSeparators(s: string, windows: bool)
    ensures NonEmpty(Split(s, windows)) == [] <==> forall i :: 0 <= i < |s| ==> IsSeparator(windows, s[i])
  {
    if s == [] {
      SingleNonEmpty("");
    } else {
      var n := |s| - 1;
      NoPartsMeansSeparators(s[..n], windows);
      PushParts(Split(s[..n], windows), windows, s[n]);
      assert s == s[..n] + [s[n]];
    }
  }

  lemma PushParts(r: seq<string>, windows: bool, c: char)
    requires r != []
    ensures NonEmpty(Push(r, windows, c)) == [] <==> NonEmpty(r) == [] && IsSeparator(windows, c)
  {
    if IsSeparator(windows, c) {
      NonEmptyAppend(r, [""]);
      SingleNonEmpty("");
    } else {
      var last := r[|r| - 1] + [c];
      NonEmptyAppend(r[..|r| - 1], [last]);
      SingleNonEmpty(last);
    }
  }

  // ------------------------------------------------------------ the join law

  lemma JoinedParts(p: string, segment: string)
    requires IsSegment(IsWindows(p), segment)
    ensures NonEmpty(Split(Join(p, segment), IsWindows(p))) == Components(p) + [segment]
  {
    var windows := IsWindows(p);
    var trimmed, c := TrimEnd(p, windows), if windows then '\\' else '/';
    SplitAtSeparator(trimmed, c, segment, windows);
    SplitSegment(segment, windows);
    NonEmptyAppend(Split(trimmed, windows), [segment]);
    SingleNonEmpty(segment);
    TrimKeepsParts(p, windows);
  }

  // What is left after trimming still shows the platform.
  lemma TrimmedStart(p: string)
    requires IsAbsolute(p)
    ensures var t := TrimEnd(p, IsWindows(p));
            && t <= p
            && (IsWindows(p) && Components(p) != [] ==> |t| >= 2 && (|t| == 2 ==> IsLetter(p[0])))
            && (!IsWindows(p) ==> p == "/" || (|t| >= 2 && p[1] != '/'))
  {
    if IsWindows(p) {
      if Components(p) != [] {
        NoPartsMeansSeparators(p, true);
        var i :| 0 <= i < |p| && !IsSeparator(true, p[i]);
        TrimmedWindows(p, i);
      }
    } else if |p| > 1 {
      TrimKeeps(p, false, 1);
    }
  }

  lemma TrimKeeps(p: string, windows: bool, i: nat)
    requires i < |p| && !IsSeparator(windows, p[i])
    ensures i < |TrimEnd(p, windows)|
  {}

  lemma TrimmedWindows(p: string, i: nat)
    requires IsWindows(p) && i < |p| && !IsSeparator(true, p[i])
    ensures var t := TrimEnd(p, true); |t| >= 2 && (|t| == 2 ==> IsLetter(p[0]))
  {
    TrimKeeps(p, true, i);
    if IsSeparator(true, p[0]) {
      assert IsSeparator(true, p[1]);
    } else {
      TrimKeeps(p, true, 1);
    }
  }

  lemma JoinKeepsPlatform(p: string, segment: string)
    requires IsAbsolute(p) && IsSegment(IsWindows(p), segment)
    ensures IsWindows(Join(p, segment)) == IsWindows(p) <==> !(IsWindows(p) && Components(p) == [])
  {
    TrimmedStart(p);
    JoinShape(p, segment);
    FirstCharacters(p);
    FirstCharacters(Join(p, segment));
    if IsWindows(p) && Components(p) == [] { BareTrim(p); }
  }

  // A Windows path shows in its first characters.
  lemma FirstCharacters(p: string)
    ensures IsWindows(p) <==>
            || (|p| >= 3 && IsLetter(p[0]) && p[1] == ':' && (p[2] == '\\' || p[2] == '/'))
            || (|p| >= 2 && p[0] == p[1] && (p[0] == '\\' || p[0] == '/'))
  {
    assert "\\\\" <= p <==> |p| >= 2 && p[0] == '\\' && p[1] == '\\';
    assert "//" <= p <==> |p| >= 2 && p[0] == '/' && p[1] == '/';
  }

  lemma JoinShape(p: string, segment: string)
    requires segment != []
    ensures var t, j := TrimEnd(p, IsWindows(p)), Join(p, segment);
            && |j| >= |t| + 2
            && (forall i :: 0 <= i < |t| ==> j[i] == p[i])
            && j[|t|] == (if IsWindows(p) then '\\' else '/') && j[|t| + 1] == segment[0]
  {}

  lemma BareTrim(p: string)
    requires NonEmpty(Split(p, true)) == []
    ensures TrimEnd(p, true) == []
  {
    NoPartsMeansSeparators(p, true);
  }

  // For every accepted path and segment: joining keeps the platform and appends exactly the
  // segment, except for a bare `//` or `\\` root, which stops being a Windows path.
  lemma JoinLaw(p: string, segment: string)
    requires FromAbsolute(p).Some? && IsSegment(IsWindows(p), segment)
    ensures IsWindows(Join(p, segment)) == IsWindows(p) &&
            Components(Join(p, segment)) == Components(p) + [segment] <==>
            p == "/" || Components(p) != []
    ensures !IsWindows(p) && Components(p) == [] ==> p == "/"
  {
    JoinKeepsPlatform(p, segment);
    JoinedParts(p, segment);
    TrimmedStart(p);
    NoPartsMeansSeparators(p, IsWindows(p));
    if !IsWindows(p) && |p| > 1 { assert !IsSeparator(false, p[1]); }
  }

  // The bare roots at which it fails.
  lemma BareRootLosesPlatform(segment: string)
    requires IsSegment(true, segment)
    ensures IsWindows("//") && !IsWindows(Join("//", segment))
    ensures IsWindows("\\\\") && !IsWindows(Join("\\\\", segment))
  {
    BareRoot("//", segment);
    BareRoot("\\\\", segment);
  }

  lemma BareRoot(p: string, segment: string)
    requires p == "//" || p == "\\\\"
    requires IsSegment(true, segment)
    ensures IsWindows(p) && !IsWindows(Join(p, segment))
  {
    NoPartsMeansSeparators(p, true);
    JoinKeepsPlatform(p, segment);
  }

  // The same for any list of segments.
  lemma JoinAllLaw(p: string, segments: seq<string>)
    requires FromAbsolute(p).Some? && (p == "/" || Components(p) != [])
    requires forall i :: 0 <= i < |segments| ==> IsSegment(IsWindows(p), segments[i])
    ensures FromAbsolute(JoinAll(p, segments)).Some? && IsWindows(JoinAll(p, segments)) == IsWindows(p)
    ensures Components(JoinAll(p, segments)) == Components(p) + segments
  {
    JoinAllExtends(p, segments);
  }

  ghost predicate Extends(p: string, q: string, segments: seq<string>) {
    && FromAbsolute(q).Some? && IsWindows(q) == IsWindows(p) && Components(q) == Components(p) + segments
    && (segments == [] ==> q == p)
  }

  lemma {:induction false} JoinAllExtends(p: string, segments: seq<string>)
    requires FromAbsolute(p).Some? && (p == "/" || Components(p) != [])
    requires forall i :: 0 <= i < |segments| ==> IsSegment(IsWindows(p), segments[i])
    ensures Extends(p, JoinAll(p, segments), segments)
  {
    if segments == [] {
      assert Components(p) + [] == Components(p);
    } else {
      var n := |segments| - 1;
      JoinAllExtends(p, segments[..n]);
      JoinOneMore(p, JoinAll(p, segments[..n]), segments[..n], segments[n]);
      assert segments == segments[..n] + [segments[n]];
    }
  }

  lemma JoinOneMore(p: string, q: string, before: seq<string>, segment: string)
    requires (p == "/" || Components(p) != []) && Extends(p, q, before) && IsSegment(IsWindows(p), segment)
    ensures Extends(p, Join(q, segment), before + [segment])
  {
    assert q == "/" || Components(q) != [];
    JoinLaw(q, segment);
    JoinStaysAbsolute(q, segment);
    Associative(Components(p), before, [segment]);
  }

  lemma JoinStaysAbsolute(p: string, segment: string)
    requires IsAbsolute(p) && IsSegment(IsWindows(p), segment) && !(IsWindows(p) && Components(p) == [])
    ensures IsAbsolute(Join(p, segment))
  {
    JoinKeepsPlatform(p, segment);
    var t, j := TrimEnd(p, IsWindows(p)), Join(p, segment);
    if !IsWindows(p) {
      if t == [] { assert j[0] == '/'; } else { assert j[0] == t[0] == p[0]; }
    }
  }
}
