/**
  Codex release tags and PEP 440 versions.  The regular expressions of the source are
  anchored at the end of the string, so they are read from the end: digits, then the
  marker before them.
 */
module ReleaseVersion {
  import opened Common

  predicate IsDigit(c: char) { '0' <= c <= '9' }

  predicate Digits(s: string) { s != [] && forall i :: 0 <= i < |s| ==> IsDigit(s[i]) }

  // The length of the longest run of digits that ends the string.
  function DigitRun(s: string): (n: nat)
    ensures n <= |s|
  {
    if s == [] || !IsDigit(s[|s| - 1]) then 0 else 1 + DigitRun(s[..|s| - 1])
  }

  function Head(s: string): string { s[..|s| - DigitRun(s)] }
  function Tail(s: string): string { s[|s| - DigitRun(s)..] }

  predicate EndsWith(s: string, k: string) { |k| <= |s| && s[|s| - |k|..] == k }

  function DropEnd(s: string, k: nat): string
    requires k <= |s|
  {
    s[..|s| - k]
  }

  lemma {:induction false} DigitRunIs(s: string)
    ensures forall i :: |s| - DigitRun(s) <= i < |s| ==> IsDigit(s[i])
    ensures DigitRun(s) < |s| ==> !IsDigit(s[|s| - DigitRun(s) - 1])
  {
    if s != [] && IsDigit(s[|s| - 1]) { DigitRunIs(s[..|s| - 1]); }
  }

  lemma {:induction false} DigitRunLength(h: string, d: string)
    requires d == [] || Digits(d)
    requires h == [] || !IsDigit(h[|h| - 1])
    ensures DigitRun(h + d) == |d|
  {
    if d == [] {
      assert h + d == h;
    } else {
      var n := |d| - 1;
      assert (h + d)[..|h| + n] == h + d[..n];
      DigitRunLength(h, d[..n]);
    }
  }

  lemma DigitRunOf(h: string, d: string)
    requires Digits(d) && (h == [] || !IsDigit(h[|h| - 1]))
    ensures Head(h + d) == h && Tail(h + d) == d && DigitRun(h + d) == |d|
  {
    DigitRunLength(h, d);
  }

  lemma NoDigits(h: string)
    requires h == [] || !IsDigit(h[|h| - 1])
    ensures DigitRun(h) == 0 && Head(h) == h && Tail(h) == []
  {
    assert DigitRun(h) == 0;
  }

  lemma EndsWithAppend(h: string, k: string)
    ensures EndsWith(h + k, k) && DropEnd(h + k, |k|) == h
  {}

  lemma HeadTail(s: string)
    ensures s == Head(s) + Tail(s) && (Tail(s) != [] ==> Digits(Tail(s)))
    ensures Head(s) == [] || !IsDigit(Head(s)[|Head(s)| - 1])
  {
    DigitRunIs(s);
  }

  // A marker before the final digits splits the string in three.
  lemma MarkerSplits(s: string, k: string)
    requires EndsWith(Head(s), k)
    ensures s == DropEnd(Head(s), |k|) + (k + Tail(s))
    ensures s == DropEnd(Head(s), |k|) + k + Tail(s)
  {
    HeadTail(s);
    assert Head(s) == DropEnd(Head(s), |k|) + k;
  }

  // ------------------------------------------------------------ normalized versions

  datatype Kind = A | B | RC

  function Letter(k: Kind): string {
    match k case A => "a" case B => "b" case RC => "rc"
  }

  function Word(k: Kind): string {
    match k case A => "alpha" case B => "beta" case RC => "rc"
  }

  // release numbers, pre-release, post-release; all numbers as digit strings
  datatype Pep = Pep(release: seq<string>, pre: Option<(Kind, string)>, post: Option<string>)

  ghost predicate ValidRelease(r: seq<string>) {
    r != [] && forall i :: 0 <= i < |r| ==> Digits(r[i])
  }

  ghost predicate Valid(p: Pep) {
    ValidRelease(p.release) && (p.pre.Some? ==> Digits(p.pre.value.1)) && (p.post.Some? ==> Digits(p.post.value))
  }

  function Dotted(r: seq<string>): string {
    if r == [] then "" else if |r| == 1 then r[0] else Dotted(r[..|r| - 1]) + "." + r[|r| - 1]
  }

  function PrintPre(pre: Option<(Kind, string)>): string {
    if pre.None? then "" else Letter(pre.value.0) + pre.value.1
  }

  function PrintPost(post: Option<string>): string {
    if post.None? then "" else ".post" + post.value
  }

  function Print(p: Pep): string { Dotted(p.release) + PrintPre(p.pre) + PrintPost(p.post) }

  // The normalized pattern, as a language.
  ghost predicate IsNormalized(s: string) {
    exists p :: Valid(p) && Print(p) == s
  }

  function ParseRelease(s: string): Option<seq<string>> {
    var h, d := Head(s), Tail(s);
    if d == [] then None
    else if h == [] then Some([d])
    else if h[|h| - 1] != '.' then None
    else
      match ParseRelease(DropEnd(h, 1))
      case None => None
      case Some(r) => Some(r + [d])
  }

  // The text before a post-release, and the post-release.
  function SplitPost(s: string): (string, Option<string>) {
    var h, d := Head(s), Tail(s);
    if d != [] && EndsWith(h, ".post") then (DropEnd(h, 5), Some(d)) else (s, None)
  }

  function SplitPre(s: string): (string, Option<(Kind, string)>) {
    var h, d := Head(s), Tail(s);
    if d == [] then (s, None)
    else if EndsWith(h, "a") then (DropEnd(h, 1), Some((A, d)))
    else if EndsWith(h, "b") then (DropEnd(h, 1), Some((B, d)))
    else if EndsWith(h, "rc") then (DropEnd(h, 2), Some((RC, d)))
    else (s, None)
  }

  function Parse(s: string): Option<Pep> {
    var (s1, post) := SplitPost(s);
    var (s2, pre) := SplitPre(s1);
    match ParseRelease(s2)
    case None => None
    case Some(r) => Some(Pep(r, pre, post))
  }

  lemma DottedAppend(r: seq<string>, d: string)
    requires r != []
    ensures Dotted(r + [d]) == Dotted(r) + "." + d
  {
    assert (r + [d])[..|r|] == r;
  }

  lemma {:induction false} ParseReleaseSound(s: string)
    ensures ParseRelease(s).Some? ==> ValidRelease(ParseRelease(s).value) && Dotted(ParseRelease(s).value) == s
  {
    HeadTail(s);
    var h, d := Head(s), Tail(s);
    if d != [] && h != [] && h[|h| - 1] == '.' {
      assert EndsWith(h, ".");
      MarkerSplits(s, ".");
      ParseReleaseSound(DropEnd(h, 1));
      var rest := ParseRelease(DropEnd(h, 1));
      if rest.Some? { DottedAppend(rest.value, d); }
    }
  }

  lemma SplitPostSound(s: string)
    ensures var (s1, post) := SplitPost(s); s == s1 + PrintPost(post) && (post.Some? ==> Digits(post.value))
  {
    HeadTail(s);
    if EndsWith(Head(s), ".post") { MarkerSplits(s, ".post"); }
  }

  lemma SplitPreSound(s: string)
    ensures var (s1, pre) := SplitPre(s); s == s1 + PrintPre(pre) && (pre.Some? ==> Digits(pre.value.1))
  {
    HeadTail(s);
    if EndsWith(Head(s), "a") {
      MarkerSplits(s, "a");
    } else if EndsWith(Head(s), "b") {
      MarkerSplits(s, "b");
    } else if EndsWith(Head(s), "rc") {
      MarkerSplits(s, "rc");
    }
  }

  lemma ParseSound(s: string)
    requires Parse(s).Some?
    ensures Valid(Parse(s).value) && Print(Parse(s).value) == s
  {
    SplitPostSound(s);
    var (s1, post) := SplitPost(s);
    SplitPreSound(s1);
    var (s2, pre) := SplitPre(s1);
    ParseReleaseSound(s2);
  }

  lemma {:induction false} DottedShape(r: seq<string>)
    requires ValidRelease(r)
    ensures Dotted(r) != [] && IsDigit(Dotted(r)[0]) && IsDigit(Dotted(r)[|Dotted(r)| - 1])
    ensures forall i :: 0 <= i < |Dotted(r)| ==> IsDigit(Dotted(r)[i]) || Dotted(r)[i] == '.'
  {
    if |r| > 1 {
      DottedShape(r[..|r| - 1]);
      assert r[|r| - 1] in r;
    } else {
      assert Digits(r[0]);
    }
  }

  lemma {:induction false} ParseReleaseComplete(r: seq<string>)
    requires ValidRelease(r)
    ensures ParseRelease(Dotted(r)) == Some(r)
  {
    var n := |r| - 1;
    assert Digits(r[n]);
    DottedLast(r);
    LastOf(r);
    if n == 0 {
      ParseReleaseOne(r[0]);
    } else {
      ParseReleaseComplete(r[..n]);
      ParseReleaseStep(Dotted(r[..n]), r[n]);
    }
  }

  lemma DottedLast(r: seq<string>)
    requires r != []
    ensures Dotted(r) == if |r| == 1 then r[0] else Dotted(r[..|r| - 1]) + "." + r[|r| - 1]
  {}

  lemma LastOf(r: seq<string>)
    requires r != []
    ensures r == r[..|r| - 1] + [r[|r| - 1]]
    ensures |r| == 1 ==> r == [r[0]]
  {}

  lemma ParseReleaseOne(d: string)
    requires Digits(d)
    ensures ParseRelease(d) == Some([d])
  {
    assert "" + d == d;
    DigitRunOf("", d);
  }

  lemma ParseReleaseStep(s: string, d: string)
    requires Digits(d) && ParseRelease(s).Some?
    ensures ParseRelease(s + "." + d) == Some(ParseRelease(s).value + [d])
  {
    DigitRunOf(s + ".", d);
    EndsWithAppend(s, ".");
  }

  // The text before the final digits of a dotted release ends in a dot, if there is any.
  lemma DottedHead(r: seq<string>)
    requires ValidRelease(r)
    ensures Tail(Dotted(r)) != [] && (Head(Dotted(r)) == [] || Head(Dotted(r))[|Head(Dotted(r))| - 1] == '.')
  {
    var s := Dotted(r);
    DottedShape(r);
    HeadTail(s);
    if Head(s) != [] { assert s[|Head(s)| - 1] == Head(s)[|Head(s)| - 1]; }
  }

  // The character before the final digits of release and pre-release.
  lemma BaseHead(r: seq<string>, pre: Option<(Kind, string)>)
    requires ValidRelease(r) && (pre.Some? ==> Digits(pre.value.1))
    ensures var b := Dotted(r) + PrintPre(pre);
            && Tail(b) != []
            && (pre.Some? ==> Head(b) == Dotted(r) + Letter(pre.value.0) && Tail(b) == pre.value.1)
            && (pre.None? ==> Head(b) == [] || Head(b)[|Head(b)| - 1] == '.')
  {
    var b := Dotted(r) + PrintPre(pre);
    if pre.Some? {
      var h := Dotted(r) + Letter(pre.value.0);
      Associative(Dotted(r), Letter(pre.value.0), pre.value.1);
      DigitRunOf(h, pre.value.1);
    } else {
      assert b == Dotted(r);
      DottedHead(r);
    }
  }

  lemma EndsIn(h: string, k: string)
    requires h == [] || k == [] || h[|h| - 1] != k[|k| - 1]
    requires k != []
    ensures !EndsWith(h, k)
  {
    if |k| <= |h| { assert h[|h| - |k|..][|k| - 1] == h[|h| - 1]; }
  }

  lemma SplitsPost(b: string, d: string)
    requires Digits(d)
    ensures SplitPost(b + (".post" + d)) == (b, Some(d))
  {
    Associative(b, ".post", d);
    DigitRunOf(b + ".post", d);
    EndsWithAppend(b, ".post");
  }

  lemma NoPost(r: seq<string>, pre: Option<(Kind, string)>)
    requires ValidRelease(r) && (pre.Some? ==> Digits(pre.value.1))
    ensures SplitPost(Dotted(r) + PrintPre(pre)) == (Dotted(r) + PrintPre(pre), None)
  {
    var b := Dotted(r) + PrintPre(pre);
    BaseHead(r, pre);
    if pre.Some? { LetterEnds(Dotted(r), pre.value.0); }
    EndsIn(Head(b), ".post");
  }

  lemma LetterEnds(s: string, k: Kind)
    ensures var h := s + Letter(k); h != [] && h[|h| - 1] != 't'
  {}

  lemma SplitPostComplete(r: seq<string>, pre: Option<(Kind, string)>, post: Option<string>)
    requires Valid(Pep(r, pre, post))
    ensures SplitPost(Dotted(r) + PrintPre(pre) + PrintPost(post)) == (Dotted(r) + PrintPre(pre), post)
  {
    var b := Dotted(r) + PrintPre(pre);
    if post.Some? {
      SplitsPost(b, post.value);
    } else {
      assert b + PrintPost(post) == b;
      NoPost(r, pre);
    }
  }

  lemma SplitPreComplete(r: seq<string>, pre: Option<(Kind, string)>)
    requires ValidRelease(r) && (pre.Some? ==> Digits(pre.value.1))
    ensures SplitPre(Dotted(r) + PrintPre(pre)) == (Dotted(r), pre)
  {
    var b := Dotted(r) + PrintPre(pre);
    BaseHead(r, pre);
    if pre.Some? {
      var k := pre.value.0;
      EndsWithAppend(Dotted(r), Letter(k));
      match k {
        case A =>
        case B => EndsIn(Head(b), "a");
        case RC => EndsIn(Head(b), "a"); EndsIn(Head(b), "b");
      }
    } else {
      EndsIn(Head(b), "a");
      EndsIn(Head(b), "b");
      EndsIn(Head(b), "rc");
      assert b == Dotted(r);
    }
  }

  lemma ParseComplete(p: Pep)
    requires Valid(p)
    ensures Parse(Print(p)) == Some(p)
  {
    SplitPostComplete(p.release, p.pre, p.post);
    SplitPreComplete(p.release, p.pre);
    ParseReleaseComplete(p.release);
  }

  // The reading from the end recognizes exactly the normalized pattern, with one reading each.
  lemma ParseIff(s: string)
    ensures Parse(s).Some? <==> IsNormalized(s)
  {
    if Parse(s).Some? { ParseSound(s); }
    if IsNormalized(s) {
      var p :| Valid(p) && Print(p) == s;
      ParseComplete(p);
    }
  }

  // ------------------------------------------------------------ the source's functions

  predicate IsSpace(c: char) {
    var n := c as int;
    9 <= n <= 13 || 0x1C <= n <= 0x20 || n in {0x85, 0xA0, 0x1680, 0x2028, 0x2029, 0x202F, 0x205F, 0x3000} ||
      0x2000 <= n <= 0x200A
  }

  function StripLeft(s: string): string {
    if s != [] && IsSpace(s[0]) then StripLeft(s[1..]) else s
  }

  function StripRight(s: string): string {
    if s != [] && IsSpace(s[|s| - 1]) then StripRight(s[..|s| - 1]) else s
  }

  function StripPrefix(s: string): string {
    if "rust-v" <= s then s[6..] else if "v" <= s then s[1..] else s
  }

  // -alpha[.]N.M at the end becomes aN.postM
  function SubstituteHotfix(s: string): string {
    var h, m := Head(s), Tail(s);
    if m == [] || !EndsWith(h, ".") then s else
      var h1, n := Head(DropEnd(h, 1)), Tail(DropEnd(h, 1));
      if n == [] then s
      else if EndsWith(h1, "-alpha.") then DropEnd(h1, 7) + "a" + n + ".post" + m
      else if EndsWith(h1, "-alpha") then DropEnd(h1, 6) + "a" + n + ".post" + m
      else s
  }

  // -WORD[.]N at the end becomes LETTER N
  function Substitute(s: string, k: Kind): string {
    var h, n := Head(s), Tail(s);
    if n == [] then s
    else if EndsWith(h, "-" + Word(k) + ".") then DropEnd(h, |Word(k)| + 2) + Letter(k) + n
    else if EndsWith(h, "-" + Word(k)) then DropEnd(h, |Word(k)| + 1) + Letter(k) + n
    else s
  }

  function Substituted(s: string): string {
    Substitute(Substitute(Substitute(SubstituteHotfix(s), A), B), RC)
  }

  function Normalize(v: string): Option<string> {
    var s := Substituted(StripPrefix(StripRight(StripLeft(v))));
    if Parse(s).Some? then Some(s) else None
  }

  function ReleaseText(p: Pep): string {
    if p.pre.Some? && p.pre.value.0 == A && p.post.Some? then
      Dotted(p.release) + "-alpha." + p.pre.value.1 + "." + p.post.value
    else if p.pre.Some? && p.post.None? then
      Dotted(p.release) + "-" + Word(p.pre.value.0) + "." + p.pre.value.1
    else Print(p)
  }

  function ReleaseTag(v: string): Option<string> {
    match Normalize(v)
    case None => None
    case Some(n) => match Parse(n) case None => None case Some(p) => Some("rust-v" + ReleaseText(p))
  }

  // Stable, numbered alpha, or alpha post-release of a three-part version.
  predicate RuntimeShape(p: Pep) {
    |p.release| == 3 && (p.pre.None? ==> p.post.None?) && (p.pre.Some? ==> p.pre.value.0 == A)
  }

  function WithTag(s: string): Option<(string, string)> {
    match ReleaseTag(s) case None => None case Some(t) => Some((s, t))
  }

  function ResolveRuntime(s: string): Option<(string, string)> {
    var p := Parse(s);
    if p.Some? && RuntimeShape(p.value) then WithTag(s) else None
  }
}
