/**
  Normalization and release tags undo each other.
 */
module VersionTheorems {
  import opened Common
  import opened ReleaseVersion

  ghost predicate NoDash(s: string) { forall i :: 0 <= i < |s| ==> s[i] != '-' }

  // Starts and ends with a digit and holds no dash: nothing to strip, nothing to substitute.
  ghost predicate Settled(s: string) {
    s != [] && IsDigit(s[0]) && IsDigit(s[|s| - 1]) && NoDash(s)
  }

  lemma PrintIsSettled(p: Pep)
    requires Valid(p)
    ensures Settled(Print(p))
  {
    DottedShape(p.release);
    var base := Dotted(p.release) + PrintPre(p.pre);
    assert Settled(base) by {
      if p.pre.Some? { match p.pre.value.0 case A => case B => case RC => }
    }
  }

  lemma NoDashNoMarker(h: string, k: string)
    requires NoDash(h) && k != [] && k[0] == '-'
    ensures !EndsWith(h, k)
  {
    if |k| <= |h| { assert h[|h| - |k|..][0] == h[|h| - |k|]; }
  }

  lemma SubstituteSettled(s: string, k: Kind)
    requires NoDash(s)
    ensures Substitute(s, k) == s
  {
    NoDashNoMarker(Head(s), "-" + Word(k) + ".");
    NoDashNoMarker(Head(s), "-" + Word(k));
  }

  lemma HotfixSettled(s: string)
    requires NoDash(s)
    ensures SubstituteHotfix(s) == s
  {
    var h := Head(s);
    if EndsWith(h, ".") {
      var h1 := Head(DropEnd(h, 1));
      NoDashNoMarker(h1, "-alpha.");
      NoDashNoMarker(h1, "-alpha");
    }
  }

  lemma SubstitutedSettled(s: string)
    requires NoDash(s)
    ensures Substituted(s) == s
  {
    HotfixSettled(s);
    SubstituteSettled(s, A);
    SubstituteSettled(s, B);
    SubstituteSettled(s, RC);
  }

  lemma DigitIsNoSpace(c: char)
    requires IsDigit(c)
    ensures !IsSpace(c) && c != 'r' && c != 'v'
  {}

  // Text that starts and ends in no space is not stripped.
  lemma NothingToStrip(s: string)
    requires s != [] && !IsSpace(s[0]) && !IsSpace(s[|s| - 1])
    ensures StripRight(StripLeft(s)) == s
  {}

  lemma NormalizeSettled(p: Pep)
    requires Valid(p)
    ensures Normalize(Print(p)) == Some(Print(p))
  {
    var s := Print(p);
    PrintIsSettled(p);
    DigitIsNoSpace(s[0]);
    DigitIsNoSpace(s[|s| - 1]);
    NothingToStrip(s);
    assert StripPrefix(s) == s;
    SubstitutedSettled(s);
    ParseComplete(p);
  }

  // Normalizing twice is normalizing once.
  lemma NormalizeIdempotent(v: string)
    ensures Normalize(v).Some? ==> Normalize(Normalize(v).value) == Normalize(v)
  {
    if Normalize(v).Some? {
      var n := Normalize(v).value;
      ParseSound(n);
      NormalizeSettled(Parse(n).value);
    }
  }

  // A tag is read by dropping its prefix.
  lemma NormalizeTagged(s: string)
    requires s != [] && IsDigit(s[|s| - 1])
    ensures Normalize("rust-v" + s) == if Parse(Substituted(s)).Some? then Some(Substituted(s)) else None
  {
    var t := "rust-v" + s;
    assert t[0] == 'r' && t[|t| - 1] == s[|s| - 1];
    DigitIsNoSpace(s[|s| - 1]);
    NothingToStrip(t);
    assert StripPrefix(t) == s;
  }

  // ------------------------------------------------------------ substitution undoes the release text

  lemma HotfixUndone(base: string, n: string, m: string)
    requires Digits(n) && Digits(m)
    ensures SubstituteHotfix(base + "-alpha." + n + "." + m) == base + "a" + n + ".post" + m
  {
    var h1 := base + "-alpha.";
    var h := h1 + n + ".";
    DigitRunOf(h, m);
    EndsWithAppend(h1 + n, ".");
    DigitRunOf(h1, n);
    EndsWithAppend(base, "-alpha.");
  }

  lemma WordUndone(base: string, k: Kind, n: string)
    requires Digits(n)
    ensures Substitute(base + "-" + Word(k) + "." + n, k) == base + Letter(k) + n
  {
    var marker := "-" + Word(k) + ".";
    var h := base + marker;
    assert base + "-" + Word(k) + "." + n == h + n;
    DigitRunOf(h, n);
    EndsWithAppend(base, marker);
  }

  // A pre-release text is not a hotfix: before its last number stands a word.
  lemma WordIsNoHotfix(base: string, k: Kind, n: string)
    requires Digits(n)
    ensures SubstituteHotfix(base + "-" + Word(k) + "." + n) == base + "-" + Word(k) + "." + n
  {
    var w := base + "-" + Word(k);
    DigitRunOf(w + ".", n);
    EndsWithAppend(w, ".");
    assert !IsDigit(w[|w| - 1]) by { assert w[|w| - 1] == Word(k)[|Word(k)| - 1]; }
    NoDigits(w);
  }

  // The two letters before the dot tell the words apart.
  lemma WordsDiffer(base: string, k: Kind, j: Kind)
    requires j != k
    ensures !EndsWith(base + "-" + Word(k) + ".", "-" + Word(j) + ".")
    ensures !EndsWith(base + "-" + Word(k) + ".", "-" + Word(j))
  {
    var h := base + "-" + Word(k) + ".";
    EndsIn(h, "-" + Word(j));
    EndingLetters(h, "-" + Word(j) + ".");
    match k case A => case B => case RC =>
  }

  // Each word is only replaced by its own substitution.
  lemma OtherWord(base: string, k: Kind, j: Kind, n: string)
    requires Digits(n) && j != k
    ensures Substitute(base + "-" + Word(k) + "." + n, j) == base + "-" + Word(k) + "." + n
  {
    DigitRunOf(base + "-" + Word(k) + ".", n);
    WordsDiffer(base, k, j);
  }

  lemma EndingLetters(h: string, k: string)
    requires |k| >= 3
    ensures EndsWith(h, k) ==> h[|h| - 3] == k[|k| - 3] && h[|h| - 2] == k[|k| - 2]
  {
    if EndsWith(h, k) {
      var e := h[|h| - |k|..];
      assert e[|k| - 3] == h[|h| - 3] && e[|k| - 2] == h[|h| - 2];
    }
  }

  lemma PrintParts(p: Pep)
    requires p.pre.Some?
    ensures p.post.Some? ==>
            Print(p) == Dotted(p.release) + Letter(p.pre.value.0) + p.pre.value.1 + ".post" + p.post.value
    ensures p.post.None? ==> Print(p) == Dotted(p.release) + Letter(p.pre.value.0) + p.pre.value.1
  {
    Associative(Dotted(p.release), Letter(p.pre.value.0), p.pre.value.1);
    if p.post.Some? { Associative(Dotted(p.release) + PrintPre(p.pre), ".post", p.post.value); }
  }

  lemma PreReleaseUndone(p: Pep)
    requires Valid(p) && p.pre.Some? && p.post.None?
    ensures Substituted(ReleaseText(p)) == Print(p)
  {
    var base, k, n := Dotted(p.release), p.pre.value.0, p.pre.value.1;
    PrintIsSettled(p);
    PrintParts(p);
    WordIsNoHotfix(base, k, n);
    WordUndone(base, k, n);
    SubstituteSettled(Print(p), B);
    SubstituteSettled(Print(p), RC);
    match k {
      case A =>
      case B => OtherWord(base, B, A, n);
      case RC => OtherWord(base, RC, A, n); OtherWord(base, RC, B, n);
    }
  }

  lemma ReleaseTextUndone(p: Pep)
    requires Valid(p)
    ensures Substituted(ReleaseText(p)) == Print(p)
  {
    PrintIsSettled(p);
    if p.pre.Some? && p.pre.value.0 == A && p.post.Some? {
      HotfixUndone(Dotted(p.release), p.pre.value.1, p.post.value);
      PrintParts(p);
      SubstituteSettled(Print(p), A);
      SubstituteSettled(Print(p), B);
      SubstituteSettled(Print(p), RC);
    } else if p.pre.Some? && p.post.None? {
      PreReleaseUndone(p);
    } else {
      SubstitutedSettled(Print(p));
    }
  }

  lemma ReleaseTextEnds(p: Pep)
    requires Valid(p)
    ensures ReleaseText(p) != [] && IsDigit(ReleaseText(p)[|ReleaseText(p)| - 1])
  {
    PrintIsSettled(p);
  }

  // Exactly the accepted versions have a tag, and it normalizes to what the version normalizes to.
  lemma TagRoundTrip(v: string)
    ensures ReleaseTag(v).Some? <==> Normalize(v).Some?
    ensures ReleaseTag(v).Some? ==> Normalize(ReleaseTag(v).value) == Normalize(v)
  {
    if Normalize(v).Some? {
      var n := Normalize(v).value;
      ParseSound(n);
      ReleaseTextNormalizes(Parse(n).value);
    }
  }

  lemma ReleaseTextNormalizes(p: Pep)
    requires Valid(p)
    ensures Normalize("rust-v" + ReleaseText(p)) == Some(Print(p))
  {
    ParseComplete(p);
    ReleaseTextUndone(p);
    ReleaseTextEnds(p);
    NormalizeTagged(ReleaseText(p));
  }

  // Two versions share a tag exactly when they normalize equally.
  lemma SameTagIff(v: string, w: string)
    ensures ReleaseTag(v) == ReleaseTag(w) <==> Normalize(v) == Normalize(w)
  {
    TagRoundTrip(v);
    TagRoundTrip(w);
  }

  lemma NormalizeAccepted(s: string)
    requires Parse(s).Some?
    ensures Normalize(s) == Some(s)
  {
    ParseSound(s);
    NormalizeSettled(Parse(s).value);
  }

  lemma TaggedRecovers(s: string)
    requires Parse(s).Some?
    ensures WithTag(s).Some? && WithTag(s).value.0 == s && Normalize(WithTag(s).value.1) == Some(s)
  {
    NormalizeAccepted(s);
    TagRoundTrip(s);
  }

  // Every runtime version is resolved, and recovered exactly from its tag.
  lemma RuntimeRecovered(p: Pep)
    requires Valid(p) && RuntimeShape(p)
    ensures match ResolveRuntime(Print(p))
            case None => false
            case Some(r) => r.0 == Print(p) && Normalize(r.1) == Some(Print(p))
  {
    ParseComplete(p);
    TaggedRecovers(Print(p));
  }

  // Nothing else is resolved.
  lemma OnlyRuntimeVersionsResolve(s: string)
    ensures ResolveRuntime(s).Some? <==> exists p :: Valid(p) && RuntimeShape(p) && Print(p) == s
  {
    if ResolveRuntime(s).Some? {
      ParseSound(s);
      assert RuntimeShape(Parse(s).value);
    }
    forall p | Valid(p) && RuntimeShape(p) && Print(p) == s ensures ResolveRuntime(s).Some? { RuntimeRecovered(p); }
  }

  // ------------------------------------------------------------ spellings

  lemma NormalizePrefixed(prefix: string, s: string)
    requires prefix in {"", "v", "rust-v"}
    requires s != [] && IsDigit(s[0]) && IsDigit(s[|s| - 1])
    ensures Normalize(prefix + s) == if Parse(Substituted(s)).Some? then Some(Substituted(s)) else None
  {
    var t := prefix + s;
    DigitIsNoSpace(s[0]);
    DigitIsNoSpace(s[|s| - 1]);
    assert t[|t| - 1] == s[|s| - 1] && (prefix == "" ==> t == s) && (prefix != "" ==> t[0] == prefix[0]);
    NothingToStrip(t);
    PrefixIsStripped(prefix, s);
  }

  lemma PrefixIsStripped(prefix: string, s: string)
    requires prefix in {"", "v", "rust-v"} && s != [] && IsDigit(s[0])
    ensures StripPrefix(prefix + s) == s
  {
    var t := prefix + s;
    if prefix == "" {
      assert t == s;
      assert s[0] != 'r' && s[0] != 'v';
    } else if prefix == "v" {
      assert t[0] == 'v' && "rust-v"[0] == 'r';
    }
    assert t[|prefix|..] == s;
  }

  lemma DotlessWordsDiffer(base: string, k: Kind, j: Kind)
    requires j != k
    ensures !EndsWith(base + "-" + Word(k), "-" + Word(j)) && !EndsWith(base + "-" + Word(k), "-" + Word(j) + ".")
  {
    var h := base + "-" + Word(k);
    EndsIn(h, "-" + Word(j) + ".");
    EndingLetters(h, "-" + Word(j));
    if k == RC || j == RC { EndsIn(h, "-" + Word(j)); }
  }

  lemma DotlessUndone(base: string, k: Kind, n: string)
    requires Digits(n)
    ensures SubstituteHotfix(base + "-" + Word(k) + n) == base + "-" + Word(k) + n
    ensures Substitute(base + "-" + Word(k) + n, k) == base + Letter(k) + n
    ensures forall j :: j != k ==> Substitute(base + "-" + Word(k) + n, j) == base + "-" + Word(k) + n
  {
    var h := base + "-" + Word(k);
    assert h[|h| - 1] == Word(k)[|Word(k)| - 1];
    DigitRunOf(h, n);
    EndsIn(h, ".");
    EndsIn(h, "-" + Word(k) + ".");
    assert h == base + ("-" + Word(k));
    EndsWithAppend(base, "-" + Word(k));
    forall j | j != k ensures Substitute(h + n, j) == h + n { DotlessWordsDiffer(base, k, j); }
  }

  // With or without a prefix, with or without the dot, a pre-release is spelled one way
  // after normalization.
  lemma SpellingsAgree(prefix: string, r: seq<string>, k: Kind, n: string)
    requires prefix in {"", "v", "rust-v"} && ValidRelease(r) && Digits(n)
    ensures var p := Pep(r, Some((k, n)), None);
            && Normalize(prefix + (Dotted(r) + "-" + Word(k) + n)) == Some(Print(p))
            && Normalize(prefix + (Dotted(r) + "-" + Word(k) + "." + n)) == Some(Print(p))
  {
    var p := Pep(r, Some((k, n)), None);
    DottedShape(r);
    NormalizePrefixed(prefix, Dotted(r) + "-" + Word(k) + n);
    NormalizePrefixed(prefix, Dotted(r) + "-" + Word(k) + "." + n);
    DotlessSubstituted(p);
    PreReleaseUndone(p);
    ParseComplete(p);
  }

  lemma DotlessSubstituted(p: Pep)
    requires Valid(p) && p.pre.Some? && p.post.None?
    ensures Substituted(Dotted(p.release) + "-" + Word(p.pre.value.0) + p.pre.value.1) == Print(p)
  {
    PrintIsSettled(p);
    PrintParts(p);
    DotlessUndone(Dotted(p.release), p.pre.value.0, p.pre.value.1);
    SubstituteSettled(Print(p), B);
    SubstituteSettled(Print(p), RC);
    match p.pre.value.0 case A => case B => case RC =>
  }

  // A hotfix is spelled with or without the dot, too.
  lemma HotfixSpellingsAgree(prefix: string, r: seq<string>, n: string, m: string)
    requires prefix in {"", "v", "rust-v"} && ValidRelease(r) && Digits(n) && Digits(m)
    ensures Normalize(prefix + (Dotted(r) + "-alpha" + n + "." + m)) == Some(Dotted(r) + "a" + n + ".post" + m)
    ensures Normalize(prefix + (Dotted(r) + "-alpha." + n + "." + m)) == Some(Dotted(r) + "a" + n + ".post" + m)
  {
    var p := Pep(r, Some((A, n)), Some(m));
    DottedShape(r);
    NormalizePrefixed(prefix, Dotted(r) + "-alpha" + n + "." + m);
    NormalizePrefixed(prefix, Dotted(r) + "-alpha." + n + "." + m);
    PrintParts(p);
    HotfixUndone(Dotted(r), n, m);
    DotlessHotfixUndone(Dotted(r), n, m);
    PrintIsSettled(p);
    SubstituteSettled(Print(p), A);
    SubstituteSettled(Print(p), B);
    SubstituteSettled(Print(p), RC);
    ParseComplete(p);
  }

  lemma DotlessHotfixUndone(base: string, n: string, m: string)
    requires Digits(n) && Digits(m)
    ensures SubstituteHotfix(base + "-alpha" + n + "." + m) == base + "a" + n + ".post" + m
  {
    var h1 := base + "-alpha";
    var h := h1 + n + ".";
    DigitRunOf(h, m);
    EndsWithAppend(h1 + n, ".");
    DigitRunOf(h1, n);
    EndsWithAppend(base, "-alpha");
    EndsIn(h1, "-alpha.");
  }

  // White space around a version is ignored.
  lemma SpaceIsIgnored(v: string, c: char)
    requires IsSpace(c)
    ensures Normalize([c] + v) == Normalize(v) && Normalize(v + [c]) == Normalize(v)
  {
    assert ([c] + v)[1..] == v;
    StripLeftBefore(v, c);
    var s := StripLeft(v);
    assert (s + [c])[..|s|] == s;
  }

  lemma {:induction false} StripLeftBefore(v: string, c: char)
    requires IsSpace(c)
    ensures StripLeft(v + [c]) == if StripLeft(v) == [] then [] else StripLeft(v) + [c]
  {
    if v == [] {
      assert [c][1..] == [] && v + [c] == [c];
    } else if IsSpace(v[0]) {
      assert (v + [c])[1..] == v[1..] + [c];
      StripLeftBefore(v[1..], c);
    }
  }

  // How the tag of each kind of version is spelled.
  lemma StableTag(r: seq<string>)
    requires ValidRelease(r)
    ensures ReleaseTag(Dotted(r)) == Some("rust-v" + Dotted(r))
  {
    assert Dotted(r) + "" + "" == Dotted(r);
    TagOf(Pep(r, None, None), Dotted(r), Dotted(r));
  }

  lemma AlphaTag(r: seq<string>, n: string)
    requires ValidRelease(r) && Digits(n)
    ensures ReleaseTag(Dotted(r) + "a" + n) == Some("rust-v" + (Dotted(r) + "-alpha." + n))
  {
    PreReleaseTexts(r, A, n);
    TagOf(Pep(r, Some((A, n)), None), Dotted(r) + "a" + n, Dotted(r) + "-alpha." + n);
  }

  lemma BetaTag(r: seq<string>, n: string)
    requires ValidRelease(r) && Digits(n)
    ensures ReleaseTag(Dotted(r) + "b" + n) == Some("rust-v" + (Dotted(r) + "-beta." + n))
  {
    PreReleaseTexts(r, B, n);
    TagOf(Pep(r, Some((B, n)), None), Dotted(r) + "b" + n, Dotted(r) + "-beta." + n);
  }

  lemma CandidateTag(r: seq<string>, n: string)
    requires ValidRelease(r) && Digits(n)
    ensures ReleaseTag(Dotted(r) + "rc" + n) == Some("rust-v" + (Dotted(r) + "-rc." + n))
  {
    PreReleaseTexts(r, RC, n);
    TagOf(Pep(r, Some((RC, n)), None), Dotted(r) + "rc" + n, Dotted(r) + "-rc." + n);
  }

  lemma HotfixTag(r: seq<string>, n: string, m: string)
    requires ValidRelease(r) && Digits(n) && Digits(m)
    ensures ReleaseTag(Dotted(r) + "a" + n + ".post" + m) == Some("rust-v" + (Dotted(r) + "-alpha." + n + "." + m))
  {
    var p := Pep(r, Some((A, n)), Some(m));
    PrintParts(p);
    TagOf(p, Dotted(r) + "a" + n + ".post" + m, Dotted(r) + "-alpha." + n + "." + m);
  }

  lemma PreReleaseTexts(r: seq<string>, k: Kind, n: string)
    ensures var p := Pep(r, Some((k, n)), None);
            && Print(p) == Dotted(r) + Letter(k) + n
            && ReleaseText(p) == Dotted(r) + ("-" + Word(k) + ".") + n
  {
    PrintParts(Pep(r, Some((k, n)), None));
    SameText(Dotted(r), "-", Word(k), ".", n);
  }

  lemma SameText(a: string, b: string, c: string, d: string, e: string)
    ensures a + b + c + d + e == a + (b + c + d) + e
  {}

  // Post-releases of anything but an alpha keep their own spelling.
  lemma OtherTagSpelling(p: Pep)
    requires Valid(p) && p.post.Some? && (p.pre.Some? ==> p.pre.value.0 != A)
    ensures ReleaseTag(Print(p)) == Some("rust-v" + Print(p))
  {
    TagOf(p, Print(p), Print(p));
  }

  lemma TagOf(p: Pep, text: string, tag: string)
    requires Valid(p) && Print(p) == text && ReleaseText(p) == tag
    ensures ReleaseTag(text) == Some("rust-v" + tag)
  {
    NormalizeSettled(p);
    ParseComplete(p);
  }

  // The runtime versions, spelled out.
  ghost predicate IsRuntimeText(s: string) {
    exists a, b, c :: Digits(a) && Digits(b) && Digits(c) && RuntimeEnding(ThreePart(a, b, c), s)
  }

  function ThreePart(a: string, b: string, c: string): string { a + "." + b + "." + c }

  ghost predicate RuntimeEnding(base: string, s: string) {
    || s == base
    || (exists n :: Digits(n) && s == base + "a" + n)
    || (exists n, m :: Digits(n) && Digits(m) && s == base + "a" + n + ".post" + m)
  }

  lemma ThreeParts(r: seq<string>)
    requires |r| == 3
    ensures Dotted(r) == ThreePart(r[0], r[1], r[2])
  {
    var two := r[..2];
    assert two[..1] == [r[0]];
    assert Dotted(two) == Dotted(two[..1]) + "." + two[1];
  }

  lemma RuntimeVersionsSpelled(s: string)
    ensures ResolveRuntime(s).Some? <==> IsRuntimeText(s)
  {
    OnlyRuntimeVersionsResolve(s);
    forall p | Valid(p) && RuntimeShape(p) && Print(p) == s ensures IsRuntimeText(s) { ShapeIsText(p); }
    if IsRuntimeText(s) {
      var a, b, c :| Digits(a) && Digits(b) && Digits(c) && RuntimeEnding(ThreePart(a, b, c), s);
      var p := TextHasShape([a, b, c], s);
    }
  }

  lemma ShapeIsText(p: Pep)
    requires Valid(p) && RuntimeShape(p)
    ensures IsRuntimeText(Print(p))
  {
    var a, b, c := p.release[0], p.release[1], p.release[2];
    var base := ThreePart(a, b, c);
    ThreeParts(p.release);
    if p.pre.None? {
      assert base + "" + "" == base;
    } else {
      PrintParts(p);
      if p.post.None? {
        assert Digits(p.pre.value.1) && Print(p) == base + "a" + p.pre.value.1;
      } else {
        assert Print(p) == base + "a" + p.pre.value.1 + ".post" + p.post.value;
      }
    }
    assert Digits(a) && Digits(b) && Digits(c) && RuntimeEnding(ThreePart(a, b, c), Print(p));
  }

  lemma TextHasShape(r: seq<string>, s: string) returns (p: Pep)
    requires |r| == 3 && ValidRelease(r) && RuntimeEnding(ThreePart(r[0], r[1], r[2]), s)
    ensures Valid(p) && RuntimeShape(p) && Print(p) == s
  {
    var base := Dotted(r);
    ThreeParts(r);
    if s == base {
      p := Pep(r, None, None);
      assert base + "" + "" == base;
    } else if n :| Digits(n) && s == base + "a" + n {
      p := Pep(r, Some((A, n)), None);
      PrintParts(p);
    } else {
      var n, m :| Digits(n) && Digits(m) && s == base + "a" + n + ".post" + m;
      p := Pep(r, Some((A, n)), Some(m));
      PrintParts(p);
    }
  }
}
