/**
  Counting accepted lines in a unified diff, against diffs as they are printed.
 */
module DiffCount {
  import opened Common

  // ------------------------------------------------------------ the counter

  const FILE_HEADER := "diff --git "
  const HUNK_HEADER := "@@ "
  const NEW_FILE := "+++ "
  const OLD_FILE := "--- "

  datatype Counts = Counts(added: nat, deleted: nat)
  datatype Scan = Scan(inHunk: bool, counts: Counts)
  const START := Scan(false, Counts(0, 0))

  function ScanLine(s: Scan, line: string): Scan {
    if FILE_HEADER <= line then s.(inHunk := false)
    else if HUNK_HEADER <= line then s.(inHunk := true)
    else if !s.inHunk && (NEW_FILE <= line || OLD_FILE <= line) then s
    else if line != [] && line[0] == '+' then s.(counts := Counts(s.counts.added + 1, s.counts.deleted))
    else if line != [] && line[0] == '-' then s.(counts := Counts(s.counts.added, s.counts.deleted + 1))
    else s
  }

  function ScanLines(s: Scan, lines: seq<string>): Scan {
    if lines == [] then s else ScanLine(ScanLines(s, lines[..|lines| - 1]), lines[|lines| - 1])
  }

  function FirstLf(s: string): (k: nat)
    ensures k <= |s| && (k < |s| ==> s[k] == '\n') && forall i :: 0 <= i < k ==> s[i] != '\n'
  {
    if s == [] || s[0] == '\n' then 0 else 1 + FirstLf(s[1..])
  }

  function StripCr(line: string): string {
    if line != [] && line[|line| - 1] == '\r' then line[..|line| - 1] else line
  }

  // Lines end at LF or CRLF; a last line without an end still counts.
  function Lines(s: string): seq<string> {
    if s == [] then [] else
      var k := FirstLf(s);
      if k == |s| then [s] else [StripCr(s[..k])] + Lines(s[k + 1..])
  }

  function Count(text: string): Counts { ScanLines(START, Lines(text)).counts }

  // ------------------------------------------------------------ the counting loop

  method CountLine(s: Scan, line: string) returns (inHunk: bool, added: nat, deleted: nat)
    ensures Scan(inHunk, Counts(added, deleted)) == ScanLine(s, line)
  {
    inHunk, added, deleted := s.inHunk, s.counts.added, s.counts.deleted;
    if FILE_HEADER <= line {
      inHunk := false;
      return;
    }
    if HUNK_HEADER <= line {
      inHunk := true;
      return;
    }
    if !inHunk && (NEW_FILE <= line || OLD_FILE <= line) { return; }
    if |line| > 0 && line[0] == '+' {
      added := added + 1;
      return;
    }
    if |line| > 0 && line[0] == '-' { deleted := deleted + 1; }
  }

  method AcceptedLineCounts(text: string) returns (added: nat, deleted: nat)
    ensures Counts(added, deleted) == Count(text)
  {
    var lines := Lines(text);
    var inHunk := false;
    added, deleted := 0, 0;
    for i := 0 to |lines|
      invariant Scan(inHunk, Counts(added, deleted)) == ScanLines(START, lines[..i])
    {
      assert lines[..i + 1][..i] == lines[..i];
      inHunk, added, deleted := CountLine(Scan(inHunk, Counts(added, deleted)), lines[i]);
    }
    assert lines[..|lines|] == lines;
  }

  // ------------------------------------------------------------ kinds of lines

  datatype Kind = GitHeader | HunkStart | NewFile | OldFile | Plussed | Minussed | Other
  datatype Sign = Addition | Deletion

  function Of(c: Counts, sign: Sign): nat { if sign == Addition then c.added else c.deleted }

  function KindOf(line: string): Kind {
    if FILE_HEADER <= line then GitHeader
    else if HUNK_HEADER <= line then HunkStart
    else if NEW_FILE <= line then NewFile
    else if OLD_FILE <= line then OldFile
    else if line != [] && line[0] == '+' then Plussed
    else if line != [] && line[0] == '-' then Minussed
    else Other
  }

  function Kinds(lines: seq<string>): seq<Kind> {
    seq(|lines|, i requires 0 <= i < |lines| => KindOf(lines[i]))
  }

  predicate IsMarker(k: Kind) { k.GitHeader? || k.HunkStart? }
  predicate IsFileHeader(k: Kind) { k.NewFile? || k.OldFile? }

  // The sign a line starts with.
  predicate HasSign(k: Kind, sign: Sign) {
    if sign == Addition then k.NewFile? || k.Plussed? else k.OldFile? || k.Minussed?
  }

  // Whether a line that starts with the sign is counted: file headers only inside a hunk.
  function CountOf(inHunk: bool, k: Kind, sign: Sign): nat {
    if HasSign(k, sign) && (inHunk || !IsFileHeader(k)) then 1 else 0
  }

  // The last hunk or git header, if there is any, is a hunk header.
  predicate InHunkAfter(inHunk: bool, ks: seq<Kind>) {
    if ks == [] then inHunk
    else ks[|ks| - 1].HunkStart? || (!ks[|ks| - 1].GitHeader? && InHunkAfter(inHunk, ks[..|ks| - 1]))
  }

  // The lines counted under a sign.
  function Counted(inHunk: bool, ks: seq<Kind>, sign: Sign): nat {
    if ks == [] then 0 else
      Counted(inHunk, ks[..|ks| - 1], sign) + CountOf(InHunkAfter(inHunk, ks[..|ks| - 1]), ks[|ks| - 1], sign)
  }

  lemma ScanLineByKind(s: Scan, line: string)
    ensures var k := KindOf(line);
            ScanLine(s, line) == Scan(k.HunkStart? || (!k.GitHeader? && s.inHunk),
                                      Counts(s.counts.added + CountOf(s.inHunk, k, Addition),
                                             s.counts.deleted + CountOf(s.inHunk, k, Deletion)))
  {
    assert NEW_FILE <= line ==> line[0] == '+';
    assert OLD_FILE <= line ==> line[0] == '-';
  }

  // The scanner only looks at the kinds.
  lemma {:induction false} ScanByKinds(lines: seq<string>)
    ensures var ks := Kinds(lines);
            ScanLines(START, lines) ==
              Scan(InHunkAfter(false, ks), Counts(Counted(false, ks, Addition), Counted(false, ks, Deletion)))
  {
    if lines != [] {
      var n := |lines| - 1;
      ScanByKinds(lines[..n]);
      ScanLineByKind(ScanLines(START, lines[..n]), lines[n]);
      assert Kinds(lines)[..n] == Kinds(lines[..n]);
    }
  }

  lemma CountByKinds(text: string, sign: Sign)
    ensures Of(Count(text), sign) == Counted(false, Kinds(Lines(text)), sign)
  {
    ScanByKinds(Lines(text));
  }

  lemma KindsAppend(a: seq<string>, b: seq<string>)
    ensures Kinds(a + b) == Kinds(a) + Kinds(b)
  {}

  lemma {:induction false} CountedAppend(inHunk: bool, a: seq<Kind>, b: seq<Kind>, sign: Sign)
    ensures InHunkAfter(inHunk, a + b) == InHunkAfter(InHunkAfter(inHunk, a), b)
    ensures Counted(inHunk, a + b, sign) == Counted(inHunk, a, sign) + Counted(InHunkAfter(inHunk, a), b, sign)
  {
    if b == [] {
      assert a + b == a;
    } else {
      assert (a + b)[..|a + b| - 1] == a + b[..|b| - 1];
      CountedAppend(inHunk, a, b[..|b| - 1], sign);
    }
  }

  lemma CountedOne(inHunk: bool, k: Kind, sign: Sign)
    ensures Counted(inHunk, [k], sign) == CountOf(inHunk, k, sign)
    ensures InHunkAfter(inHunk, [k]) == (k.HunkStart? || (!k.GitHeader? && inHunk))
  {
    assert [k][..0] == [];
  }

  // ------------------------------------------------------------ diffs as they are printed

  datatype BodyLine = Context(text: string) | Added(text: string) | Deleted(text: string) | NoNewlineAtEnd
  datatype Hunk = Hunk(range: string, body: seq<BodyLine>)
  // A plain unified diff has sections without the git header.
  datatype Section = Section(git: Option<string>, metadata: seq<string>, hunks: seq<Hunk>)

  function BodyText(b: BodyLine): string {
    match b
    case Context(t) => " " + t
    case Added(t) => "+" + t
    case Deleted(t) => "-" + t
    case NoNewlineAtEnd => "\\ No newline at end of file"
  }

  function BodyTexts(body: seq<BodyLine>): seq<string> {
    seq(|body|, i requires 0 <= i < |body| => BodyText(body[i]))
  }

  function HunkTexts(h: Hunk): seq<string> { [HUNK_HEADER + h.range] + BodyTexts(h.body) }

  function AllHunkTexts(hs: seq<Hunk>): seq<string> {
    if hs == [] then [] else AllHunkTexts(hs[..|hs| - 1]) + HunkTexts(hs[|hs| - 1])
  }

  function GitTexts(s: Section): seq<string> { if s.git.Some? then [FILE_HEADER + s.git.value] else [] }

  function SectionTexts(s: Section): seq<string> { GitTexts(s) + s.metadata + AllHunkTexts(s.hunks) }

  function DiffTexts(d: seq<Section>): seq<string> {
    if d == [] then [] else DiffTexts(d[..|d| - 1]) + SectionTexts(d[|d| - 1])
  }

  function Join(lines: seq<string>): string {
    if lines == [] then "" else Join(lines[..|lines| - 1]) + lines[|lines| - 1] + "\n"
  }

  // Extended headers, file headers, binary notices: no hunk header, no second file header,
  // and a leading sign only in `+++ ` and `--- `.
  ghost predicate IsMetadata(line: string) { KindOf(line).Other? || IsFileHeader(KindOf(line)) }

  ghost predicate WellFormed(s: Section) { forall i :: 0 <= i < |s.metadata| ==> IsMetadata(s.metadata[i]) }

  function BodyCount(b: BodyLine, sign: Sign): nat {
    if (sign == Addition && b.Added?) || (sign == Deletion && b.Deleted?) then 1 else 0
  }

  function BodyCounts(body: seq<BodyLine>, sign: Sign): nat {
    if body == [] then 0 else BodyCounts(body[..|body| - 1], sign) + BodyCount(body[|body| - 1], sign)
  }

  function HunksCounts(hs: seq<Hunk>, sign: Sign): nat {
    if hs == [] then 0 else HunksCounts(hs[..|hs| - 1], sign) + BodyCounts(hs[|hs| - 1].body, sign)
  }

  // The true totals.
  function DiffCounts(d: seq<Section>, sign: Sign): nat {
    if d == [] then 0 else DiffCounts(d[..|d| - 1], sign) + HunksCounts(d[|d| - 1].hunks, sign)
  }

  // ------------------------------------------------------------ headers counted as lines

  // The file headers that start with the sign.
  function HeaderCounts(ks: seq<Kind>, sign: Sign): nat {
    if ks == [] then 0 else HeaderCounts(ks[..|ks| - 1], sign) + HeaderCount(ks[|ks| - 1], sign)
  }

  function HeaderCount(k: Kind, sign: Sign): nat { if IsFileHeader(k) && HasSign(k, sign) then 1 else 0 }

  lemma NoFileHeaderExtends(ks: seq<Kind>)
    requires ks != []
    ensures NoFileHeader(ks) <==> NoFileHeader(ks[..|ks| - 1]) && !IsFileHeader(ks[|ks| - 1])
  {
    var n := |ks| - 1;
    if NoFileHeader(ks[..n]) && !IsFileHeader(ks[n]) {
      forall i | 0 <= i < |ks| ensures !IsFileHeader(ks[i]) { if i < n { assert ks[..n][i] == ks[i]; } }
    }
  }

  predicate NoFileHeader(ks: seq<Kind>) { forall i :: 0 <= i < |ks| ==> !IsFileHeader(ks[i]) }

  // The lines before the first hunk or git header.
  function Preamble(ks: seq<Kind>): seq<Kind> {
    if ks == [] || IsMarker(ks[0]) then [] else [ks[0]] + Preamble(ks[1..])
  }

  // Some earlier section has a hunk, and no section since has a git header.
  predicate HunkOpen(d: seq<Section>) {
    d != [] && (d[|d| - 1].hunks != [] || (d[|d| - 1].git.None? && HunkOpen(d[..|d| - 1])))
  }

  // The section's own headers, when they fall inside a hunk.
  function SectionSurplus(open: bool, sec: Section, sign: Sign): nat {
    if open && sec.git.None? then HeaderCounts(Kinds(sec.metadata), sign) else 0
  }

  // What the counter adds to the true totals.
  function Surplus(d: seq<Section>, sign: Sign): nat {
    if d == [] then 0 else
      Surplus(d[..|d| - 1], sign) + SectionSurplus(HunkOpen(d[..|d| - 1]), d[|d| - 1], sign)
  }

  // No section hides its file headers in the hunk before it.
  ghost predicate Separated(d: seq<Section>) {
    forall i :: 0 <= i < |d| ==> SeparatedAt(d, i)
  }

  predicate SeparatedAt(d: seq<Section>, i: nat)
    requires i < |d|
  {
    d[i].git.Some? || !HunkOpen(d[..i]) || NoFileHeader(Kinds(d[i].metadata))
  }

  lemma {:induction false} NoHeaderCounts(ks: seq<Kind>)
    ensures HeaderCounts(ks, Addition) == HeaderCounts(ks, Deletion) == 0 <==> NoFileHeader(ks)
  {
    if ks != [] {
      NoHeaderCounts(ks[..|ks| - 1]);
      NoFileHeaderExtends(ks);
    }
  }

  lemma {:induction false} NoSurplus(d: seq<Section>)
    ensures Surplus(d, Addition) == Surplus(d, Deletion) == 0 <==> Separated(d)
  {
    if d != [] {
      NoSurplus(d[..|d| - 1]);
      NoHeaderCounts(Kinds(d[|d| - 1].metadata));
      SeparatedExtends(d);
    }
  }

  lemma SeparatedExtends(d: seq<Section>)
    requires d != []
    ensures Separated(d) <==> Separated(d[..|d| - 1]) && SeparatedAt(d, |d| - 1)
  {
    var n := |d| - 1;
    forall i | 0 <= i < n ensures SeparatedAt(d, i) <==> SeparatedAt(d[..n], i) { assert d[..n][..i] == d[..i]; }
    assert Separated(d) <==> (forall i :: 0 <= i < n ==> SeparatedAt(d, i)) && SeparatedAt(d, n);
  }

  // ------------------------------------------------------------ scanning a printed diff

  // Whatever its content, a hunk line is counted by its sign.
  lemma BodyKind(b: BodyLine, sign: Sign)
    ensures var k := KindOf(BodyText(b)); !IsMarker(k) && CountOf(true, k, sign) == BodyCount(b, sign)
  {
    var line := BodyText(b);
    assert line[0] == if b.Context? then ' ' else if b.Added? then '+' else if b.Deleted? then '-' else '\\';
    assert FILE_HEADER[0] == 'd' && HUNK_HEADER[0] == '@' && NEW_FILE[0] == '+' && OLD_FILE[0] == '-';
  }

  lemma {:induction false} CountedBody(body: seq<BodyLine>, sign: Sign)
    ensures InHunkAfter(true, Kinds(BodyTexts(body)))
    ensures Counted(true, Kinds(BodyTexts(body)), sign) == BodyCounts(body, sign)
  {
    if body != [] {
      var n := |body| - 1;
      CountedBody(body[..n], sign);
      assert Kinds(BodyTexts(body))[..n] == Kinds(BodyTexts(body[..n]));
      BodyKind(body[n], sign);
    }
  }

  lemma HunkKinds(h: Hunk)
    ensures Kinds(HunkTexts(h)) == [HunkStart] + Kinds(BodyTexts(h.body))
  {
    var line := HUNK_HEADER + h.range;
    assert line[0] == '@' && FILE_HEADER[0] == 'd';
    KindsAppend([line], BodyTexts(h.body));
  }

  lemma CountedHunk(inHunk: bool, h: Hunk, sign: Sign)
    ensures InHunkAfter(inHunk, Kinds(HunkTexts(h)))
    ensures Counted(inHunk, Kinds(HunkTexts(h)), sign) == BodyCounts(h.body, sign)
  {
    HunkKinds(h);
    CountedAppend(inHunk, [HunkStart], Kinds(BodyTexts(h.body)), sign);
    CountedOne(inHunk, HunkStart, sign);
    CountedBody(h.body, sign);
  }

  lemma {:induction false} CountedHunks(inHunk: bool, hs: seq<Hunk>, sign: Sign)
    ensures InHunkAfter(inHunk, Kinds(AllHunkTexts(hs))) == (inHunk || hs != [])
    ensures Counted(inHunk, Kinds(AllHunkTexts(hs)), sign) == HunksCounts(hs, sign)
  {
    if hs != [] {
      var n := |hs| - 1;
      var before := AllHunkTexts(hs[..n]);
      CountedHunks(inHunk, hs[..n], sign);
      KindsAppend(before, HunkTexts(hs[n]));
      CountedAppend(inHunk, Kinds(before), Kinds(HunkTexts(hs[n])), sign);
      CountedHunk(InHunkAfter(inHunk, Kinds(before)), hs[n], sign);
    }
  }

  // Outside a hunk metadata counts nothing; inside one its file headers are counted.
  lemma {:induction false} CountedMetadata(inHunk: bool, ks: seq<Kind>, sign: Sign)
    requires forall i :: 0 <= i < |ks| ==> ks[i].Other? || IsFileHeader(ks[i])
    ensures InHunkAfter(inHunk, ks) == inHunk
    ensures Counted(inHunk, ks, sign) == if inHunk then HeaderCounts(ks, sign) else 0
  {
    if ks != [] { CountedMetadata(inHunk, ks[..|ks| - 1], sign); }
  }

  lemma CountedGit(inHunk: bool, sec: Section, sign: Sign)
    ensures InHunkAfter(inHunk, Kinds(GitTexts(sec))) == (inHunk && sec.git.None?)
    ensures Counted(inHunk, Kinds(GitTexts(sec)), sign) == 0
  {
    if sec.git.Some? {
      assert Kinds(GitTexts(sec)) == [GitHeader];
      CountedOne(inHunk, GitHeader, sign);
    }
  }

  lemma CountedHead(inHunk: bool, sec: Section, sign: Sign)
    requires WellFormed(sec)
    ensures var ks := Kinds(GitTexts(sec) + sec.metadata);
            && InHunkAfter(inHunk, ks) == (inHunk && sec.git.None?)
            && Counted(inHunk, ks, sign) == SectionSurplus(inHunk, sec, sign)
  {
    KindsAppend(GitTexts(sec), sec.metadata);
    CountedAppend(inHunk, Kinds(GitTexts(sec)), Kinds(sec.metadata), sign);
    CountedGit(inHunk, sec, sign);
    CountedMetadata(inHunk && sec.git.None?, Kinds(sec.metadata), sign);
  }

  lemma CountedSection(inHunk: bool, sec: Section, sign: Sign)
    requires WellFormed(sec)
    ensures var ks := Kinds(SectionTexts(sec));
            && InHunkAfter(inHunk, ks) == (sec.hunks != [] || (inHunk && sec.git.None?))
            && Counted(inHunk, ks, sign) == SectionSurplus(inHunk, sec, sign) + HunksCounts(sec.hunks, sign)
  {
    var head := GitTexts(sec) + sec.metadata;
    KindsAppend(head, AllHunkTexts(sec.hunks));
    CountedAppend(inHunk, Kinds(head), Kinds(AllHunkTexts(sec.hunks)), sign);
    CountedHead(inHunk, sec, sign);
    CountedHunks(inHunk && sec.git.None?, sec.hunks, sign);
  }

  lemma {:induction false} CountedDiff(d: seq<Section>, sign: Sign)
    requires forall i :: 0 <= i < |d| ==> WellFormed(d[i])
    ensures InHunkAfter(false, Kinds(DiffTexts(d))) == HunkOpen(d)
    ensures Counted(false, Kinds(DiffTexts(d)), sign) == DiffCounts(d, sign) + Surplus(d, sign)
  {
    if d != [] {
      var n := |d| - 1;
      var before := DiffTexts(d[..n]);
      CountedDiff(d[..n], sign);
      KindsAppend(before, SectionTexts(d[n]));
      CountedAppend(false, Kinds(before), Kinds(SectionTexts(d[n])), sign);
      CountedSection(HunkOpen(d[..n]), d[n], sign);
    }
  }

  // ------------------------------------------------------------ from lines to text

  ghost predicate NoLf(s: string) { forall i :: 0 <= i < |s| ==> s[i] != '\n' }

  lemma LinesOne(line: string, rest: string)
    requires NoLf(line)
    ensures Lines(line + "\n" + rest) == [StripCr(line)] + Lines(rest)
  {
    var s := line + "\n" + rest;
    assert s[|line|] == '\n';
    assert forall i :: 0 <= i < |line| ==> s[i] == line[i];
    assert FirstLf(s) == |line|;
    assert s[..|line|] == line && s[|line| + 1..] == rest;
  }

  lemma {:induction false} LinesAppend(a: string, b: string)
    requires a == [] || a[|a| - 1] == '\n'
    ensures Lines(a + b) == Lines(a) + Lines(b)
    decreases |a|
  {
    if a == [] {
      assert a + b == b;
    } else {
      var k := FirstLf(a);
      var line, rest := a[..k], a[k + 1..];
      LinesAppend(rest, b);
      CutAt(a, k, b);
      LinesOne(line, rest);
      LinesOne(line, rest + b);
      Associative([StripCr(line)], Lines(rest), Lines(b));
    }
  }

  lemma CutAt(a: string, k: nat, b: string)
    requires k < |a| && a[k] == '\n'
    ensures a == a[..k] + "\n" + a[k + 1..]
    ensures a + b == a[..k] + "\n" + (a[k + 1..] + b)
  {}

  lemma LinesLast(line: string)
    requires NoLf(line)
    ensures Lines(line + "\n") == [StripCr(line)]
  {
    assert line + "\n" + "" == line + "\n";
    LinesOne(line, "");
  }

  function StripAll(lines: seq<string>): seq<string> {
    seq(|lines|, i requires 0 <= i < |lines| => StripCr(lines[i]))
  }

  lemma {:induction false} LinesOfJoin(lines: seq<string>)
    requires forall i :: 0 <= i < |lines| ==> NoLf(lines[i])
    ensures Lines(Join(lines)) == StripAll(lines)
    ensures Join(lines) == [] || Join(lines)[|Join(lines)| - 1] == '\n'
  {
    if lines != [] {
      var n := |lines| - 1;
      LinesOfJoin(lines[..n]);
      LinesOneMore(Join(lines[..n]), lines[n]);
      StripOneMore(lines);
    }
  }

  lemma LinesOneMore(text: string, line: string)
    requires (text == [] || text[|text| - 1] == '\n') && NoLf(line)
    ensures var all := text + line + "\n"; Lines(all) == Lines(text) + [StripCr(line)] && all[|all| - 1] == '\n'
  {
    Associative(text, line, "\n");
    LinesAppend(text, line + "\n");
    LinesLast(line);
  }

  lemma StripOneMore(lines: seq<string>)
    requires lines != []
    ensures StripAll(lines) == StripAll(lines[..|lines| - 1]) + [StripCr(lines[|lines| - 1])]
  {}

  lemma PrefixSurvivesStrip(p: string, line: string)
    requires forall i :: 0 <= i < |p| ==> p[i] != '\r'
    ensures p <= StripCr(line) <==> p <= line
  {
    assert p <= line && p != [] ==> p[|p| - 1] == line[|p| - 1];
  }

  // A carriage return before the line feed does not change the kind of a line.
  lemma KindStripped(line: string)
    ensures KindOf(StripCr(line)) == KindOf(line)
  {
    PrefixSurvivesStrip(FILE_HEADER, line);
    PrefixSurvivesStrip(HUNK_HEADER, line);
    PrefixSurvivesStrip(NEW_FILE, line);
    PrefixSurvivesStrip(OLD_FILE, line);
  }

  lemma KindsStripped(lines: seq<string>)
    ensures Kinds(StripAll(lines)) == Kinds(lines)
  {
    forall i | 0 <= i < |lines| ensures KindOf(StripAll(lines)[i]) == KindOf(lines[i]) { KindStripped(lines[i]); }
  }

  // Counting a printed diff, whatever its lines contain, gives the true totals plus the file
  // headers of the sections that follow a hunk without a git header.
  lemma CountIsTrueTotalPlusSurplus(d: seq<Section>, sign: Sign)
    requires forall i :: 0 <= i < |d| ==> WellFormed(d[i])
    requires forall i :: 0 <= i < |DiffTexts(d)| ==> NoLf(DiffTexts(d)[i])
    ensures Of(Count(Join(DiffTexts(d))), sign) == DiffCounts(d, sign) + Surplus(d, sign)
  {
    CountByKinds(Join(DiffTexts(d)), sign);
    LinesOfJoin(DiffTexts(d));
    KindsStripped(DiffTexts(d));
    CountedDiff(d, sign);
  }

  // So it is exact if and only if no section hides its file headers in the hunk before it.
  lemma CountIsExactIff(d: seq<Section>)
    requires forall i :: 0 <= i < |d| ==> WellFormed(d[i])
    requires forall i :: 0 <= i < |DiffTexts(d)| ==> NoLf(DiffTexts(d)[i])
    ensures Count(Join(DiffTexts(d))) == Counts(DiffCounts(d, Addition), DiffCounts(d, Deletion)) <==> Separated(d)
  {
    CountIsTrueTotalPlusSurplus(d, Addition);
    CountIsTrueTotalPlusSurplus(d, Deletion);
    NoSurplus(d);
  }

  // In particular for every diff whose sections all have their git header.
  lemma CountIsExact(d: seq<Section>)
    requires forall i :: 0 <= i < |d| ==> WellFormed(d[i]) && d[i].git.Some?
    requires forall i :: 0 <= i < |DiffTexts(d)| ==> NoLf(DiffTexts(d)[i])
    ensures Count(Join(DiffTexts(d))) == Counts(DiffCounts(d, Addition), DiffCounts(d, Deletion))
  {
    CountIsExactIff(d);
  }

  lemma HeaderKinds(rest: string)
    ensures KindOf(HUNK_HEADER + rest) == HunkStart
    ensures KindOf(OLD_FILE + rest) == OldFile && KindOf(NEW_FILE + rest) == NewFile
  {
    var h, o, n := HUNK_HEADER + rest, OLD_FILE + rest, NEW_FILE + rest;
    assert h[0] == '@' && o[0] == '-' && n[0] == '+' && FILE_HEADER[0] == 'd' && HUNK_HEADER[0] == '@' &&
           NEW_FILE[0] == '+';
  }

  // A file of a plain unified diff, with one line changed.
  function PlainFile(name: string, old_: string, new_: string): Section {
    Section(None, [OLD_FILE + name, NEW_FILE + name], [Hunk("-1 +1 @@", [Deleted(old_), Added(new_)])])
  }

  // Any two such files: counted together they have a line more of either kind than they should.
  lemma PlainFilesOvercount(name: string, old_: string, new_: string,
                            name': string, old': string, new': string, sign: Sign)
    requires NoLf(name) && NoLf(old_) && NoLf(new_) && NoLf(name') && NoLf(old') && NoLf(new')
    ensures var d := [PlainFile(name, old_, new_), PlainFile(name', old', new')];
            Of(Count(Join(DiffTexts(d))), sign) == 3 && DiffCounts(d, sign) == 2
  {
    var file, file' := PlainFile(name, old_, new_), PlainFile(name', old', new');
    PlainFileKinds(name, old_, new_);
    PlainFileKinds(name', old', new');
    PlainFileTexts(name, old_, new_);
    PlainFileTexts(name', old', new');
    PlainFileCounts(file, sign);
    PlainFileCounts(file', sign);
    TwoFiles(file, file', sign);
    CountIsTrueTotalPlusSurplus([file, file'], sign);
  }

  lemma OneFile(file: Section, sign: Sign)
    requires file.git.None?
    ensures DiffTexts([file]) == SectionTexts(file)
    ensures DiffCounts([file], sign) == HunksCounts(file.hunks, sign) && Surplus([file], sign) == 0
  {
    assert [file][..0] == [];
  }

  lemma TwoFiles(file: Section, file': Section, sign: Sign)
    requires file.git.None? && file'.git.None? && file.hunks != []
    ensures DiffTexts([file, file']) == SectionTexts(file) + SectionTexts(file')
    ensures DiffCounts([file, file'], sign) == HunksCounts(file.hunks, sign) + HunksCounts(file'.hunks, sign)
    ensures Surplus([file, file'], sign) == HeaderCounts(Kinds(file'.metadata), sign)
  {
    assert [file, file'][..1] == [file];
    OneFile(file, sign);
  }

  lemma PlainFileKinds(name: string, old_: string, new_: string)
    ensures var file := PlainFile(name, old_, new_); Kinds(file.metadata) == [OldFile, NewFile] && WellFormed(file)
  {
    HeaderKinds(name);
  }

  lemma PlainFileTexts(name: string, old_: string, new_: string)
    requires NoLf(name) && NoLf(old_) && NoLf(new_)
    ensures forall line :: line in SectionTexts(PlainFile(name, old_, new_)) ==> NoLf(line)
  {
    PlainFileLines(name, old_, new_);
    NoLfAppend(OLD_FILE, name);
    NoLfAppend(NEW_FILE, name);
    NoLfAppend(HUNK_HEADER, "-1 +1 @@");
    NoLfAppend("-", old_);
    NoLfAppend("+", new_);
  }

  lemma NoLfAppend(a: string, b: string)
    requires NoLf(a) && NoLf(b)
    ensures NoLf(a + b)
  {}

  lemma PlainFileLines(name: string, old_: string, new_: string)
    ensures SectionTexts(PlainFile(name, old_, new_)) ==
            [OLD_FILE + name, NEW_FILE + name, HUNK_HEADER + "-1 +1 @@", "-" + old_, "+" + new_]
  {
    var hunk := PlainFile(name, old_, new_).hunks[0];
    assert [hunk][..0] == [];
    assert AllHunkTexts([hunk]) == HunkTexts(hunk);
    assert BodyTexts(hunk.body) == ["-" + old_, "+" + new_];
  }

  lemma PlainFileCounts(file: Section, sign: Sign)
    requires Kinds(file.metadata) == [OldFile, NewFile] && |file.hunks| == 1 && |file.hunks[0].body| == 2
    requires file.hunks[0].body[0].Deleted? && file.hunks[0].body[1].Added?
    ensures HunksCounts(file.hunks, sign) == 1 && HeaderCounts(Kinds(file.metadata), sign) == 1
  {
    var body := file.hunks[0].body;
    assert file.hunks[..0] == [];
    assert body[..1] == [body[0]] && [body[0]][..0] == [];
    assert BodyCounts([body[0]], sign) == BodyCount(body[0], sign);
    assert [OldFile, NewFile][..1] == [OldFile] && [OldFile][..0] == [];
    assert HeaderCounts([OldFile], sign) == HeaderCount(OldFile, sign);
  }

  // ------------------------------------------------------------ concatenation

  lemma {:induction false} HeaderCountsFirst(k: Kind, ks: seq<Kind>, sign: Sign)
    ensures HeaderCounts([k] + ks, sign) == HeaderCount(k, sign) + HeaderCounts(ks, sign)
  {
    var all := [k] + ks;
    if ks == [] {
      assert all[..0] == [];
    } else {
      assert all[..|all| - 1] == [k] + ks[..|ks| - 1];
      HeaderCountsFirst(k, ks[..|ks| - 1], sign);
    }
  }

  lemma CountedFirst(inHunk: bool, ks: seq<Kind>, sign: Sign)
    requires ks != []
    ensures Counted(inHunk, ks, sign) ==
            CountOf(inHunk, ks[0], sign) + Counted(InHunkAfter(inHunk, [ks[0]]), ks[1..], sign)
    ensures InHunkAfter(inHunk, [ks[0]]) == (ks[0].HunkStart? || (!ks[0].GitHeader? && inHunk))
  {
    assert ks == [ks[0]] + ks[1..];
    CountedAppend(inHunk, [ks[0]], ks[1..], sign);
    CountedOne(inHunk, ks[0], sign);
  }

  // Inside a hunk and outside, the same lines count the same but for the file headers before
  // the first hunk or git header.
  lemma {:induction false} InsideCountsMore(ks: seq<Kind>, sign: Sign)
    ensures Counted(true, ks, sign) == Counted(false, ks, sign) + HeaderCounts(Preamble(ks), sign)
    decreases |ks|
  {
    if ks != [] {
      CountedFirst(true, ks, sign);
      CountedFirst(false, ks, sign);
      if !IsMarker(ks[0]) {
        InsideCountsMore(ks[1..], sign);
        HeaderCountsFirst(ks[0], Preamble(ks[1..]), sign);
      }
    }
  }

  // What counting a text followed by another adds to the sum of the two.
  function JoinSurplus(a: string, b: string, sign: Sign): nat {
    if InHunkAfter(false, Kinds(Lines(a))) then HeaderCounts(Preamble(Kinds(Lines(b))), sign) else 0
  }

  // Counting the concatenation of any two texts that meet at a line end: the sum, plus the
  // second text's leading file headers if the first ends inside a hunk.
  lemma CountOfJoin(a: string, b: string, sign: Sign)
    requires a == [] || a[|a| - 1] == '\n'
    ensures Of(Count(a + b), sign) == Of(Count(a), sign) + Of(Count(b), sign) + JoinSurplus(a, b, sign)
  {
    var ka, kb := Kinds(Lines(a)), Kinds(Lines(b));
    CountByKinds(a, sign);
    CountByKinds(b, sign);
    CountByKinds(a + b, sign);
    LinesAppend(a, b);
    KindsAppend(Lines(a), Lines(b));
    CountedAppend(false, ka, kb, sign);
    InsideCountsMore(kb, sign);
  }

  // So counts add up if and only if the first does not end inside a hunk, or the second has no
  // file header before its first hunk or git header.
  lemma CountAddsIff(a: string, b: string)
    requires a == [] || a[|a| - 1] == '\n'
    ensures Count(a + b) == Counts(Count(a).added + Count(b).added, Count(a).deleted + Count(b).deleted) <==>
            !InHunkAfter(false, Kinds(Lines(a))) || NoFileHeader(Preamble(Kinds(Lines(b))))
  {
    CountOfJoin(a, b, Addition);
    CountOfJoin(a, b, Deletion);
    NoHeaderCounts(Preamble(Kinds(Lines(b))));
  }

  lemma FirstLineIsHeader(b: string)
    requires FILE_HEADER <= b
    ensures Lines(b) != [] && FILE_HEADER <= Lines(b)[0]
  {
    var k := FirstLf(b);
    assert NoLf(FILE_HEADER);
    assert forall i :: 0 <= i < |FILE_HEADER| ==> b[i] == FILE_HEADER[i];
    assert k >= |FILE_HEADER|;
    if k < |b| {
      assert FILE_HEADER <= b[..k];
      PrefixSurvivesStrip(FILE_HEADER, b[..k]);
    }
  }

  // In particular counts add up over texts that meet at a line end and a git header.
  lemma CountAdds(a: string, b: string)
    requires a == [] || a[|a| - 1] == '\n'
    requires b == [] || FILE_HEADER <= b
    ensures Count(a + b) == Counts(Count(a).added + Count(b).added, Count(a).deleted + Count(b).deleted)
  {
    CountAddsIff(a, b);
    if b != [] {
      FirstLineIsHeader(b);
      assert Kinds(Lines(b))[0] == GitHeader;
    }
  }

  // Texts at which they do not: after any hunk header, an old file's header counts as a
  // deleted line.
  lemma HeaderInHunkIsCounted(range: string, name: string)
    requires NoLf(range) && NoLf(name)
    ensures var a, b := HUNK_HEADER + range + "\n", OLD_FILE + name + "\n";
            Count(a).deleted == 0 && Count(b).deleted == 0 && Count(a + b).deleted == 1
  {
    var a, b := HUNK_HEADER + range, OLD_FILE + name;
    NoLfAppend(HUNK_HEADER, range);
    NoLfAppend(OLD_FILE, name);
    HeaderKinds(range);
    HeaderKinds(name);
    OneLineText(a, HunkStart);
    OneLineText(b, OldFile);
    OldFileJoins(a + "\n", b + "\n");
  }

  lemma OldFileJoins(a: string, b: string)
    requires a == [] || a[|a| - 1] == '\n'
    requires Kinds(Lines(a)) == [HunkStart] && Kinds(Lines(b)) == [OldFile]
    ensures Count(a + b).deleted == Count(a).deleted + Count(b).deleted + 1
  {
    CountOfJoin(a, b, Deletion);
    CountedOne(false, HunkStart, Deletion);
    HeaderCountsFirst(OldFile, [], Deletion);
    assert [OldFile][1..] == [] && Preamble([OldFile]) == [OldFile] + [];
  }

  lemma OneLineText(line: string, k: Kind)
    requires NoLf(line) && (k == HunkStart || k == OldFile) && KindOf(line) == k
    ensures Kinds(Lines(line + "\n")) == [k] && InHunkAfter(false, [k]) == (k == HunkStart)
    ensures Count(line + "\n").deleted == 0
  {
    LinesLast(line);
    KindStripped(line);
    CountByKinds(line + "\n", Deletion);
    CountedOne(false, k, Deletion);
  }
}
