/**
  The server-sent-events encoder of the fixture server against the event-stream
  parser of the WHATWG HTML Standard (sections 9.2.5 "Parsing an event stream" and
  9.2.6 "Interpreting an event stream"), both on UTF-8 bytes.
 */
module SseCodec {
  newtype byte = x: int | 0 <= x < 256
  type Bytes = seq<byte>

  const LF: byte := 10
  const CR: byte := 13
  const SPACE: byte := 32
  const COLON: byte := 58

  // "data", "event", "id"
  const DATA: Bytes := [100, 97, 116, 97]
  const EVENT: Bytes := [101, 118, 101, 110, 116]
  const ID: Bytes := [105, 100]

  predicate IsEol(b: byte) { b == CR || b == LF }

  ghost predicate OneLine(t: Bytes) { forall i :: 0 <= i < |t| ==> !IsEol(t[i]) }

  // ------------------------------------------------------------ the encoder

  datatype Profile = Plain | CrComments | CommentFlood

  // ": reviewer keepalive"
  const KEEPALIVE: Bytes :=
    [58, 32, 114, 101, 118, 105, 101, 119, 101, 114, 32, 107, 101, 101, 112, 97, 108, 105, 118, 101]

  const EVENT_LIMIT_BYTES := 8 * 1024 * 1024
  const COMMENT_LINE_BYTES := 2048
  const COMMENT_LINE_COUNT := EVENT_LIMIT_BYTES / COMMENT_LINE_BYTES + 1

  function Fill(n: nat): Bytes { seq(n, i => 120) }

  // A comment padded so that its line, the carriage return included, has the configured length.
  function FloodComment(): Bytes {
    KEEPALIVE + [SPACE] + Fill(COMMENT_LINE_BYTES - |KEEPALIVE| - 2)
  }

  function FloodLine(): Bytes { FloodComment() + [CR] }

  function Repeat(b: Bytes, n: nat): Bytes {
    if n == 0 then [] else b + Repeat(b, n - 1)
  }

  function Prefix(p: Profile): Bytes {
    match p
    case CommentFlood => Repeat(FloodLine(), COMMENT_LINE_COUNT)
    case CrComments => KEEPALIVE + [CR]
    case Plain => []
  }

  function Separator(p: Profile): byte { if p == Plain then LF else CR }

  function EncodeText(t: Bytes, sep: byte): Bytes {
    DATA + [COLON, SPACE] + t + [sep, sep]
  }

  function EncodeTexts(ts: seq<Bytes>, sep: byte): Bytes {
    if ts == [] then [] else EncodeText(ts[0], sep) + EncodeTexts(ts[1..], sep)
  }

  function Encode(ts: seq<Bytes>, p: Profile): Bytes {
    Prefix(p) + EncodeTexts(ts, Separator(p))
  }

  // ------------------------------------------------------------ the standard parser

  datatype Event = Event(kind: Bytes, data: Bytes, lastId: Bytes)
  datatype Buffers = Buffers(data: Bytes, kind: Bytes, lastId: Bytes)
  const EMPTY := Buffers([], [], [])

  function FirstEol(b: Bytes): (k: nat)
    ensures k <= |b| && (k < |b| ==> IsEol(b[k])) && forall i :: 0 <= i < k ==> !IsEol(b[i])
  {
    if b == [] || IsEol(b[0]) then 0 else 1 + FirstEol(b[1..])
  }

  function FirstColon(b: Bytes): (k: nat)
    ensures k <= |b| && (k < |b| ==> b[k] == COLON) && forall i :: 0 <= i < k ==> b[i] != COLON
  {
    if b == [] || b[0] == COLON then 0 else 1 + FirstColon(b[1..])
  }

  function SetField(s: Buffers, field: Bytes, value: Bytes): Buffers {
    if field == EVENT then s.(kind := value)
    else if field == DATA then s.(data := s.data + value + [LF])
    else if field == ID then if 0 in value then s else s.(lastId := value)
    else s   // "retry" only sets the reconnection time; other fields are ignored
  }

  // An empty line dispatches unless there is no data; the type and data buffers are reset either way.
  function Dispatch(s: Buffers): (Buffers, seq<Event>) {
    (Buffers([], [], s.lastId),
     if s.data == [] then [] else [Event(s.kind, s.data[..|s.data| - 1], s.lastId)])
  }

  function ProcessLine(s: Buffers, line: Bytes): (Buffers, seq<Event>) {
    if line == [] then Dispatch(s)
    else if line[0] == COLON then (s, [])
    else
      var k := FirstColon(line);
      if k == |line| then (SetField(s, line, []), [])
      else
        var value := line[k + 1..];
        (SetField(s, line[..k], if value != [] && value[0] == SPACE then value[1..] else value), [])
  }

  // A line ends at CRLF, LF or CR; what follows the last line end is discarded.
  function Parse(s: Buffers, b: Bytes): seq<Event>
    decreases |b|
  {
    var k := FirstEol(b);
    if k == |b| then [] else
      var (s', events) := ProcessLine(s, b[..k]);
      var next := if b[k] == CR && k + 1 < |b| && b[k + 1] == LF then k + 2 else k + 1;
      events + Parse(s', b[next..])
  }

  // Decoding strips one leading byte order mark.
  function ParseStream(b: Bytes): seq<Event> {
    Parse(EMPTY, if |b| >= 3 && b[..3] == [0xEF, 0xBB, 0xBF] then b[3..] else b)
  }

  // ------------------------------------------------------------ round trip

  lemma ParseOneLine(s: Buffers, line: Bytes, eol: byte, rest: Bytes)
    requires OneLine(line) && IsEol(eol) && (rest == [] || rest[0] != LF || eol == LF)
    ensures Parse(s, line + [eol] + rest) == ProcessLine(s, line).1 + Parse(ProcessLine(s, line).0, rest)
  {
    var b := line + [eol] + rest;
    assert b[|line|] == eol;
    assert forall i :: 0 <= i < |line| ==> b[i] == line[i];
    assert FirstEol(b) == |line|;
    assert b[..|line|] == line && b[|line| + 1..] == rest;
    assert rest != [] ==> b[|line| + 1] == rest[0];
  }

  lemma DataLine(s: Buffers, t: Bytes)
    ensures ProcessLine(s, DATA + [COLON, SPACE] + t) == (s.(data := s.data + t + [LF]), [])
  {
    var line := DATA + [COLON, SPACE] + t;
    assert line[4] == COLON && line[0] != COLON && line[1] != COLON && line[2] != COLON && line[3] != COLON;
    assert FirstColon(line) == 4;
    assert line[..4] == DATA;
    assert line[5..] == [SPACE] + t;
    assert ([SPACE] + t)[1..] == t;
  }

  lemma ParseBlankLine(s: Buffers, eol: byte, rest: Bytes)
    requires IsEol(eol) && (rest == [] || rest[0] != LF)
    ensures Parse(s, [eol] + rest) == Dispatch(s).1 + Parse(Dispatch(s).0, rest)
  {
    assert [eol] + rest == [] + [eol] + rest;
    ParseOneLine(s, [], eol, rest);
  }

  lemma EncodedTextIsTwoLines(t: Bytes, sep: byte, rest: Bytes)
    requires OneLine(t)
    ensures EncodeText(t, sep) + rest == (DATA + [COLON, SPACE] + t) + [sep] + ([sep] + rest)
    ensures OneLine(DATA + [COLON, SPACE] + t)
  {}

  lemma FilledDispatches(t: Bytes)
    ensures Dispatch(Buffers([] + t + [LF], [], [])) == (EMPTY, [Event([], t, [])])
  {
    assert ([] + t + [LF])[..|t|] == t;
  }

  lemma ParseOneText(t: Bytes, sep: byte, rest: Bytes)
    requires OneLine(t) && IsEol(sep) && (rest == [] || rest[0] != LF)
    ensures Parse(EMPTY, EncodeText(t, sep) + rest) == [Event([], t, [])] + Parse(EMPTY, rest)
  {
    EncodedTextIsTwoLines(t, sep, rest);
    DataLine(EMPTY, t);
    ParseOneLine(EMPTY, DATA + [COLON, SPACE] + t, sep, [sep] + rest);
    ParseBlankLine(Buffers([] + t + [LF], [], []), sep, rest);
    FilledDispatches(t);
  }

  function Messages(ts: seq<Bytes>): seq<Event> {
    seq(|ts|, i requires 0 <= i < |ts| => Event([], ts[i], []))
  }

  // ------------------------------------------------------------ texts with raw line ends

  ghost predicate NoCr(t: Bytes) { forall i :: 0 <= i < |t| ==> t[i] != CR }

  lemma LineKeepsNoCr(s: Buffers, line: Bytes)
    requires NoCr(s.data) && OneLine(line)
    ensures NoCr(ProcessLine(s, line).0.data)
    ensures forall i :: 0 <= i < |ProcessLine(s, line).1| ==> NoCr(ProcessLine(s, line).1[i].data)
  {}

  // A carriage return never reaches an event.
  lemma {:induction false} EventsHaveNoCr(s: Buffers, b: Bytes)
    requires NoCr(s.data)
    ensures forall i :: 0 <= i < |Parse(s, b)| ==> NoCr(Parse(s, b)[i].data)
    decreases |b|
  {
    var k := FirstEol(b);
    if k < |b| {
      var next := if b[k] == CR && k + 1 < |b| && b[k + 1] == LF then k + 2 else k + 1;
      LineKeepsNoCr(s, b[..k]);
      EventsHaveNoCr(ProcessLine(s, b[..k]).0, b[next..]);
    }
  }

  // A line gives the data buffer less than its own length.
  lemma LineGain(s: Buffers, line: Bytes)
    requires line != []
    ensures ProcessLine(s, line).1 == []
    ensures |s.data| <= |ProcessLine(s, line).0.data| <= |s.data| + |line|
  {}

  ghost predicate FirstEventWithin(events: seq<Event>, bound: nat) {
    events == [] || |events[0].data| + 1 <= bound
  }

  lemma DispatchWithin(s: Buffers, rest: seq<Event>, bound: nat)
    requires s.data != [] && |s.data| <= bound
    ensures FirstEventWithin(Dispatch(s).1 + rest, bound)
  {}

  // What follows a raw line feed adds less than its length to the event it interrupts.
  lemma {:induction false} InterruptedEventIsShort(s: Buffers, u: Bytes, sep: byte, rest: Bytes)
    requires s.data != [] && NoCr(u) && IsEol(sep) && (rest == [] || rest[0] != LF)
    ensures FirstEventWithin(Parse(s, u + [sep] + ([sep] + rest)), |s.data| + |u|)
    decreases |u|
  {
    var k := FirstEol(u);
    if k < |u| {
      var line, tail := u[..k], u[k + 1..];
      var after := tail + [sep] + ([sep] + rest);
      SplitAtLf(u, k, sep, rest);
      if k == 0 {
        ParseFirst(s, after);
        DispatchWithin(s, Parse(Dispatch(s).0, after), |s.data| + |u|);
      } else {
        ParseOneLine(s, line, LF, after);
        LineGain(s, line);
        InterruptedEventIsShort(ProcessLine(s, line).0, tail, sep, rest);
      }
    } else {
      ParseOneLine(s, u, sep, [sep] + rest);
      if u == [] {
        DispatchWithin(s, Parse(Dispatch(s).0, [sep] + rest), |s.data| + |u|);
      } else {
        LineGain(s, u);
        var s' := ProcessLine(s, u).0;
        ParseBlankLine(s', sep, rest);
        DispatchWithin(s', Parse(Dispatch(s').0, rest), |s.data| + |u|);
      }
    }
  }

  lemma ParseFirst(s: Buffers, after: Bytes)
    ensures Parse(s, [LF] + after) == Dispatch(s).1 + Parse(Dispatch(s).0, after)
  {
    assert [LF] + after == [] + [LF] + after;
    ParseOneLine(s, [], LF, after);
  }

  lemma SplitAtLf(u: Bytes, k: nat, sep: byte, rest: Bytes)
    requires k < |u| && u[k] == LF
    ensures u + [sep] + ([sep] + rest) == u[..k] + [LF] + (u[k + 1..] + [sep] + ([sep] + rest))
    ensures k == 0 ==> u + [sep] + ([sep] + rest) == [LF] + (u[1..] + [sep] + ([sep] + rest))
  {
    assert u == u[..k] + [LF] + u[k + 1..];
  }

  lemma BrokenTextSplits(t: Bytes, k: nat, sep: byte, rest: Bytes)
    requires k < |t| && t[k] == LF
    ensures EncodeText(t, sep) + rest == (DATA + [COLON, SPACE] + t[..k]) + [LF] + (t[k + 1..] + [sep] + ([sep] + rest))
  {
    assert t == t[..k] + [LF] + t[k + 1..];
  }

  // A text with a raw line end does not come back.
  lemma BrokenTextIsLost(t: Bytes, sep: byte, rest: Bytes)
    requires !OneLine(t) && IsEol(sep) && (rest == [] || rest[0] != LF)
    ensures var events := Parse(EMPTY, EncodeText(t, sep) + rest); events == [] || events[0].data != t
  {
    if NoCr(t) {
      var k := FirstEol(t);
      assert k < |t| && t[k] == LF;
      InterruptedTextIsLost(t, k, sep, rest);
    } else {
      EventsHaveNoCr(EMPTY, EncodeText(t, sep) + rest);
    }
  }

  lemma InterruptedTextIsLost(t: Bytes, k: nat, sep: byte, rest: Bytes)
    requires k < |t| && t[k] == LF && OneLine(t[..k]) && NoCr(t) && IsEol(sep) && (rest == [] || rest[0] != LF)
    ensures var events := Parse(EMPTY, EncodeText(t, sep) + rest); events == [] || events[0].data != t
  {
    var line, u := DATA + [COLON, SPACE] + t[..k], t[k + 1..];
    BrokenTextSplits(t, k, sep, rest);
    DataLine(EMPTY, t[..k]);
    assert OneLine(line);
    ParseOneLine(EMPTY, line, LF, u + [sep] + ([sep] + rest));
    InterruptedEventIsShort(Buffers([] + t[..k] + [LF], [], []), u, sep, rest);
  }

  // ------------------------------------------------------------ the round trip, exactly

  lemma EncodedStart(ts: seq<Bytes>, sep: byte)
    ensures EncodeTexts(ts, sep) == [] || EncodeTexts(ts, sep)[0] == DATA[0]
  {}

  lemma {:induction false} ParseTexts(ts: seq<Bytes>, sep: byte)
    requires IsEol(sep)
    ensures Parse(EMPTY, EncodeTexts(ts, sep)) == Messages(ts) <==> forall i :: 0 <= i < |ts| ==> OneLine(ts[i])
  {
    if ts != [] {
      var rest := EncodeTexts(ts[1..], sep);
      ParseTexts(ts[1..], sep);
      EncodedStart(ts[1..], sep);
      assert (forall i :: 0 <= i < |ts| ==> OneLine(ts[i])) <==>
             OneLine(ts[0]) && forall i :: 0 <= i < |ts[1..]| ==> OneLine(ts[1..][i]) by {
        assert forall i :: 0 < i < |ts| ==> ts[i] == ts[1..][i - 1];
      }
      MessagesSplit(ts);
      if OneLine(ts[0]) {
        ParseOneText(ts[0], sep, rest);
        PrependCancels(Event([], ts[0], []), Parse(EMPTY, rest), Messages(ts[1..]));
      } else {
        BrokenTextIsLost(ts[0], sep, rest);
      }
    }
  }

  lemma PrependCancels(e: Event, a: seq<Event>, b: seq<Event>)
    ensures [e] + a == [e] + b <==> a == b
  {
    if [e] + a == [e] + b { assert ([e] + a)[1..] == a && ([e] + b)[1..] == b; }
  }

  lemma MessagesSplit(ts: seq<Bytes>)
    requires ts != []
    ensures Messages(ts) == [Event([], ts[0], [])] + Messages(ts[1..])
  {}

  ghost predicate IsComment(line: Bytes) { OneLine(line) && line != [] && line[0] == COLON }

  lemma CommentLine(line: Bytes, rest: Bytes)
    requires IsComment(line) && (rest == [] || rest[0] != LF)
    ensures Parse(EMPTY, line + [CR] + rest) == Parse(EMPTY, rest)
  {
    CommentIsIgnored(EMPTY, line);
    ParseOneLine(EMPTY, line, CR, rest);
    NothingPrepended(Parse(EMPTY, rest));
  }

  lemma CommentIsIgnored(s: Buffers, line: Bytes)
    requires IsComment(line)
    ensures ProcessLine(s, line) == (s, [])
  {}

  lemma NothingPrepended(events: seq<Event>)
    ensures [] + events == events
  {}

  lemma RepeatSplits(b: Bytes, n: nat, rest: Bytes)
    requires n > 0 && b != []
    ensures Repeat(b, n) + rest == b + (Repeat(b, n - 1) + rest)
    ensures Repeat(b, n)[0] == b[0]
  {}

  // Comment lines dispatch nothing and change nothing.
  lemma {:induction false} CommentsAreInvisible(line: Bytes, n: nat, rest: Bytes)
    requires IsComment(line) && (rest == [] || rest[0] != LF)
    ensures Parse(EMPTY, Repeat(line + [CR], n) + rest) == Parse(EMPTY, rest)
    decreases n
  {
    if n == 0 {
      assert Repeat(line + [CR], 0) + rest == rest;
    } else {
      CommentsAreInvisible(line, n - 1, rest);
      RepeatSplits(line + [CR], n, rest);
      if n > 1 { RepeatSplits(line + [CR], n - 1, rest); }
      CommentLine(line, Repeat(line + [CR], n - 1) + rest);
    }
  }

  lemma KeepaliveIsComment()
    ensures IsComment(KEEPALIVE)
  {
    assert KEEPALIVE[0] == COLON;
  }

  lemma FloodIsComment()
    ensures IsComment(FloodComment())
  {
    assert FloodComment()[0] == KEEPALIVE[0];
  }

  lemma PrefixIsInvisible(p: Profile, rest: Bytes)
    requires rest == [] || rest[0] != LF
    ensures Parse(EMPTY, Prefix(p) + rest) == Parse(EMPTY, rest)
  {
    match p {
      case Plain => assert Prefix(p) + rest == rest;
      case CrComments =>
        KeepaliveIsComment();
        CommentLine(KEEPALIVE, rest);
      case CommentFlood =>
        FloodIsComment();
        CommentsAreInvisible(FloodComment(), COMMENT_LINE_COUNT, rest);
    }
  }

  lemma EncodedStartsInAscii(ts: seq<Bytes>, p: Profile)
    ensures var b := Encode(ts, p); b == [] || b[0] == DATA[0] || b[0] == COLON
  {
    match p {
      case Plain =>
      case CrComments => assert Prefix(p)[0] == COLON;
      case CommentFlood =>
        RepeatSplits(FloodLine(), COMMENT_LINE_COUNT, []);
        assert Prefix(p)[0] == FloodLine()[0] == COLON;
    }
  }

  lemma NoByteOrderMark(b: Bytes)
    requires b == [] || b[0] != 0xEF
    ensures ParseStream(b) == Parse(EMPTY, b)
  {
    if |b| >= 3 { assert b[..3][0] == b[0]; }
  }

  // Whatever the profile, a standard parser reads back exactly the encoded texts, in order,
  // if and only if none of them holds a raw line end.  JSON texts never do: the serializer
  // escapes control characters.
  lemma SseRoundTrip(ts: seq<Bytes>, p: Profile)
    ensures ParseStream(Encode(ts, p)) == Messages(ts) <==> forall i :: 0 <= i < |ts| ==> OneLine(ts[i])
  {
    EncodedStartsInAscii(ts, p);
    NoByteOrderMark(Encode(ts, p));
    EncodedStart(ts, Separator(p));
    PrefixIsInvisible(p, EncodeTexts(ts, Separator(p)));
    ParseTexts(ts, Separator(p));
  }

  lemma {:induction false} RepeatLength(b: Bytes, n: nat)
    ensures |Repeat(b, n)| == |b| * n
  {
    if n > 0 {
      RepeatLength(b, n - 1);
      assert |b| * n == |b| + |b| * (n - 1);
    }
  }

  // The flood is 4097 comment lines of exactly 2048 bytes: more than the 8 MiB event limit,
  // without a single event.
  lemma FloodExceedsLimit()
    ensures COMMENT_LINE_COUNT == 4097 && |FloodLine()| == 2048
    ensures |Prefix(CommentFlood)| == 4097 * 2048 > EVENT_LIMIT_BYTES
    ensures ParseStream(Prefix(CommentFlood)) == []
  {
    RepeatLength(FloodLine(), COMMENT_LINE_COUNT);
    SseRoundTrip([], CommentFlood);
    assert Encode([], CommentFlood) == Prefix(CommentFlood);
  }

  // ------------------------------------------------------------ the bytes on the wire

  // Each text goes out behind "data: ", and two line ends follow it.
  lemma OneMoreText(ts: seq<Bytes>, t: Bytes, p: Profile)
    ensures Encode(ts + [t], p) ==
            Encode(ts, p) + ([100, 97, 116, 97, 58, 32] + t + if p == Plain then [10, 10] else [13, 13])
  {
    TextsAppend(ts, t, Separator(p));
    assert EncodeText(t, Separator(p)) ==
           [100, 97, 116, 97, 58, 32] + t + if p == Plain then [10, 10] else [13, 13];
  }

  lemma {:induction false} TextsAppend(ts: seq<Bytes>, t: Bytes, sep: byte)
    ensures EncodeTexts(ts + [t], sep) == EncodeTexts(ts, sep) + EncodeText(t, sep)
  {
    if ts == [] {
      assert ts + [t] == [t] && [t][1..] == [];
    } else {
      TextsAppend(ts[1..], t, sep);
      assert (ts + [t])[1..] == ts[1..] + [t];
    }
  }

  // In front of them stand no comment, one keep-alive line, or 4097 lines of 2048 bytes.
  lemma CommentsFirst()
    ensures Encode([], Plain) == []
    ensures Encode([], CrComments) ==
            [58, 32, 114, 101, 118, 105, 101, 119, 101, 114, 32, 107, 101, 101, 112, 97, 108, 105, 118, 101, 13]
    ensures Encode([], CommentFlood) == Repeat(FloodLine(), 4097)
  {
    assert Prefix(CommentFlood) + [] == Prefix(CommentFlood);
  }

  lemma FloodLineIs()
    ensures FloodLine() == KEEPALIVE + [32] + seq(2026, i => 120) + [13]
  {
    assert Fill(2026) == seq(2026, i => 120);
  }
}
