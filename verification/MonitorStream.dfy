/** The monitor stream: bytes in any chunks collected into lines, and the frames of one
    id found in them. */
module MonitorStream {
  import opened Wrappers
  import opened Seqs
  import opened Numerals

  // ---- one line ----------------------------------------------------------------------

  predicate IsGap(c: char) {
    c == ' ' || c == '\t'
  }

  function HexByte(tok: string): Option<nat> {
    if |tok| == 2 then HexValue(tok) else None
  }

  /** Behind the blanks, behind the token. */
  function SkipBlanks(s: string, p: nat): (q: nat)
    requires p <= |s|
    ensures p <= q <= |s| && (q < |s| ==> !IsGap(s[q]))
    decreases |s| - p
  {
    if p < |s| && IsGap(s[p]) then SkipBlanks(s, p + 1) else p
  }

  function TokenEnd(s: string, p: nat): (q: nat)
    requires p <= |s|
    ensures p <= q <= |s| && (p < |s| && !IsGap(s[p]) ==> p < q)
    ensures forall i :: p <= i < q ==> !IsGap(s[i])
    ensures q < |s| ==> IsGap(s[q])
    decreases |s| - p
  {
    if p < |s| && !IsGap(s[p]) then TokenEnd(s, p + 1) else p
  }

  const TOKENS_MAX: nat := 16

  /** The tokens from p on, when n were found before. */
  function Tokens(s: string, p: nat, n: nat): (r: seq<string>)
    requires p <= |s|
    ensures forall t <- r :: t != ""
    decreases |s| - p
  {
    if p >= |s| || n >= TOKENS_MAX then []
    else
      var start := SkipBlanks(s, p);
      var end := TokenEnd(s, start);
      if end > start then [s[start..end]] + Tokens(s, end, n + 1) else []
  }

  function Bytes4(a: nat, b: nat, c: nat, d: nat): nat {
    ((a * 256 + b) * 256 + c) * 256 + d
  }

  /** Where the data starts in a line of that id: behind an id in one token of 3 or 8
      digits, in four byte tokens, or in two. None: another id, or no frame. */
  function DataFrom(tok: seq<string>, id: nat): Option<nat>
    requires tok != []
  {
    if |tok[0]| == 3 || |tok[0]| == 8 then if HexValue(tok[0]) == Some(id) then Some(1) else None
    else if |tok[0]| != 2 then None
    else if IsId4(tok, id) then Some(4)
    else if id <= 0x7FF && IsId2(tok, id) then Some(2)
    else None
  }

  predicate IsId4(tok: seq<string>, id: nat) {
    |tok| >= 4
    && match (HexByte(tok[0]), HexByte(tok[1]), HexByte(tok[2]), HexByte(tok[3]))
       case (Some(a), Some(b), Some(c), Some(d)) => Bytes4(a, b, c, d) == id
       case _ => false
  }

  predicate IsId2(tok: seq<string>, id: nat) {
    |tok| >= 2
    && match (HexByte(tok[0]), HexByte(tok[1]))
       case (Some(a), Some(b)) => a * 256 + b == id
       case _ => false
  }

  /** The byte tokens up to a prompt; markers between them are skipped. */
  function Data(tok: seq<string>, room: nat): seq<nat>
    decreases tok
  {
    if tok == [] || room == 0 || tok[0] == ">" then []
    else
      match HexByte(tok[0])
      case Some(b) => [b] + Data(tok[1..], room - 1)
      case None => Data(tok[1..], room)
  }

  /** The frame in a line, if it is one of that id with data. */
  function FrameOf(line: string, id: nat, cap: nat): Option<seq<nat>> {
    var tok := Tokens(line, 0, 0);
    if tok == [] then None
    else
      match DataFrom(tok, id)
      case None => None
      case Some(k) =>
        var data := Data(if k <= |tok| then tok[k..] else [], cap);
        if data == [] then None else Some(data)
  }

  method ReadTokens(line: string) returns (tok: seq<string>)
    ensures tok == Tokens(line, 0, 0)
  {
    hide SkipBlanks, TokenEnd;
    tok := [];
    var pos := 0;
    ghost var all := Tokens(line, 0, 0);
    assert [] + all == all;
    while pos < |line| && |tok| < TOKENS_MAX
      invariant pos <= |line| && tok + Tokens(line, pos, |tok|) == all
      decreases |line| - pos
    {
      var start, end := NextToken(line, pos);
      if end == start {
        assert tok + [] == tok;
        return;
      }
      Assoc(tok, [line[start..end]], Tokens(line, end, |tok| + 1));
      tok := tok + [line[start..end]];
      pos := end;
    }
    assert tok + [] == tok;
  }

  method NextToken(line: string, p: nat) returns (start: nat, end: nat)
    requires p <= |line|
    ensures start == SkipBlanks(line, p) && end == TokenEnd(line, start)
  {
    start := p;
    while start < |line| && IsGap(line[start])
      invariant p <= start <= |line| && SkipBlanks(line, start) == SkipBlanks(line, p)
    {
      start := start + 1;
    }
    end := start;
    while end < |line| && !IsGap(line[end])
      invariant start <= end <= |line| && TokenEnd(line, end) == TokenEnd(line, start)
    {
      end := end + 1;
    }
  }

  method ReadData(tok: seq<string>, from: nat, cap: nat) returns (data: seq<nat>)
    ensures data == Data(if from <= |tok| then tok[from..] else [], cap)
  {
    data := [];
    if from > |tok| {
      return;
    }
    var i := from;
    ghost var all := Data(tok[from..], cap);
    assert [] + all == all;
    while i < |tok| && |data| < cap
      invariant i <= |tok| && |data| <= cap
      invariant data + Data(tok[i..], cap - |data|) == all
    {
      assert tok[i..][0] == tok[i] && tok[i..][1..] == tok[i + 1..];
      if tok[i] == ">" {
        assert data + [] == data;
        return;
      }
      var b := HexByte(tok[i]);
      if b.Some? {
        Assoc(data, [b.value], Data(tok[i + 1..], cap - |data| - 1));
        data := data + [b.value];
      }
      i := i + 1;
    }
    assert data + [] == data;
  }

  method FilterFrame(line: string, id: nat, cap: nat) returns (r: Option<seq<nat>>)
    ensures r == FrameOf(line, id, cap)
  {
    hide Tokens, DataFrom, Data;
    var tok := ReadTokens(line);
    if tok == [] {
      return None;
    }
    var k := DataFrom(tok, id);
    if k.None? {
      return None;
    }
    var data := ReadData(tok, k.value, cap);
    r := if data == [] then None else Some(data);
  }

  // ---- the whole stream, naively ---------------------------------------------------------

  const LINE_MAX: nat := 159

  predicate EndsLine(c: char) {
    c == '\r' || c == '\n'
  }

  /** The finished lines of a stream, with the unfinished one before it. */
  function Lines(before: string, s: string): seq<string>
    decreases s
  {
    if s == "" then []
    else if EndsLine(s[0]) then [before] + Lines("", s[1..])
    else Lines(before + [s[0]], s[1..])
  }

  /** What is unfinished behind it. */
  function Rest(before: string, s: string): string
    decreases s
  {
    if s == "" then before
    else if EndsLine(s[0]) then Rest("", s[1..])
    else Rest(before + [s[0]], s[1..])
  }

  /** The frame of a line, unless it is empty or overlong. */
  function LineFrame(line: string, id: nat, cap: nat): Option<seq<nat>> {
    if 0 < |line| <= LINE_MAX then FrameOf(line, id, cap) else None
  }

  function FramesIn(lines: seq<string>, id: nat, cap: nat): seq<seq<nat>> {
    if lines == [] then []
    else
      match LineFrame(lines[0], id, cap)
      case Some(f) => [f] + FramesIn(lines[1..], id, cap)
      case None => FramesIn(lines[1..], id, cap)
  }

  /** The frames of a stream: its lines, each one filtered. */
  function Frames(before: string, s: string, id: nat, cap: nat): seq<seq<nat>> {
    FramesIn(Lines(before, s), id, cap)
  }

  lemma {:induction false} LinesConcat(before: string, a: string, b: string)
    ensures Lines(before, a + b) == Lines(before, a) + Lines(Rest(before, a), b)
    ensures Rest(before, a + b) == Rest(Rest(before, a), b)
    decreases a
  {
    if a == "" {
      assert a + b == b;
    } else {
      assert (a + b)[1..] == a[1..] + b;
      if EndsLine(a[0]) {
        LinesConcat("", a[1..], b);
        Assoc([before], Lines("", a[1..]), Lines(Rest("", a[1..]), b));
      } else {
        LinesConcat(before + [a[0]], a[1..], b);
      }
    }
  }

  lemma {:induction false} FramesInConcat(a: seq<string>, b: seq<string>, id: nat, cap: nat)
    ensures FramesIn(a + b, id, cap) == FramesIn(a, id, cap) + FramesIn(b, id, cap)
  {
    hide LineFrame;
    if a == [] {
      assert a + b == b;
    } else {
      assert (a + b)[1..] == a[1..] + b;
      FramesInConcat(a[1..], b, id, cap);
    }
  }

  /** A stream cut in two says the same. */
  lemma FramesConcat(before: string, a: string, b: string, id: nat, cap: nat)
    ensures Frames(before, a + b, id, cap) == Frames(before, a, id, cap) + Frames(Rest(before, a), b, id, cap)
  {
    LinesConcat(before, a, b);
    FramesInConcat(Lines(before, a), Lines(Rest(before, a), b), id, cap);
  }

  // ---- the collector ---------------------------------------------------------------------

  /** The current line in its buffer. */
  class Collector {
    const line: array<char>
    var n: nat
    var overflow: bool

    ghost predicate Valid()
      reads this
    {
      line.Length == LINE_MAX + 1 && n <= LINE_MAX && (overflow ==> n == LINE_MAX)
    }

    /** The buffer holds the start of this unfinished line. */
    ghost predicate Holds(current: string)
      requires Valid()
      reads this, line
    {
      if overflow then |current| > LINE_MAX else current == line[..n]
    }

    constructor ()
      ensures Valid() && Holds("") && fresh(line)
    {
      line := new char[LINE_MAX + 1];
      n, overflow := 0, false;
    }

    /** One byte that ends no line. */
    method Take(ch: char, ghost current: string)
      requires Valid() && Holds(current)
      modifies this, line
      ensures Valid() && Holds(current + [ch])
    {
      if n < LINE_MAX {
        ghost var was := line[..n];
        line[n] := ch;
        n := n + 1;
        assert line[..n] == was + [ch];
      } else {
        overflow := true;
      }
    }

    /** Feed bytes up to the first line that is a frame. */
    method Feed(bytes: string, id: nat, cap: nat, ghost before: string)
      returns (frame: Option<seq<nat>>, consumed: nat)
      requires Valid() && Holds(before)
      modifies this, line
      ensures Valid() && consumed <= |bytes| && Holds(Rest(before, bytes[..consumed]))
      ensures frame.None? ==> consumed == |bytes| && Frames(before, bytes, id, cap) == []
      ensures frame.Some? ==> 0 < consumed && Frames(before, bytes[..consumed], id, cap) == [frame.value]
    {
      hide LineFrame;
      var i := 0;
      ghost var current := before;
      assert bytes[..0] == "";
      while i < |bytes|
        invariant i <= |bytes| && Valid() && Holds(current)
        invariant current == Rest(before, bytes[..i]) && Frames(before, bytes[..i], id, cap) == []
      {
        var ch := bytes[i];
        Grow(bytes, i);
        FramesConcat(before, bytes[..i], [ch], id, cap);
        LinesConcat(before, bytes[..i], [ch]);
        OneByte(current, ch, id, cap);
        if EndsLine(ch) {
          frame := EndLine(id, cap, current);
          if frame.Some? {
            consumed := i + 1;
            return;
          }
          current := "";
        } else {
          Take(ch, current);
          current := current + [ch];
        }
        i := i + 1;
      }
      Whole(bytes);
      frame, consumed := None, |bytes|;
    }

    /** The line is finished: filtered when it is trusted, and the buffer empty. */
    method EndLine(id: nat, cap: nat, ghost current: string) returns (frame: Option<seq<nat>>)
      requires Valid() && Holds(current)
      modifies this
      ensures Valid() && Holds("") && frame == LineFrame(current, id, cap)
    {
      frame := None;
      if n > 0 && !overflow {
        frame := FilterFrame(line[..n], id, cap);
      }
      n := 0;
      overflow := false;
    }
  }

  lemma OneByte(current: string, ch: char, id: nat, cap: nat)
    ensures Rest(current, [ch]) == if EndsLine(ch) then "" else current + [ch]
    ensures Frames(current, [ch], id, cap) ==
      if EndsLine(ch) && LineFrame(current, id, cap).Some? then [LineFrame(current, id, cap).value] else []
  {
    hide FrameOf;
    var s := [ch];
    assert s[1..] == "";
    if EndsLine(ch) {
      assert Lines(current, s) == [current] + Lines("", "") == [current];
      assert [current][1..] == [];
      var f := LineFrame(current, id, cap);
      assert f.Some? ==> [f.value] + [] == [f.value];
      assert FramesIn([current], id, cap) == if f.Some? then [f.value] else [];
    } else {
      assert Lines(current, s) == Lines(current + [ch], "") == [];
    }
  }

  // ---- chunks -------------------------------------------------------------------------------

  function Flat(chunks: seq<string>): string {
    if chunks == [] then "" else Flat(Init(chunks)) + Last(chunks)
  }

  /** A chunk can carry several frames: resume behind each one. */
  method Drain(c: Collector, chunk: string, id: nat, cap: nat, ghost before: string) returns (got: seq<seq<nat>>)
    requires c.Valid() && c.Holds(before)
    modifies c, c.line
    ensures c.Valid() && c.Holds(Rest(before, chunk)) && got == Frames(before, chunk, id, cap)
  {
    hide FramesIn, LineFrame;
    got := [];
    var off := 0;
    ghost var current := before;
    FramesOfNothing(before, id, cap);
    assert chunk[..0] == "";
    while off < |chunk|
      invariant off <= |chunk| && c.Valid() && c.Holds(current)
      invariant current == Rest(before, chunk[..off]) && got == Frames(before, chunk[..off], id, cap)
      decreases |chunk| - off
    {
      var frame, used := c.Feed(chunk[off..], id, cap, current);
      ghost var part := chunk[off..][..used];
      assert chunk[..off + used] == chunk[..off] + part;
      FramesConcat(before, chunk[..off], part, id, cap);
      LinesConcat(before, chunk[..off], part);
      current := Rest(current, part);
      if frame.None? {
        Whole(chunk[off..]);
        assert chunk[..off + used] == chunk && got + [] == got;
        return;
      }
      got := got + [frame.value];
      off := off + used;
    }
    Whole(chunk);
  }

  lemma FramesOfNothing(before: string, id: nat, cap: nat)
    ensures Frames(before, "", id, cap) == [] && Rest(before, "") == before
  {
  }

  /** However the stream is cut into chunks, the frames are those of the whole. */
  method Collect(chunks: seq<string>, id: nat, cap: nat) returns (got: seq<seq<nat>>)
    ensures got == Frames("", Flat(chunks), id, cap)
  {
    hide FramesIn, LineFrame;
    var c := new Collector();
    got := [];
    var i := 0;
    FramesOfNothing("", id, cap);
    assert chunks[..0] == [];
    while i < |chunks|
      invariant i <= |chunks| && c.Valid() && c.Holds(Rest("", Flat(chunks[..i])))
      invariant fresh(c) && fresh(c.line)
      invariant got == Frames("", Flat(chunks[..i]), id, cap)
    {
      Grow(chunks, i);
      SnocInit(chunks[..i], chunks[i]);
      FramesConcat("", Flat(chunks[..i]), chunks[i], id, cap);
      LinesConcat("", Flat(chunks[..i]), chunks[i]);
      var more := Drain(c, chunks[i], id, cap, Rest("", Flat(chunks[..i])));
      got := got + more;
      i := i + 1;
    }
    Whole(chunks);
  }

  // ---- a frame printed and read again ---------------------------------------------------------

  type Byte = b: nat | b < 256

  function ByteText(b: Byte): string
  {
    [HEX[b / 16], HEX[b % 16]]
  }

  /** The bytes, each behind a space. */
  function DataText(data: seq<Byte>): string
  {
    if data == [] then "" else " " + (ByteText(data[0]) + DataText(data[1..]))
  }

  lemma HexIsNoGap(s: string)
    requires AllHex(s)
    ensures forall i :: 0 <= i < |s| ==> !IsGap(s[i])
  {
    assert forall i :: 0 <= i < |s| ==> IsHex(s[i]);
  }

  lemma ByteBack(b: Byte)
    ensures HexByte(ByteText(b)) == Some(b) && !IsGap(ByteText(b)[0]) && !IsGap(ByteText(b)[1])
  {
    hide HexDigit;
    HexDigitBack(b / 16);
    HexDigitBack(b % 16);
    var t := ByteText(b);
    TwoDigits(t[0], t[1], b / 16, b % 16);
    assert t == [t[0], t[1]];
  }

  lemma TwoDigits(x: char, y: char, h: nat, l: nat)
    requires HexDigit(x) == Some(h) && HexDigit(y) == Some(l)
    ensures HexValue([x, y]) == Some(h * 16 + l)
  {
    hide HexDigit;
    SnocInit([x], y);
    assert [x] + [y] == [x, y];
    SnocInit("", x);
    assert "" + [x] == [x];
    assert HexValue([x]) == Some(h);
  }

  lemma {:induction false} TokenHere(front: string, tok: string, rest: string)
    requires tok != "" && (forall i :: 0 <= i < |tok| ==> !IsGap(tok[i])) && (rest != "" ==> IsGap(rest[0]))
    ensures var s := front + (tok + rest);
      TokenEnd(s, |front|) == |front| + |tok| && SkipBlanks(s, |front|) == |front|
      && s[|front|..|front| + |tok|] == tok
  {
    hide TokenEnd, SkipBlanks, IsGap;
    var s := front + (tok + rest);
    TokenEndIs(s, |front|, |front| + |tok|);
    forall k | |front| <= k < |front| + |tok|
      ensures !IsGap(s[k])
    {
      assert s[k] == tok[k - |front|];
    }
    assert rest != "" ==> s[|front| + |tok|] == rest[0];
    NoBlanks(s, |front|);
  }

  lemma TokenEndIs(s: string, p: nat, e: nat)
    requires p <= e <= |s|
    ensures (forall k :: p <= k < e ==> !IsGap(s[k])) && (e < |s| ==> IsGap(s[e])) ==> TokenEnd(s, p) == e
  {
  }

  lemma NoBlanks(s: string, p: nat)
    requires p < |s|
    ensures !IsGap(s[p]) ==> SkipBlanks(s, p) == p
  {
  }

  /** The texts of the bytes. */
  function ByteTexts(data: seq<Byte>): seq<string>
  {
    if data == [] then [] else [ByteText(data[0])] + ByteTexts(data[1..])
  }

  lemma {:induction false} DataTokens(front: string, data: seq<Byte>, n: nat)
    requires n + |data| <= TOKENS_MAX
    ensures Tokens(front + DataText(data), |front|, n) == ByteTexts(data)
    decreases data
  {
    hide ByteText, TokenEnd, SkipBlanks, Tokens, DataText;
    if data == [] {
      NoTokens(front, n);
    } else {
      var b, rest := data[0], DataText(data[1..]);
      FirstByte(front, data);
      ByteTextLength(b);
      TokenStep(front + DataText(data), |front|, |front| + 1, n, ByteText(b));
      DataTokens((front + " ") + ByteText(b), data[1..], n + 1);
    }
  }

  lemma NoTokens(front: string, n: nat)
    ensures Tokens(front + DataText([]), |front|, n) == []
  {
  }

  /** The first byte of a frame's text is a token of its own. */
  lemma FirstByte(front: string, data: seq<Byte>)
    requires data != []
    ensures var s, t := front + DataText(data), ByteText(data[0]);
      && s == ((front + " ") + t) + DataText(data[1..]) && |front| < |s| && SkipBlanks(s, |front|) == |front| + 1
      && TokenEnd(s, |front| + 1) == |front| + 1 + |t| && s[|front| + 1..|front| + 1 + |t|] == t
  {
    hide ByteText, TokenEnd;
    var s, t, rest := front + DataText(data), ByteText(data[0]), DataText(data[1..]);
    ByteBack(data[0]);
    ByteTextLength(data[0]);
    Assoc(front, " ", t + rest);
    TokenHere(front + " ", t, rest);
    assert s[|front|] == ' ' && SkipBlanks(s, |front|) == SkipBlanks(s, |front| + 1);
    Assoc(front + " ", t, rest);
  }

  lemma TokenStep(s: string, p: nat, start: nat, n: nat, tok: string)
    requires p < |s| && n < TOKENS_MAX && SkipBlanks(s, p) == start && tok != ""
    requires TokenEnd(s, start) == start + |tok| && s[start..start + |tok|] == tok
    ensures Tokens(s, p, n) == [tok] + Tokens(s, start + |tok|, n + 1)
  {
  }

  lemma ByteTextLength(b: Byte)
    ensures |ByteText(b)| == 2 && ByteText(b) != ">"
  {
  }

  lemma {:induction false} DataBack(data: seq<Byte>, room: nat)
    requires |data| <= room
    ensures Data(ByteTexts(data), room) == data
    decreases data
  {
    hide ByteText, HexByte;
    if data != [] {
      ByteBack(data[0]);
      ByteTextLength(data[0]);
      assert ByteTexts(data)[1..] == ByteTexts(data[1..]);
      DataBack(data[1..], room - 1);
    }
  }

  /** A frame printed with its id in 3 or 8 digits is read back under its id, byte by
      byte, and under no other. */
  lemma {:induction false} FrameRoundTrip(id: nat, digits: nat, data: seq<Byte>, asked: nat, cap: nat)
    requires (digits == 3 || digits == 8) && id < Pow16(digits)
    requires data != [] && |data| < TOKENS_MAX && |data| <= cap
    ensures FrameOf(HexText(id, digits) + DataText(data), asked, cap) == if asked == id then Some(data) else None
  {
    hide DataText, HexText, Pow16, Data, HexValue, Tokens;
    var idText := HexText(id, digits);
    HexTextBack(id, digits);
    HexIsNoGap(idText);
    FrameTokens(idText, data);
    DataBack(data, cap);
    assert ([idText] + ByteTexts(data))[1..] == ByteTexts(data);
  }

  lemma FrameTokens(idText: string, data: seq<Byte>)
    requires idText != "" && (forall i :: 0 <= i < |idText| ==> !IsGap(idText[i])) && |data| < TOKENS_MAX
    ensures Tokens(idText + DataText(data), 0, 0) == [idText] + ByteTexts(data)
  {
    hide DataText, TokenEnd, SkipBlanks;
    DataStarts(data);
    TokenHere("", idText, DataText(data));
    assert "" + (idText + DataText(data)) == idText + DataText(data);
    DataTokens(idText, data, 1);
  }

  lemma DataStarts(data: seq<Byte>)
    ensures DataText(data) != "" ==> IsGap(DataText(data)[0])
  {
  }
}
