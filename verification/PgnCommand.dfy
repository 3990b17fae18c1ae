/** The command of a J1939 row: a parameter group, perhaps one source, perhaps a request. */
module PgnCommand {
  import opened Wrappers
  import opened Seqs
  import opened Numerals

  const PREFIX: string := "PGN:"
  const HEX_MAX: nat := 5
  const PGN_MAX: nat := 0x3FFFF
  const PDU1_LIMIT: nat := 240
  const SA_MAX: nat := 253

  /** sa None: any source. */
  datatype Command = Command(pgn: nat, sa: Option<nat>, request: bool)

  datatype Error = NotAGroup | Malformed

  /** A group in range; one with a destination in its low byte (PF below 240) carries
      no address there. */
  predicate ValidGroup(pgn: nat) {
    pgn <= PGN_MAX && (pgn / 256 % 256 < PDU1_LIMIT ==> pgn % 256 == 0)
  }

  predicate Valid(c: Command) {
    ValidGroup(c.pgn) && (c.sa.Some? ==> c.sa.value <= SA_MAX)
  }

  function SpacesOff(s: string): (r: string)
    ensures |r| <= |s| && (r != "" ==> r[0] != ' ')
  {
    if s != "" && s[0] == ' ' then SpacesOff(s[1..]) else s
  }

  predicate StartsWithPrefix(s: string) {
    |s| >= 4 && Upper(s[0]) == 'P' && Upper(s[1]) == 'G' && Upper(s[2]) == 'N' && s[3] == ':'
  }

  /** How many hex digits, at most max. */
  function HexRun(s: string, max: nat): (n: nat)
    ensures n <= |s| && n <= max
    ensures forall i :: 0 <= i < n ==> IsHex(s[i])
    ensures n < max && n < |s| ==> !IsHex(s[n])
  {
    if s == "" || max == 0 || !IsHex(s[0]) then 0 else 1 + HexRun(s[1..], max - 1)
  }

  // ---- the library's reading of a number with a base prefix -------------------------------

  function WhiteOff(s: string): (r: string)
    ensures |r| <= |s|
  {
    if s != "" && IsSpace(s[0]) then WhiteOff(s[1..]) else s
  }

  function DigitOf(c: char, base: nat): Option<nat> {
    match HexDigit(c)
    case Some(d) => if d < base then Some(d) else None
    case None => None
  }

  /** The digits of that base a text starts with, behind a value; and what is left. */
  function Number(s: string, base: nat, v: nat): (r: (nat, string))
    ensures |r.1| <= |s|
  {
    if s == "" || DigitOf(s[0], base).None? then (v, s)
    else Number(s[1..], base, v * base + DigitOf(s[0], base).value)
  }

  /** strtol with base 0: the value and what is left, none when no digit was read. */
  function Strtol(s: string): Option<(int, string)> {
    var t := WhiteOff(s);
    var neg := t != "" && t[0] == '-';
    var u := if t != "" && (t[0] == '-' || t[0] == '+') then t[1..] else t;
    if u == "" || !IsDigit(u[0]) then None
    else
      var (v, rest) :=
        if u[0] == '0' && |u| > 2 && (u[1] == 'x' || u[1] == 'X') && IsHex(u[2]) then Number(u[2..], 16, 0)
        else if u[0] == '0' then Number(u, 8, 0)
        else Number(u, 10, 0);
      Some((if neg then 0 - (v as int) else v, rest))
  }

  // ---- parsing ---------------------------------------------------------------------------

  /** Behind the group and source: the request mark and spaces, and nothing else. */
  function ParseTail(pgn: nat, sa: Option<nat>, s: string): Result<Command, Error> {
    var asked := s != "" && s[0] == '?';
    if SpacesOff(if asked then s[1..] else s) != "" then Err(Malformed) else Ok(Command(pgn, sa, asked))
  }

  function ParseSource(pgn: nat, s: string): Result<Command, Error> {
    if s == "" || s[0] != '@' then ParseTail(pgn, None, s)
    else
      match Strtol(s[1..])
      case None => Err(Malformed)
      case Some((v, rest)) => if v < 0 || v > SA_MAX then Err(Malformed) else ParseTail(pgn, Some(v), rest)
  }

  function Parse(cmd: string): Result<Command, Error> {
    var p := SpacesOff(cmd);
    if !StartsWithPrefix(p) then Err(NotAGroup)
    else
      var s := p[4..];
      var n := HexRun(s, HEX_MAX);
      if n == 0 || (n < |s| && IsHex(s[n])) then Err(Malformed)
      else
        match HexValue(s[..n])
        case None => Err(Malformed)
        case Some(pgn) => if !ValidGroup(pgn) then Err(Malformed) else ParseSource(pgn, s[n..])
  }

  /** Only valid commands are accepted. */
  lemma ParsedIsValid(cmd: string)
    ensures Parse(cmd).Ok? ==> Valid(Parse(cmd).value)
  {
    hide HexRun, HexValue, SpacesOff, Strtol;
  }

  method SkipSpaces(s: string) returns (r: string)
    ensures r == SpacesOff(s)
  {
    r := s;
    while r != "" && r[0] == ' '
      invariant SpacesOff(r) == SpacesOff(s)
      decreases |r|
    {
      r := r[1..];
    }
  }

  /** Hex digits into a number, at most max of them. */
  method ReadHex(s: string, max: nat) returns (n: nat, value: nat)
    ensures n == HexRun(s, max) && HexValue(s[..n]) == Some(value)
  {
    n, value := 0, 0;
    Whole(s);
    while n < max && n < |s| && IsHex(s[n])
      invariant n <= |s| && n <= max && HexValue(s[..n]) == Some(value)
      invariant HexRun(s, max) == n + HexRun(s[n..], max - n)
    {
      Grow(s, n);
      HexSnoc(s[..n], s[n]);
      assert s[n..][0] == s[n] && s[n..][1..] == s[n + 1..];
      value := value * 16 + HexDigit(s[n]).value;
      n := n + 1;
    }
    assert n < |s| ==> s[n..][0] == s[n];
  }

  method ParseCommand(cmd: string) returns (r: Result<Command, Error>)
    ensures r == Parse(cmd)
  {
    hide HexRun, HexValue, Strtol, SpacesOff, IsHex;
    var p := SkipSpaces(cmd);
    if !StartsWithPrefix(p) {
      return Err(NotAGroup);
    }
    p := p[4..];
    var n, value := ReadHex(p, HEX_MAX);
    if n == 0 || (n < |p| && IsHex(p[n])) || value > PGN_MAX {
      return Err(Malformed);
    }
    if value / 256 % 256 < PDU1_LIMIT && value % 256 != 0 {
      return Err(Malformed);
    }
    p := p[n..];
    var source: Option<nat> := None;
    if p != "" && p[0] == '@' {
      var v := Strtol(p[1..]);
      if v.None? || v.value.0 < 0 || v.value.0 > SA_MAX {
        return Err(Malformed);
      }
      source := Some(v.value.0);
      p := v.value.1;
    }
    var asked := false;
    if p != "" && p[0] == '?' {
      asked := true;
      p := p[1..];
    }
    p := SkipSpaces(p);
    r := if p != "" then Err(Malformed) else Ok(Command(value, source, asked));
  }

  // ---- printing ----------------------------------------------------------------------------

  function Mark(request: bool): string {
    if request then "?" else ""
  }

  function SourceText(sa: Option<nat>): string {
    match sa
    case Some(v) => "@" + Dec(v)
    case None => ""
  }

  function Format(c: Command): string {
    PREFIX + (HexShort(c.pgn) + (SourceText(c.sa) + Mark(c.request)))
  }

  // ---- round trip ----------------------------------------------------------------------------

  lemma {:induction false} HexRunIs(s: string, n: nat, max: nat)
    requires n <= |s| && n <= max && (forall i :: 0 <= i < n ==> IsHex(s[i])) && (n < |s| ==> !IsHex(s[n]))
    ensures HexRun(s, max) == n
  {
    hide HexDigit;
    if n > 0 {
      HexRunIs(s[1..], n - 1, max - 1);
    }
  }

  /** The digits of a number, then what is behind it. */
  lemma {:induction false} NumberStep(n: nat, rest: string)
    ensures Number(Dec(n) + rest, 10, 0) == Number(rest, 10, n)
    decreases n
  {
    hide HexDigit;
    if n < 10 {
      DecimalDigit(n);
      assert (Dec(n) + rest)[1..] == rest && (Dec(n) + rest)[0] == Digit(n);
    } else {
      var d := [Digit(n % 10)];
      Assoc(Dec(n / 10), d, rest);
      NumberStep(n / 10, d + rest);
      DecimalDigit(n % 10);
      assert (d + rest)[1..] == rest && (d + rest)[0] == Digit(n % 10);
    }
  }

  lemma DecimalDigit(d: nat)
    requires d < 10
    ensures DigitOf(Digit(d), 10) == Some(d)
  {
  }

  /** No leading zero. */
  lemma {:induction false} DecStarts(n: nat)
    ensures Dec(n)[0] == '0' <==> n == 0
    ensures n == 0 ==> Dec(n) == "0"
  {
    if n >= 10 {
      DecStarts(n / 10);
    }
  }

  lemma NumberEnds(rest: string, base: nat, v: nat)
    requires rest == "" || rest[0] == '?'
    ensures Number(rest, base, v) == (v, rest)
  {
  }

  lemma StrtolOfDec(n: nat, rest: string)
    requires rest == "" || rest == "?"
    ensures Strtol(Dec(n) + rest) == Some((n as int, rest))
  {
    hide Number, HexDigit, Dec, DigitOf;
    var s := Dec(n) + rest;
    assert s[0] == Dec(n)[0];
    DecStarts(n);
    NumberEnds(rest, 10, n);
    if n == 0 {
      ZeroOctal(rest);
      assert |rest| <= 1;
    } else {
      NumberStep(n, rest);
    }
  }

  lemma ZeroOctal(rest: string)
    requires rest == "" || rest == "?"
    ensures Number("0" + rest, 8, 0) == (0, rest)
  {
    var s := "0" + rest;
    assert s[0] == '0' && s[1..] == rest;
    NumberEnds(rest, 8, 0);
    assert DigitOf('0', 8) == Some(0);
  }

  lemma TailBack(pgn: nat, sa: Option<nat>, request: bool)
    ensures ParseTail(pgn, sa, Mark(request)) == Ok(Command(pgn, sa, request))
  {
    assert request ==> Mark(request)[1..] == "";
  }

  lemma SourceBack(pgn: nat, sa: Option<nat>, request: bool)
    requires sa.Some? ==> sa.value <= SA_MAX
    ensures ParseSource(pgn, SourceText(sa) + Mark(request)) == Ok(Command(pgn, sa, request))
  {
    hide Strtol, Dec;
    TailBack(pgn, sa, request);
    var s := SourceText(sa) + Mark(request);
    match sa
    case None => assert s == Mark(request);
    case Some(v) =>
      StrtolOfDec(v, Mark(request));
      Assoc("@", Dec(v), Mark(request));
      assert s[1..] == Dec(v) + Mark(request);
  }

  lemma Pow5()
    ensures Pow16(5) == 0x10_0000
  {
    assert Pow16(3) == 4096;
  }

  lemma MarkIsNoHex(sa: Option<nat>, request: bool)
    ensures var s := SourceText(sa) + Mark(request); s == "" || !IsHex(s[0])
  {
    assert !IsHex('@') && !IsHex('?');
  }

  /** Every valid command is read back from its text. */
  lemma RoundTrip(c: Command)
    requires Valid(c)
    ensures Parse(Format(c)) == Ok(c)
  {
    hide HexRun, HexValue, HexShort, HexDigit, ParseSource, SourceText, Mark;
    var tail := SourceText(c.sa) + Mark(c.request);
    var s := HexShort(c.pgn) + tail;
    var cmd := PREFIX + s;
    Pow5();
    HexShortBack(c.pgn, 5);
    MarkIsNoHex(c.sa, c.request);
    assert cmd[..4] == "PGN:" && cmd[4..] == s;
    assert cmd[0] == 'P' && cmd[1] == 'G' && cmd[2] == 'N' && cmd[3] == ':';
    var n := |HexShort(c.pgn)|;
    assert s[..n] == HexShort(c.pgn) && s[n..] == tail;
    assert forall i :: 0 <= i < n ==> s[i] == HexShort(c.pgn)[i];
    HexRunIs(s, n, 5);
    SourceBack(c.pgn, c.sa, c.request);
  }
}
