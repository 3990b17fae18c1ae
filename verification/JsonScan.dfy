/** The narrow JSON scanner of the trouble-code importer: cursor loops that always
    move on, on any bytes, and never past the end. */
module JsonScan {
  import opened Wrappers
  import opened Numerals

  /** The first position at or behind p that is no white space. */
  function Ws(s: string, p: nat): (q: nat)
    requires p <= |s|
    ensures p <= q <= |s| && (q < |s| ==> !IsBlank(s[q]))
    ensures forall i :: p <= i < q ==> IsBlank(s[i])
    decreases |s| - p
  {
    if p < |s| && IsBlank(s[p]) then Ws(s, p + 1) else p
  }

  // ---- strings -----------------------------------------------------------------------

  /** The value of hex digits; a question mark when one is none. */
  function EscapeValue(digits: string, v: nat): nat
    decreases digits
  {
    if digits == "" then v
    else
      match HexDigit(digits[0])
      case Some(d) => EscapeValue(digits[1..], v * 16 + d)
      case None => 0x3F
  }

  /** The character at p, escapes read, and its last position. */
  function CharAt(s: string, p: nat): (r: (char, nat))
    requires p < |s|
    ensures p <= r.1 < |s|
  {
    if s[p] != '\\' || p + 1 >= |s| then (s[p], p)
    else
      var e := s[p + 1];
      if e == 'n' || e == 't' || e == 'r' || e == 'b' || e == 'f' then (' ', p + 1)
      else if e != 'u' then (e, p + 1)
      else if p + 5 < |s| then
        var v := EscapeValue(s[p + 2..p + 6], 0);
        (if 0x20 <= v < 0x7F then v as char else '?', p + 5)
      else ('\\', p + 1)
  }

  function Add(out: string, c: char, cap: nat): string {
    if |out| + 1 < cap then out + [c] else out
  }

  /** From inside a string to behind its closing quote, with the text kept so far. */
  function Body(s: string, p: nat, out: string, cap: nat): (r: Option<(nat, string)>)
    requires p <= |s|
    ensures r.Some? ==> p < r.value.0 <= |s| && |r.value.1| < |out| + (r.value.0 - p)
    ensures r.Some? && |out| < cap ==> |r.value.1| < cap
    decreases |s| - p
  {
    if p >= |s| then None
    else if s[p] == '"' then Some((p + 1, out))
    else
      var (c, q) := CharAt(s, p);
      Body(s, q + 1, Add(out, c, cap), cap)
  }

  /** A string at its opening quote: the position behind it and its text. */
  function Str(s: string, p: nat, cap: nat): (r: Option<(nat, string)>)
    requires p <= |s|
    ensures r.Some? ==> p + 1 < r.value.0 <= |s| && |r.value.1| + p + 1 < r.value.0
    ensures r.Some? && cap > 0 ==> |r.value.1| < cap
  {
    if p >= |s| || s[p] != '"' then None else Body(s, p + 1, "", cap)
  }

  method JsonWs(s: string, p: nat) returns (q: nat)
    requires p <= |s|
    ensures q == Ws(s, p)
  {
    q := p;
    while q < |s| && IsBlank(s[q])
      invariant p <= q <= |s| && Ws(s, q) == Ws(s, p)
      decreases |s| - q
    {
      q := q + 1;
    }
  }

  method JsonString(s: string, p: nat, cap: nat) returns (r: Option<(nat, string)>)
    requires p <= |s|
    ensures r == Str(s, p, cap)
  {
    hide CharAt;
    if p >= |s| || s[p] != '"' {
      return None;
    }
    var q := p + 1;
    var out := "";
    while q < |s| && s[q] != '"'
      invariant p < q <= |s| && Body(s, q, out, cap) == Str(s, p, cap)
      decreases |s| - q
    {
      var c, last := ReadChar(s, q);
      if |out| + 1 < cap {
        out := out + [c];
      }
      q := last + 1;
    }
    if q >= |s| {
      return None;
    }
    r := Some((q + 1, out));
  }

  method ReadChar(s: string, p: nat) returns (c: char, last: nat)
    requires p < |s|
    ensures (c, last) == CharAt(s, p)
  {
    c, last := s[p], p;
    if c == '\\' && p + 1 < |s| {
      last := p + 1;
      match s[last] {
        case 'n' | 't' | 'r' | 'b' | 'f' => c := ' ';
        case 'u' =>
          if last + 4 < |s| {
            var v := ReadHex(s, last + 1);
            c := if 0x20 <= v < 0x7F then v as char else '?';
            last := last + 4;
          }
        case _ => c := s[last];
      }
    }
  }

  method ReadHex(s: string, p: nat) returns (v: nat)
    requires p + 4 <= |s|
    ensures v == EscapeValue(s[p..p + 4], 0)
  {
    v := 0;
    ghost var digits := s[p..p + 4];
    var i := 0;
    while i < 4
      invariant i <= 4 && EscapeValue(digits[i..], v) == EscapeValue(digits, 0)
    {
      assert digits[i..][0] == s[p + i] && digits[i..][1..] == digits[i + 1..];
      match HexDigit(s[p + i]) {
        case Some(d) => v := v * 16 + d;
        case None => return 0x3F;
      }
      i := i + 1;
    }
  }

  // ---- skipping a value ----------------------------------------------------------------

  predicate EndsToken(c: char) {
    c == ',' || c == '}' || c == ']' || IsBlank(c)
  }

  function Token(s: string, p: nat): (q: nat)
    requires p <= |s|
    ensures p <= q <= |s| && (q < |s| ==> EndsToken(s[q]))
    ensures p < |s| && !EndsToken(s[p]) ==> p < q
    decreases |s| - p
  {
    if p < |s| && !EndsToken(s[p]) then Token(s, p + 1) else p
  }

  /** One piece of a value, and the depth behind it. */
  function Piece(s: string, p: nat, depth: int): (r: Option<(nat, int)>)
    requires p < |s|
    ensures r.Some? ==> p <= r.value.0 <= |s| && (r.value.0 == p ==> s[p] == ',' || IsBlank(s[p]))
  {
    if s[p] == '"' then
      match Str(s, p, 2)
      case Some(t) => Some((t.0, depth))
      case None => None
    else if s[p] == '{' || s[p] == '[' then Some((p + 1, depth + 1))
    else if s[p] == '}' || s[p] == ']' then Some((p + 1, depth - 1))
    else Some((Token(s, p), depth))
  }

  /** White space, and inside a value the comma behind a piece. */
  function Between(s: string, p: nat, depth: int): (q: nat)
    requires p <= |s|
    ensures p <= q <= |s| && (q < |s| ==> !IsBlank(s[q]))
    ensures depth > 0 && p < |s| && s[p] == ',' ==> p < q
  {
    var q := Ws(s, p);
    if depth > 0 && q < |s| && s[q] == ',' then Ws(s, q + 1) else q
  }

  /** The loop over the pieces of a value, which starts at no white space. While the
      value is open every round consumes something. */
  function SkipFrom(s: string, p: nat, depth: int): (r: Option<nat>)
    requires p <= |s| && (p < |s| ==> !IsBlank(s[p]))
    ensures r.Some? ==> p <= r.value <= |s| && (r.value < |s| ==> !IsBlank(s[r.value]))
    ensures r.Some? && r.value == p && p < |s| ==> s[p] == ','
    decreases |s| - p
  {
    if p >= |s| then None
    else
      match Piece(s, p, depth)
      case None => None
      case Some((q, d)) =>
        var n := Between(s, q, d);
        if d > 0 then SkipFrom(s, n, d) else Some(n)
  }

  /** Behind any JSON value, nested to any depth. */
  function Skip(s: string, p: nat): (r: Option<nat>)
    requires p <= |s|
    ensures r.Some? ==> p <= r.value <= |s| && (r.value < |s| ==> !IsBlank(s[r.value]))
    ensures r.Some? && r.value == p && p < |s| ==> s[p] == ','
  {
    SkipFrom(s, Ws(s, p), 0)
  }

  method ReadPiece(s: string, p: nat, depth: int) returns (r: Option<(nat, int)>)
    requires p < |s|
    ensures r == Piece(s, p, depth)
  {
    if s[p] == '"' {
      var t := JsonString(s, p, 2);
      r := if t.Some? then Some((t.value.0, depth)) else None;
    } else if s[p] == '{' || s[p] == '[' {
      r := Some((p + 1, depth + 1));
    } else if s[p] == '}' || s[p] == ']' {
      r := Some((p + 1, depth - 1));
    } else {
      var q := p;
      while q < |s| && !EndsToken(s[q])
        invariant p <= q <= |s| && Token(s, q) == Token(s, p)
        decreases |s| - q
      {
        q := q + 1;
      }
      r := Some((q, depth));
    }
  }

  method ReadBetween(s: string, p: nat, depth: int) returns (q: nat)
    requires p <= |s|
    ensures q == Between(s, p, depth)
  {
    hide Ws;
    q := JsonWs(s, p);
    if depth > 0 && q < |s| && s[q] == ',' {
      q := JsonWs(s, q + 1);
    }
  }

  method JsonSkip(s: string, p: nat) returns (r: Option<nat>)
    requires p <= |s|
    ensures r == Skip(s, p)
  {
    hide Piece, Ws, Str, IsBlank, Between;
    var depth := 0;
    var q := JsonWs(s, p);
    while true
      invariant p <= q <= |s| && (q < |s| ==> !IsBlank(s[q]))
      invariant SkipFrom(s, q, depth) == Skip(s, p)
      decreases |s| - q
    {
      if q >= |s| {
        return None;
      }
      var piece := ReadPiece(s, q, depth);
      if piece.None? {
        return None;
      }
      depth := piece.value.1;
      var end := ReadBetween(s, piece.value.0, depth);
      if depth <= 0 {
        return Some(end);
      }
      q := end;
    }
  }
}
