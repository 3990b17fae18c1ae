/** A car's responders and their support bitmaps as text. */
module ResponderTable {
  import opened Wrappers
  import opened Seqs
  import opened Numerals

  type Word = w: nat | w < 0x1_0000_0000

  /** A responder; its id is ANY when the headers were off. */
  datatype Responder = Responder(id: Word, bitmap: Word)

  const ANY: Word := 0xFFFF_FFFF

  function IdText(id: Word): string {
    if id == ANY then "*" else HexShort(id)
  }

  function Token(e: Responder): string {
    IdText(e.id) + (":" + HexText(e.bitmap, 8))
  }

  /** The table in one line. */
  function Print(es: seq<Responder>): string {
    if es == [] then ""
    else if |es| == 1 then Token(es[0])
    else Token(es[0]) + ("," + Print(es[1..]))
  }

  /** What an entry adds behind the ones before it. */
  function Piece(e: Responder, first: bool): string {
    (if first then "" else ",") + Token(e)
  }

  lemma {:induction false} PrintSnoc(es: seq<Responder>, e: Responder)
    ensures Print(es + [e]) == Print(es) + Piece(e, es == [])
  {
    hide Token;
    if es == [] {
      assert [] + [e] == [e] && "" + ("" + Token(e)) == Token(e);
    } else {
      var all := es + [e];
      assert all[0] == es[0] && all[1..] == es[1..] + [e];
      PrintSnoc(es[1..], e);
      if |es| == 1 {
        assert es[1..] == [] && [] + [e] == [e];
        assert Print(all[1..]) == Token(e);
      } else {
        Assoc(",", Print(es[1..]), Piece(e, false));
        Assoc(Token(es[0]), "," + Print(es[1..]), Piece(e, false));
      }
    }
  }

  lemma {:induction false} PrintGrows(es: seq<Responder>, i: nat)
    requires i <= |es|
    ensures |Print(es[..i])| <= |Print(es)|
    decreases |es| - i
  {
    hide Token;
    if i == |es| {
      Whole(es);
    } else {
      Grow(es, i);
      PrintSnoc(es[..i], es[i]);
      PrintGrows(es, i + 1);
    }
  }

  /** Into a buffer of cap bytes, or not at all. */
  method ToStr(es: seq<Responder>, cap: nat) returns (out: Option<string>)
    ensures out == if |Print(es)| < cap then Some(Print(es)) else None
  {
    hide Token;
    if cap == 0 {
      return None;
    }
    var text := "";
    var i := 0;
    while i < |es|
      invariant i <= |es| && text == Print(es[..i]) && |text| < cap
    {
      var tok := Piece(es[i], i == 0);
      Grow(es, i);
      PrintSnoc(es[..i], es[i]);
      if |text| + |tok| >= cap {
        PrintGrows(es, i + 1);
        return None;
      }
      text := text + tok;
      i := i + 1;
    }
    Whole(es);
    out := Some(text);
  }

  // ---- reading ------------------------------------------------------------------------

  /** The position of a character, or the end. */
  function Find(s: string, c: char): (k: nat)
    ensures k <= |s| && (k < |s| ==> s[k] == c) && forall i :: 0 <= i < k ==> s[i] != c
  {
    if s == "" then 0 else if s[0] == c then 0 else 1 + Find(s[1..], c)
  }

  lemma {:induction false} FindIs(s: string, c: char, k: nat)
    requires k <= |s| && (k < |s| ==> s[k] == c) && forall i :: 0 <= i < k ==> s[i] != c
    ensures Find(s, c) == k
  {
  }

  /** One entry of the line, when it is well formed. */
  function ReadToken(tok: string): Option<Responder> {
    var colon := Find(tok, ':');
    if colon == |tok| || colon == 0 || colon > 8 then None
    else
      var id, bm := tok[..colon], tok[colon + 1..];
      if |bm| < 1 || |bm| > 8 then None
      else
        match (if id == "*" then Some(ANY as nat) else HexValue(id), HexValue(bm))
        case (Some(i), Some(b)) => if i < 0x1_0000_0000 && b < 0x1_0000_0000 then Some(Responder(i, b)) else None
        case _ => None
  }

  /** The entries of a line, at most that many; malformed ones are skipped. */
  function Parse(s: string, room: nat): seq<Responder>
    decreases |s|
  {
    if s == "" || room == 0 then []
    else
      var end := Find(s, ',');
      var rest := if end < |s| then s[end + 1..] else "";
      match ReadToken(s[..end])
      case Some(e) => [e] + Parse(rest, room - 1)
      case None => Parse(rest, room)
  }

  /** Eight hex digits always fit a word. */
  lemma {:induction false} HexBound(s: string, n: nat)
    requires |s| <= n && HexValue(s).Some?
    ensures HexValue(s).value < Pow16(n)
    decreases n
  {
    if s != "" {
      HexBound(Init(s), n - 1);
    } else {
      PowPositive(n);
    }
  }

  lemma {:induction false} PowPositive(n: nat)
    ensures Pow16(n) >= 1
  {
    if n > 0 {
      PowPositive(n - 1);
    }
  }

  lemma Pow8()
    ensures Pow16(8) == 0x1_0000_0000
  {
    assert Pow16(2) == 256;
    assert Pow16(4) == 256 * Pow16(2);
    assert Pow16(6) == 256 * Pow16(4);
  }

  method IndexOfChar(s: string, c: char) returns (k: nat)
    ensures k == Find(s, c)
  {
    k := 0;
    while k < |s| && s[k] != c
      invariant k <= |s| && forall i :: 0 <= i < k ==> s[i] != c
    {
      k := k + 1;
    }
    FindIs(s, c, k);
  }

  /** Hex digits into a number, if they are all digits. */
  method ReadHex(s: string) returns (v: Option<nat>)
    ensures v == HexValue(s)
  {
    var value, i := 0, 0;
    while i < |s|
      invariant i <= |s| && HexValue(s[..i]) == Some(value)
    {
      Grow(s, i);
      HexSnoc(s[..i], s[i]);
      var d := HexDigit(s[i]);
      if d.None? {
        NoDigitNoValue(s, i + 1);
        return None;
      }
      value := value * 16 + d.value;
      i := i + 1;
    }
    Whole(s);
    v := Some(value);
  }

  lemma {:induction false} NoDigitNoValue(s: string, i: nat)
    requires i <= |s| && HexValue(s[..i]).None?
    ensures HexValue(s).None?
    decreases |s| - i
  {
    if i == |s| {
      Whole(s);
    } else {
      Grow(s, i);
      HexSnoc(s[..i], s[i]);
      NoDigitNoValue(s, i + 1);
    }
  }

  method FromToken(tok: string) returns (e: Option<Responder>)
    ensures e == ReadToken(tok)
  {
    hide HexValue, Pow16, Find;
    var colon := IndexOfChar(tok, ':');
    if colon == |tok| || colon == 0 || colon > 8 || |tok| - colon - 1 < 1 || |tok| - colon - 1 > 8 {
      return None;
    }
    var bm := ReadHex(tok[colon + 1..]);
    var id := Some(ANY as nat);
    if tok[..colon] != "*" {
      id := ReadHex(tok[..colon]);
    }
    if bm.None? || id.None? {
      return None;
    }
    Pow8();
    HexBound(tok[colon + 1..], 8);
    if tok[..colon] != "*" {
      HexBound(tok[..colon], 8);
    }
    e := Some(Responder(id.value, bm.value));
  }

  method FromStr(s: string, max: nat) returns (es: seq<Responder>)
    ensures es == Parse(s, max)
  {
    hide ReadToken, Find;
    es := [];
    var rest := s;
    assert [] + Parse(s, max) == Parse(s, max);
    while rest != "" && |es| < max
      invariant |es| <= max && es + Parse(rest, max - |es|) == Parse(s, max)
      decreases |rest|
    {
      var end := IndexOfChar(rest, ',');
      var e := FromToken(rest[..end]);
      ghost var after := if end < |rest| then rest[end + 1..] else "";
      if e.Some? {
        Assoc(es, [e.value], Parse(after, max - |es| - 1));
        es := es + [e.value];
      }
      rest := if end < |rest| then rest[end + 1..] else "";
    }
    assert es + [] == es;
  }

  // ---- round trip ---------------------------------------------------------------------

  lemma NotHex(s: string, c: char)
    requires AllHex(s) && (c == ',' || c == ':' || c == '*')
    ensures c !in s
  {
    assert !IsHex(c);
  }

  lemma IdBack(id: Word)
    ensures 1 <= |IdText(id)| <= 8 && ',' !in IdText(id) && ':' !in IdText(id)
    ensures id != ANY ==> HexValue(IdText(id)) == Some(id) && IdText(id) != "*"
  {
    hide HexDigit, HexValue, HexShort;
    if id != ANY {
      Pow8();
      HexShortBack(id, 8);
      NotHex(HexShort(id), ',');
      NotHex(HexShort(id), ':');
      NotHex(HexShort(id), '*');
    }
  }

  lemma TokenBack(e: Responder)
    ensures ReadToken(Token(e)) == Some(e) && ',' !in Token(e) && Token(e) != ""
  {
    hide HexDigit, HexValue, HexShort, HexText, Find;
    IdBack(e.id);
    Pow8();
    HexTextBack(e.bitmap, 8);
    NotHex(HexText(e.bitmap, 8), ',');
    var tok, k := Token(e), |IdText(e.id)|;
    assert tok[..k] == IdText(e.id) && tok[k] == ':' && tok[k + 1..] == HexText(e.bitmap, 8);
    assert forall i :: 0 <= i < k ==> tok[i] == IdText(e.id)[i];
    FindIs(tok, ':', k);
    assert ',' !in HexText(e.bitmap, 8);
  }

  /** Whatever table was printed is read back, with room for it. */
  lemma {:induction false} RoundTrip(es: seq<Responder>, max: nat)
    requires |es| <= max
    ensures Parse(Print(es), max) == es
  {
    hide ReadToken, Token, Find, Print, Parse;
    if es == [] {
      NothingPrinted(max);
    } else {
      TokenBack(es[0]);
      var tok := Token(es[0]);
      PrintedFirst(es);
      NothingPrinted(max - 1);
      assert es == [es[0]] + es[1..];
      if |es| == 1 {
        LastToken(tok);
        ParseStep(tok, es[0], max);
        assert es[1..] == [];
      } else {
        TokenBefore(tok, Print(es[1..]));
        ParseStep(tok + ("," + Print(es[1..])), es[0], max);
        RoundTrip(es[1..], max - 1);
      }
    }
  }

  lemma NothingPrinted(max: nat)
    ensures Print([]) == "" && Parse("", max) == []
  {
  }

  lemma PrintedFirst(es: seq<Responder>)
    requires es != []
    ensures Print(es) == if |es| == 1 then Token(es[0]) else Token(es[0]) + ("," + Print(es[1..]))
  {
  }

  /** A readable token is the first entry, and the rest is read behind its comma. */
  lemma ParseStep(s: string, e: Responder, room: nat)
    requires s != "" && room > 0 && ReadToken(s[..Find(s, ',')]) == Some(e)
    ensures var end := Find(s, ',');
      Parse(s, room) == [e] + Parse(if end < |s| then s[end + 1..] else "", room - 1)
  {
    hide ReadToken, Find;
  }

  lemma LastToken(tok: string)
    requires ',' !in tok
    ensures Find(tok, ',') == |tok| && tok[..|tok|] == tok
  {
    FindIs(tok, ',', |tok|);
  }

  lemma TokenBefore(tok: string, rest: string)
    requires ',' !in tok
    ensures var s := tok + ("," + rest);
      Find(s, ',') == |tok| && s[..|tok|] == tok && s[|tok| + 1..] == rest
  {
    var s := tok + ("," + rest);
    forall i | 0 <= i < |tok|
      ensures s[i] != ','
    {
      assert s[i] == tok[i] && tok[i] in tok;
    }
    FindIs(s, ',', |tok|);
  }
}
