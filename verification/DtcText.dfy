/** Trouble codes as text: the two bytes of a code and its five characters, the order
    of codes and names, and what the importer keeps of a code and a description. */
module DtcText {
  import opened Wrappers
  import opened Seqs
  import opened Numerals

  function Letter(n: nat): char
    requires n < 4
  {
    if n == 0 then 'P' else if n == 1 then 'C' else if n == 2 then 'B' else 'U'
  }

  /** The text of the code in two bytes. */
  function Format(hi: nat, lo: nat): string
    requires hi < 256 && lo < 256
  {
    [Letter(hi / 64), '0' + ((hi / 16 % 4) as char), HEX[hi % 16], HEX[lo / 16], HEX[lo % 16]]
  }

  function LetterOf(c: char): Option<nat> {
    match Upper(c)
    case 'P' => Some(0)
    case 'C' => Some(1)
    case 'B' => Some(2)
    case 'U' => Some(3)
    case _ => None
  }

  /** The two bytes of a code's text. */
  function Unformat(code: string): (r: Option<(nat, nat)>)
    ensures r.Some? ==> r.value.0 < 256 && r.value.1 < 256
  {
    if |code| != 5 || !('0' <= code[1] <= '3') then None
    else
      match (LetterOf(code[0]), HexDigit(code[2]), HexDigit(code[3]), HexDigit(code[4]))
      case (Some(l), Some(a), Some(b), Some(c)) =>
        Some((l * 64 + (code[1] - '0') as nat * 16 + a, b * 16 + c))
      case _ => None
  }

  lemma HexOfDigit(c: char)
    requires HexDigit(c).Some?
    ensures HEX[HexDigit(c).value] == Upper(c)
  {
  }

  lemma LetterBack(n: nat)
    requires n < 4
    ensures LetterOf(Letter(n)) == Some(n)
  {
  }

  lemma LetterForth(c: char)
    requires LetterOf(c).Some?
    ensures LetterOf(c).value < 4 && Letter(LetterOf(c).value) == Upper(c)
  {
  }

  lemma DigitBack(n: nat)
    requires n < 4
    ensures '0' <= '0' + (n as char) <= '3' && (('0' + (n as char)) - '0') as nat == n
  {
  }

  lemma DigitForth(c: char)
    requires '0' <= c <= '3'
    ensures (c - '0') as nat < 4 && '0' + ((c - '0') as nat as char) == c
  {
  }

  lemma HighParts(l: nat, d: nat, a: nat)
    requires l < 4 && d < 4 && a < 16
    ensures var hi := l * 64 + d * 16 + a; hi / 64 == l && hi / 16 % 4 == d && hi % 16 == a
  {
  }

  lemma LowParts(b: nat, c: nat)
    requires b < 16 && c < 16
    ensures (b * 16 + c) / 16 == b && (b * 16 + c) % 16 == c
  {
  }

  lemma HighWhole(hi: nat)
    requires hi < 256
    ensures hi / 64 < 4 && hi == hi / 64 * 64 + (hi / 16 % 4) * 16 + hi % 16
  {
  }

  /** Every pair of bytes is read back from its text. */
  lemma UnformatFormat(hi: nat, lo: nat)
    requires hi < 256 && lo < 256
    ensures Unformat(Format(hi, lo)) == Some((hi, lo))
  {
    hide LetterOf, Letter, HexDigit, HEX;
    HexDigitBack(hi % 16);
    HexDigitBack(lo / 16);
    HexDigitBack(lo % 16);
    HighWhole(hi);
    LetterBack(hi / 64);
    DigitBack(hi / 16 % 4);
  }

  /** A text that is a code is that code in upper case. */
  lemma FormatUnformat(code: string)
    requires Unformat(code).Some?
    ensures var v := Unformat(code).value;
      Format(v.0, v.1) == [Upper(code[0]), code[1], Upper(code[2]), Upper(code[3]), Upper(code[4])]
  {
    hide LetterOf, Letter, HexDigit, HEX, Upper;
    LetterForth(code[0]);
    DigitForth(code[1]);
    HexOfDigit(code[2]);
    HexOfDigit(code[3]);
    HexOfDigit(code[4]);
    HighParts(LetterOf(code[0]).value, (code[1] - '0') as nat, HexDigit(code[2]).value);
    LowParts(HexDigit(code[3]).value, HexDigit(code[4]).value);
  }

  // ---- the loops that read a code ------------------------------------------------------

  method ReadCode(code: string) returns (r: Option<(nat, nat)>)
    ensures r == Unformat(code)
  {
    if |code| != 5 {
      return None;
    }
    var letter := LetterOf(code[0]);
    if letter.None? || code[1] < '0' || code[1] > '3' {
      return None;
    }
    var nib: seq<nat> := [];
    var i := 0;
    while i < 3
      invariant i <= 3 && |nib| == i
      invariant forall k :: 0 <= k < i ==> HexDigit(code[2 + k]) == Some(nib[k])
    {
      var n := HexDigit(code[2 + i]);
      if n.None? {
        return None;
      }
      nib := nib + [n.value];
      i := i + 1;
    }
    r := Some((letter.value * 64 + (code[1] - '0') as nat * 16 + nib[0], nib[1] * 16 + nib[2]));
  }

  // ---- the order of codes and names ----------------------------------------------------

  /** memcmp of two codes, strcmp of two names. */
  function Cmp(a: string, b: string): int {
    if a == "" && b == "" then 0
    else if a == "" then -1
    else if b == "" then 1
    else if a[0] != b[0] then (if a[0] < b[0] then -1 else 1)
    else Cmp(a[1..], b[1..])
  }

  lemma {:induction false} CmpZero(a: string, b: string)
    ensures Cmp(a, b) == 0 <==> a == b
  {
    if a != "" && b != "" && a[0] == b[0] {
      CmpZero(a[1..], b[1..]);
      assert a == [a[0]] + a[1..] && b == [b[0]] + b[1..];
    }
  }

  lemma {:induction false} CmpSwap(a: string, b: string)
    ensures Cmp(a, b) < 0 <==> Cmp(b, a) > 0
    ensures Cmp(a, b) > 0 <==> Cmp(b, a) < 0
  {
    if a != "" && b != "" && a[0] == b[0] {
      CmpSwap(a[1..], b[1..]);
    }
  }

  lemma {:induction false} CmpTrans(a: string, b: string, c: string)
    requires Cmp(a, b) <= 0 && Cmp(b, c) <= 0
    ensures Cmp(a, c) <= 0
    ensures Cmp(a, b) < 0 || Cmp(b, c) < 0 ==> Cmp(a, c) < 0
  {
    if a != "" && b != "" && c != "" && a[0] == b[0] && b[0] == c[0] {
      CmpTrans(a[1..], b[1..], c[1..]);
    }
  }

  // ---- what the importer keeps -----------------------------------------------------------

  const DESC_MAX: nat := 95

  /** A code may carry a sub-type suffix behind its five characters. */
  function CodeOf(code: string): (r: Option<string>)
    ensures r.Some? ==> |r.value| == 5
  {
    var base := if |code| > 5 && (code[5] == '-' || code[5] == ' ' || code[5] == ':') then code[..5] else code;
    match Unformat(base)
    case Some(v) => Some(Format(v.0, v.1))
    case None => None
  }

  /** Printable bytes, tabs as spaces, up to the limit. */
  function Printable(desc: string): (r: string)
    ensures |r| <= DESC_MAX && '\n' !in r
  {
    if desc == "" then ""
    else
      var before := Printable(Init(desc));
      var c := if Last(desc) == '\t' then ' ' else Last(desc);
      if |before| < DESC_MAX && c >= ' ' then before + [c] else before
  }

  function TrimEnd(s: string): (r: string)
    ensures r <= s
    ensures r != "" ==> Last(r) != ' '
  {
    if s != "" && Last(s) == ' ' then TrimEnd(Init(s)) else s
  }

  function Clean(desc: string): (r: string)
    ensures |r| <= DESC_MAX && '\n' !in r
  {
    TrimEnd(Printable(desc))
  }

  /** A canonical code holds neither a line end nor a tab, and is read as itself. */
  lemma CodeIsCanonical(code: string)
    requires CodeOf(code).Some?
    ensures var c := CodeOf(code).value; CodeOf(c) == Some(c) && '\n' !in c && '\t' !in c
  {
    var base := if |code| > 5 && (code[5] == '-' || code[5] == ' ' || code[5] == ':') then code[..5] else code;
    var v := Unformat(base).value;
    UnformatFormat(v.0, v.1);
  }
}
