/** Characters and numbers as the C library reads and prints them. */
module Numerals {
  import opened Wrappers
  import opened Seqs

  function Upper(c: char): char {
    if 'a' <= c <= 'z' then c - 'a' + 'A' else c
  }

  function Lower(c: char): char {
    if 'A' <= c <= 'Z' then c - 'A' + 'a' else c
  }

  /** White space inside a line, and line ends. */
  predicate IsBlank(c: char) {
    c == ' ' || c == '\t' || c == '\r' || c == '\n'
  }

  /** White space of the C locale. */
  predicate IsSpace(c: char) {
    c == ' ' || '\t' <= c <= '\r'
  }

  predicate IsDigit(c: char) {
    '0' <= c <= '9'
  }

  // ---- hexadecimal -----------------------------------------------------------------

  const HEX: string := "0123456789ABCDEF"

  /** The value of a hex digit in either case. */
  function HexDigit(c: char): (r: Option<nat>)
    ensures r.Some? ==> r.value < 16
  {
    if '0' <= c <= '9' then Some((c - '0') as nat)
    else if 'A' <= c <= 'F' then Some((c - 'A') as nat + 10)
    else if 'a' <= c <= 'f' then Some((c - 'a') as nat + 10)
    else None
  }

  predicate IsHex(c: char) {
    HexDigit(c).Some?
  }

  /** The value of a text of hex digits. */
  function HexValue(s: string): Option<nat> {
    if s == "" then Some(0)
    else
      match (HexValue(Init(s)), HexDigit(Last(s)))
      case (Some(v), Some(d)) => Some(v * 16 + d)
      case _ => None
  }

  /** A number in that many hex digits. */
  function HexText(v: nat, digits: nat): string {
    if digits == 0 then "" else HexText(v / 16, digits - 1) + [HEX[v % 16]]
  }

  /** A number in as many hex digits as it needs. */
  function HexShort(v: nat): string {
    if v < 16 then [HEX[v]] else HexShort(v / 16) + [HEX[v % 16]]
  }

  function Pow16(n: nat): nat {
    if n == 0 then 1 else 16 * Pow16(n - 1)
  }

  lemma HexDigitBack(n: nat)
    requires n < 16
    ensures HexDigit(HEX[n]) == Some(n)
  {
  }

  lemma HexSnoc(s: string, c: char)
    ensures HexValue(s + [c]) ==
      if HexValue(s).Some? && HexDigit(c).Some? then Some(HexValue(s).value * 16 + HexDigit(c).value) else None
  {
    SnocInit(s, c);
  }

  predicate AllHex(s: string) {
    forall i :: 0 <= i < |s| ==> IsHex(s[i])
  }

  lemma {:induction false} HexTextBack(v: nat, digits: nat)
    requires v < Pow16(digits)
    ensures HexValue(HexText(v, digits)) == Some(v)
    ensures |HexText(v, digits)| == digits && AllHex(HexText(v, digits))
  {
    hide HexDigit;
    if digits > 0 {
      HexTextBack(v / 16, digits - 1);
      HexDigitBack(v % 16);
      HexSnoc(HexText(v / 16, digits - 1), HEX[v % 16]);
    }
  }

  lemma {:induction false} HexShortBack(v: nat, digits: nat)
    requires digits >= 1 && v < Pow16(digits)
    ensures HexValue(HexShort(v)) == Some(v)
    ensures 1 <= |HexShort(v)| <= digits && AllHex(HexShort(v))
    decreases digits
  {
    hide HexDigit, HexValue;
    HexDigitBack(v % 16);
    HexOne(v % 16);
    if v >= 16 {
      DivBelow(v, Pow16(digits - 1));
      HexShortBack(v / 16, digits - 1);
      HexSnoc(HexShort(v / 16), HEX[v % 16]);
    }
  }

  lemma HexOne(d: nat)
    requires d < 16
    ensures HexValue([HEX[d]]) == Some(d)
  {
    hide HexDigit;
    HexDigitBack(d);
    HexSnoc("", HEX[d]);
    assert "" + [HEX[d]] == [HEX[d]];
  }

  lemma DivBelow(v: nat, p: nat)
    ensures v < 16 * p ==> v / 16 < p
  {
  }

  // ---- decimal ---------------------------------------------------------------------

  function Digit(n: nat): char
    requires n < 10
  {
    '0' + (n as char)
  }

  function Dec(n: nat): (s: string)
    ensures s != "" && forall i :: 0 <= i < |s| ==> IsDigit(s[i])
  {
    if n < 10 then [Digit(n)] else Dec(n / 10) + [Digit(n % 10)]
  }

  /** The digits a text starts with, behind a value. */
  function Digits(s: string, v: nat): nat
    decreases s
  {
    if s == "" || !IsDigit(s[0]) then v else Digits(s[1..], v * 10 + (s[0] - '0') as nat)
  }

  function Atoi(s: string): int {
    if s == "" then 0
    else if IsSpace(s[0]) then Atoi(s[1..])
    else if s[0] == '-' then 0 - (Digits(s[1..], 0) as int)
    else if s[0] == '+' then Digits(s[1..], 0)
    else Digits(s, 0)
  }

  lemma {:induction false} DigitsOfDec(n: nat, rest: string)
    ensures Digits(Dec(n) + rest, 0) == Digits(rest, n)
    decreases n
  {
    if n < 10 {
      assert (Dec(n) + rest)[1..] == rest;
    } else {
      var d := [Digit(n % 10)];
      Assoc(Dec(n / 10), d, rest);
      DigitsOfDec(n / 10, d + rest);
      assert (d + rest)[1..] == rest;
    }
  }

  lemma AtoiOfDec(n: nat, rest: string)
    requires rest != "" && !IsDigit(rest[0])
    ensures Atoi(Dec(n) + rest) == n
  {
    DigitsOfDec(n, rest);
    assert (Dec(n) + rest)[0] == Dec(n)[0];
  }
}
