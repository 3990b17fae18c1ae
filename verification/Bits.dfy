/** Powers of two, single bits of a number, and the two's complement `&` of C. */
module Bits {

  type byte = x: int | 0 <= x < 256

  function Pow2(n: nat): (r: nat)
    ensures r >= 1
  {
    if n == 0 then 1 else 2 * Pow2(n - 1)
  }

  /** A product of reals under a name, so that proofs can treat it as a term. */
  function Product(a: real, b: real): real {
    a * b
  }

  /** `(x >> i) & 1` for a non-negative x. */
  function Bit(x: nat, i: nat): nat {
    x / Pow2(i) % 2
  }

  lemma {:induction false} Pow2Add(a: nat, b: nat)
    ensures Pow2(a + b) == Pow2(a) * Pow2(b)
  {
    if a > 0 {
      Pow2Add(a - 1, b);
      assert a + b - 1 == (a - 1) + b;
      TwiceTimes(Pow2(a - 1), Pow2(b));
    }
  }

  lemma TwiceTimes(x: nat, y: nat)
    ensures 2 * (x * y) == (2 * x) * y
  {
  }

  lemma {:induction false} Pow2Grows(a: nat, b: nat)
    requires a <= b
    ensures Pow2(a) <= Pow2(b)
  {
    if a < b {
      Pow2Grows(a, b - 1);
    }
  }

  lemma Pow2Bytes()
    ensures Pow2(1) == 2 && Pow2(2) == 4 && Pow2(3) == 8 && Pow2(4) == 16
    ensures Pow2(5) == 32 && Pow2(6) == 64 && Pow2(7) == 128 && Pow2(8) == 256
  {
    assert Pow2(4) == 16;
    assert Pow2(8) == 16 * Pow2(4) by { Pow2Add(4, 4); }
    assert Pow2(7) * 2 == Pow2(8);
    assert Pow2(6) * 2 == Pow2(7);
  }

  lemma MulMono(d: int, a: int, b: int)
    ensures d >= 0 && a <= b ==> d * a <= d * b
  {
    if d >= 0 && a <= b {
      assert d * (b - a) >= 0;
    }
  }

  /** Quotient and remainder are unique. */
  lemma DivUnique(x: int, d: nat, q: int, r: nat)
    requires d > 0 && r < d && x == d * q + r
    ensures x / d == q && x % d == r
  {
    var q2 := x / d;
    MulMono(d, q + 1, q2);
    MulMono(d, q2 + 1, q);
  }

  lemma DivDiv(x: nat, a: nat, b: nat)
    requires a > 0 && b > 0
    ensures a * b > 0 && x / a / b == x / (a * b)
  {
    var q := x / a;
    var r := x % a;
    var q2 := q / b;
    var r2 := q % b;
    MulMono(a, r2, b - 1);
    MulMono(a, 1, b);
    assert a * r2 + r < a * b;
    assert x == (a * b) * q2 + (a * r2 + r) by {
      assert q == b * q2 + r2;
      assert x == a * q + r;
      Distribute(a, b, q2, r2);
    }
    DivUnique(x, a * b, q2, a * r2 + r);
  }

  lemma Distribute(a: int, b: int, c: int, d: int)
    ensures a * (b * c + d) == (a * b) * c + a * d
  {
    assert a * (b * c) == (a * b) * c;
  }

  lemma ModHalf(x: nat, m: nat)
    requires m > 0
    ensures x % (2 * m) == x % 2 + 2 * (x / 2 % m)
  {
    var h := x / 2;
    Distribute(2, m, h / m, h % m);
    assert h == m * (h / m) + h % m;
    assert x == 2 * h + x % 2;
    DivUnique(x, 2 * m, h / m, 2 * (h % m) + x % 2);
  }

  /** C's `&` on two's complement integers, bit by bit. */
  function And(a: int, b: int): int
    decreases (if a < 0 then -a else a) + (if b < 0 then -b else b)
  {
    if a == 0 || b == 0 then 0
    else if a == -1 then b
    else if b == -1 then a
    else (a % 2) * (b % 2) + 2 * And(a / 2, b / 2)
  }

  lemma AndOdd(a: nat, h: nat)
    requires a > 0 && h > 0
    ensures And(a, 2 * h - 1) == a % 2 + 2 * And(a / 2, h - 1)
  {
    var b := 2 * h - 1;
    assert b / 2 == h - 1 && b % 2 == 1;
    assert And(a, b) == (a % 2) * (b % 2) + 2 * And(a / 2, b / 2);
  }

  /** A mask of n ones keeps the n low bits. */
  lemma {:induction false} AndMask(x: nat, n: nat)
    ensures And(x, Pow2(n) - 1) == x % Pow2(n)
  {
    if n == 0 {
    } else if x == 0 {
      DivUnique(0, Pow2(n), 0, 0);
    } else {
      AndMask(x / 2, n - 1);
      AndOdd(x, Pow2(n - 1));
      ModHalf(x, Pow2(n - 1));
    }
  }

  // ---- numbers as bit sequences, least significant bit first -----------------

  type bit = x: int | x == 0 || x == 1

  function Val(bs: seq<bit>): nat {
    if bs == [] then 0 else bs[0] + 2 * Val(bs[1..])
  }

  lemma {:induction false} ValBound(bs: seq<bit>)
    ensures Val(bs) < Pow2(|bs|)
  {
    if bs != [] {
      ValBound(bs[1..]);
    }
  }

  function BitsOf(x: nat, n: nat): (bs: seq<bit>)
    ensures |bs| == n
  {
    if n == 0 then [] else [x % 2] + BitsOf(x / 2, n - 1)
  }

  lemma {:induction false} ValSplit(a: seq<bit>, b: seq<bit>)
    ensures Val(a + b) == Val(a) + Pow2(|a|) * Val(b)
  {
    if a == [] {
      assert a + b == b;
      Times(1, Val(b));
    } else {
      var t := a[1..];
      assert (a + b)[1..] == t + b && (a + b)[0] == a[0];
      ValSplit(t, b);
      Times(Pow2(|t|), Val(b));
      assert Pow2(|a|) == 2 * Pow2(|t|);
    }
  }

  lemma Times(p: int, v: int)
    ensures (2 * p) * v == 2 * (p * v)
    ensures 1 * v == v
  {
  }

  lemma {:induction false} ValOfBits(x: nat, n: nat)
    ensures Val(BitsOf(x, n)) == x % Pow2(n)
  {
    if n > 0 {
      assert BitsOf(x, n)[1..] == BitsOf(x / 2, n - 1);
      ValOfBits(x / 2, n - 1);
      ModHalf(x, Pow2(n - 1));
    }
  }

  lemma {:induction false} BitsOfSlice(x: nat, n: nat, a: nat, b: nat, q: nat)
    requires a <= b <= n && q == x / Pow2(a)
    ensures BitsOf(x, n)[a..b] == BitsOf(q, b - a)
  {
    if a > 0 {
      assert BitsOf(x, n)[a..b] == BitsOf(x / 2, n - 1)[a - 1..b - 1];
      DivDiv(x, 2, Pow2(a - 1));
      BitsOfSlice(x / 2, n - 1, a - 1, b - 1, q);
    } else if b > 0 {
      assert x / Pow2(0) == x;
      assert BitsOf(x, n)[0..b] == [x % 2] + BitsOf(x / 2, n - 1)[0..b - 1];
      BitsOfSlice(x / 2, n - 1, 0, b - 1, x / 2);
    }
  }

  lemma {:induction false} BitOfVal(bs: seq<bit>, i: nat)
    requires i < |bs|
    ensures Bit(Val(bs), i) == bs[i]
  {
    if i == 0 {
      assert Val(bs) / 1 == Val(bs);
    } else {
      BitOfVal(bs[1..], i - 1);
      assert Val(bs) / 2 == Val(bs[1..]);
      DivDiv(Val(bs), 2, Pow2(i - 1));
    }
  }

  lemma {:induction false} BitOfBits(x: nat, n: nat, i: nat)
    requires i < n
    ensures BitsOf(x, n)[i] == Bit(x, i)
  {
    if i > 0 {
      BitOfBits(x / 2, n - 1, i - 1);
      DivDiv(x, 2, Pow2(i - 1));
    } else {
      assert x / 1 == x;
    }
  }

  /** The top bit says whether the value reaches half of its range. */
  lemma TopBit(bs: seq<bit>)
    requires |bs| > 0
    ensures bs[|bs| - 1] == 1 <==> Val(bs) >= Pow2(|bs| - 1)
  {
    var k := |bs| - 1;
    ValBound(bs[..k]);
    assert bs == bs[..k] + bs[k..];
    ValSplit(bs[..k], bs[k..]);
    assert Val(bs[k..]) == bs[k] by { assert bs[k..][1..] == []; }
    assert Pow2(k) * 1 == Pow2(k) && Pow2(k) * 0 == 0;
  }
}
