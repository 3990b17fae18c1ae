/** The decomposition of a signal into per-byte segments, and why its weighted
    sum is the raw value. */
module DbcSegments {
  import opened Bits
  import opened Seqs
  import opened DbcSignal

  /** `bits` bits of one payload byte, from bit `shr` up, standing at bit `pos`
      of the value: the weight is 2^pos. */
  datatype Seg = Seg(index: nat, shr: nat, bits: nat, pos: nat)

  const MAX_SEGS: nat := 9

  /** The signal's first and last bit: raw numbering for Intel, counted from
      the MSB of byte 0 for Motorola. */
  function Lo(s: Signal): nat {
    if s.intel then s.start else FirstLin(s)
  }

  function Hi(s: Signal): nat
    requires s.len >= 1
  {
    Lo(s) + s.len - 1
  }

  /** The segment of payload byte k, in the byte order of the signal. */
  function SegOf(s: Signal, k: nat): Seg
    requires s.len >= 1 && FirstByte(s) <= k <= LastByte(s)
  {
    var first := if Lo(s) > 8 * k then Lo(s) else 8 * k;
    var last := if Hi(s) < 8 * k + 7 then Hi(s) else 8 * k + 7;
    if s.intel then Seg(k, first - 8 * k, last - first + 1, first - Lo(s))
    else Seg(k, 7 - (last - 8 * k), last - first + 1, Hi(s) - last)
  }

  function SegList(s: Signal): (segs: seq<Seg>)
    requires s.len >= 1
    ensures |segs| == LastByte(s) - FirstByte(s) + 1
    ensures forall i :: 0 <= i < |segs| ==> segs[i] == SegOf(s, FirstByte(s) + i)
  {
    seq(LastByte(s) - FirstByte(s) + 1, i requires 0 <= i <= LastByte(s) - FirstByte(s) =>
      SegOf(s, FirstByte(s) + i))
  }

  lemma NineSuffice(s: Signal)
    requires Legal(s)
    ensures 1 <= |SegList(s)| <= MAX_SEGS
  {
  }

  function Capped(segs: seq<Seg>, cap: nat): seq<Seg> {
    if |segs| <= cap then segs else segs[..cap]
  }

  /** The compiler's loop over the bytes an Intel signal touches, never beyond
      `cap` segments. */
  method SegmentsIntel(s: Signal, cap: nat) returns (segs: seq<Seg>)
    requires Legal(s) && s.intel
    ensures segs == Capped(SegList(s), cap)
  {
    hide SegOf, SegList;
    segs := [];
    ghost var all := SegList(s);
    var lo, hi := s.start, s.start + s.len - 1;
    var k := lo / 8;
    while k <= hi / 8 && |segs| < cap
      invariant FirstByte(s) <= k <= LastByte(s) + 1
      invariant |segs| == k - FirstByte(s) <= cap
      invariant segs == all[..|segs|]
    {
      var sl := if lo > 8 * k then lo else 8 * k;
      var sh := if hi < 8 * k + 7 then hi else 8 * k + 7;
      SegIntel(s, k);
      Grow(all, |segs|);
      segs := segs + [Seg(k, sl - 8 * k, sh - sl + 1, sl - lo)];
      k := k + 1;
    }
  }

  lemma SegIntel(s: Signal, k: nat)
    requires Legal(s) && s.intel && FirstByte(s) <= k <= LastByte(s)
    ensures var sl, sh := if s.start > 8 * k then s.start else 8 * k,
                          if s.start + s.len - 1 < 8 * k + 7 then s.start + s.len - 1 else 8 * k + 7;
      SegOf(s, k) == Seg(k, sl - 8 * k, sh - sl + 1, sl - s.start)
  {
  }

  /** The same for a Motorola signal, counting bits from the MSB of byte 0. */
  method SegmentsMotorola(s: Signal, cap: nat) returns (segs: seq<Seg>)
    requires Legal(s) && !s.intel
    ensures segs == Capped(SegList(s), cap)
  {
    hide SegOf, SegList;
    segs := [];
    ghost var all := SegList(s);
    var m0 := s.start / 8 * 8 + (7 - s.start % 8);
    var m1 := m0 + s.len - 1;
    var k := m0 / 8;
    ghost var last := LastByte(s);
    assert k == FirstByte(s) && m1 / 8 == last;
    while k <= m1 / 8 && |segs| < cap
      invariant FirstByte(s) <= k <= last + 1
      invariant |segs| == k - FirstByte(s) <= cap
      invariant segs == all[..|segs|]
    {
      var hl := if m0 > 8 * k then m0 else 8 * k;
      var ll := if m1 < 8 * k + 7 then m1 else 8 * k + 7;
      SegMotorola(s, k);
      Grow(all, |segs|);
      segs := segs + [Seg(k, 7 - (ll - 8 * k), ll - hl + 1, m1 - ll)];
      k := k + 1;
    }
  }

  lemma SegMotorola(s: Signal, k: nat)
    requires Legal(s) && !s.intel && FirstByte(s) <= k <= LastByte(s)
    ensures var m0, m1 := FirstLin(s), FirstLin(s) + s.len - 1;
      var hl, ll := if m0 > 8 * k then m0 else 8 * k, if m1 < 8 * k + 7 then m1 else 8 * k + 7;
      SegOf(s, k) == Seg(k, 7 - (ll - 8 * k), ll - hl + 1, m1 - ll)
  {
  }

  /** The compiler gives the loop room for nine segments, and the decomposition
      is never cut. */
  method Segments(s: Signal) returns (segs: seq<Seg>)
    requires Legal(s)
    ensures segs == SegList(s)
  {
    NineSuffice(s);
    if s.intel {
      segs := SegmentsIntel(s, MAX_SEGS);
    } else {
      segs := SegmentsMotorola(s, MAX_SEGS);
    }
  }

  /** What the generated text extracts for one segment. */
  function SegValue(g: Seg, data: seq<byte>): nat {
    if g.index < |data| then data[g.index] / Pow2(g.shr) % Pow2(g.bits) else 0
  }

  function Weighed(g: Seg, data: seq<byte>): nat {
    SegValue(g, data) * Pow2(g.pos)
  }

  function WeightedSum(segs: seq<Seg>, data: seq<byte>): nat {
    if segs == [] then 0
    else
      var n := |segs| - 1;
      WeightedSum(segs[..n], data) + Weighed(segs[n], data)
  }

  /** Every segment extracts the value bits it stands for. */
  ghost predicate Sliced(segs: seq<Seg>, bits: seq<bit>, data: seq<byte>) {
    forall i :: 0 <= i < |segs| ==> SlicedOne(segs[i], bits, data)
  }

  ghost predicate SlicedOne(g: Seg, bits: seq<bit>, data: seq<byte>) {
    && g.bits >= 1 && g.pos + g.bits <= |bits|
    && SegValue(g, data) == Val(bits[g.pos..g.pos + g.bits])
  }

  /** Upwards (Intel): from bit 0, each segment on top of the one before. */
  ghost predicate TilesUp(segs: seq<Seg>) {
    && segs != [] && segs[0].pos == 0
    && forall i :: 0 < i < |segs| ==> segs[i].pos == segs[i - 1].pos + segs[i - 1].bits
  }

  /** Downwards (Motorola): from the top bit, each one below. */
  ghost predicate TilesDown(segs: seq<Seg>, len: nat) {
    && segs != [] && segs[0].pos + segs[0].bits == len
    && forall i :: 0 < i < |segs| ==> segs[i].pos + segs[i].bits == segs[i - 1].pos
  }

  lemma {:induction false} SumUp(segs: seq<Seg>, bits: seq<bit>, data: seq<byte>)
    requires Sliced(segs, bits, data) && TilesUp(segs)
    ensures var g := segs[|segs| - 1];
      g.pos + g.bits <= |bits| && WeightedSum(segs, data) == Val(bits[..g.pos + g.bits])
  {
    var n := |segs| - 1;
    var g := segs[n];
    assert SlicedOne(g, bits, data);
    if n > 0 {
      SumUp(segs[..n], bits, data);
    } else {
      assert segs[..0] == [] && bits[..0] == [];
    }
    GrowUp(g, bits, data);
  }

  lemma GrowUp(g: Seg, bits: seq<bit>, data: seq<byte>)
    requires SlicedOne(g, bits, data)
    ensures Val(bits[..g.pos]) + Weighed(g, data) == Val(bits[..g.pos + g.bits])
  {
    var low, slice := bits[..g.pos], bits[g.pos..g.pos + g.bits];
    assert bits[..g.pos + g.bits] == low + slice;
    ValSplit(low, slice);
    Commute(Pow2(g.pos), SegValue(g, data));
  }

  lemma {:induction false} SumDown(segs: seq<Seg>, bits: seq<bit>, data: seq<byte>)
    requires Sliced(segs, bits, data) && TilesDown(segs, |bits|)
    ensures var g := segs[|segs| - 1];
      g.pos <= |bits| && WeightedSum(segs, data) == Pow2(g.pos) * Val(bits[g.pos..])
  {
    var n := |segs| - 1;
    var g := segs[n];
    assert SlicedOne(g, bits, data);
    var top := g.pos + g.bits;
    if n > 0 {
      SumDown(segs[..n], bits, data);
    } else {
      assert segs[..0] == [] && bits[top..] == [];
      assert Pow2(top) * 0 == 0;
    }
    GrowDown(g, bits, data);
  }

  lemma GrowDown(g: Seg, bits: seq<bit>, data: seq<byte>)
    requires SlicedOne(g, bits, data)
    ensures Pow2(g.pos + g.bits) * Val(bits[g.pos + g.bits..]) + Weighed(g, data)
         == Pow2(g.pos) * Val(bits[g.pos..])
  {
    var top := g.pos + g.bits;
    var slice, hi := bits[g.pos..top], Val(bits[top..]);
    assert bits[g.pos..] == slice + bits[top..];
    ValSplit(slice, bits[top..]);
    Pow2Add(g.pos, g.bits);
    FactorOut(Pow2(g.pos), Pow2(g.bits), hi, SegValue(g, data));
  }

  lemma Commute(a: int, b: int)
    ensures a * b == b * a
  {
  }

  lemma FactorOut(p: int, q: int, hi: int, lo: int)
    ensures (p * q) * hi + lo * p == p * (lo + q * hi)
  {
    assert (p * q) * hi == p * (q * hi);
  }

  lemma SegBit(s: Signal, k: nat, j: nat)
    requires s.len >= 1 && FirstByte(s) <= k <= LastByte(s) && j < SegOf(s, k).bits
    ensures var g := SegOf(s, k);
      g.pos + j < s.len && ByteOf(s, g.pos + j) == k && BitOf(s, g.pos + j) == g.shr + j
  {
    var g := SegOf(s, k);
    if s.intel {
      assert s.start + (g.pos + j) == 8 * k + (g.shr + j);
    } else {
      assert FirstLin(s) + s.len - 1 - (g.pos + j) == 8 * k + (7 - (g.shr + j));
    }
  }

  /** The shape of one segment, and where the next one starts. */
  lemma SegShape(s: Signal, k: nat)
    requires s.len >= 1 && FirstByte(s) <= k <= LastByte(s)
    ensures var g := SegOf(s, k);
      && g.index == k && 1 <= g.bits && g.shr + g.bits <= 8 && g.pos + g.bits <= s.len
      && (k > FirstByte(s) && s.intel ==> g.pos == SegOf(s, k - 1).pos + SegOf(s, k - 1).bits)
      && (k > FirstByte(s) && !s.intel ==> g.pos + g.bits == SegOf(s, k - 1).pos)
      && (k == FirstByte(s) ==> if s.intel then g.pos == 0 else g.pos + g.bits == s.len)
      && (k == LastByte(s) ==> if s.intel then g.pos + g.bits == s.len else g.pos == 0)
  {
  }

  lemma SegIsSlice(s: Signal, data: seq<byte>, k: nat)
    requires Fits(s, data) && FirstByte(s) <= k <= LastByte(s)
    ensures SlicedOne(SegOf(s, k), ValueBits(s, data), data)
  {
    SegShape(s, k);
    var g := SegOf(s, k);
    forall j: nat | j < g.bits
      ensures SameBit(g, ValueBits(s, data), data[k], j)
    {
      SegSameBit(s, data, k, j);
    }
    SliceValue(g, ValueBits(s, data), data);
  }

  lemma SegSameBit(s: Signal, data: seq<byte>, k: nat, j: nat)
    requires Fits(s, data) && FirstByte(s) <= k <= LastByte(s) && j < SegOf(s, k).bits
    ensures SameBit(SegOf(s, k), ValueBits(s, data), data[k], j)
  {
    var g := SegOf(s, k);
    SegBit(s, k, j);
    SegShape(s, k);
    BitOfBits(data[k], 8, g.shr + j);
    ValueBitAt(s, data, g.pos + j);
  }

  lemma ValueBitAt(s: Signal, data: seq<byte>, i: nat)
    requires Fits(s, data) && i < s.len
    ensures ByteOf(s, i) < |data| && ValueBits(s, data)[i] == Bit(data[ByteOf(s, i)], BitOf(s, i))
  {
    ByteOfRange(s, i);
  }

  ghost predicate SameBit(g: Seg, bits: seq<bit>, x: byte, j: nat) {
    g.pos + j < |bits| && g.shr + j < 8 && bits[g.pos + j] == BitsOf(x, 8)[g.shr + j]
  }

  lemma SliceValue(g: Seg, bits: seq<bit>, data: seq<byte>)
    requires g.index < |data| && g.shr + g.bits <= 8 && g.pos + g.bits <= |bits|
    requires forall j: nat :: j < g.bits ==> SameBit(g, bits, data[g.index], j)
    ensures SegValue(g, data) == Val(bits[g.pos..g.pos + g.bits])
  {
    SliceBits(g, bits, data[g.index]);
    FieldValue(data[g.index], g.shr, g.bits);
  }

  lemma FieldValue(x: byte, shr: nat, n: nat)
    requires shr + n <= 8
    ensures Val(BitsOf(x, 8)[shr..shr + n]) == x / Pow2(shr) % Pow2(n)
  {
    hide Pow2, Val, BitsOf;
    var q := x / Pow2(shr);
    BitsOfSlice(x, 8, shr, shr + n, q);
    ValOfBits(q, n);
  }

  lemma SliceBits(g: Seg, bits: seq<bit>, x: byte)
    requires g.shr + g.bits <= 8 && g.pos + g.bits <= |bits|
    requires forall j: nat :: j < g.bits ==> SameBit(g, bits, x, j)
    ensures bits[g.pos..g.pos + g.bits] == BitsOf(x, 8)[g.shr..g.shr + g.bits]
  {
    var slice, of := bits[g.pos..g.pos + g.bits], BitsOf(x, 8);
    forall j: nat | j < |slice|
      ensures slice[j] == of[g.shr + j]
    {
      assert SameBit(g, bits, x, j);
    }
  }

  lemma SegsTile(s: Signal)
    requires s.len >= 1
    ensures s.intel ==> TilesUp(SegList(s))
    ensures !s.intel ==> TilesDown(SegList(s), s.len)
  {
    var segs := SegList(s);
    SegShape(s, FirstByte(s));
    if s.intel {
      forall i | 0 < i < |segs|
        ensures segs[i].pos == segs[i - 1].pos + segs[i - 1].bits
      {
        SegNext(s, i);
      }
    } else {
      forall i | 0 < i < |segs|
        ensures segs[i].pos + segs[i].bits == segs[i - 1].pos
      {
        SegNext(s, i);
      }
    }
  }

  lemma SegNext(s: Signal, i: nat)
    requires s.len >= 1 && 0 < i < |SegList(s)|
    ensures var g, h := SegList(s)[i - 1], SegList(s)[i];
      if s.intel then h.pos == g.pos + g.bits else h.pos + h.bits == g.pos
  {
    SegShape(s, FirstByte(s) + i);
    assert SegList(s)[i - 1] == SegOf(s, FirstByte(s) + i - 1);
  }

  lemma SegsSliced(s: Signal, data: seq<byte>)
    requires Fits(s, data)
    ensures Sliced(SegList(s), ValueBits(s, data), data)
  {
    hide SlicedOne, SegOf, LastByte, FirstByte, ValueBits;
    forall i | 0 <= i < |SegList(s)|
      ensures SlicedOne(SegList(s)[i], ValueBits(s, data), data)
    {
      SegIsSlice(s, data, FirstByte(s) + i);
    }
  }

  /** The weighted sum of the segments is the raw value, for every signal in
      either byte order and every payload that carries it. */
  lemma SumIsRaw(s: Signal, data: seq<byte>)
    requires Fits(s, data)
    ensures WeightedSum(SegList(s), data) == Raw(s, data)
  {
    SegsTile(s);
    SegsSliced(s, data);
    SegShape(s, LastByte(s));
    if s.intel {
      SumOfTilesUp(SegList(s), ValueBits(s, data), data);
    } else {
      SumOfTilesDown(SegList(s), ValueBits(s, data), data);
    }
  }

  lemma SumOfTilesUp(segs: seq<Seg>, bits: seq<bit>, data: seq<byte>)
    requires Sliced(segs, bits, data) && TilesUp(segs)
    requires var g := segs[|segs| - 1]; g.pos + g.bits == |bits|
    ensures WeightedSum(segs, data) == Val(bits)
  {
    SumUp(segs, bits, data);
    assert bits[..|bits|] == bits;
  }

  lemma SumOfTilesDown(segs: seq<Seg>, bits: seq<bit>, data: seq<byte>)
    requires Sliced(segs, bits, data) && TilesDown(segs, |bits|) && segs[|segs| - 1].pos == 0
    ensures WeightedSum(segs, data) == Val(bits)
  {
    SumDown(segs, bits, data);
    assert bits[0..] == bits;
    assert Pow2(0) == 1;
  }
}
