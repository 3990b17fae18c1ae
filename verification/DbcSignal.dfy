/** A DBC signal as a slice of payload bits: what its raw value is, bit by bit,
    and how it decomposes into at most nine per-byte segments. */
module DbcSignal {
  import opened Bits

  /** The fields of a parsed `SG_` line that decide its value. */
  datatype Signal = Signal(
    msg: nat, start: nat, len: nat, intel: bool, isSigned: bool,
    mux: nat, muxVal: nat, valtype: nat, factor: real, offset: real)

  /** What the `SG_` parser lets through. */
  predicate Legal(s: Signal) {
    1 <= s.len <= 64 && s.start <= 511
  }

  /** Motorola: the start bit (the MSB) counted from the MSB of byte 0. */
  function FirstLin(s: Signal): nat {
    s.start / 8 * 8 + (7 - s.start % 8)
  }

  /** The payload byte and the bit in it that hold bit i of the value. */
  function ByteOf(s: Signal, i: nat): nat
    requires i < s.len
  {
    if s.intel then (s.start + i) / 8 else (FirstLin(s) + s.len - 1 - i) / 8
  }

  function BitOf(s: Signal, i: nat): (r: nat)
    requires i < s.len
    ensures r < 8
  {
    if s.intel then (s.start + i) % 8 else 7 - (FirstLin(s) + s.len - 1 - i) % 8
  }

  function FirstByte(s: Signal): nat {
    s.start / 8
  }

  function LastByte(s: Signal): nat
    requires s.len >= 1
  {
    if s.intel then (s.start + s.len - 1) / 8 else (FirstLin(s) + s.len - 1) / 8
  }

  /** The payload carries the whole signal. */
  predicate Fits(s: Signal, data: seq<byte>) {
    Legal(s) && LastByte(s) < |data|
  }

  lemma ByteOfRange(s: Signal, i: nat)
    requires i < s.len
    ensures FirstByte(s) <= ByteOf(s, i) <= LastByte(s)
  {
  }

  /** The bits of the value, least significant first. */
  function ValueBits(s: Signal, data: seq<byte>): (bs: seq<bit>)
    requires Fits(s, data)
    ensures |bs| == s.len
  {
    seq(s.len, i requires 0 <= i < s.len =>
      ByteOfRange(s, i);
      Bit(data[ByteOf(s, i)], BitOf(s, i)))
  }

  function Raw(s: Signal, data: seq<byte>): nat
    requires Fits(s, data)
  {
    Val(ValueBits(s, data))
  }

  /** The number the reference decoder makes of the raw value, unscaled. */
  function Decoded(s: Signal, data: seq<byte>): int
    requires Fits(s, data)
  {
    if s.isSigned && s.len < 64 && ValueBits(s, data)[s.len - 1] == 1
    then Raw(s, data) - Pow2(s.len) else Raw(s, data)
  }

  function Physical(s: Signal, data: seq<byte>): real
    requires Fits(s, data)
  {
    Scaled(s, Decoded(s, data))
  }

  function Scaled(s: Signal, x: int): real {
    Product(x as real, s.factor) + s.offset
  }

  lemma ShiftIn(bits: seq<bit>, i: nat)
    requires i < |bits|
    ensures Val(bits[i..]) == Val(bits[i + 1..]) * 2 + bits[i]
  {
    assert bits[i..][1..] == bits[i + 1..];
  }

  /** The shift loop of the reference decoder, Intel byte order: MSB first. */
  method ShiftIntel(s: Signal, data: seq<byte>) returns (raw: nat)
    requires Fits(s, data) && s.intel
    ensures raw == Raw(s, data)
  {
    hide Val, ValueBits, ByteOf, BitOf;
    ghost var bits := ValueBits(s, data);
    raw := 0;
    var i := s.len;
    NoBits(bits);
    while i > 0
      invariant 0 <= i <= s.len && raw == Val(bits[i..])
    {
      i := i - 1;
      var b := s.start + i;
      BitIntel(s, data, i);
      ShiftIn(bits, i);
      raw := raw * 2 + Bit(data[b / 8], b % 8);
    }
  }

  lemma NoBits(bits: seq<bit>)
    ensures Val(bits[|bits|..]) == 0 && bits[0..] == bits
  {
  }

  lemma BitIntel(s: Signal, data: seq<byte>, i: nat)
    requires Fits(s, data) && s.intel && i < s.len
    ensures var b := s.start + i; b / 8 < |data| && ValueBits(s, data)[i] == Bit(data[b / 8], b % 8)
  {
    ByteOfRange(s, i);
  }

  lemma BitMotorola(s: Signal, data: seq<byte>, i: nat)
    requires Fits(s, data) && !s.intel && i < s.len
    ensures var lin := FirstLin(s) + i;
      lin / 8 < |data| && ValueBits(s, data)[s.len - i - 1] == Bit(data[lin / 8], 7 - lin % 8)
  {
    ByteOfRange(s, s.len - i - 1);
  }

  /** The same for Motorola: the bits as the bus sends them. */
  method ShiftMotorola(s: Signal, data: seq<byte>) returns (raw: nat)
    requires Fits(s, data) && !s.intel
    ensures raw == Raw(s, data)
  {
    hide Val, ValueBits, ByteOf, BitOf;
    ghost var bits := ValueBits(s, data);
    var m0 := s.start / 8 * 8 + (7 - s.start % 8);
    raw := 0;
    var i := 0;
    NoBits(bits);
    while i < s.len
      invariant 0 <= i <= s.len && raw == Val(bits[s.len - i..])
    {
      var lin := m0 + i;
      var bit := 7 - lin % 8;
      BitMotorola(s, data, i);
      ShiftIn(bits, s.len - i - 1);
      raw := raw * 2 + Bit(data[lin / 8], bit);
      i := i + 1;
    }
  }

  lemma SignBit(s: Signal, data: seq<byte>)
    requires Fits(s, data)
    ensures Bit(Raw(s, data), s.len - 1) == ValueBits(s, data)[s.len - 1]
  {
    BitOfVal(ValueBits(s, data), s.len - 1);
  }

  /** The reference decoder: the shift loops, the sign bit, the scale. */
  method DecodeRef(s: Signal, data: seq<byte>) returns (v: real)
    requires Fits(s, data)
    ensures v == Physical(s, data)
  {
    var raw;
    if s.intel {
      raw := ShiftIntel(s, data);
    } else {
      raw := ShiftMotorola(s, data);
    }
    SignBit(s, data);
    var x: int := raw;
    if s.isSigned && s.len < 64 && Bit(raw, s.len - 1) == 1 {
      x := raw - Pow2(s.len);
    }
    v := Scaled(s, x);
  }
}
