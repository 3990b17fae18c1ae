/** For which signals the compiled expression, evaluated, is the reference
    decoder: the condition, both directions. */
module DbcFaithful {
  import opened Wrappers
  import opened Bits
  import opened DbcSignal
  import opened DbcSegments
  import opened ExpressionParser
  import opened DbcCompiler

  // ---- what the trees are worth -------------------------------------------------

  lemma ShiftIsSmall(x: byte, shr: nat)
    requires shr <= 8
    ensures x / Pow2(0) == x
    ensures x / Pow2(shr) % Pow2(8 - shr) == x / Pow2(shr)
  {
    Pow2Bytes();
    Pow2Add(shr, 8 - shr);
    var p, q := Pow2(shr), Pow2(8 - shr);
    MulMono(p, q, x / p);
    DivUnique(x / p, q, 0, x / p);
  }

  /** The tree is worth an integer. */
  ghost predicate Worth(e: Expr, data: seq<byte>, x: int) {
    Value(e, data) == Some(x as real)
  }

  lemma LitWorth(x: int, data: seq<byte>)
    ensures Worth(Lit(x), data, x)
  {
  }

  lemma ShrinkByShift(x: nat, k: nat)
    ensures 0 <= x / Pow2(k) <= x
  {
    DivShrinks(x, Pow2(k));
  }

  lemma DivShrinks(x: nat, p: nat)
    requires p >= 1
    ensures 0 <= x / p <= x
  {
    var q := x / p;
    MulMono(q, 1, p);
    assert x == p * q + x % p;
    assert p * q == q * p;
  }

  lemma ShrWorth(e: Expr, k: nat, data: seq<byte>, x: nat)
    requires Worth(e, data, x) && x < 256 && k < 32
    ensures 0 <= x / Pow2(k) <= x && Worth(Bin(Shr, e, Lit(k)), data, x / Pow2(k))
  {
    ShrinkByShift(x, k);
    LitWorth(k, data);
    assert Int32(x as real) == Some(x) && Int32(k as real) == Some(k);
  }

  lemma MaskWorth(e: Expr, n: nat, data: seq<byte>, x: nat)
    requires Worth(e, data, x) && x < 256 && n <= 8
    ensures Worth(Bin(BitAnd, e, Lit(Pow2(n) - 1)), data, x % Pow2(n))
  {
    var mask := Pow2(n) - 1;
    Pow2Bytes();
    Pow2Grows(n, 8);
    AndMask(x, n);
    LitWorth(mask, data);
    assert Int32(x as real) == Some(x) && Int32(mask as real) == Some(mask);
  }

  lemma TimesWorth(l: Expr, r: Expr, data: seq<byte>, a: int, b: int)
    requires Worth(l, data, a) && Worth(r, data, b)
    ensures Worth(Bin(Times, l, r), data, a * b)
  {
    CastTimes(a, b);
  }

  lemma CastTimes(a: int, b: int)
    ensures Product(a as real, b as real) == (a * b) as real
  {
  }

  lemma SegTreeValue(g: Seg, data: seq<byte>)
    requires g.index < |data| && 1 <= g.bits && g.shr + g.bits <= 8
    ensures Worth(SegTree(g), data, SegValue(g, data))
  {
    var x := data[g.index];
    var leaf := Leaf(Byte(g.index));
    assert Worth(leaf, data, x);
    ShiftIsSmall(x, g.shr);
    if HasOps(g) {
      ShrWorth(leaf, g.shr, data, x);
      if g.shr + g.bits < 8 {
        MaskWorth(leaf, g.bits, data, x);
        MaskWorth(Bin(Shr, leaf, Lit(g.shr)), g.bits, data, x / Pow2(g.shr));
      }
    } else {
      Pow2Bytes();
    }
  }

  /** Segments of a legal signal, read from a payload that carries them. */
  predicate Readable(segs: seq<Seg>, data: seq<byte>) {
    forall g <- segs :: ReadableOne(g, data)
  }

  predicate ReadableOne(g: Seg, data: seq<byte>) {
    g.index < |data| && 1 <= g.bits && g.shr + g.bits <= 8
  }

  lemma TermValue(g: Seg, n: nat, data: seq<byte>)
    requires ReadableOne(g, data)
    ensures Worth(TermTree(g, n), data, Weighed(g, data))
  {
    SegTreeValue(g, data);
    var v := SegValue(g, data);
    if g.pos > 0 {
      LitWorth(Pow2(g.pos), data);
      TimesWorth(if HasOps(g) then Group(SegTree(g)) else SegTree(g), Lit(Pow2(g.pos)), data, v, Pow2(g.pos));
    } else {
      assert Pow2(0) == 1 && v * 1 == v;
    }
  }

  lemma {:induction false} SumValue(segs: seq<Seg>, n: nat, data: seq<byte>)
    requires 1 <= |segs| && Readable(segs, data)
    ensures Worth(SumTree(segs, n), data, WeightedSum(segs, data))
  {
    var k := |segs| - 1;
    TermValue(segs[k], n, data);
    if k > 0 {
      SumValue(segs[..k], n, data);
    } else {
      assert WeightedSum(segs[..0], data) == 0;
    }
  }

  lemma SegListReadable(s: Signal, data: seq<byte>)
    requires Fits(s, data)
    ensures Readable(SegList(s), data)
  {
    forall g | g in SegList(s)
      ensures ReadableOne(g, data)
    {
      var i :| 0 <= i < |SegList(s)| && SegList(s)[i] == g;
      SegShape(s, FirstByte(s) + i);
    }
  }

  function SignBitOf(s: Signal, data: seq<byte>): bit
    requires Fits(s, data)
  {
    ValueBits(s, data)[s.len - 1]
  }

  lemma SignShiftValue(x: byte, k: nat, index: nat, data: seq<byte>)
    requires index < |data| && data[index] == x && k < 8
    ensures var shift := Bin(Shr, Leaf(Byte(index)), Lit(k));
      Worth(if k == 7 then shift else Bin(BitAnd, shift, Lit(1)), data, Bit(x, k))
  {
    ShrWorth(Leaf(Byte(index)), k, data, x);
    Pow2Bytes();
    if k == 7 {
      ShiftIsSmall(x, 7);
    } else {
      MaskWorth(Bin(Shr, Leaf(Byte(index)), Lit(k)), 1, data, x / Pow2(k));
    }
  }

  lemma SignTreeValue(s: Signal, data: seq<byte>)
    requires Fits(s, data)
    ensures Worth(SignTree(s), data, SignBitOf(s, data) * Pow2(s.len))
  {
    var i := s.len - 1;
    ValueBitAt(s, data, i);
    SignShiftValue(data[ByteOf(s, i)], BitOf(s, i), ByteOf(s, i), data);
    LitWorth(Pow2(s.len), data);
    TimesWorth(SignTree(s).l, SignTree(s).r, data, SignBitOf(s, data), Pow2(s.len));
  }

  /** What the unscaled text composes: the sign bit is taken off at 2^len. */
  function Composed(s: Signal, data: seq<byte>): int
    requires Fits(s, data)
  {
    if s.isSigned then Raw(s, data) - SignBitOf(s, data) * Pow2(s.len) else Raw(s, data)
  }

  lemma ComposedIsDecoded(s: Signal, data: seq<byte>)
    requires Fits(s, data)
    ensures Composed(s, data) == Decoded(s, data) <==>
      !(s.isSigned && s.len == 64 && SignBitOf(s, data) == 1)
  {
    assert 0 * Pow2(s.len) == 0 && 1 * Pow2(s.len) == Pow2(s.len);
  }

  // ---- byte-aligned Motorola signals: spans --------------------------------------

  lemma {:induction false} SpanSum(segs: seq<Seg>, k: nat, first: nat, data: seq<byte>)
    requires k <= |segs| && first + |segs| <= |data|
    requires forall i :: 0 <= i < |segs| ==> segs[i] == Seg(first + i, 0, 8, 8 * (|segs| - 1 - i))
    ensures WeightedSum(segs[..k], data) == Span(data, first, k) * Pow2(8 * (|segs| - k))
  {
    if k == 0 {
      assert segs[..0] == [];
    } else {
      SpanSum(segs, k - 1, first, data);
      assert segs[..k][..k - 1] == segs[..k - 1];
      var g := segs[k - 1];
      var hi, p := Span(data, first, k - 1), Pow2(8 * (|segs| - k));
      Pow2Add(8, 8 * (|segs| - k));
      Pow2Bytes();
      ShiftIsSmall(data[first + k - 1], 0);
      assert 8 * (|segs| - (k - 1)) == 8 + 8 * (|segs| - k);
      ShiftIn256(hi, data[first + k - 1], p);
    }
  }

  lemma ShiftIn256(hi: int, lo: int, p: int)
    ensures hi * (256 * p) + lo * p == (hi * 256 + lo) * p
  {
  }

  lemma SpanIsRaw(s: Signal, data: seq<byte>)
    requires Fits(s, data) && IsSpan(s)
    ensures s.start / 8 + s.len / 8 <= |data|
    ensures Span(data, s.start / 8, s.len / 8) == Raw(s, data)
  {
    var segs, f := SegList(s), s.start / 8;
    var n := s.len / 8;
    assert |segs| == n;
    forall i | 0 <= i < n
      ensures segs[i] == Seg(f + i, 0, 8, 8 * (n - 1 - i))
    {
    }
    SpanSum(segs, n, f, data);
    assert segs[..n] == segs;
    assert Span(data, f, n) * Pow2(0) == Span(data, f, n);
    SumIsRaw(s, data);
  }

  lemma SignedSpan(s: Signal, data: seq<byte>)
    requires Fits(s, data)
    ensures AsSigned(Raw(s, data), s.len) == Raw(s, data) - SignBitOf(s, data) * Pow2(s.len)
  {
    TopBit(ValueBits(s, data));
    assert 0 * Pow2(s.len) == 0 && 1 * Pow2(s.len) == Pow2(s.len);
  }

  lemma SpanTreeValue(s: Signal, data: seq<byte>)
    requires Fits(s, data) && IsSpan(s)
    ensures Worth(SpanTree(s), data, Composed(s, data))
  {
    hide Span, Raw, SpanTree, Value, Pow2, ValueBits;
    SpanIsRaw(s, data);
    SignedSpan(s, data);
    SpanOperand(s, data, Raw(s, data));
  }

  lemma SpanOperand(s: Signal, data: seq<byte>, raw: nat)
    requires Fits(s, data) && IsSpan(s) && s.start / 8 + s.len / 8 <= |data|
    requires Span(data, s.start / 8, s.len / 8) == raw
    ensures Worth(SpanTree(s), data, if s.isSigned then AsSigned(raw, s.len) else raw)
  {
    var f := s.start / 8;
    if s.len == 8 {
      assert Span(data, f, 0) == 0;
      assert Span(data, f, 1) == data[f];
    } else if s.isSigned {
      assert Container(s.len / 8) == s.len;
    }
  }

  // ---- the shape of the trees ----------------------------------------------------

  /** A single segment smaller than a byte: its text carries operators that bind
      less tightly than `+` and `-`, and stands without parentheses. */
  predicate Bare(s: Signal)
    requires Legal(s)
  {
    !IsSpan(s) && |SegList(s)| == 1 && HasOps(SegList(s)[0])
  }

  /** Well printed, of that nesting and holding together that tightly. */
  ghost predicate Shaped(e: Expr, depth: nat, level: nat) {
    WellPrinted(e) && Depth(e) <= depth && Level(e) >= level
  }

  lemma BinShaped(op: Op, l: Expr, r: Expr, depth: nat)
    requires Shaped(l, depth + 1, Prec(op)) && Shaped(r, depth, Prec(op) + 1)
    ensures Shaped(Bin(op, l, r), depth + 1, Prec(op))
  {
  }

  lemma GroupShaped(e: Expr, depth: nat)
    requires Shaped(e, depth, 1)
    ensures Shaped(Group(e), depth + 1, 6)
  {
  }

  lemma LeafShaped(x: int, i: nat)
    ensures Shaped(Lit(x), 1, 6) && Shaped(Leaf(Byte(i)), 1, 6)
  {
  }

  lemma ShiftShaped(i: nat, k: nat)
    ensures Shaped(Bin(Shr, Leaf(Byte(i)), Lit(k)), 2, 3)
  {
    LeafShaped(k, i);
    BinShaped(Shr, Leaf(Byte(i)), Lit(k), 1);
  }

  lemma MaskShaped(e: Expr, mask: nat)
    requires Shaped(e, 2, 2)
    ensures Shaped(Bin(BitAnd, e, Lit(mask)), 2, 2)
  {
    LeafShaped(mask, 0);
    BinShaped(BitAnd, e, Lit(mask), 1);
  }

  lemma TermShape(g: Seg, n: nat)
    ensures Shaped(SegTree(g), 2, 2) && (HasOps(g) || Shaped(SegTree(g), 1, 6))
    ensures Shaped(TermTree(g, n), 3, if n > 1 || (!HasOps(g) && g.pos == 0) then 5 else 2)
  {
    LeafShaped(0, g.index);
    ShiftShaped(g.index, g.shr);
    if HasOps(g) && g.shr + g.bits != 8 {
      MaskShaped(Leaf(Byte(g.index)), Pow2(g.bits) - 1);
      MaskShaped(Bin(Shr, Leaf(Byte(g.index)), Lit(g.shr)), Pow2(g.bits) - 1);
    }
    if HasOps(g) {
      GroupShaped(SegTree(g), 2);
    }
    if g.pos > 0 {
      LeafShaped(Pow2(g.pos), 0);
      BinShaped(Times, if HasOps(g) then Group(SegTree(g)) else SegTree(g), Lit(Pow2(g.pos)), 2);
    }
  }

  lemma {:induction false} SumShape(segs: seq<Seg>, n: nat)
    requires 1 <= |segs|
    ensures n > 1 ==> Shaped(SumTree(segs, n), 4, 4)
    ensures |segs| == 1 ==> Shaped(SumTree(segs, n), 4, 2)
    ensures |segs| == 1 && segs[0].pos == 0 && !HasOps(segs[0]) ==> Shaped(SumTree(segs, n), 4, 5)
  {
    var k := |segs| - 1;
    TermShape(segs[k], n);
    if k > 0 && n > 1 {
      SumShape(segs[..k], n);
      BinShaped(Plus, SumTree(segs[..k], n), TermTree(segs[k], n), 3);
    }
  }

  lemma SignShape(s: Signal)
    requires Legal(s)
    ensures Shaped(SignTree(s), 3, 5)
  {
    var i, k := ByteOf(s, s.len - 1), BitOf(s, s.len - 1);
    var shift := Bin(Shr, Leaf(Byte(i)), Lit(k));
    ShiftShaped(i, k);
    MaskShaped(shift, 1);
    LeafShaped(Pow2(s.len), 0);
    GroupShaped(if k == 7 then shift else Bin(BitAnd, shift, Lit(1)), 2);
    BinShaped(Times, SignTree(s).l, SignTree(s).r, 2);
  }

  lemma SegsShape(s: Signal)
    requires Legal(s)
    ensures SegList(s) != [] && (|SegList(s)| == 1 ==> SegList(s)[0].pos == 0)
  {
    SegShape(s, FirstByte(s));
  }

  lemma RawShape(s: Signal)
    requires Legal(s)
    ensures !Bare(s) ==> Shaped(RawTree(s), 4, 4)
    ensures !s.isSigned ==> Shaped(RawTree(s), 4, 2)
  {
    if !IsSpan(s) {
      SumShape(SegList(s), |SegList(s)|);
      SegsShape(s);
      SignShape(s);
      if s.isSigned && !Bare(s) {
        BinShaped(Minus, SumTree(SegList(s), |SegList(s)|), SignTree(s), 3);
      }
    }
  }

  lemma FactorShape(raw: Expr, s: Signal)
    requires Shaped(raw, 4, 1) && s.factor >= 0.0
    ensures s.factor != 1.0 ==> Shaped(WithFactor(raw, s), 5, 5)
  {
    GroupShaped(raw, 4);
    if s.factor != 1.0 {
      BinShaped(Times, if raw.Leaf? then raw else Group(raw), Leaf(Num(s.factor)), 4);
    }
  }

  lemma OffsetShape(e: Expr, s: Signal)
    requires Shaped(e, 5, 1) && (s.offset == 0.0 || Level(e) >= 4)
    ensures Shaped(WithOffset(e, s), 5, 1)
  {
    if s.offset > 0.0 {
      BinShaped(Plus, e, Leaf(Num(s.offset)), 4);
    } else if s.offset < 0.0 {
      BinShaped(Minus, e, Leaf(Num(-s.offset)), 4);
    }
  }

  // ---- the whole expression ------------------------------------------------------

  lemma UnsignedValue(s: Signal, data: seq<byte>)
    requires Fits(s, data)
    ensures Worth(SumTree(SegList(s), |SegList(s)|), data, Raw(s, data))
  {
    SegListReadable(s, data);
    SumValue(SegList(s), |SegList(s)|, data);
    SumIsRaw(s, data);
  }

  lemma RawTreeValue(s: Signal, data: seq<byte>)
    requires Fits(s, data)
    ensures Worth(RawTree(s), data, Composed(s, data))
  {
    hide SumTree, SegList, SignTree, SpanTree, Value, Raw, SignBitOf, Pow2;
    if IsSpan(s) {
      SpanTreeValue(s, data);
    } else {
      UnsignedValue(s, data);
      if s.isSigned {
        SignTreeValue(s, data);
        MinusWorth(SumTree(SegList(s), |SegList(s)|), SignTree(s), data,
                   Raw(s, data), SignBitOf(s, data) * Pow2(s.len));
      }
    }
  }

  lemma MinusWorth(l: Expr, r: Expr, data: seq<byte>, a: int, b: int)
    requires Worth(l, data, a) && Worth(r, data, b)
    ensures Worth(Bin(Minus, l, r), data, a - b)
  {
  }

  lemma ProductValue(l: Expr, r: Expr, data: seq<byte>, a: real, b: real)
    requires Value(l, data) == Some(a) && Value(r, data) == Some(b)
    ensures Value(Bin(Times, l, r), data) == Some(Product(a, b))
  {
  }

  lemma FactorValue(raw: Expr, s: Signal, data: seq<byte>, x: real)
    requires Value(raw, data) == Some(x)
    ensures Value(WithFactor(raw, s), data) == Some(Product(x, s.factor))
  {
    if s.factor == 1.0 {
      assert Product(x, 1.0) == x;
    } else {
      ProductValue(if raw.Leaf? then raw else Group(raw), FactorTree(s.factor), data, x, s.factor);
    }
  }

  lemma OffsetValue(e: Expr, s: Signal, data: seq<byte>, x: real)
    requires Value(e, data) == Some(x)
    ensures Value(WithOffset(e, s), data) == Some(x + s.offset)
  {
  }

  /** A bare segment whose shift swallows the sign and turns negative with it. */
  predicate ShiftsAway(s: Signal)
    requires Legal(s)
  {
    Bare(s) && s.isSigned && SegTree(SegList(s)[0]).op == Shr && Pow2(s.len) > SegList(s)[0].shr
  }

  /** The signals whose compiled text means what the reference decoder says. A factor
      of zero hides everything but a shift that cannot be done. */
  predicate Faithful(s: Signal)
    requires Legal(s)
  {
    if s.factor == 0.0 then !ShiftsAway(s)
    else
      && s.factor > 0.0
      && !(s.isSigned && s.len == 64)
      && !(Bare(s) && (s.isSigned || (s.offset != 0.0 && s.factor == 1.0)))
  }

  lemma EvalIntended(s: Signal, data: seq<byte>)
    requires Fits(s, data) && s.factor >= 0.0
    requires !(Bare(s) && (s.isSigned || (s.offset != 0.0 && s.factor == 1.0)))
    ensures Eval(Print(Intended(s)), data) == Some(Scaled(s, Composed(s, data)))
  {
    IntendedValue(s, data);
    IntendedShape(s);
    EvalComputes(Intended(s), data);
  }

  lemma IntendedValue(s: Signal, data: seq<byte>)
    requires Fits(s, data)
    ensures Value(Intended(s), data) == Some(Scaled(s, Composed(s, data)))
  {
    var x := Composed(s, data) as real;
    RawTreeValue(s, data);
    FactorValue(RawTree(s), s, data, x);
    var y := Product(x, s.factor);
    OffsetValue(WithFactor(RawTree(s), s), s, data, y);
    assert Scaled(s, Composed(s, data)) == y + s.offset;
  }

  lemma IntendedShape(s: Signal)
    requires Legal(s) && s.factor >= 0.0
    requires !(Bare(s) && (s.isSigned || (s.offset != 0.0 && s.factor == 1.0)))
    ensures Shaped(Intended(s), 5, 1)
  {
    RawShape(s);
    FactorShape(RawTree(s), s);
    OffsetShape(WithFactor(RawTree(s), s), s);
  }

  // ---- the other direction ---------------------------------------------------------

  /** How the evaluator reads a bare segment: what follows it binds more tightly
      and is swallowed by its last operand. */
  function Misread(s: Signal): Expr
    requires Legal(s) && Bare(s)
  {
    var e := SegTree(SegList(s)[0]);
    var tail := WithSign(e.r, s);
    if s.factor == 1.0 then Bin(e.op, e.l, WithOffset(tail, s))
    else WithOffset(Bin(Times, Group(Bin(e.op, e.l, tail)), FactorTree(s.factor)), s)
  }

  lemma PrintMoves(op: Op, x: Expr, k: Expr, t: Op, y: Expr)
    ensures Print(Bin(t, Bin(op, x, k), y)) == Print(Bin(op, x, Bin(t, k, y)))
  {
  }

  lemma MisreadText(s: Signal)
    requires Legal(s) && Bare(s)
    ensures Print(Misread(s)) == Print(Intended(s))
  {
    var e := SegTree(SegList(s)[0]);
    var tail := WithSign(e.r, s);
    SegsShape(s);
    assert RawTree(s) == WithSign(e, s);
    PrintMoves(e.op, e.l, e.r, Minus, SignTree(s));
    var inner := Bin(e.op, e.l, tail);
    assert Print(RawTree(s)) == Print(inner);
    if s.factor == 1.0 {
      SameTextOffset(RawTree(s), inner, s);
      PrintMoves(e.op, e.l, tail, Plus, Leaf(Num(s.offset)));
      PrintMoves(e.op, e.l, tail, Minus, Leaf(Num(-s.offset)));
    } else {
      assert Print(Group(RawTree(s))) == Print(Group(inner));
      SameTextOffset(WithFactor(RawTree(s), s), Bin(Times, Group(inner), FactorTree(s.factor)), s);
    }
  }

  lemma SameTextOffset(a: Expr, b: Expr, s: Signal)
    requires Print(a) == Print(b)
    ensures Print(WithOffset(a, s)) == Print(WithOffset(b, s))
  {
  }

  lemma TailShape(e: Expr, s: Signal)
    requires Legal(s) && Shaped(e, 1, 6)
    ensures Shaped(WithSign(e, s), 4, 4) && Shaped(WithOffset(WithSign(e, s), s), 5, 4)
  {
    SignShape(s);
    if s.isSigned {
      BinShaped(Minus, e, SignTree(s), 3);
    }
    OffsetShape(WithSign(e, s), s);
  }

  lemma MisreadShape(s: Signal)
    requires Legal(s) && Bare(s) && s.factor >= 0.0
    ensures Shaped(Misread(s), 6, 1)
  {
    var g := SegList(s)[0];
    var e := SegTree(g);
    TermShape(g, 1);
    TailShape(e.r, s);
    if s.factor == 1.0 {
      BinShaped(e.op, e.l, WithOffset(WithSign(e.r, s), s), 5);
    } else {
      var inner := Bin(e.op, e.l, WithSign(e.r, s));
      BinShaped(e.op, e.l, WithSign(e.r, s), 4);
      GroupShaped(inner, 5);
      ScaledShape(Group(inner), s);
    }
  }

  lemma ScaledShape(e: Expr, s: Signal)
    requires Shaped(e, 6, 6) && s.factor >= 0.0
    ensures Shaped(WithOffset(Bin(Times, e, FactorTree(s.factor)), s), 6, 1)
  {
    var scaled := Bin(Times, e, FactorTree(s.factor));
    BinShaped(Times, e, FactorTree(s.factor), 5);
    if s.offset > 0.0 {
      BinShaped(Plus, scaled, Leaf(Num(s.offset)), 5);
    } else if s.offset < 0.0 {
      BinShaped(Minus, scaled, Leaf(Num(-s.offset)), 5);
    }
  }

  /** A payload of equal bytes that carries the signal. */
  function Filled(s: Signal, b: byte): (data: seq<byte>)
    requires Legal(s)
    ensures Fits(s, data) && forall x <- data :: x == b
  {
    seq(LastByte(s) + 1, _ => b)
  }

  lemma {:induction false} ValOfSame(bs: seq<bit>, b: bit)
    requires forall i :: 0 <= i < |bs| ==> bs[i] == b
    ensures Val(bs) == b * (Pow2(|bs|) - 1)
  {
    if bs != [] {
      ValOfSame(bs[1..], b);
    }
  }

  lemma BitsOf255(k: nat)
    requires k < 8
    ensures Bit(255, k) == 1
  {
    Pow2Bytes();
    assert Pow2(0) == 1;
    if k == 0 { } else if k == 1 { } else if k == 2 { } else if k == 3 { }
    else if k == 4 { } else if k == 5 { } else if k == 6 { } else { }
  }

  lemma FilledBits(s: Signal, b: byte)
    requires Legal(s) && (b == 0 || b == 255)
    ensures forall i :: 0 <= i < s.len ==> ValueBits(s, Filled(s, b))[i] == if b == 0 then 0 else 1
  {
    var data := Filled(s, b);
    forall i | 0 <= i < s.len
      ensures ValueBits(s, data)[i] == if b == 0 then 0 else 1
    {
      ValueBitAt(s, data, i);
      BitsOf255(BitOf(s, i));
      DivUnique(0, Pow2(BitOf(s, i)), 0, 0);
    }
  }

  lemma ZerosDecoded(s: Signal)
    requires Legal(s)
    ensures Decoded(s, Filled(s, 0)) == 0
  {
    FilledBits(s, 0);
    ValOfSame(ValueBits(s, Filled(s, 0)), 0);
  }

  lemma OnesDecoded(s: Signal)
    requires Legal(s)
    ensures SignBitOf(s, Filled(s, 255)) == 1
    ensures s.isSigned && s.len < 64 ==> Decoded(s, Filled(s, 255)) == -1
  {
    FilledBits(s, 255);
    ValOfSame(ValueBits(s, Filled(s, 255)), 1);
  }

  /** Whatever a bare segment swallows: of zero it leaves zero or fails. */
  lemma SwallowZero(g: Seg, tail: Expr, data: seq<byte>)
    requires HasOps(g) && ReadableOne(g, data) && data[g.index] == 0
    ensures var v := Value(Bin(SegTree(g).op, SegTree(g).l, tail), data); v.None? || v.value == 0.0
  {
    var leaf := Leaf(Byte(g.index));
    ShrWorth(leaf, g.shr, data, 0);
    assert Worth(SegTree(g).l, data, 0);
    match Value(tail, data) {
      case None =>
      case Some(t) =>
        match Int32(t) {
          case None =>
          case Some(k) =>
            if 0 <= k < 32 {
              ShrinkByShift(0, k);
            }
        }
    }
  }

  /** With the sign bit set it leaves a natural number or fails. */
  lemma SwallowSign(g: Seg, tail: Expr, data: seq<byte>)
    requires HasOps(g) && ReadableOne(g, data)
    requires SegTree(g).op == BitAnd ==> Worth(tail, data, -1)
    ensures var v := Value(Bin(SegTree(g).op, SegTree(g).l, tail), data); v.None? || v.value >= 0.0
  {
    var x: nat := data[g.index];
    ShrWorth(Leaf(Byte(g.index)), g.shr, data, x);
    if SegTree(g).op == BitAnd {
      var l := if g.shr == 0 then x else x / Pow2(g.shr);
      assert Worth(SegTree(g).l, data, l);
      assert Int32(l as real) == Some(l) && Int32(-1 as real) == Some(-1);
      assert And(l, -1) == l;
    } else if Value(tail, data).Some? && Int32(Value(tail, data).value).Some? {
      var k := Int32(Value(tail, data).value).value;
      if 0 <= k < 32 {
        ShrinkByShift(x, k);
      }
    }
  }

  lemma ProductOrder(r: real, f: real)
    requires r >= 0.0 && f > 0.0
    ensures Product(r, f) > Product(-1.0, f)
  {
    assert r * f >= 0.0;
  }

  lemma BareSegment(s: Signal)
    requires Legal(s) && Bare(s)
    ensures SegList(s)[0].pos == 0 && SegList(s)[0].bits == s.len && s.len < 8
    ensures SegList(s)[0].shr + s.len <= 8
  {
    SegShape(s, FirstByte(s));
  }

  lemma OffsetLost(s: Signal)
    requires Legal(s) && Bare(s) && s.factor == 1.0 && s.offset != 0.0
    ensures var data := Filled(s, 0); Eval(Print(Intended(s)), data) != Some(Physical(s, data))
  {
    var data, g := Filled(s, 0), SegList(s)[0];
    MisreadText(s);
    MisreadShape(s);
    EvalComputes(Misread(s), data);
    SegListReadable(s, data);
    assert ReadableOne(g, data);
    SwallowZero(g, WithOffset(WithSign(SegTree(g).r, s), s), data);
    ZerosDecoded(s);
    assert Product(0 as real, 1.0) == 0.0;
  }

  /** The misread text of a signed bare segment when its sign bit is set. */
  lemma MisreadSign(s: Signal, data: seq<byte>)
    requires Fits(s, data) && Bare(s) && s.isSigned && SignBitOf(s, data) == 1
    ensures var e := SegTree(SegList(s)[0]);
      var v := Value(Bin(e.op, e.l, WithSign(e.r, s)), data); v.None? || v.value >= 0.0
  {
    var g := SegList(s)[0];
    var e := SegTree(g);
    SegListReadable(s, data);
    assert ReadableOne(g, data);
    BareSegment(s);
    if e.op == BitAnd {
      SignTreeValue(s, data);
      LitWorth(Pow2(s.len) - 1, data);
      MinusWorth(e.r, SignTree(s), data, Pow2(s.len) - 1, 1 * Pow2(s.len));
    }
    SwallowSign(g, WithSign(e.r, s), data);
  }

  lemma SignLost(s: Signal)
    requires Legal(s) && Bare(s) && s.isSigned && s.factor > 0.0 && (s.factor != 1.0 || s.offset == 0.0)
    ensures var data := Filled(s, 255); Eval(Print(Intended(s)), data) != Some(Physical(s, data))
  {
    var data := Filled(s, 255);
    var e := SegTree(SegList(s)[0]);
    var inner := Bin(e.op, e.l, WithSign(e.r, s));
    MisreadText(s);
    MisreadShape(s);
    EvalComputes(Misread(s), data);
    BareSegment(s);
    OnesDecoded(s);
    MisreadSign(s, data);
    assert Physical(s, data) == Product(-1.0, s.factor) + s.offset;
    if s.factor == 1.0 {
      assert Product(-1.0, 1.0) == -1.0;
    } else if Value(inner, data).Some? {
      var r := Value(inner, data).value;
      ProductOrder(r, s.factor);
      ProductValue(Group(inner), FactorTree(s.factor), data, r, s.factor);
      OffsetValue(Bin(Times, Group(inner), FactorTree(s.factor)), s, data, Product(r, s.factor));
    } else {
      assert Value(Group(inner), data) == None;
      assert Value(Bin(Times, Group(inner), FactorTree(s.factor)), data) == None;
      assert Value(Misread(s), data) == None;
    }
  }

  lemma Wide64Lost(s: Signal)
    requires Legal(s) && s.isSigned && s.len == 64 && s.factor > 0.0
    ensures var data := Filled(s, 255); Eval(Print(Intended(s)), data) != Some(Physical(s, data))
  {
    hide Value, Eval, Print, Intended, Raw, ValueBits;
    var data := Filled(s, 255);
    SegShape(s, FirstByte(s));
    assert !Bare(s);
    EvalIntended(s, data);
    OnesDecoded(s);
    ProductMono((Raw(s, data) - Pow2(64)) as real, Raw(s, data) as real, s.factor);
  }

  lemma ProductMono(a: real, b: real, f: real)
    requires a < b && f > 0.0
    ensures Product(a, f) < Product(b, f)
  {
    assert (b - a) * f > 0.0;
  }

  lemma NegativeFactorLost(s: Signal, data: seq<byte>)
    requires Fits(s, data) && s.factor < 0.0
    ensures Eval(Print(Intended(s)), data) == None
  {
    hide Print, RawTree, Intended;
    var l := Factored(RawTree(s));
    NegativeText(s);
    NoUnaryAfterOperator(Print(l), Times, [Num(-s.factor)] + OffsetText(s), data);
  }

  /** What the factor multiplies. */
  function Factored(raw: Expr): Expr {
    if raw.Leaf? then raw else Group(raw)
  }

  function OffsetText(s: Signal): seq<Token> {
    if s.offset == 0.0 then []
    else if s.offset > 0.0 then [Operator(Plus), Num(s.offset)]
    else [Operator(Minus), Num(-s.offset)]
  }

  lemma NegativeText(s: Signal)
    requires Legal(s) && s.factor < 0.0
    ensures Print(Intended(s)) ==
      Print(Factored(RawTree(s))) + [Operator(Times), Operator(Minus)] + ([Num(-s.factor)] + OffsetText(s))
  {
    hide RawTree;
    var raw, f := RawTree(s), FactorTree(s.factor);
    var l := Factored(raw);
    assert Print(f) == [Operator(Minus), Num(-s.factor)];
    assert Print(WithFactor(raw, s)) == Print(l) + [Operator(Times)] + Print(f);
    assert Print(WithFactor(raw, s)) == Print(l) + [Operator(Times), Operator(Minus)] + [Num(-s.factor)];
    assert Print(Intended(s)) == Print(WithFactor(raw, s)) + OffsetText(s);
  }

  // ---- a factor of zero -----------------------------------------------------------------

  lemma NothingLeft(x: real)
    ensures Product(x, 0.0) == 0.0
  {
  }

  lemma Int32Small(x: int)
    requires -1000 <= x <= 1000
    ensures Int32(x as real) == Some(x)
  {
  }

  /** What a bare signed segment is read as, when its shift can be done. */
  lemma MisreadDefined(s: Signal, data: seq<byte>)
    requires Fits(s, data) && Bare(s) && s.isSigned && !ShiftsAway(s)
    ensures var e := SegTree(SegList(s)[0]); Value(Bin(e.op, e.l, WithSign(e.r, s)), data).Some?
  {
    var g := SegList(s)[0];
    var e, sign := SegTree(g), SignBitOf(s, data) * Pow2(s.len);
    SegListReadable(s, data);
    assert ReadableOne(g, data);
    BareSegment(s);
    SignTreeValue(s, data);
    Pow2Grows(s.len, 8);
    Pow2Bytes();
    var x: nat := data[g.index];
    ShrWorth(Leaf(Byte(g.index)), g.shr, data, x);
    SmallProduct(SignBitOf(s, data), Pow2(s.len));
    if e.op == BitAnd {
      var l := if g.shr == 0 then x else x / Pow2(g.shr);
      LitWorth(Pow2(s.len) - 1, data);
      MinusWorth(e.r, SignTree(s), data, Pow2(s.len) - 1, sign);
      AndDefined(e.l, WithSign(e.r, s), data, l, Pow2(s.len) - 1 - sign);
    } else {
      LitWorth(g.shr, data);
      MinusWorth(e.r, SignTree(s), data, g.shr, sign);
      ShrDefined(e.l, WithSign(e.r, s), data, x, g.shr - sign);
    }
  }

  lemma AndDefined(l: Expr, r: Expr, data: seq<byte>, a: int, b: int)
    requires Worth(l, data, a) && Worth(r, data, b) && -1000 <= a <= 1000 && -1000 <= b <= 1000
    ensures Value(Bin(BitAnd, l, r), data).Some?
  {
    Int32Small(a);
    Int32Small(b);
  }

  lemma ShrDefined(l: Expr, r: Expr, data: seq<byte>, a: int, b: int)
    requires Worth(l, data, a) && Worth(r, data, b) && -1000 <= a <= 1000 && 0 <= b < 32
    ensures Value(Bin(Shr, l, r), data).Some?
  {
    Int32Small(a);
    Int32Small(b);
  }

  lemma ZeroFactorDecodes(s: Signal, data: seq<byte>)
    requires Fits(s, data) && s.factor == 0.0 && !ShiftsAway(s)
    ensures Eval(Print(Intended(s)), data) == Some(Physical(s, data))
  {
    hide Decoded, Composed, ShiftsAway, Product, Value, Eval, Print, Intended, Misread, SegTree;
    NothingLeft(Decoded(s, data) as real);
    if Bare(s) && s.isSigned {
      MisreadText(s);
      MisreadShape(s);
      EvalComputes(Misread(s), data);
      MisreadVanishes(s, data);
    } else {
      EvalIntended(s, data);
      NothingLeft(Composed(s, data) as real);
    }
  }

  lemma MisreadVanishes(s: Signal, data: seq<byte>)
    requires Fits(s, data) && s.factor == 0.0 && !ShiftsAway(s) && Bare(s) && s.isSigned
    ensures Value(Misread(s), data) == Some(s.offset)
  {
    hide ShiftsAway, Product, WithSign;
    var e := SegTree(SegList(s)[0]);
    var inner := Bin(e.op, e.l, WithSign(e.r, s));
    MisreadDefined(s, data);
    var r := Value(inner, data).value;
    NothingLeft(r);
    ProductValue(Group(inner), FactorTree(s.factor), data, r, 0.0);
    OffsetValue(Bin(Times, Group(inner), FactorTree(s.factor)), s, data, 0.0);
  }

  /** With its sign bit set a shift of less than nothing is undefined. */
  lemma ShiftedAwayFails(s: Signal)
    requires Legal(s) && ShiftsAway(s) && s.factor == 0.0
    ensures Eval(Print(Intended(s)), Filled(s, 255)) == None
  {
    var data, g := Filled(s, 255), SegList(s)[0];
    var e := SegTree(g);
    var inner := Bin(e.op, e.l, WithSign(e.r, s));
    MisreadText(s);
    MisreadShape(s);
    EvalComputes(Misread(s), data);
    OnesDecoded(s);
    BareSegment(s);
    SignTreeValue(s, data);
    Pow2Grows(s.len, 8);
    Pow2Bytes();
    LitWorth(g.shr, data);
    MinusWorth(e.r, SignTree(s), data, g.shr, 1 * Pow2(s.len));
    Int32Small(g.shr - Pow2(s.len));
    assert Value(inner, data) == None;
    assert Value(Group(inner), data) == None;
    assert Value(Bin(Times, Group(inner), FactorTree(s.factor)), data) == None;
    assert Value(Misread(s), data) == None;
  }

  /** Compiled and evaluated, a faithful signal is the reference decoder: every
      byte order, start, length and payload. */
  lemma FaithfulDecodes(s: Signal, data: seq<byte>)
    requires Fits(s, data) && Faithful(s)
    ensures Eval(Print(Intended(s)), data) == Some(Physical(s, data))
  {
    if s.factor == 0.0 {
      ZeroFactorDecodes(s, data);
    } else {
      EvalIntended(s, data);
      ComposedIsDecoded(s, data);
    }
  }

  /** The condition is exact: a signal outside it has a payload on which the
      compiled text fails or decodes to something else. */
  lemma UnfaithfulFails(s: Signal) returns (data: seq<byte>)
    requires Legal(s) && !Faithful(s)
    ensures Fits(s, data) && Eval(Print(Intended(s)), data) != Some(Physical(s, data))
  {
    if s.factor == 0.0 {
      data := Filled(s, 255);
      ShiftedAwayFails(s);
    } else if s.factor < 0.0 {
      data := Filled(s, 0);
      NegativeFactorLost(s, data);
    } else if s.isSigned && s.len == 64 {
      data := Filled(s, 255);
      Wide64Lost(s);
    } else if s.factor == 1.0 && s.offset != 0.0 {
      data := Filled(s, 0);
      OffsetLost(s);
    } else {
      data := Filled(s, 255);
      SignLost(s);
    }
  }

  ghost predicate DecodesEverything(s: Signal)
    requires Legal(s)
  {
    forall data :: Fits(s, data) ==> Eval(Print(Intended(s)), data) == Some(Physical(s, data))
  }

  /** Compiled text and reference decoder agree on every payload exactly for
      the faithful signals. */
  lemma FaithfulIsExact(s: Signal)
    requires Legal(s)
    ensures DecodesEverything(s) <==> Faithful(s)
  {
    if Faithful(s) {
      forall data | Fits(s, data)
        ensures Eval(Print(Intended(s)), data) == Some(Physical(s, data))
      {
        FaithfulDecodes(s, data);
      }
    } else {
      var data := UnfaithfulFails(s);
    }
  }

  /** The switch of a multiplexed message is compiled unsigned and unscaled, and
      such an expression is always faithful: the gate compares the raw value. */
  lemma SwitchIsRaw(s: Signal, data: seq<byte>)
    requires Fits(s, data)
    ensures var sw := RawSwitch(s);
      Eval(Print(Intended(sw)), data) == Some(Raw(s, data) as real)
  {
    var sw := RawSwitch(s);
    assert ValueBits(sw, data) == ValueBits(s, data);
    FaithfulDecodes(sw, data);
    assert Product(Raw(s, data) as real, 1.0) == Raw(s, data) as real;
  }

  // ---- doubles are enough up to 53 bits -----------------------------------------

  /** An integer of magnitude at most `most`. */
  ghost predicate Bounded(e: Expr, data: seq<byte>, most: int) {
    exists x: int :: Worth(e, data, x) && -most <= x <= most
  }

  /** One payload byte, as it is or shifted. */
  predicate OneByte(e: Expr) {
    match e
    case Leaf(t) => t.Byte?
    case Bin(op, l, r) => op == Shr && l.Leaf? && l.t.Byte? && r.Leaf?
    case _ => false
  }

  /** Every partial result is an exact integer, and the 32-bit operators of the
      evaluator only ever touch one byte. */
  ghost predicate ExactThroughout(e: Expr, data: seq<byte>, most: int) {
    && Bounded(e, data, most)
    && match e
       case Leaf(_) => true
       case NegNum(_) => false
       case Group(g) => ExactThroughout(g, data, most)
       case Bin(op, l, r) =>
         && ExactThroughout(l, data, most) && ExactThroughout(r, data, most)
         && (op == Plus || op == Minus || op == Times || (OneByte(l) && r.Leaf?))
  }

  lemma Within(e: Expr, data: seq<byte>, x: int, most: int)
    requires Worth(e, data, x) && -most <= x <= most
    ensures Bounded(e, data, most)
  {
  }

  lemma SegExact(g: Seg, data: seq<byte>, most: int)
    requires ReadableOne(g, data) && most >= 256
    ensures ExactThroughout(SegTree(g), data, most)
  {
    var x: nat := data[g.index];
    var leaf := Leaf(Byte(g.index));
    Within(leaf, data, x, most);
    LitExact(g.shr, data, most);
    Pow2Grows(g.bits, 8);
    Pow2Bytes();
    LitExact(Pow2(g.bits) - 1, data, most);
    ShrWorth(leaf, g.shr, data, x);
    Within(Bin(Shr, leaf, Lit(g.shr)), data, x / Pow2(g.shr), most);
    SegTreeValue(g, data);
    SegSmall(g, data);
    Within(SegTree(g), data, SegValue(g, data), most);
  }

  lemma SegSmall(g: Seg, data: seq<byte>)
    requires ReadableOne(g, data)
    ensures SegValue(g, data) < 256
  {
    Pow2Bytes();
    Pow2Grows(g.bits, 8);
  }

  lemma LitExact(x: int, data: seq<byte>, most: int)
    requires 0 <= x <= most
    ensures ExactThroughout(Lit(x), data, most)
  {
    LitWorth(x, data);
    Within(Lit(x), data, x, most);
  }

  lemma TermExact(g: Seg, n: nat, data: seq<byte>, most: int)
    requires ReadableOne(g, data) && Weighed(g, data) <= most && Pow2(g.pos) <= most && most >= 256
    ensures ExactThroughout(TermTree(g, n), data, most)
  {
    SegExact(g, data, most);
    SegTreeValue(g, data);
    SegSmall(g, data);
    Within(Group(SegTree(g)), data, SegValue(g, data), most);
    LitExact(Pow2(g.pos), data, most);
    TermValue(g, n, data);
    Within(TermTree(g, n), data, Weighed(g, data), most);
  }

  lemma {:induction false} SumExact(segs: seq<Seg>, n: nat, data: seq<byte>, most: int)
    requires segs != [] && most >= 256 && Readable(segs, data) && WeightedSum(segs, data) <= most
    requires forall g <- segs :: Pow2(g.pos) <= most
    ensures ExactThroughout(SumTree(segs, n), data, most)
  {
    var k := |segs| - 1;
    TermExact(segs[k], n, data, most);
    if k > 0 {
      SumExact(segs[..k], n, data, most);
      SumValue(segs, n, data);
      Within(SumTree(segs, n), data, WeightedSum(segs, data), most);
    }
  }

  lemma BinExact(op: Op, l: Expr, r: Expr, data: seq<byte>, x: int, most: int)
    requires ExactThroughout(l, data, most) && ExactThroughout(r, data, most)
    requires Worth(Bin(op, l, r), data, x) && -most <= x <= most
    requires op == Plus || op == Minus || op == Times || (OneByte(l) && r.Leaf?)
    ensures ExactThroughout(Bin(op, l, r), data, most)
    ensures ExactThroughout(Group(Bin(op, l, r)), data, most)
  {
    Within(Bin(op, l, r), data, x, most);
    Within(Group(Bin(op, l, r)), data, x, most);
  }

  lemma SignShiftExact(index: nat, k: nat, data: seq<byte>, most: int)
    requires index < |data| && k < 8 && most >= 256
    ensures var shift := Bin(Shr, Leaf(Byte(index)), Lit(k));
      ExactThroughout(Group(if k == 7 then shift else Bin(BitAnd, shift, Lit(1))), data, most)
  {
    var x: nat := data[index];
    var leaf := Leaf(Byte(index));
    Within(leaf, data, x, most);
    LitExact(k, data, most);
    LitExact(1, data, most);
    ShrWorth(leaf, k, data, x);
    BinExact(Shr, leaf, Lit(k), data, x / Pow2(k), most);
    if k < 7 {
      SignShiftValue(x, k, index, data);
      BinExact(BitAnd, Bin(Shr, leaf, Lit(k)), Lit(1), data, Bit(x, k), most);
    }
  }

  lemma SignExact(s: Signal, data: seq<byte>, most: int)
    requires Fits(s, data) && Pow2(s.len) <= most && most >= 256
    ensures ExactThroughout(SignTree(s), data, most)
  {
    var i := s.len - 1;
    ValueBitAt(s, data, i);
    SignShiftExact(ByteOf(s, i), BitOf(s, i), data, most);
    LitExact(Pow2(s.len), data, most);
    SignTreeValue(s, data);
    SmallProduct(SignBitOf(s, data), Pow2(s.len));
    Within(SignTree(s), data, SignBitOf(s, data) * Pow2(s.len), most);
  }

  lemma SmallProduct(b: bit, p: nat)
    ensures 0 <= b * p <= p
  {
  }

  lemma ComposedRange(s: Signal, data: seq<byte>, most: int)
    requires Fits(s, data) && Pow2(s.len) <= most
    ensures Raw(s, data) <= most && -most <= Composed(s, data) <= most
  {
    ValBound(ValueBits(s, data));
    SmallProduct(SignBitOf(s, data), Pow2(s.len));
  }

  /** Every partial result of the unscaled value is an integer of at most as many
      bits as the signal has (a byte at least): up to 53 of them double
      arithmetic makes no error. */
  lemma RawIsExact(s: Signal, data: seq<byte>, bits: nat)
    requires Fits(s, data) && s.len <= bits && 8 <= bits
    ensures ExactThroughout(RawTree(s), data, Pow2(bits))
  {
    var most := Pow2(bits);
    Pow2Grows(s.len, bits);
    Pow2Grows(8, bits);
    Pow2Bytes();
    ComposedRange(s, data, most);
    RawTreeValue(s, data);
    Within(RawTree(s), data, Composed(s, data), most);
    if !IsSpan(s) {
      SumTreeExact(s, data, most);
      if s.isSigned {
        SignExact(s, data, most);
      }
    }
  }

  lemma SumTreeExact(s: Signal, data: seq<byte>, most: int)
    requires Fits(s, data) && Pow2(s.len) <= most && most >= 256 && Raw(s, data) <= most
    ensures ExactThroughout(SumTree(SegList(s), |SegList(s)|), data, most)
  {
    SegListReadable(s, data);
    SumIsRaw(s, data);
    forall g | g in SegList(s)
      ensures Pow2(g.pos) <= most
    {
      var i :| 0 <= i < |SegList(s)| && SegList(s)[i] == g;
      SegShape(s, FirstByte(s) + i);
      Pow2Grows(g.pos, s.len);
    }
    SumExact(SegList(s), |SegList(s)|, data, most);
  }
}
