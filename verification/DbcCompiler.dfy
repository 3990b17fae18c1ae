/** The compiler from a DBC signal to the text of an Automate expression, and the
    trees that text stands for. */
module DbcCompiler {
  import opened Wrappers
  import opened Bits
  import opened DbcSignal
  import opened DbcSegments
  import opened ExpressionParser

  datatype Refusal = ExtendedMultiplexing | FloatSignal | NoSwitch

  // ---- the trees the compiler prints ------------------------------------------

  function Lit(x: int): Expr {
    Leaf(Num(x as real))
  }

  function HasOps(g: Seg): bool {
    !(g.shr == 0 && g.bits == 8)
  }

  function SegTree(g: Seg): Expr {
    if !HasOps(g) then Leaf(Byte(g.index))
    else if g.shr + g.bits == 8 then Bin(Shr, Leaf(Byte(g.index)), Lit(g.shr))
    else if g.shr == 0 then Bin(BitAnd, Leaf(Byte(g.index)), Lit(Pow2(g.bits) - 1))
    else Bin(BitAnd, Bin(Shr, Leaf(Byte(g.index)), Lit(g.shr)), Lit(Pow2(g.bits) - 1))
  }

  /** One term of a sum of n: weighted, or in parentheses when it has operators
      and is not alone. */
  function TermTree(g: Seg, n: nat): Expr {
    var seg := SegTree(g);
    if g.pos > 0 then Bin(Times, if HasOps(g) then Group(seg) else seg, Lit(Pow2(g.pos)))
    else if HasOps(g) && n > 1 then Group(seg)
    else seg
  }

  function SumTree(segs: seq<Seg>, n: nat): Expr
    requires segs != []
  {
    var k := |segs| - 1;
    if k == 0 then TermTree(segs[0], n)
    else Bin(Plus, SumTree(segs[..k], n), TermTree(segs[k], n))
  }

  /** The sign bit times 2^len. */
  function SignTree(s: Signal): Expr
    requires s.len >= 1
  {
    var at, bit := Leaf(Byte(ByteOf(s, s.len - 1))), BitOf(s, s.len - 1);
    var shift := Bin(Shr, at, Lit(bit));
    Bin(Times, Group(if bit == 7 then shift else Bin(BitAnd, shift, Lit(1))), Lit(Pow2(s.len)))
  }

  /** Motorola, byte aligned, and of a width the signed containers have. */
  predicate IsSpan(s: Signal) {
    && !s.intel && s.start % 8 == 7 && s.len % 8 == 0
    && var nbytes := s.len / 8;
       (!s.isSigned || nbytes == 1 || nbytes == 2 || nbytes == 4 || nbytes == 8)
  }

  function SpanTree(s: Signal): Expr
    requires s.len >= 8
  {
    var f, l := s.start / 8, s.start / 8 + s.len / 8 - 1;
    if s.len == 8 then Leaf(if s.isSigned then SByte(f) else Byte(f))
    else Leaf(if s.isSigned then SRange(f, l) else Range(f, l))
  }

  function WithSign(e: Expr, s: Signal): Expr
    requires s.len >= 1
  {
    if s.isSigned then Bin(Minus, e, SignTree(s)) else e
  }

  function RawTree(s: Signal): Expr
    requires Legal(s)
  {
    if IsSpan(s) then SpanTree(s) else WithSign(SumTree(SegList(s), |SegList(s)|), s)
  }

  function FactorTree(factor: real): Expr {
    if factor < 0.0 then NegNum(-factor) else Leaf(Num(factor))
  }

  function WithFactor(raw: Expr, s: Signal): Expr {
    if s.factor == 1.0 then raw
    else Bin(Times, if raw.Leaf? then raw else Group(raw), FactorTree(s.factor))
  }

  function WithOffset(e: Expr, s: Signal): Expr {
    if s.offset == 0.0 then e
    else if s.offset > 0.0 then Bin(Plus, e, Leaf(Num(s.offset)))
    else Bin(Minus, e, Leaf(Num(-s.offset)))
  }

  /** The tree the compiler has in mind. */
  function Intended(s: Signal): Expr
    requires Legal(s)
  {
    WithOffset(WithFactor(RawTree(s), s), s)
  }

  // ---- the compiler -------------------------------------------------------------

  /** One segment's extraction as text. */
  function SegText(g: Seg): (ts: seq<Token>)
    ensures ts == Print(SegTree(g))
  {
    var mask := (Pow2(g.bits) - 1) as real;
    if g.shr == 0 && g.bits == 8 then [Byte(g.index)]
    else if g.shr + g.bits == 8 then [Byte(g.index), Operator(Shr), Num(g.shr as real)]
    else if g.shr == 0 then [Byte(g.index), Operator(BitAnd), Num(mask)]
    else
      assert Print(Bin(Shr, Leaf(Byte(g.index)), Lit(g.shr))) == [Byte(g.index), Operator(Shr), Num(g.shr as real)];
      [Byte(g.index), Operator(Shr), Num(g.shr as real), Operator(BitAnd), Num(mask)]
  }

  /** The sum over the segments, appended term by term. */
  method SumText(segs: seq<Seg>) returns (raw: seq<Token>)
    requires segs != []
    ensures raw == Print(SumTree(segs, |segs|))
  {
    hide Print, SumTree;
    var n := |segs|;
    raw := [];
    for i := 0 to n
      invariant i == 0 ==> raw == []
      invariant i > 0 ==> raw == Print(SumTree(segs[..i], n))
    {
      var g := segs[i];
      var st := SegText(g);
      var ops := HasOps(g);
      var term;
      if g.pos > 0 {
        term := (if ops then [Open] + st + [Close] else st) + [Operator(Times)] + [Num(Pow2(g.pos) as real)];
      } else if ops && n > 1 {
        term := [Open] + st + [Close];
      } else {
        term := st;
      }
      TermText(g, n);
      SumMore(segs, i, n);
      if i > 0 {
        raw := raw + [Operator(Plus)];
      }
      raw := raw + term;
    }
    assert segs[..n] == segs;
  }

  lemma TermText(g: Seg, n: nat)
    ensures var st := Print(SegTree(g));
      Print(TermTree(g, n)) ==
        if g.pos > 0 then
          (if HasOps(g) then [Open] + st + [Close] else st) + [Operator(Times)] + [Num(Pow2(g.pos) as real)]
        else if HasOps(g) && n > 1 then [Open] + st + [Close]
        else st
  {
    hide SegTree, HasOps, Pow2;
  }

  lemma SumMore(segs: seq<Seg>, i: nat, n: nat)
    requires i < |segs|
    ensures Print(SumTree(segs[..i + 1], n)) ==
      (if i == 0 then [] else Print(SumTree(segs[..i], n)) + [Operator(Plus)]) + Print(TermTree(segs[i], n))
  {
    hide TermTree;
    assert segs[..i + 1][..i] == segs[..i];
  }

  method SignText(s: Signal) returns (ts: seq<Token>)
    requires Legal(s)
    ensures ts == [Operator(Minus)] + Print(SignTree(s))
  {
    var msbByte, msbBit := s.start / 8, s.start % 8;
    if s.intel {
      var m := s.start + s.len - 1;
      msbByte, msbBit := m / 8, m % 8;
    }
    assert msbByte == ByteOf(s, s.len - 1) && msbBit == BitOf(s, s.len - 1);
    var shift := [Byte(msbByte), Operator(Shr), Num(msbBit as real)];
    assert shift == Print(Bin(Shr, Leaf(Byte(msbByte)), Lit(msbBit)));
    var inner := if msbBit == 7 then shift else shift + [Operator(BitAnd)] + [Num(1 as real)];
    ghost var tree := Bin(Shr, Leaf(Byte(msbByte)), Lit(msbBit));
    assert inner == Print(if msbBit == 7 then tree else Bin(BitAnd, tree, Lit(1)));
    ts := [Operator(Minus)] + (([Open] + inner + [Close]) + [Operator(Times)] + [Num(Pow2(s.len) as real)]);
  }

  method SpanText(s: Signal) returns (raw: seq<Token>)
    requires Legal(s) && s.len >= 8
    ensures raw == Print(SpanTree(s))
  {
    var nbytes := s.len / 8;
    var f, l := s.start / 8, s.start / 8 + nbytes - 1;
    if s.len == 8 {
      raw := [if s.isSigned then SByte(f) else Byte(f)];
    } else {
      raw := [if s.isSigned then SRange(f, l) else Range(f, l)];
    }
  }

  /** The sum with its sign extension as text, and whether it holds operators. */
  method SegmentedText(s: Signal) returns (raw: seq<Token>, rawOps: bool)
    requires Legal(s)
    ensures var tree := WithSign(SumTree(SegList(s), |SegList(s)|), s);
      raw == Print(tree) && rawOps == !tree.Leaf?
  {
    var segs := Segments(s);
    raw := SumText(segs);
    OpsOfSum(s);
    rawOps := |segs| > 1 || HasOps(segs[0]);
    if s.isSigned {
      var sign := SignText(s);
      raw := raw + sign;
      rawOps := true;
    }
  }

  /** The unscaled value as text: a span where the evaluator has one. */
  method RawText(s: Signal) returns (raw: seq<Token>, rawOps: bool)
    requires Legal(s)
    ensures raw == Print(RawTree(s)) && rawOps == !RawTree(s).Leaf?
  {
    var spanOk := !s.intel && s.start % 8 == 7 && s.len % 8 == 0;
    var nbytes := s.len / 8;
    if spanOk && (!s.isSigned || nbytes == 1 || nbytes == 2 || nbytes == 4 || nbytes == 8) {
      raw := SpanText(s);
      rawOps := false;
    } else {
      raw, rawOps := SegmentedText(s);
    }
  }

  /** Factor and offset around it. A negative factor is printed with its sign. */
  method ScaleText(s: Signal, raw: seq<Token>, rawOps: bool) returns (expr: seq<Token>)
    requires Legal(s) && raw == Print(RawTree(s)) && rawOps == !RawTree(s).Leaf?
    ensures expr == Print(Intended(s))
  {
    expr := raw;
    if s.factor != 1.0 {
      var f := if s.factor < 0.0 then [Operator(Minus), Num(-s.factor)] else [Num(s.factor)];
      expr := (if rawOps then [Open] + raw + [Close] else raw) + [Operator(Times)] + f;
    }
    assert expr == Print(WithFactor(RawTree(s), s));
    if s.offset > 0.0 {
      expr := expr + [Operator(Plus)] + [Num(s.offset)];
    } else if s.offset < 0.0 {
      expr := expr + [Operator(Minus)] + [Num(-s.offset)];
    }
  }

  /** The whole compiler; extended multiplexing and float signals are refused. */
  method Compile(s: Signal) returns (r: Result<seq<Token>, Refusal>)
    requires Legal(s)
    ensures r == if s.mux == 3 then Err(ExtendedMultiplexing)
                 else if s.valtype != 0 then Err(FloatSignal)
                 else Ok(Print(Intended(s)))
  {
    if s.mux == 3 {
      return Err(ExtendedMultiplexing);
    }
    if s.valtype != 0 {
      return Err(FloatSignal);
    }
    var raw, rawOps := RawText(s);
    var expr := ScaleText(s, raw, rawOps);
    r := Ok(expr);
  }

  lemma OpsOfSum(s: Signal)
    requires Legal(s)
    ensures var segs := SegList(s);
      SumTree(segs, |segs|).Leaf? <==> |segs| == 1 && !HasOps(segs[0])
  {
    SegShape(s, FirstByte(s));
  }

  // ---- the gate of a multiplexed signal ---------------------------------------------

  /** The first multiplexer switch of the message. */
  function SwitchOf(sigs: seq<Signal>, msg: nat): Option<Signal> {
    if sigs == [] then None
    else if sigs[0].msg == msg && sigs[0].mux == 2 then Some(sigs[0])
    else SwitchOf(sigs[1..], msg)
  }

  /** The switch as the gate reads it: raw, so unsigned and unscaled. */
  function RawSwitch(s: Signal): Signal {
    s.(mux := 0, valtype := 0, isSigned := false, factor := 1.0, offset := 0.0)
  }

  datatype Gate = Always | When(text: seq<Token>, equals: nat)

  /** The precondition of an `m<N>` signal, as an expression of its own: the
      message's first switch, compiled raw, must read N. */
  method MuxCondition(s: Signal, complexMessage: bool, sigs: seq<Signal>) returns (r: Result<Gate, Refusal>)
    requires forall x <- sigs :: Legal(x)
    ensures s.mux == 3 || complexMessage ==> r == Err(ExtendedMultiplexing)
    ensures s.mux != 3 && !complexMessage && s.mux != 1 ==> r == Ok(Always)
    ensures s.mux == 1 && !complexMessage ==>
      match SwitchOf(sigs, s.msg)
      case None => r == Err(NoSwitch)
      case Some(sw) => Legal(sw) && r == Ok(When(Print(Intended(RawSwitch(sw))), s.muxVal))
  {
    if s.mux == 3 || complexMessage {
      return Err(ExtendedMultiplexing);
    }
    if s.mux != 1 {
      return Ok(Always);
    }
    var i := 0;
    while i < |sigs| && !(sigs[i].msg == s.msg && sigs[i].mux == 2)
      invariant 0 <= i <= |sigs| && SwitchOf(sigs[i..], s.msg) == SwitchOf(sigs, s.msg)
    {
      i := i + 1;
    }
    if i == |sigs| {
      return Err(NoSwitch);
    }
    assert sigs[i] in sigs;
    var text := Compile(RawSwitch(sigs[i]));
    r := Ok(When(text.value, s.muxVal));
  }
}
