/** The Automate expression evaluator: a shunting-yard machine over two stacks,
    from the lexed text on. The main result: on the text of any tree printed with
    the parentheses its precedences ask for, the machine computes the tree. */
module ExpressionParser {
  import opened Wrappers
  import opened Bits

  const STACK_MAX: nat := 64

  datatype Op = Or | Xor | BitAnd | Shl | Shr | Plus | Minus | Times | Over

  datatype Token =
    | Num(v: real)
    | Byte(i: nat)
    | SByte(i: nat)
    | Range(first: nat, last: nat)
    | SRange(first: nat, last: nat)
    | Open
    | Close
    | Operator(op: Op)

  /** What stands on the operator stack. */
  datatype Item = Paren | Pending(op: Op)

  datatype Machine = Machine(operands: seq<real>, operators: seq<Item>,
                             expectOperand: bool, unaryOk: bool)

  function Prec(op: Op): (p: nat)
    ensures 1 <= p <= 5
  {
    match op
    case Or | Xor => 1
    case BitAnd => 2
    case Shl | Shr => 3
    case Plus | Minus => 4
    case Times | Over => 5
  }

  function ItemPrec(it: Item): nat {
    match it
    case Paren => 0
    case Pending(op) => Prec(op)
  }

  /** The precedence on top of the operator stack, 0 when it is empty. */
  function TopPrec(m: Machine): nat {
    if m.operators == [] then 0 else ItemPrec(m.operators[|m.operators| - 1])
  }

  const INT_LIMIT := 0x8000_0000

  /** The cast `(int)` of a double: toward zero, undefined outside 32 bits. */
  function Int32(v: real): Option<int> {
    var t := if v >= 0.0 then v.Floor else -((-v).Floor);
    if -INT_LIMIT <= t < INT_LIMIT then Some(t) else None
  }

  /** One operator on two operands. Undefined C behaviour is None. */
  function Apply(op: Op, a: real, b: real): Option<real> {
    match op
    case Plus => Some(a + b)
    case Minus => Some(a - b)
    case Times => Some(Product(a, b))
    case Over => if b == 0.0 then None else Some(a / b)
    case _ =>
      match (Int32(a), Int32(b))
      case (Some(x), Some(y)) => ApplyInt(op, x, y)
      case _ => None
  }

  function ApplyInt(op: Op, x: int, y: int): Option<real> {
    match op
    case BitAnd => Some(And(x, y) as real)
    case Or => Some((x + y - And(x, y)) as real)
    case Xor => Some((x + y - 2 * And(x, y)) as real)
    case Shl => if 0 <= x && 0 <= y < 32 && x * Pow2(y) < INT_LIMIT then Some((x * Pow2(y)) as real) else None
    case Shr => if 0 <= y < 32 then Some((x / Pow2(y)) as real) else None
    case _ => None
  }

  /** Big-endian value of n payload bytes. */
  function Span(data: seq<byte>, first: nat, n: nat): nat
    requires first + n <= |data|
  {
    if n == 0 then 0 else Span(data, first, n - 1) * 256 + data[first + n - 1]
  }

  /** A cast to a two's complement integer of that many bits, of a value that
      fits them unsigned or is narrower. */
  function AsSigned(v: nat, width: nat): int
    requires width >= 1
  {
    if v >= Pow2(width - 1) then v - Pow2(width) else v
  }

  /** The container a signed span is read in: 1, 2, 4 or 8 bytes. */
  function Container(n: nat): nat {
    if n == 1 then 8 else if n == 2 then 16 else if n <= 4 then 32 else 64
  }

  function Operand(t: Token, data: seq<byte>): Option<real> {
    match t
    case Num(v) => Some(v)
    case Byte(i) => if i < |data| then Some(data[i] as real) else None
    case SByte(i) => if i < |data| then Some(AsSigned(data[i], 8) as real) else None
    case Range(f, l) =>
      if f <= l && l - f <= 7 && l < |data| then Some(Span(data, f, l - f + 1) as real) else None
    case SRange(f, l) =>
      if f <= l && l - f <= 7 && l < |data|
      then Some(AsSigned(Span(data, f, l - f + 1), Container(l - f + 1)) as real) else None
    case _ => None
  }

  function Push(m: Machine, v: real): Machine {
    Machine(m.operands + [v], m.operators, false, false)
  }

  function PushOperand(m: Machine, v: real): Option<Machine> {
    if |m.operands| >= STACK_MAX then None else Some(Push(m, v))
  }

  function ApplyTop(m: Machine): Option<Machine>
    requires m.operators != [] && m.operators[|m.operators| - 1].Pending?
  {
    var k, n := |m.operators| - 1, |m.operands|;
    if n < 2 then None
    else
      match Apply(m.operators[k].op, m.operands[n - 2], m.operands[n - 1])
      case None => None
      case Some(r) => Some(m.(operands := m.operands[..n - 2] + [r], operators := m.operators[..k]))
  }

  /** Apply operators as long as the top one binds at least as tightly as p. */
  function PopWhile(m: Machine, p: nat): Option<Machine>
    requires p >= 1
    decreases |m.operators|
  {
    if TopPrec(m) < p then Some(m)
    else
      match ApplyTop(m)
      case None => None
      case Some(next) => PopWhile(next, p)
  }

  function PushOperator(m: Machine, op: Op): Option<Machine> {
    match PopWhile(m, Prec(op))
    case None => None
    case Some(next) =>
      if |next.operators| >= STACK_MAX then None
      else Some(next.(operators := next.operators + [Pending(op)], expectOperand := true))
  }

  function Step(m: Machine, t: Token, data: seq<byte>): Option<Machine> {
    match t
    case Open =>
      if |m.operators| >= STACK_MAX then None
      else Some(Machine(m.operands, m.operators + [Paren], true, true))
    case Close =>
      (match PopWhile(m, 1)
       case None => None
       case Some(next) =>
         if next.operators == [] then None
         else Some(next.(operators := next.operators[..|next.operators| - 1])))
    case Operator(op) =>
      if op == Minus && m.unaryOk then
        match PushOperand(m, 0.0)
        case None => None
        case Some(next) => PushOperator(next.(expectOperand := true), Minus)
      else if m.expectOperand then None
      else PushOperator(m, op)
    case _ =>
      match Operand(t, data)
      case None => None
      case Some(v) => PushOperand(m, v)
  }

  function Run(ts: seq<Token>, m: Machine, data: seq<byte>): Option<Machine> {
    if ts == [] then Some(m)
    else
      match Step(m, ts[0], data)
      case None => None
      case Some(next) => Run(ts[1..], next, data)
  }

  const START := Machine([], [], true, true)

  /** The whole evaluation: the tokens, then what is still pending. */
  function Eval(ts: seq<Token>, data: seq<byte>): Option<real> {
    match Run(ts, START, data)
    case None => None
    case Some(m) =>
      match PopWhile(m, 1)
      case None => None
      case Some(done) =>
        if done.operators == [] && |done.operands| == 1 then Some(done.operands[0]) else None
  }

  // ---- trees, their text, and the machine on it -------------------------------

  /** NegNum is a negative literal as text: a minus sign and a number. */
  datatype Expr =
    | Leaf(t: Token)
    | NegNum(v: real)
    | Group(e: Expr)
    | Bin(op: Op, l: Expr, r: Expr)

  function Print(e: Expr): (ts: seq<Token>)
    ensures ts != []
  {
    match e
    case Leaf(t) => [t]
    case NegNum(v) => [Operator(Minus), Num(v)]
    case Group(g) => [Open] + Print(g) + [Close]
    case Bin(op, l, r) => Print(l) + [Operator(op)] + Print(r)
  }

  function Value(e: Expr, data: seq<byte>): Option<real> {
    match e
    case Leaf(t) => Operand(t, data)
    case NegNum(v) => Some(-v)
    case Group(g) => Value(g, data)
    case Bin(op, l, r) =>
      match (Value(l, data), Value(r, data))
      case (Some(a), Some(b)) => Apply(op, a, b)
      case _ => None
  }

  /** How tightly the text of e holds together. */
  function Level(e: Expr): (p: nat)
    ensures 1 <= p <= 6
  {
    if e.Bin? then Prec(e.op) else 6
  }

  /** Parentheses stand wherever the precedences ask for them. */
  predicate WellPrinted(e: Expr) {
    match e
    case Leaf(t) => !t.Open? && !t.Close? && !t.Operator?
    case NegNum(_) => false
    case Group(g) => WellPrinted(g)
    case Bin(op, l, r) => WellPrinted(l) && WellPrinted(r) && Level(l) >= Prec(op) && Level(r) > Prec(op)
  }

  function Depth(e: Expr): (d: nat)
    ensures d >= 1
  {
    match e
    case Leaf(_) => 1
    case NegNum(_) => 1
    case Group(g) => 1 + Depth(g)
    case Bin(_, l, r) => if Depth(l) > 1 + Depth(r) then Depth(l) else 1 + Depth(r)
  }

  lemma {:induction false} RunAppend(a: seq<Token>, b: seq<Token>, m: Machine, data: seq<byte>)
    ensures Run(a + b, m, data) ==
      match Run(a, m, data) case None => None case Some(next) => Run(b, next, data)
  {
    if a == [] {
      assert a + b == b;
    } else {
      assert (a + b)[1..] == a[1..] + b;
      match Step(m, a[0], data) {
        case None =>
        case Some(next) => RunAppend(a[1..], b, next, data);
      }
    }
  }

  lemma RunOne(t: Token, m: Machine, data: seq<byte>)
    ensures Run([t], m, data) == Step(m, t, data)
  {
    match Step(m, t, data) {
      case None =>
      case Some(next) => assert [t][1..] == [];
    }
  }

  lemma {:induction false} PopTwice(m: Machine, p: nat, q: nat)
    requires 1 <= q <= p
    ensures PopWhile(m, q) ==
      match PopWhile(m, p) case None => None case Some(next) => PopWhile(next, q)
    decreases |m.operators|
  {
    if TopPrec(m) >= p {
      match ApplyTop(m) {
        case None =>
        case Some(next) => PopTwice(next, p, q);
      }
    }
  }

  lemma {:induction false} PopKeepsFlags(m: Machine, p: nat)
    requires p >= 1
    ensures PopWhile(m, p).Some? ==>
      var n := PopWhile(m, p).value;
      n.expectOperand == m.expectOperand && n.unaryOk == m.unaryOk
    decreases |m.operators|
  {
    if TopPrec(m) >= p {
      match ApplyTop(m) {
        case None =>
        case Some(next) => PopKeepsFlags(next, p);
      }
    }
  }

  /** The machine m, run over the text of a tree worth v, owes exactly v: once
      what binds at least as tightly as the tree is applied, m with v pushed.
      A tree without a value stops it, then or there. */
  ghost predicate Owes(after: Option<Machine>, m: Machine, v: Option<real>, level: nat)
    requires level >= 1
  {
    match after
    case None => v.None?
    case Some(n) =>
      && !n.expectOperand && !n.unaryOk
      && PopWhile(n, level) == (if v.Some? then Some(Push(m, v.value)) else None)
  }

  ghost predicate Room(m: Machine, e: Expr) {
    |m.operands| + Depth(e) <= STACK_MAX && |m.operators| + Depth(e) <= STACK_MAX
  }

  /** The shunting-yard machine computes every well-printed tree. */
  lemma {:induction false} RunComputes(e: Expr, m: Machine, data: seq<byte>)
    requires WellPrinted(e) && Room(m, e) && TopPrec(m) < Level(e)
    ensures Owes(Run(Print(e), m, data), m, Value(e, data), Level(e))
    decreases e, 1
  {
    match e {
      case Leaf(t) => RunOne(t, m, data);
      case NegNum(_) =>
      case Group(g) => RunGroup(g, m, data);
      case Bin(op, l, r) =>
        RunComputes(l, m, data);
        if Value(l, data).Some? {
          RunComputes(r, AfterOp(m, op, Value(l, data).value), data);
        }
        RunBin(op, l, r, m, data);
    }
  }

  function AfterOp(m: Machine, op: Op, v: real): Machine {
    Machine(m.operands + [v], m.operators + [Pending(op)], true, false)
  }

  lemma {:induction false} RunGroup(g: Expr, m: Machine, data: seq<byte>)
    requires WellPrinted(g) && Room(m, Group(g)) && TopPrec(m) < 6
    ensures Owes(Run(Print(Group(g)), m, data), m, Value(g, data), 6)
    decreases Group(g), 0
  {
    var m1 := Machine(m.operands, m.operators + [Paren], true, true);
    assert Print(Group(g)) == [Open] + (Print(g) + [Close]);
    RunOne(Open, m, data);
    RunAppend([Open], Print(g) + [Close], m, data);
    RunComputes(g, m1, data);
    RunAppend(Print(g), [Close], m1, data);
    match Run(Print(g), m1, data) {
      case None =>
      case Some(m2) => RunClose(m2, m, Value(g, data), Level(g), data);
    }
  }

  lemma RunClose(m2: Machine, m: Machine, v: Option<real>, level: nat, data: seq<byte>)
    requires level >= 1
    requires Owes(Some(m2), Machine(m.operands, m.operators + [Paren], true, true), v, level)
    ensures Run([Close], m2, data) == if v.Some? then Some(Push(m, v.value)) else None
  {
    RunOne(Close, m2, data);
    PopTwice(m2, level, 1);
    assert (m.operators + [Paren])[..|m.operators|] == m.operators;
  }

  lemma RunBin(op: Op, l: Expr, r: Expr, m: Machine, data: seq<byte>)
    requires TopPrec(m) < Prec(op) <= Level(l) && Prec(op) < Level(r) && |m.operators| < STACK_MAX
    requires Owes(Run(Print(l), m, data), m, Value(l, data), Level(l))
    requires Value(l, data).Some? ==>
      var m2 := AfterOp(m, op, Value(l, data).value);
      Owes(Run(Print(r), m2, data), m2, Value(r, data), Level(r))
    ensures Owes(Run(Print(Bin(op, l, r)), m, data), m, Value(Bin(op, l, r), data), Prec(op))
  {
    RunAppend(Print(l), [Operator(op)], m, data);
    RunAppend(Print(l) + [Operator(op)], Print(r), m, data);
    if Run(Print(l), m, data).Some? {
      RunOperator(op, Run(Print(l), m, data).value, m, Value(l, data), Level(l), data);
      if Value(l, data).Some? {
        RunRight(op, m, Value(l, data).value, Value(r, data),
                 Run(Print(r), AfterOp(m, op, Value(l, data).value), data), Level(r));
      }
    }
  }

  lemma RunOperator(op: Op, m1: Machine, m: Machine, a: Option<real>, level: nat, data: seq<byte>)
    requires TopPrec(m) < Prec(op) <= level && |m.operators| < STACK_MAX
    requires Owes(Some(m1), m, a, level)
    ensures Run([Operator(op)], m1, data) == if a.Some? then Some(AfterOp(m, op, a.value)) else None
  {
    PopTwice(m1, level, Prec(op));
    RunOne(Operator(op), m1, data);
  }

  lemma RunRight(op: Op, m: Machine, a: real, b: Option<real>, after: Option<Machine>, level: nat)
    requires TopPrec(m) < Prec(op) < level
    requires Owes(after, AfterOp(m, op, a), b, level)
    ensures Owes(after, m, if b.Some? then Apply(op, a, b.value) else None, Prec(op))
  {
    if after.Some? {
      PopTwice(after.value, level, Prec(op));
      if b.Some? {
        ApplyPending(op, m, a, b.value);
      }
    }
  }

  lemma ApplyPending(op: Op, m: Machine, a: real, b: real)
    requires TopPrec(m) < Prec(op)
    ensures PopWhile(Push(AfterOp(m, op, a), b), Prec(op)) ==
      match Apply(op, a, b) case None => None case Some(r) => Some(Push(m, r))
  {
    var m4 := Push(AfterOp(m, op, a), b);
    assert m4.operands[..|m.operands|] == m.operands;
    assert m4.operators[..|m.operators|] == m.operators;
    match Apply(op, a, b) {
      case None => assert ApplyTop(m4) == None;
      case Some(r) =>
        assert ApplyTop(m4) == Some(Push(m, r));
        assert PopWhile(Push(m, r), Prec(op)) == Some(Push(m, r));
    }
  }

  /** What a well-printed text of bounded nesting evaluates to: its tree. */
  lemma EvalComputes(e: Expr, data: seq<byte>)
    requires WellPrinted(e) && Depth(e) <= STACK_MAX
    ensures Eval(Print(e), data) == Value(e, data)
  {
    RunComputes(e, START, data);
    if Run(Print(e), START, data).Some? {
      PopTwice(Run(Print(e), START, data).value, Level(e), 1);
      if Value(e, data).Some? {
        var done := Push(START, Value(e, data).value);
        assert PopWhile(done, 1) == Some(done);
      }
    }
  }

  /** A minus sign is unary only where no operand has been read. */
  lemma {:induction false} UnaryNeedsOperand(ts: seq<Token>, m: Machine, data: seq<byte>)
    requires m.unaryOk ==> m.expectOperand
    ensures Run(ts, m, data).Some? ==>
      var n := Run(ts, m, data).value; n.unaryOk ==> n.expectOperand
  {
    if ts != [] && Step(m, ts[0], data).Some? {
      PopKeepsFlags(m, 1);
      if ts[0].Operator? {
        PopKeepsFlags(m, Prec(ts[0].op));
        PopKeepsFlags(Push(m, 0.0).(expectOperand := true), Prec(Minus));
      }
      UnaryNeedsOperand(ts[1..], Step(m, ts[0], data).value, data);
    }
  }

  /** `x*-y` is refused, whatever x is and whatever follows. */
  lemma NoUnaryAfterOperator(before: seq<Token>, op: Op, after: seq<Token>, data: seq<byte>)
    requires op != Minus
    ensures Eval(before + [Operator(op), Operator(Minus)] + after, data) == None
  {
    UnaryNeedsOperand(before, START, data);
    RunAppend(before + [Operator(op), Operator(Minus)], after, START, data);
    RunAppend(before, [Operator(op), Operator(Minus)], START, data);
    match Run(before, START, data) {
      case None =>
      case Some(m) =>
        RunAppend([Operator(op)], [Operator(Minus)], m, data);
        assert [Operator(op), Operator(Minus)] == [Operator(op)] + [Operator(Minus)];
        RunOne(Operator(op), m, data);
        PopKeepsFlags(m, Prec(op));
        match Step(m, Operator(op), data) {
          case None =>
          case Some(n) => RunOne(Operator(Minus), n, data);
        }
    }
  }
}
