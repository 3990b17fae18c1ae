/** No request leaves on a protocol the bus guard refuses: over every run of poll
    passes, car switches between them and resets by other holders of the chip. */
module DisciplineSafety {
  import opened Wrappers
  import opened Seqs
  import opened Numerals
  import opened ChainText
  import opened BusGuard
  import opened Chip
  import opened Discipline

  // ---- what a transmission is ---------------------------------------------------------

  /** A command that goes out on the bus: not one for the chip itself. */
  predicate Transmits(cmd: string) {
    var c := Norm(cmd);
    c != "" && !(|c| >= 2 && (c[..2] == "AT" || c[..2] == "ST" || c[..2] == "VT"))
  }

  /** The search, a protocol the guard does not judge, or one it allows; and none of
      the vendor's, of which it knows nothing. */
  predicate Cleared(bus: Bus, proto: char) {
    proto != VENDOR && Allowed(bus, proto)
  }

  predicate SafeSent(bus: Bus, s: Sent) {
    Transmits(s.cmd) ==> Cleared(bus, s.proto)
  }

  /** What the chip was sent from the n-th command of the log on. */
  predicate SafeSince(bus: Bus, log: seq<Sent>, n: nat) {
    forall i :: n <= i < |log| ==> SafeSent(bus, log[i])
  }

  /** The chip moved on from w to v without anything else changing. */
  predicate Moved(w: World, v: World) {
    && v.guard == w.guard && v.car == w.car && v.power == w.power && v.gen == w.gen
    && w.log <= v.log
  }

  // ---- the firmware's own chains --------------------------------------------------------

  lemma {:induction false} PlainNorm(s: string)
    requires forall i :: 0 <= i < |s| ==> !IsBlank(s[i]) && Upper(s[i]) == s[i]
    ensures Norm(s) == s
  {
    if s != "" {
      PlainNorm(Init(s));
    }
  }

  predicate Plain(cmd: string) {
    && (forall i :: 0 <= i < |cmd| ==> !IsBlank(cmd[i]) && Upper(cmd[i]) == cmd[i])
    && |cmd| >= 2 && cmd[0] == 'A' && cmd[1] == 'T'
  }

  lemma PlainIsQuiet(cmd: string)
    requires Plain(cmd)
    ensures Norm(cmd) == cmd && !Transmits(cmd) && !VendorSwitch(cmd)
  {
    PlainNorm(cmd);
  }

  /** A chain of plain AT commands without a reset. */
  predicate Quiet(es: seq<string>) {
    forall i :: 0 <= i < |es| ==> Plain(es[i]) && !Resets(es[i])
  }

  lemma {:induction false} SendQuiet(w: World, es: seq<string>, bus: Bus)
    requires Quiet(es)
    ensures var v := SendAll(w, es);
      && Moved(w, v) && v.mem == w.mem && SafeSince(bus, v.log, |w.log|)
      && v.chip == ExecAll(w.chip, w.power, es)
    decreases es
  {
    if es != [] {
      PlainIsQuiet(es[0]);
      SendQuiet(Send(w, es[0]), es[1..], bus);
    }
  }

  lemma EffectiveIsProto(car: Car)
    ensures ProtoDigit(Effective(car)) && Effective(car) != NUL && Effective(car) != VENDOR
  {
  }

  lemma PinCommand(p: char)
    requires ProtoDigit(p)
    ensures Plain("ATTP" + [p]) && CmdProto("ATTP" + [p]) == p && !Resets("ATTP" + [p])
  {
    PlainNorm("ATTP" + [p]);
  }

  /** A plain command that sets no protocol and resets nothing. */
  predicate Setting(cmd: string) {
    Plain(cmd) && CmdProto(cmd) == NUL && !Resets(cmd)
  }

  predicate Settings(es: seq<string>) {
    forall i :: 0 <= i < |es| ==> Setting(es[i])
  }

  /** Neither blank nor a small letter. */
  predicate PlainChar(c: char) {
    !IsBlank(c) && Upper(c) == c
  }

  // Commands by their letters: none of these sets a protocol or resets the chip.

  lemma Spelled4(a: char, b: char)
    requires PlainChar(a) && PlainChar(b)
    requires (b != 'P' || (a != 'S' && a != 'T')) && !(a == 'W' && b == 'S')
    ensures Setting(['A', 'T', a, b])
  {
    var s := ['A', 'T', a, b];
    assert s[0] == 'A' && s[1] == 'T' && s[2] == a && s[3] == b && |s| == 4;
    PlainNorm(s);
  }

  lemma Spelled5(a: char, b: char, c: char)
    requires PlainChar(a) && PlainChar(b) && PlainChar(c)
    requires b != 'P' || (a != 'S' && a != 'T')
    ensures Setting(['A', 'T', a, b, c])
  {
    var s := ['A', 'T', a, b, c];
    assert s[0] == 'A' && s[1] == 'T' && s[2] == a && s[3] == b && s[4] == c && |s| == 5;
    PlainNorm(s);
  }

  lemma Spelled6(a: char, b: char, c: char, d: char)
    requires PlainChar(a) && PlainChar(b) && PlainChar(c) && PlainChar(d)
    requires b != 'P' || (a != 'S' && a != 'T')
    ensures Setting(['A', 'T', a, b, c, d])
  {
    var s := ['A', 'T', a, b, c, d];
    assert s[0] == 'A' && s[1] == 'T' && s[2] == a && s[3] == b && s[4] == c && s[5] == d && |s| == 6;
    PlainNorm(s);
  }

  lemma Spelled7(a: char, b: char, c: char, d: char, e: char)
    requires PlainChar(a) && PlainChar(b) && PlainChar(c) && PlainChar(d) && PlainChar(e)
    requires b != 'P' || (a != 'S' && a != 'T')
    ensures Setting(['A', 'T', a, b, c, d, e])
  {
    var s := ['A', 'T', a, b, c, d, e];
    assert s[0] == 'A' && s[1] == 'T' && s[2] == a && s[3] == b && s[4] == c && s[5] == d && s[6] == e && |s| == 7;
    PlainNorm(s);
  }

  lemma HeadIsQuiet(p: char)
    ensures Settings(PreludeHead(p))
  {
    hide Setting;
    Spelled4('S', '1');
    Spelled4('H', '0');
    Spelled4('H', '1');
    Spelled6('S', 'T', '9', '6');
  }

  lemma TailIsQuiet(p: char)
    ensures Settings(PreludeTail(p))
  {
    hide Setting;
    if IsCan(p) {
      HeaderIsQuiet(p);
      Spelled5('C', 'R', 'A');
    }
  }

  lemma HeaderIsQuiet(p: char)
    requires FuncHeader(p).Some?
    ensures Setting(FuncHeader(p).value)
  {
    hide Setting;
    if p == '6' || p == '8' {
      Spelled7('S', 'H', '7', 'D', 'F');
    } else {
      PlainLongHeader();
    }
  }

  lemma PlainLongHeader()
    ensures Setting("ATSH18DB33F1")
  {
    var s := "ATSH18DB33F1";
    assert s[0] == 'A' && s[1] == 'T' && s[2] == 'S' && s[3] == 'H' && s[4] == '1' && s[5] == '8' && s[6] == 'D';
    assert s[7] == 'B' && s[8] == '3' && s[9] == '3' && s[10] == 'F' && s[11] == '1' && |s| == 12;
    PlainNorm(s);
  }

  lemma {:induction false} UndoIsQuiet(sets: set<Facet>, i: nat)
    requires i <= UNDO_COUNT
    ensures Settings(UndoFrom(sets, i))
    decreases UNDO_COUNT - i
  {
    hide Setting, UndoAt;
    if i < UNDO_COUNT {
      UndoIsQuiet(sets, i + 1);
      UndoEntryIsQuiet(i);
    }
  }

  lemma UndoEntryIsQuiet(i: nat)
    requires i < UNDO_COUNT
    ensures Settings(UndoAt(i).cmds)
  {
    hide Setting;
    Spelled5('C', 'E', 'A');
    Spelled7('F', 'C', 'S', 'M', '0');
    Spelled6('C', 'F', 'C', '1');
    Spelled5('A', 'T', '1');
    Spelled6('C', 'A', 'F', '1');
    Spelled6('C', 'P', '1', '8');
    Spelled4('E', '0');
    Spelled4('L', '0');
    Spelled4('R', '1');
    Spelled4('V', '0');
    Spelled4('D', '0');
  }

  lemma PreludeIsQuiet(p: char)
    requires ProtoDigit(p)
    ensures Quiet(Prelude(p))
  {
    HeadIsQuiet(p);
    TailIsQuiet(p);
    PinCommand(p);
  }

  /** The protocol a quiet chain leaves the chip on. */
  function ProtoAfter(q: char, es: seq<string>): char
    decreases es
  {
    if es == [] then q
    else ProtoAfter(if CmdProto(es[0]) != NUL then CmdProto(es[0]) else q, es[1..])
  }

  lemma {:induction false} ExecProto(c: Chip, power: Chip, es: seq<string>)
    requires Quiet(es)
    ensures ExecAll(c, power, es).proto == ProtoAfter(c.proto, es)
    decreases es
  {
    if es != [] {
      PlainIsQuiet(es[0]);
      ExecProto(Exec(c, power, es[0]), power, es[1..]);
    }
  }

  lemma {:induction false} ProtoAfterAppend(q: char, a: seq<string>, b: seq<string>)
    ensures ProtoAfter(q, a + b) == ProtoAfter(ProtoAfter(q, a), b)
    decreases a
  {
    if a == [] {
      assert a + b == b;
    } else {
      assert (a + b)[1..] == a[1..] + b;
      ProtoAfterAppend(if CmdProto(a[0]) != NUL then CmdProto(a[0]) else q, a[1..], b);
    }
  }

  lemma {:induction false} ProtoKept(q: char, es: seq<string>)
    requires forall i :: 0 <= i < |es| ==> CmdProto(es[i]) == NUL
    ensures ProtoAfter(q, es) == q
    decreases es
  {
    if es != [] {
      ProtoKept(q, es[1..]);
    }
  }

  lemma PreludePins(q: char, p: char)
    requires ProtoDigit(p)
    ensures ProtoAfter(q, Prelude(p)) == p
  {
    HeadIsQuiet(p);
    TailIsQuiet(p);
    PinCommand(p);
    var pin := "ATTP" + [p];
    ProtoKept(q, PreludeHead(p));
    ProtoAfterAppend(q, PreludeHead(p), [pin] + PreludeTail(p));
    assert ([pin] + PreludeTail(p))[1..] == PreludeTail(p);
    ProtoKept(p, PreludeTail(p));
  }

  lemma SendPreludeEffect(w: World, p: char, bus: Bus)
    requires ProtoDigit(p)
    ensures var v := SendPrelude(w, p);
      && Moved(w, v) && v.chip.proto == p && SafeSince(bus, v.log, |w.log|)
      && v.mem == PreludeOut(w).mem
  {
    PreludeIsQuiet(p);
    SendQuiet(w, Prelude(p), bus);
    ExecProto(w.chip, w.power, Prelude(p));
    PreludePins(w.chip.proto, p);
  }

  // ---- chains of the tables ---------------------------------------------------------------

  /** This pass's verdict stands for the protocol in effect. */
  predicate Granted(w: World) {
    w.guard.okProto == Effective(w.car) && Allowed(w.guard.bus, Effective(w.car))
  }

  predicate ProtosAllowed(bus: Bus, es: seq<string>) {
    forall i :: 0 <= i < |es| ==> CmdProto(es[i]) == NUL || Allowed(bus, CmdProto(es[i]))
  }

  predicate Opens(cmd: string) {
    CmdProto(cmd) != NUL || Resets(cmd)
  }

  /** The protocol behind one element of a chain, from q, with p in effect behind a
      reset. */
  function NextProto(q: char, cmd: string, p: char): char {
    if Resets(cmd) then p
    else if CmdProto(cmd) != NUL then CmdProto(cmd)
    else if VendorSwitch(cmd) then VENDOR
    else q
  }

  /** The protocol a chain of the tables leaves the chip on. */
  function EndsOn(q: char, es: seq<string>, p: char): char
    decreases es
  {
    if es == [] then q else EndsOn(NextProto(q, es[0], p), es[1..], p)
  }

  /** Something of the chain is transmitted on a protocol that is not cleared. */
  predicate Exposed(bus: Bus, q: char, es: seq<string>, p: char)
    decreases es
  {
    es != [] && ((Transmits(es[0]) && !Cleared(bus, q)) || Exposed(bus, NextProto(q, es[0], p), es[1..], p))
  }

  /** A transmission before the chain's first protocol or reset. */
  predicate Early(es: seq<string>)
    decreases es
  {
    es != [] && (Transmits(es[0]) || (!Opens(es[0]) && Early(es[1..])))
  }

  /** The chain ends on a protocol of the vendor's: none of its protocols or resets
      comes behind the switch. */
  predicate Unseen(es: seq<string>) {
    es != [] && !Opens(Last(es)) && (VendorSwitch(Last(es)) || Unseen(Init(es)))
  }

  lemma OpensIsLocal(cmd: string)
    requires Opens(cmd) || VendorSwitch(cmd) || IsPrint(cmd) || cmd == ""
    ensures !Transmits(cmd)
    ensures IsPrint(cmd) || cmd == "" ==> !Opens(cmd) && !VendorSwitch(cmd)
    ensures Resets(cmd) ==> CmdProto(cmd) == NUL
  {
    assert Norm("") == "";
    var c := Norm(cmd);
    if c != "" {
      assert c[..2] == [c[0], c[1]];
    }
  }

  /** One element of a granted pass is never cut. */
  lemma ElementEffect(w: World, cmd: string)
    requires Granted(w)
    ensures var (v, go) := SendElement(w, cmd);
      && go && Moved(w, v)
      && v.mem.chainCut == w.mem.chainCut && v.mem.baselineSent == w.mem.baselineSent
      && v.mem.chipGen == w.mem.chipGen && v.mem.lastType == w.mem.lastType && v.mem.lastPid == w.mem.lastPid
      && v.chip.proto == NextProto(w.chip.proto, cmd, Effective(w.car))
      && (SafeSince(w.guard.bus, v.log, |w.log|) <==> (Transmits(cmd) ==> Cleared(w.guard.bus, w.chip.proto)))
  {
    hide Effective, Allowed, VendorSwitch;
    var p := Effective(w.car);
    EffectiveIsProto(w.car);
    if cmd == "" || IsPrint(cmd) {
      OpensIsLocal(cmd);
    } else {
      var w1 := Send(w, cmd);
      assert w1.log[|w.log|] == Sent(cmd, w.chip.proto);
      if Resets(cmd) {
        OpensIsLocal(cmd);
        SendPreludeEffect(w1, p, w.guard.bus);
      }
    }
  }

  lemma SafeJoin(bus: Bus, a: seq<Sent>, b: seq<Sent>, n: nat)
    requires n <= |a| && a <= b
    ensures SafeSince(bus, b, n) <==> SafeSince(bus, a, n) && SafeSince(bus, b, |a|)
  {
    if SafeSince(bus, b, n) {
      forall i | n <= i < |a|
        ensures SafeSent(bus, a[i])
      {
        assert a[i] == b[i];
      }
    }
    if SafeSince(bus, a, n) && SafeSince(bus, b, |a|) {
      forall i | n <= i < |b|
        ensures SafeSent(bus, b[i])
      {
        if i < |a| {
          assert a[i] == b[i];
        }
      }
    }
  }

  /** A chain in a granted pass goes out whole, and everything it transmits is on a
      cleared protocol exactly when nothing of it is exposed. */
  lemma {:induction false} ChainEffect(w: World, es: seq<string>)
    requires Granted(w)
    ensures Effect(w, SendElements(w, es), es)
    ensures var v := SendElements(w, es); v.mem.lastType == w.mem.lastType && v.mem.lastPid == w.mem.lastPid
    decreases es
  {
    hide SendElement, Effective, Allowed, Transmits, NextProto, Cleared;
    if es == [] {
      NoneSafe(w);
    } else {
      var bus := w.guard.bus;
      ElementEffect(w, es[0]);
      var w1 := SendElement(w, es[0]).0;
      ChainEffect(w1, es[1..]);
      SafeJoin(bus, w1.log, SendElements(w1, es[1..]).log, |w.log|);
    }
  }

  lemma NoneSafe(w: World)
    ensures SafeSince(w.guard.bus, w.log, |w.log|)
  {
  }

  /** What sending the due elements of a pass leaves behind. */
  ghost predicate Effect(w: World, v: World, es: seq<string>) {
    && Moved(w, v) && v.mem.chainCut == w.mem.chainCut
    && v.mem.baselineSent == w.mem.baselineSent && v.mem.chipGen == w.mem.chipGen
    && v.chip.proto == EndsOn(w.chip.proto, es, Effective(w.car))
    && (SafeSince(w.guard.bus, v.log, |w.log|) <==> !Exposed(w.guard.bus, w.chip.proto, es, Effective(w.car)))
  }

  /** A chain without a vendor's switch that the guard lets through is exposed exactly
      when it transmits before it sets a protocol, on one that is not cleared. */
  lemma {:induction false} ExposedIsEarly(bus: Bus, q: char, es: seq<string>, p: char)
    requires ProtosAllowed(bus, es) && Cleared(bus, p) && forall i :: 0 <= i < |es| ==> !VendorSwitch(es[i])
    ensures Exposed(bus, q, es, p) <==> !Cleared(bus, q) && Early(es)
    decreases es
  {
    hide Transmits, VendorSwitch, Allowed;
    if es != [] {
      ExposedIsEarly(bus, NextProto(q, es[0], p), es[1..], p);
      if Opens(es[0]) {
        OpensIsLocal(es[0]);
        ProtoIsDigit(es[0]);
      }
    }
  }

  lemma ProtoIsDigit(cmd: string)
    ensures CmdProto(cmd) == NUL || (ProtoDigit(CmdProto(cmd)) && CmdProto(cmd) != VENDOR)
  {
  }

  lemma {:induction false} EndsOnSnoc(q: char, es: seq<string>, cmd: string, p: char)
    ensures EndsOn(q, es + [cmd], p) == NextProto(EndsOn(q, es, p), cmd, p)
    decreases es
  {
    hide NextProto;
    if es == [] {
      assert [] + [cmd] == [cmd] && [cmd][1..] == [];
    } else {
      assert (es + [cmd])[1..] == es[1..] + [cmd];
      EndsOnSnoc(NextProto(q, es[0], p), es[1..], cmd, p);
    }
  }

  /** The protocol the guard reads a chain to leave behind is where the chip ends, or
      the chip is where it was, or on the protocol in effect; unless the chain ends on
      a vendor's switch. */
  lemma {:induction false} LastMeansEnd(bus: Bus, q: char, es: seq<string>, p: char)
    ensures var last := ReadChain(bus, es).last;
      if Unseen(es) then EndsOn(q, es, p) == VENDOR
      else if last != NUL then EndsOn(q, es, p) == last
      else EndsOn(q, es, p) == q || EndsOn(q, es, p) == p
  {
    hide VendorSwitch, Allowed;
    if es != [] {
      LastMeansEnd(bus, q, Init(es), p);
      EndsOnSnoc(q, Init(es), Last(es), p);
      assert es == Init(es) + [Last(es)];
      if Opens(Last(es)) {
        OpensIsLocal(Last(es));
      }
    }
  }

  // ---- before the row's own chains --------------------------------------------------------

  /** What holds between the events of any run. */
  ghost predicate Inv(w: World) {
    && !w.mem.chainCut && w.mem.chipGen <= w.gen && w.mem.initPin != VENDOR
    && (w.guard.final && w.guard.finalOk ==> Allowed(w.guard.bus, w.guard.ruledProto))
    && (w.guard.okProto != NUL ==> Allowed(w.guard.bus, w.guard.okProto))
  }

  /** The runner may rely on the baseline it sent. */
  predicate Known(w: World) {
    w.mem.baselineSent && w.mem.chipGen == w.gen
  }

  /** The chip is on the protocol in effect or on the one the runner notes. */
  predicate OnPin(w: World) {
    w.chip.proto == Effective(w.car) || (w.mem.initPin != NUL && w.chip.proto == w.mem.initPin)
  }

  lemma RestoreEffect(w: World, bus: Bus)
    ensures var (v, ok) := Restore(w);
      if !ok then v == w
      else
        && Moved(w, v) && v.chip.proto == Effective(w.car) && SafeSince(bus, v.log, |w.log|)
        && v.mem == PreludeOut(w).mem
  {
    hide Prelude, UndoFrom, Exec, Plain, Effective;
    var p := Effective(w.car);
    EffectiveIsProto(w.car);
    var es, undo := RestoreElements(w.mem.moved, Prelude(p)), UndoFrom(w.mem.moved, 0);
    PreludeIsQuiet(p);
    UndoIsQuiet(w.mem.moved, 0);
    SendQuiet(w, es, bus);
    ExecProto(w.chip, w.power, es);
    ProtoAfterAppend(w.chip.proto, Prelude(p), undo);
    PreludePins(w.chip.proto, p);
    ProtoKept(p, undo);
  }

  lemma EnsureEffect(w: World)
    requires Inv(w) && Granted(w)
    ensures var (v, ok) := Ensure(w);
      && ok && Moved(w, v) && SafeSince(w.guard.bus, v.log, |w.log|)
      && Known(v) && ((Known(w) ==> OnPin(w)) ==> OnPin(v)) && !v.mem.chainCut && v.mem.initPin != VENDOR
      && v.mem.lastType == w.mem.lastType && v.mem.lastPid == w.mem.lastPid
  {
    EffectiveIsProto(w.car);
    SendPreludeEffect(w, Effective(w.car), w.guard.bus);
  }

  lemma GiveBackEffect(w: World, bus: Bus)
    requires Known(w) && w.mem.initPin != VENDOR
    ensures var v := HeaderGiveBack(w);
      && Moved(w, v) && SafeSince(bus, v.log, |w.log|) && Known(v) && (OnPin(w) ==> OnPin(v))
      && v.mem.chainCut == w.mem.chainCut && v.mem.initPin != VENDOR
      && v.mem.lastType == w.mem.lastType && v.mem.lastPid == w.mem.lastPid
  {
    var p := Effective(w.car);
    EffectiveIsProto(w.car);
    if FuncHeader(p).Some? {
      HeaderIsQuiet(p);
      SendSetting(w, FuncHeader(p).value, bus);
    } else if PinOk(w, p) {
      SendPreludeEffect(w, p, bus);
    }
  }

  lemma SendSetting(w: World, cmd: string, bus: Bus)
    requires Setting(cmd)
    ensures var v := Send(w, cmd);
      Moved(w, v) && v.mem == w.mem && SafeSince(bus, v.log, |w.log|) && v.chip.proto == w.chip.proto
  {
    PlainIsQuiet(cmd);
  }

  lemma PrepareEffect(w: World, row: Row, index: nat)
    requires Granted(w) && Known(w) && !w.mem.chainCut && w.mem.initPin != VENDOR
    ensures var (v, ok) := Prepare(w, row, index);
      && ok && Moved(w, v) && SafeSince(w.guard.bus, v.log, |w.log|) && Known(v) && (OnPin(w) ==> OnPin(v))
      && !v.mem.chainCut && v.mem.initPin != VENDOR
      && v.mem.lastType == w.mem.lastType && v.mem.lastPid == w.mem.lastPid
  {
    RestoreEffect(w, w.guard.bus);
    GiveBackEffect(w, w.guard.bus);
  }

  // ---- the row's own chains, filter and request ---------------------------------------------

  lemma {:induction false} EndsConcat(q: char, a: seq<string>, b: seq<string>, p: char)
    ensures EndsOn(q, a + b, p) == EndsOn(EndsOn(q, a, p), b, p)
    decreases a
  {
    hide NextProto;
    if a == [] {
      assert a + b == b;
    } else {
      assert (a + b)[1..] == a[1..] + b;
      EndsConcat(NextProto(q, a[0], p), a[1..], b, p);
    }
  }

  lemma {:induction false} ExposedConcat(bus: Bus, q: char, a: seq<string>, b: seq<string>, p: char)
    ensures Exposed(bus, q, a + b, p) <==> Exposed(bus, q, a, p) || Exposed(bus, EndsOn(q, a, p), b, p)
    decreases a
  {
    hide NextProto, Transmits, Cleared;
    if a == [] {
      assert a + b == b;
    } else {
      assert (a + b)[1..] == a[1..] + b;
      ExposedConcat(bus, NextProto(q, a[0], p), a[1..], b, p);
    }
  }

  lemma OkMeansAllowed(bus: Bus, es: seq<string>)
    requires ReadChain(bus, es).ok
    ensures ProtosAllowed(bus, es)
  {
    ReadingMeans(bus, es);
    forall i | 0 <= i < |es|
      ensures CmdProto(es[i]) == NUL || Allowed(bus, CmdProto(es[i]))
    {
      assert es[i] in es;
    }
  }

  lemma NothingSent(w: World)
    ensures Effect(w, w, Split(""))
  {
    OpensIsLocal("");
    assert [""][1..] == [];
  }

  lemma InitEffect(w: World, chain: string)
    requires Granted(w)
    ensures Effect(w, if chain != "" then SendInit(w, chain) else w, Split(chain))
    ensures var v := if chain != "" then SendInit(w, chain) else w;
      v.mem.lastType == w.mem.lastType && v.mem.lastPid == w.mem.lastPid
  {
    if chain == "" {
      NothingSent(w);
    } else {
      ChainEffect(w, Split(chain));
    }
  }

  lemma TypeEffect(w: World, row: Row)
    requires Granted(w)
    ensures Effect(w, SetUpType(w, row), Split(DueTypeInit(w, row)))
    ensures SetUpType(w, row).mem.lastPid == if TypeDue(w, row) then -1 else w.mem.lastPid
  {
    hide SendInit, Split, EndsOn, Exposed, Effective, Allowed;
    if TypeDue(w, row) {
      InitEffect(w, TypeInitOf(w, row));
    } else {
      NothingSent(w);
    }
  }

  lemma {:induction false} NormConcat(a: string, b: string)
    ensures Norm(a + b) == Norm(a) + Norm(b)
  {
    if b == "" {
      assert a + b == a;
    } else {
      SnocParts(a, b);
      NormConcat(a, Init(b));
      NormSnoc(a + Init(b), Last(b));
    }
  }

  lemma FilterName()
    ensures Norm("ATCRA") == "ATCRA" && "ATCRA" == "AT" + "CRA"
  {
    var s := "ATCRA";
    assert s[0] == 'A' && s[1] == 'T' && s[2] == 'C' && s[3] == 'R' && s[4] == 'A' && |s| == 5;
    PlainNorm(s);
  }

  lemma FilterCommand(rx: string)
    ensures var cmd := "ATCRA" + rx; !Transmits(cmd) && CmdProto(cmd) == NUL && !Resets(cmd) && !VendorSwitch(cmd)
  {
    hide Norm;
    FilterName();
    NormConcat("ATCRA", rx);
    var c := Norm("ATCRA" + rx);
    assert c[..2] == "AT" && c[0] == 'A' && c[3] == 'R' && |c| >= 5;
  }

  lemma FilterEffect(w: World, row: Row)
    ensures var v := SetUpFilter(w, row);
      && Moved(w, v) && SafeSince(w.guard.bus, v.log, |w.log|) && v.chip.proto == w.chip.proto
      && v.mem.chainCut == w.mem.chainCut && v.mem.baselineSent == w.mem.baselineSent
      && v.mem.chipGen == w.mem.chipGen
  {
    FilterCommand(row.rxheader);
    FilterCommand("");
    assert "ATCRA" + "" == "ATCRA";
  }

  lemma RowEffect(w: World, row: Row, index: nat, due: string)
    requires Granted(w) && due == if index == w.mem.lastPid then "" else row.init
    ensures Effect(w, SetUpRow(w, row, index), Split(due))
  {
    hide SendInit, Split, EndsOn, Exposed, Effective, Allowed, SetUpFilter, Borrows;
    if index == w.mem.lastPid {
      NothingSent(w);
    } else {
      InitEffect(w, row.init);
      var w1 := if row.init != "" then SendInit(w, row.init) else w;
      var w2 := if Borrows(row) then w1.(mem := w1.mem.(hdrBorrowed := true)) else w1;
      FilterEffect(w2, row);
      SafeJoin(w.guard.bus, w1.log, SetUpFilter(w2, row).log, |w.log|);
    }
  }

  /** The elements of the chains that are due, in sending order. */
  function Due(w: World, row: Row, index: nat): seq<string> {
    Split(DueTypeInit(w, row)) + Split(DueInit(w, row, index))
  }

  lemma EffectConcat(w: World, v: World, u: World, a: seq<string>, b: seq<string>)
    requires Effect(w, v, a) && Effect(v, u, b)
    ensures Effect(w, u, a + b)
  {
    hide EndsOn, Exposed, Effective, SafeSince;
    SafeJoin(w.guard.bus, v.log, u.log, |w.log|);
    ExposedConcat(w.guard.bus, w.chip.proto, a, b, Effective(w.car));
    EndsConcat(w.chip.proto, a, b, Effective(w.car));
  }

  /** The due chains of a row. */
  lemma SetUpEffect(w: World, row: Row, index: nat)
    requires Granted(w)
    ensures Effect(w, SetUpRow(SetUpType(w, row), row, index), Due(w, row, index))
  {
    hide SetUpType, SetUpRow, Split, EndsOn, Exposed, Effective, Allowed, SafeSince;
    var t, i := DueTypeInit(w, row), DueInit(w, row, index);
    TypeEffect(w, row);
    var v := SetUpType(w, row);
    RowEffect(v, row, index, i);
    EffectConcat(w, v, SetUpRow(v, row, index), Split(t), Split(i));
  }

  /** A permitted row in a granted pass: its request goes out, as one command, and all
      it transmits is on cleared protocols exactly when nothing of it is exposed. */
  lemma PerformEffect(w: World, row: Row, index: nat)
    requires Granted(w) && Known(w) && !w.mem.chainCut && RowPins(w, row, index).1
    ensures var (v, requested) := Perform(w, row, index, RowPins(w, row, index).2);
      var q := EndsOn(w.chip.proto, Due(w, row, index), Effective(w.car));
      && requested && Moved(w, v) && !v.mem.chainCut && v.mem.chipGen == w.mem.chipGen
      && v.mem.initPin == RowPins(w, row, index).2
      && (Known(v) ==> !Resets(row.cmd))
      && v.chip.proto == (if Resets(row.cmd) then w.power.proto else NextProto(q, row.cmd, q))
      && |v.log| > |w.log| && Last(v.log) == Sent(row.cmd, q)
      && (SafeSince(w.guard.bus, v.log, |w.log|) <==>
            !Exposed(w.guard.bus, w.chip.proto, Due(w, row, index) + [row.cmd], Effective(w.car)))
  {
    hide SetUpType, SetUpRow, RowPins, Due, Effective, Allowed, Transmits, VendorSwitch;
    var bus, p, due := w.guard.bus, Effective(w.car), Due(w, row, index);
    SetUpEffect(w, row, index);
    var pin := RowPins(w, row, index).2;
    var u := SetUpRow(SetUpType(w, row), row, index);
    var v := Request(u, row, pin);
    assert v.log == u.log + [Sent(row.cmd, u.chip.proto)];
    SafeJoin(bus, u.log, v.log, |w.log|);
    ExposedConcat(bus, w.chip.proto, due, [row.cmd], p);
    OneExposed(bus, u.chip.proto, row.cmd, p);
    OneSafe(bus, u.log, Sent(row.cmd, u.chip.proto));
  }

  lemma OneExposed(bus: Bus, q: char, cmd: string, p: char)
    ensures Exposed(bus, q, [cmd], p) <==> Transmits(cmd) && !Cleared(bus, q)
  {
    assert [cmd][1..] == [];
  }

  lemma OneSafe(bus: Bus, log: seq<Sent>, s: Sent)
    ensures SafeSince(bus, log + [s], |log|) <==> SafeSent(bus, s)
  {
    assert (log + [s])[|log|] == s;
  }

  // ---- the request's own protocol --------------------------------------------------------------

  /** The guard reads the request, as a chain, to set what the chip, reading it as one
      command, is set to by it. So does every text without a separator. */
  predicate ReadAlike(cmd: string) {
    LastOf(Split(cmd)) == CmdProto(cmd)
  }

  /** A request whose protocol the guard sees. */
  predicate SoundRequest(cmd: string) {
    ReadAlike(cmd) && !VendorSwitch(cmd)
  }

  /** A chain whose last protocol the guard sees. */
  predicate SoundChain(chain: string) {
    !Unseen(Split(chain))
  }

  lemma NormKeeps(s: string, c: char)
    requires !IsBlank(c) && Upper(c) == c && c in s
    ensures c in Norm(s)
  {
    if s != "" {
      assert s == Init(s) + [Last(s)];
      if Last(s) != c {
        NormKeeps(Init(s), c);
      }
    }
  }

  /** A text with a separator is no protocol command and no reset of the chip's. */
  lemma SeparatedOpensNothing(cmd: string)
    requires ';' in cmd
    ensures !Opens(cmd)
  {
    NormKeeps(cmd, ';');
    var c := Norm(cmd);
    var i :| 0 <= i < |c| && c[i] == ';';
  }

  lemma SingleReading(bus: Bus, cmd: string)
    requires ';' !in cmd
    ensures Split(cmd) == [cmd] && LastOf(Split(cmd)) == CmdProto(cmd)
    ensures ReadChain(bus, Split(cmd)).ok <==> CmdProto(cmd) == NUL || Allowed(bus, CmdProto(cmd))
  {
    hide CmdProto, Resets, Allowed;
    SplitAt(cmd, |cmd|);
    assert Init([cmd]) == [] && Last([cmd]) == cmd;
    assert ReadChain(bus, [cmd]) == ReadOne(bus, ReadChain(bus, []), cmd);
    assert ReadChain(Unknown, [cmd]) == ReadOne(Unknown, ReadChain(Unknown, []), cmd);
  }

  /** What the guard makes of a request: the protocol it is, if it is one, is judged. */
  lemma RequestJudged(bus: Bus, cmd: string)
    requires ReadChain(bus, Split(cmd)).ok
    ensures CmdProto(cmd) == NUL || Allowed(bus, CmdProto(cmd))
    ensures ';' !in cmd ==> ReadAlike(cmd)
  {
    if ';' in cmd {
      SeparatedOpensNothing(cmd);
    } else {
      SingleReading(bus, cmd);
    }
  }

  /** Where the chip stands when a sound request of a permitted row with sound chains
      goes out. */
  lemma ProtocolAtRequest(w: World, row: Row, index: nat)
    requires Granted(w) && OnPin(w) && RowPins(w, row, index).1 && ReadAlike(row.cmd)
    requires SoundChain(DueTypeInit(w, row)) && SoundChain(DueInit(w, row, index))
    ensures var q, pin := EndsOn(w.chip.proto, Due(w, row, index), Effective(w.car)), RowPins(w, row, index).2;
      && (pin == NUL || Allowed(w.guard.bus, pin))
      && (CmdProto(row.cmd) == NUL ==> q == Effective(w.car) || (pin != NUL && q == pin))
      && (CmdProto(row.cmd) != NUL ==> pin == CmdProto(row.cmd))
  {
    hide Effective, Allowed, Unseen, Split, EndsOn;
    var bus, p := w.guard.bus, Effective(w.car);
    var t, i := Split(DueTypeInit(w, row)), Split(DueInit(w, row, index));
    LastIsBusFree(bus, Split(row.cmd));
    ReadingMeans(bus, Split(row.cmd));
    ReadingMeans(bus, t);
    ReadingMeans(bus, i);
    EndsConcat(w.chip.proto, t, i, p);
    LastMeansEnd(bus, w.chip.proto, t, p);
    LastMeansEnd(bus, EndsOn(w.chip.proto, t, p), i, p);
  }

  /** What the runner notes is a protocol the chains can set. */
  lemma PinIsDigit(w: World, row: Row, index: nat)
    requires w.mem.initPin != VENDOR
    ensures RowPins(w, row, index).2 != VENDOR && RowPins(w, row, index).0.mem.initPin == w.mem.initPin
  {
    hide ReadChain, Allowed, Split;
    LastIsBusFree(w.guard.bus, Split(DueTypeInit(w, row)));
    LastIsBusFree(w.guard.bus, Split(DueInit(w, row, index)));
    LastIsBusFree(w.guard.bus, Split(row.cmd));
  }
}
