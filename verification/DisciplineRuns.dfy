/** The safety of whole runs: any sequence of poll passes, answers, car switches,
    surrendered protocols and resets by other holders of the chip. */
module DisciplineRuns {
  import opened Seqs
  import opened ChainText
  import opened BusGuard
  import opened Chip
  import opened Discipline
  import opened DisciplineSafety

  /** A pass asks the guard and, when it says yes, runs one row. */
  datatype Event =
    | Pass(look: Bus, looks: seq<Bus>, row: Row, index: nat, answered: bool)
    | NewCar(stored: char, typeInits: seq<string>)
    | Silence
    | OtherReset

  /** The state in which the row of a pass starts, and whether it may. */
  function Asked(w: World, e: Event): (World, bool)
    requires e.Pass?
  {
    PollOk(w, e.look, e.looks)
  }

  function Next(w: World, e: Event): World {
    match e
    case Pass(look, looks, row, index, answered) =>
      var (w1, ok) := Asked(w, e);
      if !ok then w1
      else
        var (w2, requested) := RunRow(w1, row, index);
        if requested && answered then Proven(w2) else w2
    case NewCar(stored, inits) => Activate(w, stored, inits)
    case Silence => GiveUp(w)
    case OtherReset => ChipReset(w)
  }

  function RunAll(w: World, es: seq<Event>): World {
    if es == [] then w else Next(RunAll(w, Init(es)), Last(es))
  }

  /** The guard initialised, nothing sent yet, the chip as it powered up. */
  predicate Boot(w: World) {
    && w.guard == Guard(Unknown, false, false, NUL, NUL, false, false)
    && w.mem == Mem(false, 0, false, false, NUL, {}, false, -1, -1)
    && w.log == [] && w.chip == w.power
  }

  /** Nothing but sound chains among the car's type inits. */
  predicate SoundInits(inits: seq<string>) {
    forall i :: 0 <= i < |inits| ==> SoundChain(inits[i])
  }

  predicate SoundRow(row: Row) {
    SoundChain(row.init) && SoundRequest(row.cmd)
  }

  predicate SoundEvent(e: Event) {
    (e.Pass? ==> SoundRow(e.row)) && (e.NewCar? ==> SoundInits(e.typeInits))
  }

  /** As long as all texts are sound the runner knows where the chip is. */
  ghost predicate OnTrack(w: World) {
    SoundInits(w.car.typeInits) && (Known(w) ==> OnPin(w))
  }

  /** A verdict that lets the poller talk covers the protocol in effect. */
  lemma PollGrants(w: World, look: Bus, looks: seq<Bus>)
    requires Inv(w)
    ensures var (v, ok) := PollOk(w, look, looks);
      && Inv(v) && (ok ==> Granted(v)) && (OnTrack(w) ==> OnTrack(v))
      && v.log == w.log && v.chip == w.chip && v.power == w.power
  {
    EffectiveIsProto(w.car);
    var g := w.guard;
    if !(g.final && Effective(w.car) == g.ruledProto) {
      var start := w.(guard := g.(final := false, bus := look));
      DecideGrants(start, looks);
      EffectiveIsProto(DecideNow(start, looks).0.car);
    }
  }

  lemma DecideGrants(w: World, looks: seq<Bus>)
    ensures var (v, verdict) := DecideNow(w, looks);
      && v.log == w.log && v.chip == w.chip && v.gen == w.gen && v.power == w.power
      && v.car.typeInits == w.car.typeInits
      && v.mem == w.mem.(baselineSent := v.mem.baselineSent)
      && (v.mem.baselineSent ==> w.mem.baselineSent && v.car == w.car)
      && (verdict != Park ==> Allowed(v.guard.bus, Effective(v.car)))
  {
    EffectiveIsProto(w.car);
    var bus := SettleOwnEcho(w.guard.bus, w.guard.chipSent, looks);
    SearchIsRefusal(bus, Effective(w.car));
  }

  // ---- one row, exactly -----------------------------------------------------------------

  /** The state before the row's own chains: the baseline sent, or put back. */
  function Ready(w: World, row: Row, index: nat): World {
    Prepare(Ensure(w).0, row, index).0
  }

  /** The request that went out is on a cleared protocol and leaves the chip on one,
      unless it resets the chip and so sends nothing on the bus. */
  ghost predicate RequestSafe(v: World, row: Row) {
    && (Resets(row.cmd) || Cleared(v.guard.bus, v.chip.proto))
    && v.log != [] && Last(v.log).cmd == row.cmd && SafeSent(v.guard.bus, Last(v.log))
  }

  /** The protocol behind the due chains is cleared, or the request sets a protocol
      or resets the chip; and it is no vendor's switch. */
  ghost predicate RequestGuarded(w: World, row: Row, index: nat) {
    var ready := Ready(w, row, index);
    Opens(row.cmd)
    || (!VendorSwitch(row.cmd)
        && Cleared(w.guard.bus, EndsOn(ready.chip.proto, Due(ready, row, index), Effective(w.car))))
  }

  /** The due chains or the request transmit something on a protocol not cleared. */
  ghost predicate RowExposed(w: World, row: Row, index: nat) {
    var ready := Ready(w, row, index);
    Exposed(w.guard.bus, ready.chip.proto, Due(ready, row, index) + [row.cmd], Effective(w.car))
  }

  /** One granted row: when its request is safe, and when everything it transmits. */
  ghost predicate RowExact(w: World, row: Row, index: nat) {
    var (v, requested) := RunRow(w, row, index);
    && v.guard == w.guard
    && (requested ==> (RequestSafe(v, row) <==> RequestGuarded(w, row, index)))
    && (SafeSince(v.guard.bus, v.log, |w.log|) <==> !(requested && RowExposed(w, row, index)))
  }

  lemma RowIsExact(w: World, row: Row, index: nat)
    requires Inv(w) && Granted(w)
    ensures RowExact(w, row, index) && Inv(RunRow(w, row, index).0)
  {
    hide Effective, Allowed, Ensure, Prepare, RowPins, Perform, SafeSince, Due, Exposed;
    EnsureEffect(w);
    var w1 := Ensure(w).0;
    PrepareEffect(w1, row, index);
    var w2 := Prepare(w1, row, index).0;
    SafeJoin(w.guard.bus, w1.log, w2.log, |w.log|);
    PermittedIsExact(w, w2, row, index);
  }

  /** The pin was refused: the chip and the log are as they were. */
  lemma RefusedChangesLittle(w: World, row: Row, index: nat)
    requires Inv(w)
    ensures var (v, ok, pin) := RowPins(w, row, index);
      if ok then v == w
      else
        && v.guard == w.guard && v.log == w.log && v.car == w.car && v.chip == w.chip && Inv(v)
        && (Known(v) ==> v.mem == w.mem && v.gen == w.gen)
  {
    hide ReadChain, Allowed;
  }

  lemma PermittedIsExact(w: World, w2: World, row: Row, index: nat)
    requires Moved(w, w2) && SafeSince(w.guard.bus, w2.log, |w.log|)
    requires Inv(w2) && Granted(w2) && Known(w2)
    ensures var (w3, ok, pin) := RowPins(w2, row, index);
      var (v, requested) := if ok then Perform(w3, row, index, pin) else (w3, false);
      var due, p := Due(w2, row, index), Effective(w.car);
      var q := EndsOn(w2.chip.proto, due, p);
      && Inv(v) && v.guard == w.guard
      && (requested ==> (RequestSafe(v, row) <==>
            Opens(row.cmd) || (!VendorSwitch(row.cmd) && Cleared(w.guard.bus, q))))
      && (SafeSince(w.guard.bus, v.log, |w.log|) <==>
            !(requested && Exposed(w.guard.bus, w2.chip.proto, due + [row.cmd], p)))
  {
    hide Effective, Allowed, RowPins, Perform, Due, Exposed, EndsOn, VendorSwitch, Transmits, SafeSince;
    RefusedChangesLittle(w2, row, index);
    if RowPins(w2, row, index).1 {
      var pin := RowPins(w2, row, index).2;
      PinIsDigit(w2, row, index);
      PerformEffect(w2, row, index);
      SafeJoin(w.guard.bus, w2.log, Perform(w2, row, index, pin).0.log, |w.log|);
      RowOkJudged(w2, row, index);
      RequestSafeIs(w2, Perform(w2, row, index, pin).0, row,
                    EndsOn(w2.chip.proto, Due(w2, row, index), Effective(w.car)));
    }
  }

  lemma RowOkJudged(w: World, row: Row, index: nat)
    requires RowPins(w, row, index).1
    ensures ReadChain(w.guard.bus, Split(row.cmd)).ok
    ensures ReadChain(w.guard.bus, Split(DueTypeInit(w, row))).ok
    ensures ReadChain(w.guard.bus, Split(DueInit(w, row, index))).ok
  {
    hide ReadChain, Allowed;
  }

  lemma RequestSafeIs(w: World, v: World, row: Row, q: char)
    requires ReadChain(w.guard.bus, Split(row.cmd)).ok && v.guard == w.guard && v.power == w.power
    requires v.chip.proto == if Resets(row.cmd) then w.power.proto else NextProto(q, row.cmd, q)
    requires v.log != [] && Last(v.log) == Sent(row.cmd, q)
    ensures RequestSafe(v, row) <==>
      Opens(row.cmd) || (!VendorSwitch(row.cmd) && Cleared(w.guard.bus, q))
  {
    hide Allowed, VendorSwitch, CmdProto, Resets, Split, ReadChain, Transmits;
    RequestJudged(w.guard.bus, row.cmd);
    ProtoIsDigit(row.cmd);
    if Opens(row.cmd) || VendorSwitch(row.cmd) {
      OpensIsLocal(row.cmd);
    }
  }

  // ---- one row of sound texts --------------------------------------------------------------

  lemma SoundRowIsSafe(w: World, row: Row, index: nat)
    requires Inv(w) && Granted(w) && OnTrack(w) && SoundRow(row)
    ensures var (v, requested) := RunRow(w, row, index);
      OnTrack(v) && (requested ==> RequestSafe(v, row))
  {
    hide Effective, Allowed, Ensure, Prepare, RowPins, Perform, SafeSince, Due, Exposed, SoundChain, SoundRequest;
    RowIsExact(w, row, index);
    EnsureEffect(w);
    var w1 := Ensure(w).0;
    PrepareEffect(w1, row, index);
    var w2 := Prepare(w1, row, index).0;
    RefusedChangesLittle(w2, row, index);
    if RowPins(w2, row, index).1 {
      SoundPermitted(w2, row, index);
    }
  }

  lemma DueIsSound(w: World, row: Row, index: nat)
    requires SoundInits(w.car.typeInits) && SoundRow(row)
    ensures SoundChain(DueTypeInit(w, row)) && SoundChain(DueInit(w, row, index))
  {
    hide VendorSwitch, CmdProto, Resets;
    OpensIsLocal("");
    assert Split("") == [""];
    assert Last([""]) == "" && Init([""]) == [];
    assert SoundChain("");
  }

  lemma SoundPermitted(w: World, row: Row, index: nat)
    requires Inv(w) && Granted(w) && Known(w) && OnPin(w) && SoundInits(w.car.typeInits) && SoundRow(row)
    requires RowPins(w, row, index).1
    ensures var v := Perform(w, row, index, RowPins(w, row, index).2).0;
      OnTrack(v)
    ensures Opens(row.cmd)
      || (!VendorSwitch(row.cmd) && Cleared(w.guard.bus, EndsOn(w.chip.proto, Due(w, row, index), Effective(w.car))))
  {
    hide Effective, Allowed, RowPins, Perform, Due, Exposed;
    hide EndsOn, VendorSwitch, Transmits, SafeSince, CmdProto, Resets;
    EffectiveIsProto(w.car);
    DueIsSound(w, row, index);
    PerformEffect(w, row, index);
    ProtocolAtRequest(w, row, index);
    PinIsDigit(w, row, index);
  }

  // ---- whole runs -------------------------------------------------------------------------

  lemma BootIsSafe(w: World)
    requires Boot(w)
    ensures Inv(w) && (SoundInits(w.car.typeInits) ==> OnTrack(w))
  {
  }

  lemma GiveUpKeeps(w: World)
    requires Inv(w)
    ensures Inv(GiveUp(w)) && (OnTrack(w) ==> OnTrack(GiveUp(w)))
  {
    hide Allowed, SendPrelude;
    var w1 := w.(car := w.car.(fallback := true));
    EffectiveIsProto(w1.car);
    SendPreludeEffect(w1, Effective(w1.car), w1.guard.bus);
  }

  /** Every event keeps what the exact statement needs; sound texts keep more. */
  lemma StepKeeps(w: World, e: Event)
    requires Inv(w)
    ensures Inv(Next(w, e)) && (OnTrack(w) && SoundEvent(e) ==> OnTrack(Next(w, e)))
  {
    hide Effective, Allowed, PollOk, RunRow, GiveUp, SoundRow, RowExact, SoundChain;
    if e.Pass? {
      PollGrants(w, e.look, e.looks);
      var (w1, ok) := Asked(w, e);
      if ok {
        RowIsExact(w1, e.row, e.index);
        if OnTrack(w1) && SoundRow(e.row) {
          SoundRowIsSafe(w1, e.row, e.index);
        }
      }
    } else if e.Silence? {
      GiveUpKeeps(w);
    }
  }

  lemma {:induction false} RunKeeps(w: World, es: seq<Event>)
    requires Inv(w)
    ensures Inv(RunAll(w, es))
    ensures OnTrack(w) && (forall i :: 0 <= i < |es| ==> SoundEvent(es[i])) ==> OnTrack(RunAll(w, es))
  {
    hide Inv, OnTrack, Next, SoundEvent;
    if es != [] {
      RunKeeps(w, Init(es));
      StepKeeps(RunAll(w, Init(es)), Last(es));
    }
  }

  /** From boot, over any run whatever the tables hold: a pass that may talk has the
      permission for the protocol in effect; its request is safe exactly when the chip
      stands on a cleared protocol behind its chains, or it sets one itself; and
      everything it transmits is safe exactly when nothing of it is exposed. */
  lemma EveryRowIsExact(boot: World, es: seq<Event>, e: Event)
    requires Boot(boot) && e.Pass?
    ensures var (w, ok) := Asked(RunAll(boot, es), e);
      ok ==> Granted(w) && RowExact(w, e.row, e.index)
  {
    hide RowExact, Granted;
    BootIsSafe(boot);
    RunKeeps(boot, es);
    PollGrants(RunAll(boot, es), e.look, e.looks);
    if Asked(RunAll(boot, es), e).1 {
      RowIsExact(Asked(RunAll(boot, es), e).0, e.row, e.index);
    }
  }

  /** From boot, over any run whose texts are sound: every request a pass sends goes
      out on, and unless it is a reset leaves the chip on, the search, a protocol the
      guard does not judge, or one it allows on the bus as last looked at. */
  lemma EveryRequestIsAllowed(boot: World, es: seq<Event>, e: Event)
    requires Boot(boot) && SoundInits(boot.car.typeInits)
    requires (forall i :: 0 <= i < |es| ==> SoundEvent(es[i])) && e.Pass? && SoundEvent(e)
    ensures var (w, ok) := Asked(RunAll(boot, es), e);
      ok ==> var (v, requested) := RunRow(w, e.row, e.index); requested ==> RequestSafe(v, e.row)
  {
    hide RequestSafe, SoundInits, RunRow;
    BootIsSafe(boot);
    RunKeeps(boot, es);
    PollGrants(RunAll(boot, es), e.look, e.looks);
    if Asked(RunAll(boot, es), e).1 {
      SoundRowIsSafe(Asked(RunAll(boot, es), e).0, e.row, e.index);
    }
  }

  /** What else a sound row transmits: with no vendor's switch in its due chains it is
      exposed exactly when one of them transmits before it sets a protocol, on one that
      an earlier chain left and the guard allows no longer. */
  lemma OnlyEarlyIsExposed(w: World, row: Row, index: nat)
    requires Inv(w) && Granted(w) && OnTrack(w) && SoundRow(row) && RunRow(w, row, index).1
    requires forall cmd <- Due(Ready(w, row, index), row, index) :: !VendorSwitch(cmd)
    ensures var ready := Ready(w, row, index);
      RowExposed(w, row, index) <==> !Cleared(w.guard.bus, ready.chip.proto) && Early(Due(ready, row, index))
  {
    hide Effective, Allowed, Ensure, Prepare, RowPins, Perform, Exposed, EndsOn, VendorSwitch, Transmits, Early, Split;
    EffectiveIsProto(w.car);
    EnsureEffect(w);
    PrepareEffect(Ensure(w).0, row, index);
    var ready, p, bus := Ready(w, row, index), Effective(w.car), w.guard.bus;
    var due := Due(ready, row, index);
    RowOkJudged(ready, row, index);
    OkMeansAllowed(bus, Split(DueTypeInit(ready, row)));
    OkMeansAllowed(bus, Split(DueInit(ready, row, index)));
    ExposedConcat(bus, ready.chip.proto, due, [row.cmd], p);
    OneExposed(bus, EndsOn(ready.chip.proto, due, p), row.cmd, p);
    ExposedIsEarly(bus, ready.chip.proto, due, p);
    SoundPermitted(ready, row, index);
    if Opens(row.cmd) {
      OpensIsLocal(row.cmd);
    }
  }
}
