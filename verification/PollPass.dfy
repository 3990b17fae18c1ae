/** The poller's memory and the chip in its hands, updated step by step: the guard's
    verdict, the baseline, and one poll of one row. Each method is the transition
    of `Discipline` that its contract names. */
module PollPass {
  import opened Wrappers
  import opened Seqs
  import opened ChainText
  import opened BusGuard
  import opened Chip
  import opened Discipline
  import opened DisciplineSafety
  import opened RestoreChain

  lemma StandingChain(bus: Bus, pin: char)
    requires ProtoDigit(pin)
    ensures ReadChain(bus, Split("ATTP" + [pin])).ok <==> Allowed(bus, pin)
  {
    var s := "ATTP" + [pin];
    PinCommand(pin);
    SplitAt(s, |s|);
    SnocInit([], s);
    assert [] + [s] == [s];
    assert ReadChain(bus, [s]) == ReadOne(bus, ReadChain(bus, []), s);
  }

  lemma {:induction false} SplitOfQuiet(es: seq<string>)
    requires es != [] && DisciplineSafety.Quiet(es) && forall e <- es :: ';' !in e
    ensures Split(Join(es)) == es
  {
    SplitJoin(es);
  }

  lemma PreludeHasNoSeparator(p: char)
    requires ProtoDigit(p)
    ensures forall e <- Prelude(p) :: ';' !in e
  {
    assert forall e <- PreludeHead(p) :: ';' !in e;
    assert forall e <- PreludeTail(p) :: ';' !in e;
    assert ';' !in "ATTP" + [p];
  }

  lemma {:induction false} UndoHasNoSeparator(sets: set<Facet>, i: nat)
    requires i <= UNDO_COUNT
    ensures forall e <- UndoFrom(sets, i) :: ';' !in e
    decreases UNDO_COUNT - i
  {
    hide UndoAt;
    if i < UNDO_COUNT {
      UndoHasNoSeparator(sets, i + 1);
      EntryHasNoSeparator(i);
    }
  }

  lemma EntryHasNoSeparator(i: nat)
    requires i < UNDO_COUNT
    ensures forall e <- UndoAt(i).cmds :: ';' !in e
  {
  }

  class Poller {
    // the bus guard
    var bus: Bus
    var final: bool
    var finalOk: bool
    var ruledProto: char
    var okProto: char
    var parked: bool
    var chipSent: bool
    // the baseline
    var baselineSent: bool
    var chipGen: nat
    var hdrBorrowed: bool
    var rxheaderSet: bool
    var initPin: char
    var moved: set<Facet>
    var chainCut: bool
    // the runner
    var lastType: int
    var lastPid: int
    // the settings and the current car, the chip and what it was sent
    var car: Car
    var chip: Chip
    var power: Chip
    var gen: nat
    var log: seq<Sent>

    ghost function State(): World
      reads this
    {
      World(Guard(bus, final, finalOk, ruledProto, okProto, parked, chipSent),
            Mem(baselineSent, chipGen, hdrBorrowed, rxheaderSet, initPin, moved, chainCut, lastType, lastPid),
            car, chip, power, gen, log)
    }

    ghost predicate Valid()
      reads this
    {
      initPin == NUL || ProtoDigit(initPin)
    }

    constructor (car: Car, power: Chip)
      ensures Valid()
      ensures State() == World(Guard(Unknown, false, false, NUL, NUL, false, false),
                               Mem(false, 0, false, false, NUL, {}, false, -1, -1), car, power, power, 0, [])
    {
      bus, final, finalOk, ruledProto, okProto, parked, chipSent := Unknown, false, false, NUL, NUL, false, false;
      baselineSent, chipGen, hdrBorrowed, rxheaderSet, initPin := false, 0, false, false, NUL;
      moved, chainCut, lastType, lastPid := {}, false, -1, -1;
      this.car, chip, this.power, gen, log := car, power, power, 0, [];
    }

    // ---- the bus guard --------------------------------------------------------------

    /** Wait and look again while the bus stays unreadable. */
    method SettleOwnEcho(looks: seq<Bus>)
      modifies this`bus
      ensures bus == if old(bus).Unreadable? then
                       Settle(old(bus), if |looks| > SETTLE_LOOKS then looks[..SETTLE_LOOKS] else looks)
                     else old(bus)
    {
      if !bus.Unreadable? {
        return;
      }
      var n := if |looks| > SETTLE_LOOKS then SETTLE_LOOKS else |looks|;
      ghost var used := looks[..n];
      assert |looks| <= SETTLE_LOOKS ==> used == looks;
      var i := 0;
      while i < n
        invariant 0 <= i <= n && bus.Unreadable?
        invariant Settle(old(bus), used) == Settle(bus, used[i..])
      {
        bus := looks[i];
        assert used[i..][0] == looks[i] && used[i..][1..] == used[i + 1..];
        if !bus.Unreadable? {
          return;
        }
        i := i + 1;
      }
    }

    /** A search verdict is carried out: the stored protocol gives way. */
    method ForceSearch()
      modifies this`car, this`baselineSent
      ensures State() == Discipline.ForceSearch(old(State()))
    {
      if !car.fallback {
        car := car.(fallback := true);
        baselineSent := false;
      }
    }

    method DecideNow(looks: seq<Bus>) returns (v: Verdict)
      modifies this`bus, this`car, this`baselineSent
      ensures (State(), v) == Discipline.DecideNow(old(State()), looks)
    {
      var proto, pinned := Effective(car), Pinned(car);
      if bus.Unreadable? && chipSent {
        SettleOwnEcho(looks);
      }
      v := Decide(bus, proto, pinned);
      if v == Search {
        ForceSearch();
      }
    }

    /** Asked before every pass. */
    method PollOk(look: Bus, looks: seq<Bus>) returns (ok: bool)
      modifies this
      ensures (State(), ok) == Discipline.PollOk(old(State()), look, looks)
      ensures initPin == old(initPin)
    {
      hide Effective, Discipline.DecideNow, Standing;
      var proto := Effective(car);
      if final && proto == ruledProto {
        okProto := if finalOk then proto else NUL;
        return finalOk;
      }
      final := false;
      bus := look;
      var v := DecideNow(looks);
      ok := v != Park;
      RuledForNow(ok);
      Stand(ok);
    }

    /** The verdict just taken is about the protocol in effect now. */
    method RuledForNow(ok: bool)
      modifies this`ruledProto, this`okProto
      ensures var g, p := old(State()).guard, Effective(car);
        State() == old(State()).(guard := g.(ruledProto := p, okProto := if ok then p else NUL))
    {
      hide Effective;
      ruledProto := Effective(car);
      okProto := if ok then ruledProto else NUL;
    }

    /** A bus that named its bit rate makes the verdict final. */
    method Stand(ok: bool)
      requires !final
      modifies this`chipSent, this`final, this`finalOk, this`parked
      ensures State() == old(State()).(guard := Standing(old(State()).guard, ok))
    {
      if ok {
        chipSent := true;
      }
      if bus.Live? {
        final := true;
        finalOk := ok;
      }
      parked := !ok;
    }

    /** An answer came in on this pass's protocol. */
    method Proven()
      modifies this`final, this`finalOk, this`ruledProto, this`parked
      ensures State() == Discipline.Proven(old(State()))
    {
      if final {
        return;
      }
      if okProto != NUL {
        final := true;
        finalOk := true;
        ruledProto := okProto;
        parked := false;
      }
    }

    method JobOk(probe: bool, look: Bus, looks: seq<Bus>) returns (ok: bool)
      modifies this
      ensures (State(), ok) == Discipline.JobOk(old(State()), probe, look, looks)
      ensures initPin == old(initPin)
    {
      hide Effective, Decide, Settle;
      if !final && probe {
        bus := look;
      }
      var v := DecideNow(looks);
      ok := v != Park;
      okProto := if ok then Effective(car) else NUL;
    }

    method CandidateOk(p: char, look: Bus, looks: seq<Bus>) returns (ok: bool)
      modifies this`bus, this`chipSent, this`okProto
      ensures (State(), ok) == Discipline.CandidateOk(old(State()), p, look, looks)
    {
      hide Effective, Settle;
      if !final {
        bus := look;
        if bus.Unreadable? && chipSent {
          SettleOwnEcho(looks);
        }
      }
      ok := Decide(bus, p, true) == Allow;
      if ok {
        chipSent := true;
        okProto := p;
      }
    }

    method Rearm()
      modifies this`final, this`parked, this`okProto, this`ruledProto
      ensures State() == Discipline.Rearm(old(State()))
    {
      final := false;
      parked := false;
      okProto := NUL;
      ruledProto := NUL;
    }

    // ---- the baseline -----------------------------------------------------------------

    /** One command to the chip. */
    method Request(cmd: string)
      modifies this`chip, this`log
      ensures State() == Send(old(State()), cmd)
    {
      log := log + [Sent(cmd, chip.proto)];
      chip := Exec(chip, power, cmd);
    }

    method PreludeOut()
      modifies this`hdrBorrowed, this`initPin, this`moved, this`rxheaderSet
      ensures State() == Discipline.PreludeOut(old(State())) && Valid()
    {
      hdrBorrowed := false;
      initPin := NUL;
      moved := {};
      rxheaderSet := false;
    }

    /** Behind a reset inside a chain of the tables: the prelude, or the chain is cut. */
    method AfterReset() returns (go: bool)
      requires Valid()
      modifies this
      ensures Valid() && (State(), go) == Discipline.AfterReset(old(State()))
      decreases true, 0
    {
      hide Effective, PinAllowed, Exec;
      var proto := Effective(car);
      if !PinAllowed(proto, okProto) {
        baselineSent := false;
        chainCut := true;
        return false;
      }
      EffectiveIsProto(car);
      SendPrelude(proto);
      go := true;
    }

    /** A prelude as text, cut into its commands by the sending loop. */
    method SendPrelude(proto: char)
      requires ProtoDigit(proto)
      modifies this
      ensures Valid() && State() == Discipline.SendPrelude(old(State()), proto)
      decreases false, 4
    {
      hide Prelude, Exec;
      PreludeIsQuiet(proto);
      PreludeHasNoSeparator(proto);
      PreludeNotEmpty(proto);
      SplitOfQuiet(Prelude(proto));
      SendOwn(Join(Prelude(proto)));
      PreludeOut();
    }

    /** A chain of the firmware's own. */
    method SendOwn(chain: string)
      requires DisciplineSafety.Quiet(Split(chain))
      modifies this`chip, this`log
      ensures State() == SendAll(old(State()), Split(chain))
      decreases false, 3
    {
      hide Exec, Plain, Resets, Split;
      ghost var all := Split(chain);
      ghost var sent: seq<string> := [];
      var rest := chain;
      while true
        invariant sent + Split(rest) == all
        invariant SendAll(old(State()), all) == SendAll(State(), Split(rest))
        invariant State() == old(State()).(chip := chip, log := log)
        decreases |rest|
      {
        var e := Separator(rest);
        ghost var w := State();
        assert Split(rest)[0] == rest[..e];
        assert all[|sent|] == rest[..e];
        PlainNotEmpty(rest[..e]);
        Request(rest[..e]);
        if e == |rest| {
          assert Split(rest)[1..] == [];
          return;
        }
        assert Split(rest)[1..] == Split(rest[e + 1..]);
        sent := sent + [rest[..e]];
        rest := rest[e + 1..];
      }
    }

    /** One command of a chain of the tables: a print command is not sent. */
    method SendElement(cmd: string) returns (go: bool)
      requires Valid()
      modifies this
      ensures Valid() && (State(), go) == Discipline.SendElement(old(State()), cmd)
      decreases true, 1
    {
      hide Exec;
      if cmd == "" || IsPrint(cmd) {
        return true;
      }
      Request(cmd);
      var resets := ReadCmdResets(cmd);
      go := true;
      if resets {
        go := AfterReset();
      }
    }

    /** The loop over a chain of the tables. */
    method SendChain(chain: string)
      requires Valid()
      modifies this
      ensures Valid() && State() == SendElements(old(State()), Split(chain))
      decreases true, 2
    {
      hide Discipline.SendElement, Split;
      var rest := chain;
      while true
        invariant Valid()
        invariant SendElements(old(State()), Split(chain)) == SendElements(State(), Split(rest))
        decreases |rest|
      {
        var e := Separator(rest);
        assert Split(rest)[0] == rest[..e];
        var go := SendElement(rest[..e]);
        if !go {
          return;
        }
        if e == |rest| {
          assert Split(rest)[1..] == [];
          return;
        }
        assert Split(rest)[1..] == Split(rest[e + 1..]);
        rest := rest[e + 1..];
      }
    }

    method SendInit(chain: string)
      requires Valid()
      modifies this
      ensures Valid() && State() == Discipline.SendInit(old(State()), chain)
    {
      hide SendElements, ChainSets;
      SendChain(chain);
      var sets := ReadSets(chain);
      moved := moved + sets;
    }

    method SendBaseline() returns (ok: bool)
      requires Valid()
      modifies this
      ensures Valid() && (State(), ok) == Discipline.SendBaseline(old(State()))
    {
      hide Effective, PinAllowed, Discipline.SendPrelude;
      var proto := Effective(car);
      if !PinAllowed(proto, okProto) {
        baselineSent := false;
        return false;
      }
      EffectiveIsProto(car);
      SendPrelude(proto);
      ok := true;
    }

    method Ensure() returns (ok: bool)
      requires Valid()
      modifies this
      ensures Valid() && (State(), ok) == Discipline.Ensure(old(State()))
    {
      hide Discipline.SendBaseline;
      if !baselineSent || chipGen != gen {
        ok := SendBaseline();
        if !ok {
          return false;
        }
        baselineSent := true;
        chipGen := gen;
      }
      ok := true;
    }

    method HeaderGiveBack()
      requires Valid()
      modifies this
      ensures Valid() && State() == Discipline.HeaderGiveBack(old(State()))
    {
      hide Effective, PinAllowed, Discipline.SendPrelude, Exec;
      var proto := Effective(car);
      EffectiveIsProto(car);
      match FuncHeader(proto) {
        case Some(func) =>
          Request(func);
          moved := moved - {Header};
        case None =>
          if PinAllowed(proto, okProto) {
            SendPrelude(proto);
          }
      }
      hdrBorrowed := false;
    }

    method Restore() returns (ok: bool)
      requires Valid()
      modifies this
      ensures Valid() && (State(), ok) == Discipline.Restore(old(State()))
    {
      hide Effective, PinAllowed, SendAll, RestoreElements, Prelude, Join;
      var proto := Effective(car);
      if !PinAllowed(proto, okProto) {
        return false;
      }
      EffectiveIsProto(car);
      RestoreText(moved, proto);
      PreludeText(proto);
      RestoreAlwaysFits(moved, proto);
      var chain, _ := Build(moved, Join(Prelude(proto)), Prelude(proto), RESTORE_LEN);
      SendOwn(chain);
      PreludeOut();
      ok := true;
    }

    // ---- one row ------------------------------------------------------------------------

    method Reset()
      modifies this`lastType, this`lastPid, this`rxheaderSet
      ensures State() == RunnerReset(old(State()))
    {
      lastType := -1;
      lastPid := -1;
      rxheaderSet := false;
    }

    /** The standing protocol of an earlier chain, judged again. */
    method StandingOk() returns (ok: bool)
      requires Valid() && initPin != NUL
      modifies this`baselineSent, this`lastType, this`lastPid, this`rxheaderSet
      ensures ok <==> Allowed(bus, initPin)
      ensures State() == if ok then old(State())
                         else RunnerReset(old(State()).(mem := old(State()).mem.(baselineSent := false)))
    {
      var r := ChainAllowed(bus, "ATTP" + [initPin]);
      StandingChain(bus, initPin);
      ok := r.ok;
      if !ok {
        baselineSent := false;
        Reset();
      }
    }

    /** May the row go out? `typeInit` and `init` are empty when not due. */
    method RowPinsOk(row: Row, index: nat, typeInit: string, init: string) returns (ok: bool, pinAfter: char)
      requires Valid()
      requires typeInit == DueTypeInit(State(), row) && init == DueInit(State(), row, index)
      modifies this`baselineSent, this`lastType, this`lastPid, this`rxheaderSet
      ensures (State(), ok, pinAfter) == RowPins(old(State()), row, index)
      ensures Valid() && (pinAfter == NUL || ProtoDigit(pinAfter))
    {
      hide ReadChain, Allowed, Split;
      LastIsBusFree(bus, Split(typeInit));
      LastIsBusFree(bus, Split(init));
      LastIsBusFree(bus, Split(row.cmd));
      ok, pinAfter := false, NUL;
      var pin := NUL;
      var t := ChainAllowed(bus, typeInit);
      if !t.ok {
        return;
      }
      pin := if t.last != NUL then t.last else pin;
      var i := ChainAllowed(bus, init);
      if !i.ok {
        return;
      }
      pin := if i.last != NUL then i.last else pin;
      var c := ChainAllowed(bus, row.cmd);
      if !c.ok {
        return;
      }
      if pin == NUL && c.last == NUL && initPin != NUL {
        var standing := StandingOk();
        if !standing {
          return;
        }
        pin := initPin;
      }
      ok := true;
      pinAfter := if c.last != NUL then c.last else pin;
    }

    method SetUpType(row: Row)
      requires Valid()
      modifies this
      ensures Valid() && State() == Discipline.SetUpType(old(State()), row)
    {
      hide Discipline.SendInit;
      if row.typ != lastType {
        var init := if row.typ < |car.typeInits| then car.typeInits[row.typ] else "";
        if init != "" {
          SendInit(init);
        }
        lastType := row.typ;
        lastPid := -1;
      }
    }

    method SetUpFilter(row: Row)
      requires Valid()
      modifies this`chip, this`log, this`rxheaderSet
      ensures Valid() && State() == Discipline.SetUpFilter(old(State()), row)
    {
      hide Exec;
      if row.rxheader != "" {
        Request("ATCRA" + row.rxheader);
        rxheaderSet := true;
      } else if rxheaderSet {
        Request("ATCRA");
        rxheaderSet := false;
      }
    }

    method SetUpRow(row: Row, index: nat)
      requires Valid()
      modifies this
      ensures Valid() && State() == Discipline.SetUpRow(old(State()), row, index)
    {
      hide Discipline.SendInit, Discipline.SetUpFilter, ChainSets;
      if index != lastPid {
        if row.init != "" {
          SendInit(row.init);
        }
        var sets := ReadSets(row.init);
        if row.typ == STANDARD && Header in sets {
          hdrBorrowed := true;
        }
        SetUpFilter(row);
        lastPid := index;
      }
    }

    /** One poll of one row, up to its request. */
    method Run(row: Row, index: nat) returns (requested: bool)
      requires Valid()
      modifies this
      ensures Valid() && (State(), requested) == RunRow(old(State()), row, index)
    {
      hide Discipline.Ensure, Discipline.Prepare, RowPins, Discipline.Perform;
      requested := Ensure();
      if !requested {
        return;
      }
      ghost var w1 := State();
      requested := Prepare(row, index);
      if !requested {
        return;
      }
      var typeInit := if row.typ != lastType && row.typ < |car.typeInits| then car.typeInits[row.typ] else "";
      var init := if row.typ != lastType || index != lastPid then row.init else "";
      var pinAfter;
      requested, pinAfter := RowPinsOk(row, index, typeInit, init);
      if !requested {
        return;
      }
      requested := Perform(row, index, pinAfter);
    }

    method Prepare(row: Row, index: nat) returns (ready: bool)
      requires Valid()
      modifies this
      ensures Valid() && (State(), ready) == Discipline.Prepare(old(State()), row, index)
    {
      hide Discipline.Restore, Discipline.HeaderGiveBack, ChainSets;
      var sets := ReadSets(row.init);
      var borrows := row.typ == STANDARD && Header in sets;
      var typeDue := row.typ != lastType;
      var rowDue := typeDue || index != lastPid;
      ready := true;
      if typeDue && moved != {} {
        ready := Restore();
      } else if hdrBorrowed && !borrows && rowDue {
        HeaderGiveBack();
      }
    }

    method Perform(row: Row, index: nat, pinAfter: char) returns (requested: bool)
      requires Valid() && (pinAfter == NUL || ProtoDigit(pinAfter))
      modifies this
      ensures Valid() && (State(), requested) == Discipline.Perform(old(State()), row, index, pinAfter)
    {
      hide Discipline.SetUpType, Discipline.SetUpRow, Discipline.Request;
      SetUpType(row);
      SetUpRow(row, index);
      if chainCut {
        chainCut := false;
        Reset();
        return false;
      }
      Ask(row, pinAfter);
      requested := true;
    }

    /** The request itself. */
    method Ask(row: Row, pinAfter: char)
      requires pinAfter == NUL || ProtoDigit(pinAfter)
      modifies this`initPin, this`chip, this`log, this`moved, this`baselineSent
      ensures Valid() && State() == Discipline.Request(old(State()), row, pinAfter)
    {
      hide Exec, ChainSets, Resets;
      initPin := pinAfter;
      Request(row.cmd);
      var sets := ReadSets(row.cmd);
      moved := moved + sets;
      var resets := ReadCmdResets(row.cmd);
      if resets {
        baselineSent := false;
      }
    }
  }

  lemma PreludeNotEmpty(p: char)
    ensures Prelude(p) != []
  {
  }

  lemma PlainNotEmpty(cmd: string)
    requires Plain(cmd)
    ensures cmd != ""
  {
  }

  lemma RestoreText(moved: set<Facet>, p: char)
    requires ProtoDigit(p)
    ensures var es := RestoreElements(moved, Prelude(p)); Split(Join(es)) == es && DisciplineSafety.Quiet(es)
  {
    hide Prelude, UndoFrom, Plain;
    PreludeIsQuiet(p);
    UndoIsQuiet(moved, 0);
    PreludeHasNoSeparator(p);
    UndoHasNoSeparator(moved, 0);
    PreludeNotEmpty(p);
    SplitOfQuiet(RestoreElements(moved, Prelude(p)));
  }

  /** Where the first element ends. */
  method Separator(s: string) returns (e: nat)
    ensures e <= |s|
    ensures Split(s) == if e < |s| then [s[..e]] + Split(s[e + 1..]) else [s[..e]]
  {
    e := 0;
    while e < |s| && s[e] != ';'
      invariant e <= |s| && forall i :: 0 <= i < e ==> s[i] != ';'
    {
      e := e + 1;
    }
    SplitAt(s, e);
    if e == |s| {
      Whole(s);
    }
  }
}
