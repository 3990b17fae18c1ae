/** Rows of one type never meet the settings of another: over every run of polls
    with a CAN protocol in effect and an unchanged look at the bus. */
module BaselineRuns {
  import opened Wrappers
  import opened Seqs
  import opened ChainText
  import opened BusGuard
  import opened Chip
  import opened Discipline
  import opened DisciplineSafety
  import opened DisciplineRuns
  import opened DisciplineBaseline

  /** What is off the baseline is remembered: under its facet, or as the receive
      filter of a row. A vendor's protocol is the one thing nobody remembers. */
  ghost predicate Covered(c: Chip, p: char, moved: set<Facet>, rx: bool) {
    && (forall r :: !AtBase(c, p, r) ==> FacetOf(r) in moved || (r == RFilter && rx))
    && (c.proto != p ==> Protocol in moved || c.proto == VENDOR)
  }

  /** CAN protocol p in effect, allowed on this bus, and a chip whose own defaults
      are the baseline's where the prelude does not put them back. */
  ghost predicate Steady(w: World, bus: Bus, p: char) {
    && IsCan(p) && Effective(w.car) == p && Allowed(bus, p)
    && RestAtBase(w.power, p)
    && (w.guard.final ==> w.guard.bus == bus)
    && !w.mem.chainCut && w.mem.chipGen <= w.gen
    && (w.mem.initPin != NUL ==> Allowed(bus, w.mem.initPin))
  }

  ghost predicate ChipCovered(w: World, p: char) {
    Covered(w.chip, p, w.mem.moved, w.mem.rxheaderSet)
  }

  /** What holds between the events of such a run. */
  ghost predicate Remembered(w: World, bus: Bus, p: char) {
    && Steady(w, bus, p)
    && if Known(w) then ChipCovered(w, p) else RestAtBase(w.chip, p)
  }

  // ---- chains of the tables ------------------------------------------------------------

  lemma ExecCovers(c: Chip, power: Chip, p: char, cmd: string, moved: set<Facet>, rx: bool)
    requires IsCan(p) && !Resets(cmd) && Covered(c, p, moved, rx)
    ensures Covered(Exec(c, power, cmd), p, moved + ElementSets(cmd), rx)
  {
    hide Exec, ElementSets, AtBase, Resets;
    var v := Exec(c, power, cmd);
    forall r | !AtBase(v, p, r)
      ensures FacetOf(r) in moved + ElementSets(cmd) || (r == RFilter && rx)
    {
      if AtBase(c, p, r) {
        MovesAreCounted(p, cmd, c, power, r);
      }
    }
    if v.proto != c.proto {
      ProtoIsCounted(cmd, c, power);
    }
  }

  /** A prelude behind a chip whose other registers are at their base. */
  lemma PreludeCovers(w: World, p: char, moved: set<Facet>, rx: bool)
    requires IsCan(p) && RestAtBase(w.chip, p)
    ensures var v := SendPrelude(w, p); AllAtBase(v.chip, p) && v.chip.proto == p && Covered(v.chip, p, moved, rx)
    ensures Moved(w, SendPrelude(w, p)) && SendPrelude(w, p).mem == PreludeOut(w).mem
  {
    PreludeIsQuiet(p);
    SendQuiet(w, Prelude(p), Unknown);
    PreludeRestores(w.chip, w.power, p);
  }

  /** The world behind a table command: nothing but the chip and what is remembered
      of it has changed, and no more is remembered than before. */
  predicate Onward(w: World, v: World) {
    && Moved(w, v) && v.mem.moved <= w.mem.moved && (v.mem.rxheaderSet ==> w.mem.rxheaderSet)
    && v.mem.chainCut == w.mem.chainCut && v.mem.baselineSent == w.mem.baselineSent && v.mem.chipGen == w.mem.chipGen
    && v.mem.lastType == w.mem.lastType && v.mem.lastPid == w.mem.lastPid
    && (v.mem.initPin == w.mem.initPin || v.mem.initPin == NUL)
  }

  lemma ElementCovers(w: World, p: char, cmd: string, done: set<Facet>)
    requires Granted(w) && IsCan(p) && Effective(w.car) == p && RestAtBase(w.power, p)
    requires Covered(w.chip, p, w.mem.moved + done, w.mem.rxheaderSet)
    ensures var (v, go) := SendElement(w, cmd);
      && go && Onward(w, v)
      && Covered(v.chip, p, v.mem.moved + (done + ElementSets(cmd)), v.mem.rxheaderSet)
  {
    hide Exec, ElementSets, AtBase, Resets, SendPrelude, IsPrint, Effective, Allowed;
    if !(cmd == "" || IsPrint(cmd)) {
      if Resets(cmd) {
        ResetGoesToPower(w, cmd);
        PreludeCovers(Send(w, cmd), p, done + ElementSets(cmd), false);
      } else {
        ExecCovers(w.chip, w.power, p, cmd, w.mem.moved + done, w.mem.rxheaderSet);
        assert (w.mem.moved + done) + ElementSets(cmd) == w.mem.moved + (done + ElementSets(cmd));
      }
    }
  }

  lemma ResetGoesToPower(w: World, cmd: string)
    requires Resets(cmd)
    ensures Send(w, cmd).chip == w.power
  {
  }

  lemma {:induction false} ChainCovers(w: World, p: char, es: seq<string>, done: set<Facet>)
    requires Granted(w) && IsCan(p) && Effective(w.car) == p && RestAtBase(w.power, p)
    requires Covered(w.chip, p, w.mem.moved + done, w.mem.rxheaderSet)
    ensures var v := SendElements(w, es);
      && Onward(w, v)
      && Covered(v.chip, p, v.mem.moved + (done + ElementsSet(es)), v.mem.rxheaderSet)
    decreases es
  {
    hide SendElement, ElementSets, Effective, Allowed, Covered, RestAtBase;
    if es == [] {
      assert done + ElementsSet(es) == done;
    } else {
      ElementCovers(w, p, es[0], done);
      ChainCovers(SendElement(w, es[0]).0, p, es[1..], done + ElementSets(es[0]));
      assert (done + ElementSets(es[0])) + ElementsSet(es[1..]) == done + ElementsSet(es);
    }
  }

  /** An init that is due, or none. */
  function AfterInit(w: World, chain: string): World {
    if chain != "" then SendInit(w, chain) else w
  }

  /** Only the chip and what is remembered of it has changed; what is remembered
      more is named. */
  predicate Adds(w: World, v: World, sets: set<Facet>) {
    && Moved(w, v) && v.mem.moved <= w.mem.moved + sets
    && v.mem.chainCut == w.mem.chainCut && v.mem.baselineSent == w.mem.baselineSent && v.mem.chipGen == w.mem.chipGen
    && (v.mem.initPin == w.mem.initPin || v.mem.initPin == NUL)
  }

  lemma InitCovers(w: World, p: char, chain: string)
    requires Granted(w) && IsCan(p) && Effective(w.car) == p && RestAtBase(w.power, p) && ChipCovered(w, p)
    ensures var v := AfterInit(w, chain);
      && Adds(w, v, ChainSets(chain)) && ChipCovered(v, p) && (v.mem.rxheaderSet ==> w.mem.rxheaderSet)
      && v.mem.lastType == w.mem.lastType && v.mem.lastPid == w.mem.lastPid
  {
    hide Effective, Allowed, RestAtBase, SendElements;
    if chain != "" {
      assert w.mem.moved + {} == w.mem.moved;
      ChainCovers(w, p, Split(chain), {});
      var v := SendElements(w, Split(chain));
      assert v.mem.moved + ({} + ChainSets(chain)) == v.mem.moved + ChainSets(chain);
    }
  }

  // ---- the receive filter ----------------------------------------------------------------

  lemma FilterBody(rx: string)
    ensures Body("ATCRA" + rx) == None || (Body("ATCRA" + rx) == Some("CRA" + Norm(rx)))
  {
    hide Norm;
    FilterName();
    NormConcat("ATCRA", rx);
    Assoc("AT", "CRA", Norm(rx));
    BodyOf("ATCRA" + rx, "CRA" + Norm(rx));
  }

  lemma BodyOf(cmd: string, body: string)
    requires Norm(cmd) == "AT" + body
    ensures Body(cmd) == None || Body(cmd) == Some(body)
  {
    assert Norm(cmd)[2..] == body;
  }

  lemma FilterReg(arg: string)
    ensures RegOf("CRA" + arg) == Some(RFilter)
  {
    var body := "CRA" + arg;
    assert body[..3] == "CRA";
    assert body[0] == 'C' && body[1] == 'R' && body[2] == 'A';
    if arg == "" {
      assert body == "CRA";
    }
    NotFlow(body);
  }

  lemma NotFlow(body: string)
    requires |body| >= 3 && body[0] == 'C' && body[1] == 'R' && body[2] == 'A'
    ensures !Arg(body, "FCSH") && !Arg(body, "FCSD") && !Arg(body, "FCSM") && !Arg(body, "CEA") && !Arg(body, "CER")
    ensures body[..3] == "CRA"
  {
    ArgFirst(body, "FCSH");
    ArgFirst(body, "FCSD");
    ArgFirst(body, "FCSM");
    assert body[..3][1] == 'R';
  }

  lemma FilterExec(c: Chip, power: Chip, rx: string)
    ensures var v := Exec(c, power, "ATCRA" + rx);
      v.proto == c.proto && forall r :: r != RFilter ==> Get(v, r) == Get(c, r)
  {
    FilterCommand(rx);
    FilterBody(rx);
    FilterReg(Norm(rx));
  }

  lemma FilterCovers(w: World, p: char, row: Row)
    requires ChipCovered(w, p)
    ensures var v := SetUpFilter(w, row);
      && ChipCovered(v, p) && Moved(w, v) && v.mem == w.mem.(rxheaderSet := row.rxheader != "")
  {
    hide Exec;
    FilterExec(w.chip, w.power, row.rxheader);
    WritesCRA();
    ExecWrites(w.chip, w.power, "ATCRA", RFilter, "CRA");
  }

  // ---- before the row --------------------------------------------------------------------

  lemma EnsureCovers(w: World, bus: Bus, p: char)
    requires Remembered(w, bus, p) && Granted(w)
    ensures var (v, ok) := Ensure(w);
      && ok && Moved(w, v) && Steady(v, bus, p) && Known(v) && ChipCovered(v, p)
      && v.mem.lastType == w.mem.lastType && v.mem.lastPid == w.mem.lastPid
  {
    hide Effective, Allowed, SendPrelude, Covered;
    EffectiveIsProto(w.car);
    if !Known(w) {
      PreludeCovers(w, p, {}, false);
    }
  }

  lemma RestoreCovers(w: World, p: char)
    requires Granted(w) && IsCan(p) && Effective(w.car) == p && ChipCovered(w, p)
    ensures var (v, ok) := Restore(w);
      && ok && Moved(w, v) && AllAtBase(v.chip, p) && v.chip.proto == p && v.mem == PreludeOut(w).mem
  {
    hide Effective, Allowed, SendAll, RestoreElements, Prelude;
    EffectiveIsProto(w.car);
    var es := RestoreElements(w.mem.moved, Prelude(p));
    RestoreIsQuiet(w.mem.moved, p);
    SendQuiet(w, es, Unknown);
    RestoreIsComplete(w.chip, w.power, p, w.mem.moved);
  }

  lemma RestoreIsQuiet(moved: set<Facet>, p: char)
    requires ProtoDigit(p)
    ensures DisciplineSafety.Quiet(RestoreElements(moved, Prelude(p)))
  {
    hide Prelude, UndoFrom, Plain;
    PreludeIsQuiet(p);
    UndoIsQuiet(moved, 0);
  }

  lemma GiveBackCovers(w: World, p: char)
    requires IsCan(p) && Effective(w.car) == p && ChipCovered(w, p)
    ensures var v := HeaderGiveBack(w);
      && Moved(w, v) && ChipCovered(v, p)
      && v.mem == w.mem.(moved := w.mem.moved - {Header}, hdrBorrowed := false)
  {
    hide Exec, Effective, Writes;
    var f := FuncHeader(p).value;
    HeaderWrites(p, f, Base(p, RHeader));
    ExecWrites(w.chip, w.power, f, RHeader, Base(p, RHeader));
  }

  lemma PrepareCovers(w: World, bus: Bus, p: char, row: Row, index: nat)
    requires Steady(w, bus, p) && Granted(w) && Known(w) && ChipCovered(w, p)
    ensures var (v, ok) := Prepare(w, row, index);
      && ok && Moved(w, v) && Steady(v, bus, p) && Known(v) && ChipCovered(v, p)
      && v.mem.lastType == w.mem.lastType && v.mem.lastPid == w.mem.lastPid
      && (TypeDue(w, row) ==> v.mem.moved == {})
  {
    hide Effective, Allowed, Restore, HeaderGiveBack, Borrows, AtBase;
    RestoreCovers(w, p);
    GiveBackCovers(w, p);
  }

  // ---- the row ---------------------------------------------------------------------------

  /** What the chains of a row that is set up may leave off the baseline. */
  function OwnSets(w: World, row: Row, index: nat): set<Facet> {
    ChainSets(DueTypeInit(w, row)) + ChainSets(DueInit(w, row, index))
  }

  lemma TypeCovers(w: World, p: char, row: Row)
    requires Granted(w) && IsCan(p) && Effective(w.car) == p && RestAtBase(w.power, p) && ChipCovered(w, p)
    ensures var v := SetUpType(w, row);
      && Adds(w, v, ChainSets(DueTypeInit(w, row))) && ChipCovered(v, p) && (v.mem.rxheaderSet ==> w.mem.rxheaderSet)
      && v.mem.lastPid == (if TypeDue(w, row) then -1 else w.mem.lastPid)
  {
    hide Effective, Allowed, SendInit, Covered, RestAtBase, ChainSets;
    if TypeDue(w, row) {
      InitCovers(w, p, TypeInitOf(w, row));
    }
  }

  lemma RowSetUpCovers(w: World, p: char, row: Row, index: nat, due: string)
    requires Granted(w) && IsCan(p) && Effective(w.car) == p && RestAtBase(w.power, p) && ChipCovered(w, p)
    requires due == if index == w.mem.lastPid then "" else row.init
    ensures var v := SetUpRow(w, row, index);
      && Adds(w, v, ChainSets(due)) && ChipCovered(v, p)
      && (index != w.mem.lastPid ==> (v.mem.rxheaderSet <==> row.rxheader != ""))
  {
    hide Effective, Allowed, SendInit, Covered, RestAtBase, ChainSets, SetUpFilter, Borrows;
    if index != w.mem.lastPid {
      InitCovers(w, p, row.init);
      var w1 := AfterInit(w, row.init);
      var w2 := if Borrows(row) then w1.(mem := w1.mem.(hdrBorrowed := true)) else w1;
      FilterCovers(w2, p, row);
    }
  }

  lemma SetUpCovers(w: World, p: char, row: Row, index: nat)
    requires Granted(w) && IsCan(p) && Effective(w.car) == p && RestAtBase(w.power, p) && ChipCovered(w, p)
    ensures var v := SetUpRow(SetUpType(w, row), row, index);
      && Adds(w, v, OwnSets(w, row, index)) && ChipCovered(v, p)
      && (RowDue(w, row, index) ==> (v.mem.rxheaderSet <==> row.rxheader != ""))
  {
    hide Effective, Allowed, SetUpType, SetUpRow, Covered, RestAtBase, ChainSets;
    TypeCovers(w, p, row);
    RowSetUpCovers(SetUpType(w, row), p, row, index, DueInit(w, row, index));
  }

  lemma PinsAllowed(w: World, bus: Bus, p: char, row: Row, index: nat)
    requires Steady(w, bus, p) && w.guard.bus == bus
    ensures var (v, ok, pin) := RowPins(w, row, index);
      v == w && (ok && pin != NUL ==> Allowed(bus, pin))
  {
    hide Effective, ReadChain, RestAtBase, Allowed;
    ReadingMeans(bus, Split(DueTypeInit(w, row)));
    ReadingMeans(bus, Split(DueInit(w, row, index)));
    ReadingMeans(bus, Split(row.cmd));
  }

  /** Whatever the request sets on the chip as one command is counted in it as a chain.
      So it is in every text without a separator. */
  predicate CountedAlike(cmd: string) {
    ElementSets(cmd) <= ChainSets(cmd) + {Protocol}
  }

  lemma RequestCovers(w: World, bus: Bus, p: char, row: Row, pin: char)
    requires Steady(w, bus, p) && Known(w) && ChipCovered(w, p) && CountedAlike(row.cmd)
    requires pin != NUL ==> Allowed(bus, pin)
    ensures Remembered(Request(w, row, pin), bus, p) && Request(w, row, pin).guard == w.guard
  {
    hide Exec, Effective, Allowed, AtBase, ChainSets, Covered, Resets;
    if !Resets(row.cmd) {
      CommandCovers(w.chip, w.power, p, row.cmd, w.mem.moved, w.mem.rxheaderSet);
    } else {
      ResetGoesToPower(w, row.cmd);
    }
  }

  /** A request, sent as one command and remembered as a chain. */
  lemma CommandCovers(c: Chip, power: Chip, p: char, cmd: string, moved: set<Facet>, rx: bool)
    requires IsCan(p) && !Resets(cmd) && CountedAlike(cmd) && Covered(c, p, moved, rx)
    ensures Covered(Exec(c, power, cmd), p, moved + ChainSets(cmd), rx)
  {
    hide Exec, ElementSets, ChainSets, Resets, VendorSwitch, AtBase;
    ExecCovers(c, power, p, cmd, moved, rx);
    CountedInChain(c, power, cmd);
    NoProtocolRegister(Exec(c, power, cmd), p);
  }

  lemma NoProtocolRegister(c: Chip, p: char)
    ensures forall r :: !AtBase(c, p, r) ==> FacetOf(r) != Protocol
  {
  }

  /** A request that changes the protocol has no separator, and is counted. */
  lemma CountedInChain(c: Chip, power: Chip, cmd: string)
    requires CountedAlike(cmd) && !Resets(cmd)
    ensures Exec(c, power, cmd).proto != c.proto && !VendorSwitch(cmd) ==> Protocol in ChainSets(cmd)
    ensures Exec(c, power, cmd).proto != c.proto && VendorSwitch(cmd) ==> Exec(c, power, cmd).proto == VENDOR
    ensures forall f <- ElementSets(cmd) :: f != Protocol ==> f in ChainSets(cmd)
  {
    hide ElementSets, ChainSets;
    if Exec(c, power, cmd).proto != c.proto {
      ProtoIsCounted(cmd, c, power);
      if !VendorSwitch(cmd) {
        if ';' in cmd {
          SeparatedOpensNothing(cmd);
        } else {
          RequestSets(cmd);
        }
      }
    }
  }

  lemma RequestSets(cmd: string)
    requires ';' !in cmd
    ensures ChainSets(cmd) == ElementSets(cmd)
  {
    hide ElementSets;
    SplitAt(cmd, |cmd|);
    assert [cmd][1..] == [] && ElementsSet([]) == {};
    assert ElementSets(cmd) + {} == ElementSets(cmd);
  }

  // ---- register by register -----------------------------------------------------------------

  /** The command writes the register. */
  predicate SetsReg(cmd: string, r: Reg) {
    Body(cmd).Some? && RegOf(Body(cmd).value) == Some(r)
  }

  predicate SetBy(es: seq<string>, r: Reg) {
    exists i :: 0 <= i < |es| && SetsReg(es[i], r)
  }

  /** Every register off the baseline was written by one of these commands, or is the
      filter of a row. */
  ghost predicate OwnOnly(w: World, p: char, es: seq<string>) {
    forall r :: !AtBase(w.chip, p, r) ==> SetBy(es, r) || (r == RFilter && w.mem.rxheaderSet)
  }

  lemma SetByMore(a: seq<string>, b: seq<string>, r: Reg)
    requires SetBy(a, r)
    ensures SetBy(a + b, r)
  {
    var i :| 0 <= i < |a| && SetsReg(a[i], r);
    assert (a + b)[i] == a[i];
  }

  lemma SetByLast(a: seq<string>, cmd: string, r: Reg)
    requires SetsReg(cmd, r)
    ensures SetBy(a + [cmd], r)
  {
    assert (a + [cmd])[|a|] == cmd;
  }

  lemma ExecWritesReg(c: Chip, power: Chip, p: char, cmd: string, r: Reg)
    requires !Resets(cmd) && AtBase(c, p, r) && !AtBase(Exec(c, power, cmd), p, r)
    ensures SetsReg(cmd, r)
  {
  }

  lemma ElementOwn(w: World, p: char, cmd: string, done: seq<string>)
    requires Granted(w) && IsCan(p) && Effective(w.car) == p && RestAtBase(w.power, p) && OwnOnly(w, p, done)
    ensures var (v, go) := SendElement(w, cmd);
      && go && Moved(w, v) && OwnOnly(v, p, done + [cmd])
  {
    hide Exec, AtBase, Resets, SendPrelude, IsPrint, Effective, Allowed, SetsReg, SetBy;
    var v := SendElement(w, cmd).0;
    if cmd != "" && !IsPrint(cmd) && Resets(cmd) {
      ResetGoesToPower(w, cmd);
      PreludeCovers(Send(w, cmd), p, {}, false);
    } else {
      forall r | !AtBase(v.chip, p, r)
        ensures SetBy(done + [cmd], r) || (r == RFilter && v.mem.rxheaderSet)
      {
        if !AtBase(w.chip, p, r) {
          if SetBy(done, r) {
            SetByMore(done, [cmd], r);
          }
        } else {
          ExecWritesReg(w.chip, w.power, p, cmd, r);
          SetByLast(done, cmd, r);
        }
      }
    }
  }

  lemma {:induction false} ChainOwn(w: World, p: char, es: seq<string>, done: seq<string>)
    requires Granted(w) && IsCan(p) && Effective(w.car) == p && RestAtBase(w.power, p) && OwnOnly(w, p, done)
    ensures OwnOnly(SendElements(w, es), p, done + es)
    decreases es
  {
    hide SendElement, Effective, Allowed, RestAtBase, OwnOnly;
    if es == [] {
      assert done + es == done;
    } else {
      ElementOwn(w, p, es[0], done);
      ChainOwn(SendElement(w, es[0]).0, p, es[1..], done + [es[0]]);
      assert (done + [es[0]]) + es[1..] == done + es;
    }
  }

  lemma InitOwn(w: World, p: char, chain: string, done: seq<string>)
    requires Granted(w) && IsCan(p) && Effective(w.car) == p && RestAtBase(w.power, p) && OwnOnly(w, p, done)
    ensures OwnOnly(AfterInit(w, chain), p, done + Split(chain))
  {
    hide Effective, Allowed, RestAtBase, SendElements, AtBase, SetBy, ChainSets;
    ChainOwn(w, p, Split(chain), done);
    if chain == "" {
      OwnMore(w, p, done, Split(chain));
    }
  }

  lemma OwnMore(w: World, p: char, a: seq<string>, b: seq<string>)
    requires OwnOnly(w, p, a)
    ensures OwnOnly(w, p, a + b)
  {
    hide SetBy, AtBase;
    forall r | !AtBase(w.chip, p, r)
      ensures SetBy(a + b, r) || (r == RFilter && w.mem.rxheaderSet)
    {
      if SetBy(a, r) {
        SetByMore(a, b, r);
      }
    }
  }

  lemma FilterOwn(w: World, p: char, row: Row, done: seq<string>)
    requires OwnOnly(w, p, done)
    ensures OwnOnly(SetUpFilter(w, row), p, done)
  {
    hide Exec, SetBy;
    FilterExec(w.chip, w.power, row.rxheader);
    WritesCRA();
    ExecWrites(w.chip, w.power, "ATCRA", RFilter, "CRA");
  }

  /** The first row of a type, set up from a chip at its baseline. */
  lemma SetUpOwn(w: World, p: char, row: Row, index: nat)
    requires Granted(w) && IsCan(p) && Effective(w.car) == p && RestAtBase(w.power, p)
    requires Covered(w.chip, p, {}, w.mem.rxheaderSet) && TypeDue(w, row)
    ensures OwnOnly(SetUpRow(SetUpType(w, row), row, index), p, Due(w, row, index))
  {
    hide Effective, Allowed, RestAtBase, SendInit, Split, AtBase, SetBy, SetUpFilter, Borrows;
    var t, i := TypeInitOf(w, row), row.init;
    assert OwnOnly(w, p, []);
    InitOwn(w, p, t, []);
    assert [] + Split(t) == Split(t);
    TypeEffect(w, row);
    var w1 := SetUpType(w, row);
    assert OwnOnly(w1, p, Split(t));
    InitOwn(w1, p, i, Split(t));
    var w2 := AfterInit(w1, i);
    var w3 := if Borrows(row) then w2.(mem := w2.mem.(hdrBorrowed := true)) else w2;
    FilterOwn(w3, p, row, Due(w, row, index));
  }

  /** Where a row asks from: its chains out, its request not yet. */
  function AtRequest(w: World, row: Row, index: nat): World {
    var ready := Ready(w, row, index);
    SetUpRow(SetUpType(ready, row), row, index)
  }

  /** When the request goes out every register off the baseline was written by the
      row's own chains, or is its own filter; and so is the protocol, but for a
      vendor's. */
  ghost predicate OnlyItsOwn(w: World, p: char, row: Row, index: nat) {
    var ready, at := Ready(w, row, index), AtRequest(w, row, index);
    && OwnOnly(at, p, Due(ready, row, index)) && (at.mem.rxheaderSet <==> row.rxheader != "")
    && (at.chip.proto != p ==> Protocol in OwnSets(ready, row, index) || at.chip.proto == VENDOR)
  }

  lemma CoveredMore(c: Chip, p: char, moved: set<Facet>, more: set<Facet>, rx: bool)
    requires Covered(c, p, moved, rx) && moved <= more
    ensures Covered(c, p, more, rx)
  {
  }

  lemma CoveredProto(c: Chip, p: char, moved: set<Facet>, rx: bool)
    requires Covered(c, p, moved, rx)
    ensures c.proto != p ==> Protocol in moved || c.proto == VENDOR
  {
  }

  lemma RowCovers(w: World, bus: Bus, p: char, row: Row, index: nat)
    requires Remembered(w, bus, p) && Granted(w) && w.guard.bus == bus && CountedAlike(row.cmd)
    ensures Remembered(RunRow(w, row, index).0, bus, p)
    ensures TypeDue(w, row) ==> OnlyItsOwn(w, p, row, index)
    ensures RunRow(w, row, index).0.guard == w.guard
  {
    hide Effective, Allowed, Ensure, Prepare, SetUpType, SetUpRow;
    hide RowPins, Request, Covered, RestAtBase, ChainSets, OwnOnly;
    EnsureCovers(w, bus, p);
    var w1 := Ensure(w).0;
    PrepareCovers(w1, bus, p, row, index);
    var w2 := Prepare(w1, row, index).0;
    PinsAllowed(w2, bus, p, row, index);
    SetUpCovers(w2, p, row, index);
    var u := SetUpRow(SetUpType(w2, row), row, index);
    if TypeDue(w, row) {
      CoveredMore(u.chip, p, u.mem.moved, OwnSets(w2, row, index), u.mem.rxheaderSet);
      SetUpOwn(w2, p, row, index);
      CoveredProto(u.chip, p, OwnSets(w2, row, index), u.mem.rxheaderSet);
    }
    if RowPins(w2, row, index).1 {
      var pin := RowPins(w2, row, index).2;
      UStaysSteady(w2, u, bus, p, row, index);
      RequestCovers(u, bus, p, row, pin);
    }
  }

  lemma UStaysSteady(w: World, u: World, bus: Bus, p: char, row: Row, index: nat)
    requires Steady(w, bus, p) && Known(w) && Adds(w, u, OwnSets(w, row, index))
    ensures Steady(u, bus, p) && Known(u)
  {
  }

  // ---- whole runs --------------------------------------------------------------------------

  /** A pass that finds the bus as it was, or another holder's reset of the chip. */
  predicate SteadyEvent(e: Event, bus: Bus) {
    && (e.Pass? ==> e.look == bus && CountedAlike(e.row.cmd))
    && (e.Pass? || e.OtherReset?)
  }

  lemma PollCovers(w: World, bus: Bus, p: char, e: Event)
    requires Remembered(w, bus, p) && e.Pass? && e.look == bus
    ensures var (v, ok) := Asked(w, e);
      && Remembered(v, bus, p) && v.mem == w.mem && v.guard.bus == bus
      && (ok ==> Granted(v))
  {
    hide AtBase;
  }

  lemma StepCovers(w: World, bus: Bus, p: char, e: Event)
    requires Remembered(w, bus, p) && SteadyEvent(e, bus)
    ensures Remembered(Next(w, e), bus, p)
  {
    hide Effective, Allowed, PollOk, RunRow, AtBase;
    if e.Pass? {
      PollCovers(w, bus, p, e);
      var (w1, ok) := Asked(w, e);
      if ok {
        RowCovers(w1, bus, p, e.row, e.index);
      }
    }
  }

  lemma {:induction false} RunCovers(w: World, bus: Bus, p: char, es: seq<Event>)
    requires Remembered(w, bus, p) && forall i :: 0 <= i < |es| ==> SteadyEvent(es[i], bus)
    ensures Remembered(RunAll(w, es), bus, p)
  {
    hide Remembered, Next, SteadyEvent;
    if es != [] {
      RunCovers(w, bus, p, Init(es));
      StepCovers(RunAll(w, Init(es)), bus, p, Last(es));
    }
  }

  /** From boot with a CAN protocol p in effect that the bus allows, over any run
      of passes and resets by others: whatever is off the baseline is remembered,
      and a row of another type than the last is asked with nothing off the
      baseline but what its own chains and its own filter set. */
  lemma EveryTypeStartsClean(boot: World, bus: Bus, p: char, es: seq<Event>, e: Event)
    requires Boot(boot) && IsCan(p) && Effective(boot.car) == p && Allowed(bus, p) && RestAtBase(boot.power, p)
    requires forall i :: 0 <= i < |es| ==> SteadyEvent(es[i], bus)
    requires e.Pass? && SteadyEvent(e, bus)
    ensures var now := RunAll(boot, es);
      && (Known(now) ==> ChipCovered(now, p))
      && var (w, ok) := Asked(now, e);
         ok && TypeDue(w, e.row) ==> OnlyItsOwn(w, p, e.row, e.index)
  {
    hide Effective, Allowed, PollOk, AtBase;
    RunCovers(boot, bus, p, es);
    var now := RunAll(boot, es);
    PollCovers(now, bus, p, e);
    var (w, ok) := Asked(now, e);
    if ok {
      RowCovers(w, bus, p, e.row, e.index);
    }
  }

  // ---- where it ends -------------------------------------------------------------------------

  /** The prelude alone forgets what was moved, so it puts a CAN chip back exactly
      when nothing it does not write was off: a baseline sent again after a switch
      of the car or a refused standing protocol leaves the rest where it was. */
  lemma PreludeAloneForgets(w: World)
    requires Granted(w) && IsCan(Effective(w.car)) && !Known(w)
    ensures var (v, ok), p := Ensure(w), Effective(w.car);
      && ok && v.mem.moved == {}
      && (AllAtBase(v.chip, p) <==> RestAtBase(w.chip, p))
  {
    hide Allowed, AtBase, Prelude, Exec;
    var p := Effective(w.car);
    EffectiveIsProto(w.car);
    PreludeIsQuiet(p);
    SendQuiet(w, Prelude(p), Unknown);
    PreludeRestores(w.chip, w.power, p);
    PreludeLeaves(w.chip, w.power, p);
  }

  lemma PreludeLeaves(c: Chip, power: Chip, p: char)
    requires IsCan(p)
    ensures forall r :: !InPrelude(r) && r != RProtocol ==>
      (AtBase(ExecAll(c, power, Prelude(p)), p, r) <==> AtBase(c, p, r))
    ensures AtBase(c, p, RProtocol)
  {
    PreludeExec(c, power, p);
  }

  /** Off CAN there is no header to put back: the prelude is sent, the header and
      the filter stay as an earlier row left them, and nothing remembers it. */
  lemma NoHeaderOffCan(w: World, r: Reg)
    requires PinOk(w, Effective(w.car)) && !IsCan(Effective(w.car))
    requires r != RSpaces && r != RHeadersOn && r != RTimeout
    ensures var v := HeaderGiveBack(w);
      v.mem.moved == {} && !v.mem.rxheaderSet && !v.mem.hdrBorrowed && Get(v.chip, r) == Get(w.chip, r)
  {
    hide Exec, Effective, Allowed, PinAllowed;
    var p := Effective(w.car);
    EffectiveIsProto(w.car);
    PreludeIsQuiet(p);
    SendQuiet(w, Prelude(p), Unknown);
    OffCanExec(w.chip, w.power, p, r);
  }

  lemma OffCanExec(c: Chip, power: Chip, p: char, r: Reg)
    requires ProtoDigit(p) && !IsCan(p) && r != RSpaces && r != RHeadersOn && r != RTimeout
    ensures Get(ExecAll(c, power, Prelude(p)), r) == Get(c, r)
  {
    hide Exec, PreludeHead;
    HeadOffCan(p);
    var h := if '1' <= p <= '5' then "H0" else "H1";
    ThreeWrites(c, power, PreludeHead(p), RSpaces, RHeadersOn, RTimeout, "S1", h, "ST96", ["ATTP" + [p]] + []);
    var c1 := Write(Write(Write(c, RSpaces, "S1"), RHeadersOn, h), RTimeout, "ST96");
    PinKeepsRegs(c1, power, p, []);
  }

  lemma HeadOffCan(p: char)
    ensures var h := if '1' <= p <= '5' then "H0" else "H1";
      && |PreludeHead(p)| == 3 && Writes(PreludeHead(p)[0], RSpaces, "S1")
      && Writes(PreludeHead(p)[1], RHeadersOn, h) && Writes(PreludeHead(p)[2], RTimeout, "ST96")
  {
    hide Writes;
    WritesS1();
    WritesH1();
    WritesH0();
    WritesST96();
  }

  lemma WritesH0()
    ensures Writes("ATH0", RHeadersOn, "H0")
  {
    Spelled4('H', '0');
    assert "ATH0" == "AT" + "H0";
    WritesText("ATH0", "H0", RHeadersOn);
  }
}
