/** Where a setting is forgotten: by a request whose settings the chain reader does
    not find, and by a baseline sent again without the restore. */
module UnseenSettings {
  import opened Wrappers
  import opened Seqs
  import opened ChainText
  import opened BusGuard
  import opened Chip
  import opened Discipline
  import opened DisciplineSafety
  import opened DisciplineRuns
  import opened DisciplineBaseline
  import opened BaselineRuns
  import opened UnsoundTexts

  // ---- the first row from boot -----------------------------------------------------------

  /** Elements that go out as they are. */
  predicate GoOut(es: seq<string>) {
    forall i :: 0 <= i < |es| ==> es[i] != "" && !IsPrint(es[i]) && !Resets(es[i])
  }

  lemma {:induction false} ChainExec(w: World, es: seq<string>)
    requires GoOut(es)
    ensures var v := SendElements(w, es);
      && v.chip == ExecAll(w.chip, w.power, es) && v.mem == w.mem && v.car == w.car && v.power == w.power
      && v.gen == w.gen
    decreases es
  {
    hide Exec, IsPrint, Resets;
    if es != [] {
      ChainExec(Send(w, es[0]), es[1..]);
    }
  }

  /** The baseline of a chip that has had none. */
  lemma EnsureSends(w: World, p: char)
    requires Granted(w) && Effective(w.car) == p && !Known(w)
    ensures var (v, ok) := Ensure(w);
      && ok && v == w.(chip := ExecAll(w.chip, w.power, Prelude(p)), log := v.log,
                       mem := PreludeOut(w).mem.(baselineSent := true, chipGen := w.gen))
  {
    hide Exec, Prelude, Allowed, Effective;
    EffectiveIsProto(w.car);
    PreludeIsQuiet(p);
    SendQuiet(w, Prelude(p), Silent);
    SendAllMem(w, Prelude(p));
  }

  /** A row of type 1 with no type init: the chip and the memory behind it. */
  lemma PerformLeaves(w: World, init: string, cmd: string, pin: char)
    requires Known(w) && !w.mem.chainCut && w.car.typeInits == [] && w.mem.lastType == -1 && !w.mem.rxheaderSet
    requires init == "" || GoOut(Split(init))
    ensures var (v, go) := Perform(w, Row(1, init, "", cmd), 0, pin);
      var es := if init == "" then [] else Split(init);
      && go && v.chip == Exec(ExecAll(w.chip, w.power, es), w.power, cmd) && v.power == w.power
      && v.mem.moved == w.mem.moved + ElementsSet(es) + ChainSets(cmd) && !v.mem.rxheaderSet
      && Known(v) == !Resets(cmd)
  {
    hide Exec, IsPrint, Resets, ElementSets, GoOut, Split, SendElements;
    if init != "" {
      ChainExec(SetUpType(w, Row(1, init, "", cmd)), Split(init));
    } else {
      assert w.mem.moved + ElementsSet([]) == w.mem.moved;
      assert ExecAll(w.chip, w.power, []) == w.chip;
    }
  }

  /** What the first row of type 1 leaves on the chip and in the runner's memory. */
  lemma FirstLeaves(power: Chip, init: string, cmd: string)
    requires init == "" || GoOut(Split(init))
    ensures var boot, row := BootOf(power, '6', []), Row(1, init, "", cmd);
      var v := Next(boot, Quietly(row, 0));
      var es := if init == "" then [] else Split(init);
      && v.chip == Exec(ExecAll(ExecAll(power, power, Prelude('6')), power, es), power, cmd) && v.power == power
      && v.mem.moved == ElementsSet(es) + ChainSets(cmd) && !v.mem.rxheaderSet && Known(v) == !Resets(cmd)
  {
    hide Exec, IsPrint, Resets, PollOk, ElementsSet, ChainSets, Prelude;
    hide Effective, Allowed, GoOut, Split, ExecAll, Perform, Ensure, RowPins;
    var boot, row := BootOf(power, '6', []), Row(1, init, "", cmd);
    BootIsSafe(boot);
    LookGrants(boot, Silent, '6');
    var w := Asked(boot, Quietly(row, 0)).0;
    StoredIsEffective(w.car, '6');
    EnsureSends(w, '6');
    var w1 := Ensure(w).0;
    FirstPins(w1, row, []);
    PerformLeaves(w1, init, cmd, RowPins(w1, row, 0).2);
  }

  // ---- a request whose settings the chain reader does not find ----------------------------

  /** Its register is off the baseline, and none of the chain's facets. */
  lemma UncountedSets(cmd: string, c: Chip, power: Chip)
    requires !CountedAlike(cmd)
    ensures exists r :: !AtBase(Exec(c, power, cmd), '6', r) && FacetOf(r) !in ChainSets(cmd) && !Resets(cmd)
  {
    hide ChainSets, Norm, Rule, Resets, CmdProto, VendorSwitch;
    if ';' !in cmd {
      RequestSets(cmd);
    }
    SeparatedOpensNothing(cmd);
    SeparatedIsNoVendor(cmd);
    var body, t := Body(cmd).value, Rule(Body(cmd).value).value;
    SeparatedBody(cmd);
    NoSeparatorInBase('6', t.reg);
    ProtocolFacet(t.reg);
    assert !AtBase(Exec(c, power, cmd), '6', t.reg);
  }

  lemma ProtocolFacet(r: Reg)
    ensures FacetOf(r) == Protocol <==> r == RProtocol
  {
  }

  lemma SeparatedBody(cmd: string)
    requires ';' in cmd && Body(cmd).Some?
    ensures ';' in Body(cmd).value
  {
    NormKeeps(cmd, ';');
    var c := Norm(cmd);
    var i :| 0 <= i < |c| && c[i] == ';';
    assert c[2..][i - 2] == ';';
  }

  lemma NoSeparatorInBase(p: char, r: Reg)
    ensures ';' !in Base(p, r)
  {
  }

  /** After a pass with such a request, on a silent bus, the runner has lost a setting. */
  lemma UncountedIsLost(power: Chip, cmd: string)
    requires !CountedAlike(cmd) && RestAtBase(power, '6')
    ensures Loses(BootOf(power, '6', []), Silent, '6', [Quietly(Row(1, "", "", cmd), 0)])
  {
    hide Next, ChainSets, AtBase, Exec, Resets, Effective, RestAtBase;
    var boot, e := BootOf(power, '6', []), Quietly(Row(1, "", "", cmd), 0);
    StoredIsEffective(boot.car, '6');
    FirstLeaves(power, "", cmd);
    var c0 := ExecAll(ExecAll(power, power, Prelude('6')), power, []);
    UncountedSets(cmd, c0, power);
    assert Init([e]) == [] && Last([e]) == e;
    assert RunAll(boot, [e]) == Next(RunAll(boot, []), e) == Next(boot, e);
  }

  /** A run from boot, with p in effect and allowed, that ends in a state with a register
      off the baseline that is not remembered. */
  ghost predicate Loses(boot: World, bus: Bus, p: char, es: seq<Event>) {
    && Boot(boot) && IsCan(p) && Effective(boot.car) == p && Allowed(bus, p) && RestAtBase(boot.power, p)
    && Known(RunAll(boot, es)) && !ChipCovered(RunAll(boot, es), p)
  }

  predicate SteadyBut(e: Event, bus: Bus, cmd: string) {
    && (e.Pass? ==> e.look == bus && (CountedAlike(e.row.cmd) || e.row.cmd == cmd))
    && (e.Pass? || e.OtherReset?)
  }

  /** Tables that hold that request lose no setting in any such run. */
  ghost predicate Remembers(cmd: string) {
    forall boot, bus, p, es :: Loses(boot, bus, p, es) ==> !(forall i :: 0 <= i < |es| ==> SteadyBut(es[i], bus, cmd))
  }

  /** A request is remembered in every table exactly when it is counted alike. */
  lemma RequestMustBeCounted(power: Chip, cmd: string)
    requires RestAtBase(power, '6')
    ensures Remembers(cmd) <==> CountedAlike(cmd)
  {
    hide Loses, CountedAlike, RestAtBase;
    if CountedAlike(cmd) {
      forall boot, bus, p, es | Loses(boot, bus, p, es) && forall i :: 0 <= i < |es| ==> SteadyBut(es[i], bus, cmd)
        ensures false
      {
        CountedLosesNothing(boot, bus, p, es, cmd);
      }
    } else {
      UncountedIsLost(power, cmd);
    }
  }

  lemma CountedLosesNothing(boot: World, bus: Bus, p: char, es: seq<Event>, cmd: string)
    requires CountedAlike(cmd) && forall i :: 0 <= i < |es| ==> SteadyBut(es[i], bus, cmd)
    ensures !Loses(boot, bus, p, es)
  {
    hide CountedAlike, Allowed, Effective, ChipCovered, Asked;
    if Loses(boot, bus, p, es) {
      RunCovers(boot, bus, p, es);
    }
  }

  // ---- a baseline sent again -----------------------------------------------------------------

  lemma NothingSets(r: Reg)
    ensures Split("") + Split("") == ["", ""] && !SetBy(["", ""], r)
  {
    NothingRead(Silent);
    assert Norm("") == "";
  }

  /** A row without chains of its own, of another type, with nothing moved. */
  lemma PlainRowAsks(w: World, row: Row)
    requires row == Row(row.typ, "", "", ASK) && row.typ != w.mem.lastType && w.car.typeInits == []
    requires w.mem.moved == {} && !w.mem.hdrBorrowed && !w.mem.rxheaderSet && !w.mem.chainCut && w.mem.initPin == NUL
    ensures Prepare(w, row, 0) == (w, true) && RowPins(w, row, 0).1 && RowPins(w, row, 0).0 == w
    ensures var at := SetUpRow(SetUpType(w, row), row, 0);
      at.chip == w.chip && at.mem.moved == {} && !at.mem.rxheaderSet && !at.mem.chainCut
    ensures Due(w, row, 0) == Split("") + Split("")
  {
    hide ChainSets, Split, ReadChain;
    NoInit();
    AskText();
  }

  /** Behind a baseline that is sent again, a row of another type without chains of its
      own is asked with nothing remembered as moved, and meets the settings of another
      exactly when a register the prelude does not write was off. */
  lemma SentAgain(w: World, row: Row)
    requires Inv(w) && Granted(w) && Effective(w.car) == '6' && !Known(w) && w.car.typeInits == []
    requires row == Row(row.typ, "", "", ASK) && row.typ != w.mem.lastType
    ensures RunRow(w, row, 0).1 && AtRequest(w, row, 0).mem.moved == {}
    ensures OnlyItsOwn(w, '6', row, 0) <==> RestAtBase(w.chip, '6')
    ensures AtRequest(w, row, 0).chip == ExecAll(w.chip, w.power, Prelude('6'))
  {
    hide Effective, Allowed, AtBase, Prelude, Exec, SetUpRow, SetUpType;
    hide SetBy, ChainSets, Split, RowPins, Due, ExecAll, Ensure;
    EnsureSends(w, '6');
    var w1 := Ensure(w).0;
    PlainRowAsks(w1, row);
    PreludeAloneForgets(w);
    PreludeRestores(w.chip, w.power, '6');
    forall r
      ensures !SetBy(Due(w1, row, 0), r)
    {
      NothingSets(r);
    }
  }

  /** The request goes out with that register off the baseline, with nothing remembered
      as moved, and none of the row's own chains sets it. */
  ghost predicate AskedOff(w: World, row: Row, r: Reg) {
    var at := AtRequest(w, row, 0);
    && RunRow(w, row, 0).1 && TypeDue(w, row)
    && !AtBase(at.chip, '6', r) && at.mem.moved == {} && !OnlyItsOwn(w, '6', row, 0)
  }

  lemma SentAgainOff(w: World, row: Row, r: Reg)
    requires Inv(w) && Granted(w) && Effective(w.car) == '6' && !Known(w) && w.car.typeInits == []
    requires row == Row(row.typ, "", "", ASK) && row.typ != w.mem.lastType
    requires !InPrelude(r) && !AtBase(w.chip, '6', r)
    ensures AskedOff(w, row, r)
  {
    hide OnlyItsOwn, AtRequest, RunRow, AtBase, Prelude, ExecAll, Granted, Inv, Effective;
    SentAgain(w, row);
    PreludeLeaves(w.chip, w.power, '6');
    AtBaseProtocol(w.chip, '6');
  }

  lemma AtBaseProtocol(c: Chip, p: char)
    ensures AtBase(c, p, RProtocol)
  {
  }

  /** A command that puts a register the prelude does not write off the baseline. */
  predicate PutsOff(cmd: string, r: Reg, v: string) {
    Writes(cmd, r, v) && v != Base('6', r) && !InPrelude(r) && !IsPrint(cmd)
  }

  /** Behind a first row whose init starts with such a command and then sets no register,
      the register is off. */
  lemma FirstPutsOff(power: Chip, init: string, es: seq<string>, cmd: string, r: Reg, v: string)
    requires init != "" && Split(init) == [cmd] + es && PutsOff(cmd, r, v) && GoOut(es) && cmd != ""
    requires forall i :: 0 <= i < |es| ==> CmdProto(es[i]) != NUL
    ensures !AtBase(Next(BootOf(power, '6', []), Quietly(Row(1, init, "", ASK), 0)).chip, '6', r)
  {
    hide Next, Prelude, CmdProto, Resets, Norm, IsPrint, RegOf, Base, Split, VendorSwitch;
    SettingGoesOut(cmd);
    FirstLeaves(power, init, ASK);
    var c0 := ExecAll(power, power, Prelude('6'));
    ExecWrites(c0, power, cmd, r, v);
    assert ([cmd] + es)[1..] == es;
    ProtosKeep(Exec(c0, power, cmd), power, es, r);
    AskKeeps(ExecAll(c0, power, [cmd] + es), power);
  }

  lemma SettingGoesOut(cmd: string)
    requires Setting(cmd)
    ensures cmd != "" && !Resets(cmd)
  {
  }

  lemma AskKeeps(c: Chip, power: Chip)
    ensures Exec(c, power, ASK) == c
  {
    AskText();
    AskNorm();
  }

  lemma {:induction false} ProtosKeep(c: Chip, power: Chip, es: seq<string>, r: Reg)
    requires GoOut(es) && forall i :: 0 <= i < |es| ==> CmdProto(es[i]) != NUL
    ensures Get(ExecAll(c, power, es), r) == Get(c, r)
    decreases es
  {
    hide CmdProto, Resets, IsPrint;
    if es != [] {
      ProtosKeep(Exec(c, power, es[0]), power, es[1..], r);
    }
  }

  /** After another car is made current, or the same one again, the first row is of
      another type: it is asked with a register off that an earlier row's init put off. */
  lemma SwitchForgets(power: Chip, cmd: string, r: Reg, v: string)
    requires PutsOff(cmd, r, v) && Split(cmd) == [cmd]
    ensures var boot, e := BootOf(power, '6', []), Quietly(Row(2, "", "", ASK), 0);
      var es := [Quietly(Row(1, cmd, "", ASK), 0), NewCar('6', [])];
      var (w, ok) := Asked(RunAll(boot, es), e);
      Boot(boot) && ok && AskedOff(w, e.row, r)
  {
    hide AskedOff, RequestSafe, RunRow, PollOk, Resets, VendorSwitch, PutsOff, AtBase, CmdProto, Split, Allowed;
    var boot, row := BootOf(power, '6', []), Row(2, "", "", ASK);
    var a, b := Quietly(Row(1, cmd, "", ASK), 0), NewCar('6', []);
    PutsOffIsText(cmd, r, v);
    assert [cmd] + [] == [cmd];
    FirstPutsOff(power, cmd, [], cmd, r, v);
    AskText();
    FirstGoes(power, '6', [], Row(1, cmd, "", ASK));
    TwoEvents(boot, a, b);
    var w1 := Next(boot, a);
    var w2 := Next(w1, b);
    StepKeeps(w1, b);
    LookGrants(w2, Silent, '6');
    StoredIsEffective(w2.car, '6');
    SentAgainOff(Asked(w2, Quietly(row, 0)).0, row, r);
  }

  lemma PutsOffIsText(cmd: string, r: Reg, v: string)
    requires PutsOff(cmd, r, v)
    ensures cmd != "" && !InPrelude(r)
  {
  }

  /** The same when the guard refuses the protocol an earlier init left: the row itself
      is not asked, and the first one of another type behind it meets the setting. */
  lemma RefusalForgets(power: Chip, init: string, cmd: string, r: Reg, v: string)
    requires PutsOff(cmd, r, v) && Split(init) == [cmd, SetTo('8')] && init != ""
    ensures var boot, e := BootOf(power, '6', []), Pass(Live(500), [], Row(2, "", "", ASK), 0, false);
      var es := [Quietly(Row(1, init, "", ASK), 0), AwakePass(Live(500), ASK, 1)];
      var (w, ok) := Asked(RunAll(boot, es), e);
      Boot(boot) && ok && AskedOff(w, e.row, r)
  {
    hide AskedOff, RequestSafe, RunRow, PollOk, Resets, VendorSwitch, PutsOff, AtBase, CmdProto, Split, Allowed;
    var boot, row := BootOf(power, '6', []), Row(2, "", "", ASK);
    var a, b := Quietly(Row(1, init, "", ASK), 0), AwakePass(Live(500), ASK, 1);
    PutsOffIsText(cmd, r, v);
    SetGoesOut('8');
    assert [cmd] + [SetTo('8')] == [cmd, SetTo('8')];
    FirstPutsOff(power, init, [SetTo('8')], cmd, r, v);
    AskText();
    FirstGoes(power, '6', [], Row(1, init, "", ASK));
    TwoEvents(boot, a, b);
    var w1 := Next(boot, a);
    var w2 := Next(w1, b);
    StepKeeps(w1, b);
    NotesEight(cmd, init);
    PinIsRefused(w1);
    StillGranted(w2);
    SentAgainOff(Asked(w2, Pass(Live(500), [], row, 0, false)).0, row, r);
  }

  lemma SetGoesOut(p: char)
    requires Stored(p)
    ensures GoOut([SetTo(p)]) && CmdProto(SetTo(p)) == p
  {
    hide Norm, CmdProto, Resets, SetTo;
    SetText(p);
    SetNorm(p);
    assert Norm(SetTo(p))[2] == 'S';
  }

  /** A chain that ends on that protocol is noted with it. */
  lemma NotesEight(cmd: string, init: string)
    requires Split(init) == [cmd, SetTo('8')]
    ensures NoteOf(NUL, init, ASK) == '8'
  {
    hide CmdProto, Resets, SetTo;
    SetText('8');
    AskText();
    assert Init([cmd, SetTo('8')]) == [cmd] && Last([cmd, SetTo('8')]) == SetTo('8');
  }

  /** A look at a bus that names the rate of the protocol in effect. */
  lemma LiveStands(w: World)
    requires Inv(w) && !w.guard.final && w.car == Car('0', '6', false, [])
    ensures var (v, ok) := PollOk(w, Live(500), []);
      && ok && v.guard.final && v.guard.finalOk && v.guard.ruledProto == '6' && v.guard.bus == Live(500)
      && v == w.(guard := v.guard)
  {
  }

  lemma PinsRefused(w: World)
    requires w.guard.bus == Live(500) && w.mem.initPin == '8' && w.mem.lastType == 1 && w.mem.lastPid == 0
    ensures RowPins(w, Row(1, "", "", ASK), 1) == (RunnerReset(w.(mem := w.mem.(baselineSent := false))), false, NUL)
  {
    hide Split, ReadChain;
    NothingRead(Live(500));
    AskText();
    LastIsBusFree(Live(500), Split(ASK));
  }

  /** The bus wakes up at a rate that refuses the noted protocol. */
  lemma PinIsRefused(w: World)
    requires Inv(w) && Known(w) && !w.guard.final && w.car == Car('0', '6', false, [])
    requires w.mem.initPin == '8' && !w.mem.hdrBorrowed && w.mem.lastType == 1 && w.mem.lastPid == 0
    ensures var v := Next(w, AwakePass(Live(500), ASK, 1));
      && v.chip == w.chip && v.car == w.car && v.guard.final && v.guard.finalOk && v.guard.ruledProto == '6'
      && v.guard.bus == Live(500) && !v.mem.baselineSent && v.mem.lastType == -1
  {
    hide PollOk, Split, ReadChain, ChainSets, RowPins;
    LiveStands(w);
    var u, row := Asked(w, AwakePass(Live(500), ASK, 1)).0, Row(1, "", "", ASK);
    ReadyAsIs(u, row, 1);
    PinsRefused(u);
  }

  lemma StillGranted(w: World)
    requires Inv(w) && w.car == Car('0', '6', false, [])
    requires w.guard.final && w.guard.finalOk && w.guard.ruledProto == '6'
    ensures var (v, ok) := PollOk(w, Live(500), []);
      ok && Granted(v) && Inv(v) && v == w.(guard := v.guard) && Effective(v.car) == '6'
  {
    PollGrants(w, Live(500), []);
  }

  // ---- the texts, spelled out ------------------------------------------------------------------

  lemma AddressText()
    ensures var s := "ATCEA60"; Plain(s) && |s| == 7 && s[3] == 'E' && s[2] == 'C' && ';' !in s && Norm(s) == s
  {
    hide Norm;
    var s := "ATCEA60";
    assert s[0] == 'A' && s[1] == 'T' && s[2] == 'C' && s[3] == 'E' && s[4] == 'A';
    assert s[5] == '6' && s[6] == '0' && |s| == 7;
    PlainNorm(s);
  }

  lemma ExtendedAddress()
    ensures PutsOff("ATCEA60", RExtAddr, "CEA60") && ';' !in "ATCEA60"
  {
    hide Norm, Plain, Setting, Writes, RegOf, CmdProto, Resets;
    var s, v := "ATCEA60", "CEA60";
    AddressText();
    assert s != "ATWS" && s != "ATH0" && s != "ATS0" && s != "ATE1";
    Spelled7('C', 'E', 'A', '6', '0');
    assert s == "AT" + v;
    assert v[..3] == "CEA" && v[0] == 'C' && v[1] == 'E' && |v| == 5;
    ExtendedRule(v);
    WritesText(s, v, RExtAddr);
  }

  lemma ExtendedRule(body: string)
    requires |body| == 5 && body[..3] == "CEA" && body[0] == 'C' && body[1] == 'E'
    ensures RegOf(body) == Some(RExtAddr)
  {
    ArgFirst(body, "FCSH");
    ArgFirst(body, "FCSD");
    ArgFirst(body, "FCSM");
  }

  /** An init `ATCEA60` is forgotten by a switch of the car, and with `ATSP8` behind it
      by a bus that wakes up at 500 kbit/s. */
  lemma AddressIsForgotten(power: Chip)
    ensures var boot, e := BootOf(power, '6', []), Quietly(Row(2, "", "", ASK), 0);
      var es := [Quietly(Row(1, "ATCEA60", "", ASK), 0), NewCar('6', [])];
      var (w, ok) := Asked(RunAll(boot, es), e);
      ok && AskedOff(w, e.row, RExtAddr)
    ensures var boot, e := BootOf(power, '6', []), Pass(Live(500), [], Row(2, "", "", ASK), 0, false);
      var es := [Quietly(Row(1, "ATCEA60;ATSP8", "", ASK), 0), AwakePass(Live(500), ASK, 1)];
      var (w, ok) := Asked(RunAll(boot, es), e);
      ok && AskedOff(w, e.row, RExtAddr)
  {
    hide RunAll, AskedOff, Asked, PutsOff;
    ExtendedAddress();
    SplitAt("ATCEA60", 7);
    AddressThenEight();
    SwitchForgets(power, "ATCEA60", RExtAddr, "CEA60");
    RefusalForgets(power, "ATCEA60;ATSP8", "ATCEA60", RExtAddr, "CEA60");
  }

  lemma AddressParts()
    ensures var s := "ATCEA60;ATSP8";
      |s| == 13 && s[7] == ';' && s[..7] == "ATCEA60" && s[8..] == SetTo('8')
  {
    var s := "ATCEA60;ATSP8";
    assert s[7] == ';' && |s| == 13;
    assert s[8..] == "ATSP8" == SetTo('8');
  }

  lemma AddressThenEight()
    ensures Split("ATCEA60;ATSP8") == ["ATCEA60", SetTo('8')]
  {
    hide Split, SetTo;
    var s := "ATCEA60;ATSP8";
    AddressParts();
    ExtendedAddress();
    forall i | 0 <= i < 7
      ensures s[i] != ';'
    {
      assert s[i] == s[..7][i];
    }
    SplitAt(s, 7);
    SetSplit('8');
  }
}
