/** The texts the guard cannot see through: for each of them a run from boot, with
    sound texts otherwise, whose request goes out where it must not. And the chain that
    asks before it sets. */
module UnsoundTexts {
  import opened Numerals
  import opened Seqs
  import opened ChainText
  import opened BusGuard
  import opened Chip
  import opened Discipline
  import opened DisciplineSafety
  import opened DisciplineRuns

  // ---- passes on a silent bus ------------------------------------------------------------

  /** The state at boot of a car on that protocol. */
  function BootOf(power: Chip, stored: char, inits: seq<string>): World {
    World(Guard(Unknown, false, false, NUL, NUL, false, false), Mem(false, 0, false, false, NUL, {}, false, -1, -1),
          Car('0', stored, false, inits), power, power, 0, [])
  }

  predicate Stored(p: char) {
    p == '6' || p == '8'
  }

  /** Between passes of type 1 rows: the chip on q, the runner noting pin. */
  ghost predicate Stands(w: World, stored: char, q: char, pin: char, index: nat) {
    && Inv(w) && Known(w) && !w.guard.final && w.car == Car('0', stored, false, []) && Stored(stored)
    && w.chip.proto == q && w.mem.initPin == pin && !w.mem.hdrBorrowed
    && w.mem.lastType == 1 && w.mem.lastPid == index
  }

  function Quietly(row: Row, index: nat): Event {
    Pass(Silent, [], row, index, false)
  }

  /** A look at a bus that allows the car's protocol. */
  lemma LookGrants(w: World, bus: Bus, stored: char)
    requires Inv(w) && !w.guard.final && w.car == Car('0', stored, false, w.car.typeInits) && Stored(stored)
    requires bus == Silent || bus == Live(Kbps(stored))
    ensures var (v, ok) := PollOk(w, bus, []);
      && ok && Granted(v) && Inv(v) && v.guard.bus == bus && v.guard.final == bus.Live?
      && v == w.(guard := v.guard)
  {
    PollGrants(w, bus, []);
  }

  function NoteOf(pin: char, init: string, cmd: string): char {
    Then(Then(pin, LastOf(Split(init))), LastOf(Split(cmd)))
  }

  lemma NothingRead(bus: Bus)
    ensures Split("") == [""] && ReadChain(bus, Split("")) == Reading(true, NUL, NUL)
    ensures !Opens("") && !VendorSwitch("") && !Transmits("")
  {
    OpensIsLocal("");
    SplitAt("", 0);
    SingleReading(bus, "");
    LastIsBusFree(bus, [""]);
    ReadingMeans(bus, [""]);
  }

  lemma EmptyFirst(q: char, es: seq<string>, p: char)
    ensures EndsOn(q, [""] + es, p) == EndsOn(q, es, p)
  {
    NothingRead(Silent);
    assert ([""] + es)[0] == "" && ([""] + es)[1..] == es;
  }

  /** On a silent bus every chain is let through. */
  lemma {:induction false} SilentAllows(es: seq<string>)
    ensures ReadChain(Silent, es).ok
  {
    hide CmdProto, Resets;
    if es != [] {
      SilentAllows(Init(es));
    }
  }

  /** A row of type 1 without a type init, let through. */
  lemma PinsOf(w: World, row: Row, index: nat)
    requires w.car.typeInits == [] && row.typ == 1 && (w.mem.lastType != 1 || w.mem.lastPid != index)
    requires ReadChain(w.guard.bus, Split(row.init)).ok && ReadChain(w.guard.bus, Split(row.cmd)).ok
    requires NoteOf(NUL, row.init, row.cmd) == NUL && w.mem.initPin != NUL ==> Allowed(w.guard.bus, w.mem.initPin)
    ensures RowPins(w, row, index) == (w, true, NoteOf(w.mem.initPin, row.init, row.cmd))
    ensures Due(w, row, index) == [""] + Split(row.init)
  {
    hide ReadChain, Allowed, Split;
    var bus := w.guard.bus;
    NothingRead(bus);
    LastIsBusFree(bus, Split(row.init));
    LastIsBusFree(bus, Split(row.cmd));
  }

  /** What is ready for a row of type 1: the chip as it stands. */
  lemma ReadyAsIs(w: World, row: Row, index: nat)
    requires Known(w) && !w.mem.hdrBorrowed && w.mem.lastType == 1 && row.typ == 1
    ensures Ready(w, row, index) == w && Ensure(w) == (w, true) && Prepare(w, row, index) == (w, true)
  {
    hide ChainSets;
  }

  /** One more row of type 1, permitted: where its request goes out, and what is left. */
  lemma RowGoes(w: World, stored: char, q: char, pin: char, i: nat, row: Row, j: nat)
    requires Stands(w.(guard := w.guard.(final := false)), stored, q, pin, i) && Granted(w) && Inv(w)
    requires row.typ == 1 && j != i && !Resets(row.cmd)
    requires ReadChain(w.guard.bus, Split(row.init)).ok && ReadChain(w.guard.bus, Split(row.cmd)).ok
    requires NoteOf(NUL, row.init, row.cmd) == NUL && pin != NUL ==> Allowed(w.guard.bus, pin)
    ensures var (v, requested) := RunRow(w, row, j);
      var at := EndsOn(q, Split(row.init), stored);
      && requested && v.guard == w.guard && Last(v.log) == Sent(row.cmd, at) && v.log != []
      && Stands(v.(guard := v.guard.(final := false)), stored, NextProto(at, row.cmd, at),
                NoteOf(pin, row.init, row.cmd), j)
      && (RequestSafe(v, row) <==> Opens(row.cmd) || (!VendorSwitch(row.cmd) && Cleared(w.guard.bus, at)))
      && (SafeSince(w.guard.bus, v.log, |w.log|) <==>
            !Exposed(w.guard.bus, q, [""] + Split(row.init) + [row.cmd], stored))
  {
    hide ReadChain, Allowed, Split, Exposed, EndsOn, NextProto, Perform, Transmits, VendorSwitch, RowPins, Due, NoteOf;
    StoredIsEffective(w.car, stored);
    ReadyAsIs(w, row, j);
    PinsOf(w, row, j);
    EmptyFirst(q, Split(row.init), stored);
    PerformEffect(w, row, j);
    PermittedIsExact(w, w, row, j);
    PerformMem(w, row, j);
    PinIsDigit(w, row, j);
  }

  lemma StoredIsEffective(car: Car, stored: char)
    requires car == Car('0', stored, false, car.typeInits) && Stored(stored)
    ensures Effective(car) == stored
  {
  }

  lemma {:induction false} ChainKeepsHeader(w: World, es: seq<string>)
    requires !w.mem.hdrBorrowed
    ensures !SendElements(w, es).mem.hdrBorrowed
    decreases es
  {
    hide Exec, IsPrint, Resets;
    if es != [] {
      SendAllMem(Send(w, es[0]), Prelude(Effective(w.car)));
      ChainKeepsHeader(SendElement(w, es[0]).0, es[1..]);
    }
  }

  lemma {:induction false} SendAllMem(w: World, es: seq<string>)
    ensures SendAll(w, es).mem == w.mem
    decreases es
  {
    if es != [] {
      SendAllMem(Send(w, es[0]), es[1..]);
    }
  }

  /** What a row of type 1 leaves in the runner's memory. */
  lemma PerformMem(w: World, row: Row, index: nat)
    requires Granted(w) && Known(w) && !w.mem.chainCut && RowPins(w, row, index).1
    requires row.typ == 1 && !Resets(row.cmd) && w.car.typeInits == [] && !w.mem.hdrBorrowed
    requires w.mem.lastType == 1 ==> w.mem.lastPid != index
    ensures var v := Perform(w, row, index, RowPins(w, row, index).2).0;
      v.mem.lastType == 1 && v.mem.lastPid == index && !v.mem.hdrBorrowed && Known(v)
  {
    hide SendElements, ChainSets, Exec, Effective, Allowed, RowPins;
    SetUpEffect(w, row, index);
    var w1 := SetUpType(w, row);
    ChainKeepsHeader(w1, Split(row.init));
    TypeEffect(w, row);
    RowEffect(w1, row, index, if index == w1.mem.lastPid then "" else row.init);
    InitEffect(w1, row.init);
  }

  /** The first row from boot, on a silent bus. */
  lemma FirstGoes(power: Chip, stored: char, inits: seq<string>, row: Row)
    requires Stored(stored) && row.typ == 1
    ensures var boot, e := BootOf(power, stored, inits), Quietly(row, 0);
      var (w, ok) := Asked(boot, e);
      var (v, requested) := RunRow(w, row, 0);
      var t := if |inits| > 1 then inits[1] else "";
      var at := EndsOn(stored, Split(t) + Split(row.init), stored);
      && Boot(boot) && ok && Granted(w) && requested && Next(boot, e) == v && Inv(v)
      && (RequestSafe(v, row) <==> Opens(row.cmd) || (!VendorSwitch(row.cmd) && Cleared(Silent, at)))
      && (inits == [] && !Resets(row.cmd) ==>
            Stands(v, stored, NextProto(at, row.cmd, at), NoteOf(NUL, row.init, row.cmd), 0))
  {
    hide ReadChain, Split, Exposed, EndsOn, NextProto, Perform;
    hide Transmits, VendorSwitch, RowPins, PollOk, SendPrelude, NoteOf;
    var boot := BootOf(power, stored, inits);
    BootIsSafe(boot);
    LookGrants(boot, Silent, stored);
    var w := Asked(boot, Quietly(row, 0)).0;
    StoredIsEffective(w.car, stored);
    EffectiveIsProto(w.car);
    SendPreludeEffect(w, stored, Silent);
    EnsureEffect(w);
    var w1 := Ensure(w).0;
    FirstPins(w1, row, inits);
    PerformEffect(w1, row, 0);
    PermittedIsExact(w, w1, row, 0);
    if inits == [] && !Resets(row.cmd) {
      PinsOf1(w1, row);
      PerformMem(w1, row, 0);
    }
  }

  lemma FirstPins(w: World, row: Row, inits: seq<string>)
    requires w.guard.bus == Silent && row.typ == 1 && w.mem.lastType == -1 && w.car.typeInits == inits
    requires w.mem.initPin == NUL
    ensures RowPins(w, row, 0).1 && RowPins(w, row, 0).0 == w
    ensures Due(w, row, 0) == Split(if |inits| > 1 then inits[1] else "") + Split(row.init)
  {
    hide ReadChain, Split;
    SilentAllows(Split(DueTypeInit(w, row)));
    SilentAllows(Split(row.init));
    SilentAllows(Split(row.cmd));
  }

  lemma PinsOf1(w: World, row: Row)
    requires w.guard.bus == Silent && row.typ == 1 && w.car.typeInits == []
    requires w.mem.lastType == -1 && w.mem.initPin == NUL
    ensures RowPins(w, row, 0).2 == NoteOf(NUL, row.init, row.cmd)
  {
    SilentAllows(Split(row.init));
    SilentAllows(Split(row.cmd));
    PinsOf(w, row, 0);
  }

  // ---- the small texts -------------------------------------------------------------------

  /** A command that sets that protocol. */
  predicate SetsTo(cmd: string, p: char) {
    Split(cmd) == [cmd] && CmdProto(cmd) == p && !Resets(cmd) && !Transmits(cmd)
  }

  function SetTo(p: char): string {
    "ATSP" + [p]
  }

  lemma SetText(p: char)
    requires Stored(p)
    ensures SetsTo(SetTo(p), p) && SoundChain(SetTo(p))
  {
    hide Norm, SetTo;
    var s := SetTo(p);
    SetNorm(p);
    SplitAt(s, 5);
    assert s[..2] == [s[0], s[1]];
    assert Last([s]) == s;
  }

  lemma SetNorm(p: char)
    requires Stored(p)
    ensures var s := SetTo(p);
      Norm(s) == s && |s| == 5 && s[0] == 'A' && s[1] == 'T' && s[2] == 'S' && s[3] == 'P' && s[4] == p && ';' !in s
  {
    var s := SetTo(p);
    assert s[0] == 'A' && s[1] == 'T' && s[2] == 'S' && s[3] == 'P' && s[4] == p && |s| == 5;
    PlainNorm(s);
  }

  lemma SetSplit(p: char)
    requires Stored(p)
    ensures Split(SetTo(p)) == [SetTo(p)]
  {
    hide CmdProto, Resets, Transmits, SetTo;
    SetText(p);
  }

  const ASK: string := "01"

  /** A request like any other. */
  lemma AskText()
    ensures Split(ASK) == [ASK] && Transmits(ASK) && !Opens(ASK) && !VendorSwitch(ASK) && SoundRequest(ASK)
    ensures LastOf(Split(ASK)) == NUL && forall bus :: ReadChain(bus, Split(ASK)).ok
  {
    var s := ASK;
    assert s[0] == '0' && s[1] == '1' && |s| == 2;
    PlainNorm(s);
    SingleReading(Unknown, s);
    forall bus
      ensures ReadChain(bus, Split(ASK)).ok
    {
      SingleReading(bus, ASK);
    }
  }

  lemma NoInit()
    ensures SoundChain("") && LastOf(Split("")) == NUL && forall bus :: ReadChain(bus, Split("")).ok
  {
    NothingRead(Unknown);
    assert Last([""]) == "" && Init([""]) == [];
    forall bus
      ensures ReadChain(bus, Split("")).ok
    {
      NothingRead(bus);
    }
  }

  // ---- a vendor's switch ------------------------------------------------------------------

  /** The last pass of a run from boot sends a request that is not safe. */
  ghost predicate Breaks(boot: World, es: seq<Event>, e: Event) {
    && Boot(boot) && e.Pass?
    && var (w, ok) := Asked(RunAll(boot, es), e);
       ok && Granted(w)
       && var (v, requested) := RunRow(w, e.row, e.index); requested && !RequestSafe(v, e.row)
  }

  /** Each chain that ends on a vendor's switch breaks the claim as an init: the plain
      request behind it goes out on a protocol the guard knows nothing of. */
  lemma UnsoundInitBreaks(power: Chip, chain: string)
    requires !SoundChain(chain)
    ensures Breaks(BootOf(power, '6', []), [], Quietly(Row(1, chain, "", ASK), 0))
  {
    hide RequestSafe, Asked, RunRow, Split, Unseen;
    AskText();
    FirstGoes(power, '6', [], Row(1, chain, "", ASK));
    NothingRead(Silent);
    EmptyFirst('6', Split(chain), '6');
    LastMeansEnd(Silent, '6', Split(chain), '6');
  }

  /** So it does as a type's init. */
  lemma UnsoundTypeInitBreaks(power: Chip, chain: string)
    requires !SoundChain(chain)
    ensures Breaks(BootOf(power, '6', ["", chain]), [], Quietly(Row(1, "", "", ASK), 0))
  {
    hide RequestSafe, Asked, RunRow, Unseen;
    AskText();
    FirstGoes(power, '6', ["", chain], Row(1, "", "", ASK));
    NothingRead(Silent);
    var es := Split(chain);
    LastMeansEnd(Silent, '6', es, '6');
    EndsConcat('6', es, [""], '6');
    EmptyFirst(VENDOR, [], '6');
    assert [""] + [] == [""];
  }

  /** And a request that is one leaves the chip there. */
  lemma VendorRequestBreaks(power: Chip, cmd: string)
    requires VendorSwitch(cmd)
    ensures Breaks(BootOf(power, '6', []), [], Quietly(Row(1, "", "", cmd), 0))
  {
    hide RequestSafe, Asked, RunRow, Split;
    VendorOpensNothing(cmd);
    FirstGoes(power, '6', [], Row(1, "", "", cmd));
  }

  lemma VendorOpensNothing(cmd: string)
    requires VendorSwitch(cmd)
    ensures !Opens(cmd)
  {
  }

  // ---- a request that reads as a chain -----------------------------------------------------

  /** The rate of the bus on which the noted protocol is allowed, and the protocols of
      a car on it and of one that is not. */
  function RateFor(last: char): nat {
    if Kbps(last) == 250 then 250 else 500
  }

  function CarFor(last: char): char {
    if Kbps(last) == 250 then '8' else '6'
  }

  function OtherThan(last: char): char {
    if Kbps(last) == 250 then '6' else '8'
  }

  /** A row that leaves the chip on the other protocol, the request in question, and
      then, with the bus awake, a row like any other. */
  function DisguiseRun(cmd: string): seq<Event> {
    var last := LastOf(Split(cmd));
    [Quietly(Row(1, SetTo(OtherThan(last)), "", ASK), 0), Quietly(Row(1, "", "", cmd), 1)]
  }

  function AwakePass(bus: Bus, cmd: string, index: nat): Event {
    Pass(bus, [], Row(1, "", "", cmd), index, false)
  }

  lemma DisguisedIsSeparated(cmd: string)
    requires !ReadAlike(cmd)
    ensures ';' in cmd && !Opens(cmd) && LastOf(Split(cmd)) != NUL && !VendorSwitch(cmd)
  {
    if ';' !in cmd {
      SingleReading(Unknown, cmd);
    }
    SeparatedOpensNothing(cmd);
    SeparatedIsNoVendor(cmd);
  }

  lemma SeparatedIsNoVendor(cmd: string)
    requires ';' in cmd
    ensures !VendorSwitch(cmd)
  {
    NormKeeps(cmd, ';');
    var c := Norm(cmd);
    var i :| 0 <= i < |c| && c[i] == ';';
    assert !IsHex(';');
    assert AllHexFrom(c, 3) ==> i < 3;
  }

  /** Behind the first row the chip is on the other protocol. */
  lemma OtherPinned(power: Chip, last: char)
    ensures var boot := BootOf(power, CarFor(last), []);
      Stands(Next(boot, Quietly(Row(1, SetTo(OtherThan(last)), "", ASK), 0)), CarFor(last), OtherThan(last),
             OtherThan(last), 0)
  {
    var s := OtherThan(last);
    hide RequestSafe, Asked, RunRow, Next, Resets, CmdProto, VendorSwitch;
    SetText(s);
    AskText();
    var pinning := SetTo(s);
    OpensIsLocal(pinning);
    FirstGoes(power, CarFor(last), [], Row(1, pinning, "", ASK));
    NothingRead(Silent);
    EmptyFirst(CarFor(last), [pinning], CarFor(last));
    assert [pinning][1..] == [];
    SetNote(pinning, s);
  }

  lemma SetNote(pinning: string, s: char)
    requires SetsTo(pinning, s) && s != NUL
    ensures NoteOf(NUL, pinning, ASK) == s && LastOf(Split(pinning)) == s
  {
    AskText();
    assert Init([pinning]) == [] && Last([pinning]) == pinning;
    assert ReadChain(Unknown, [pinning]) == ReadOne(Unknown, ReadChain(Unknown, []), pinning);
  }

  lemma TwoEvents(w: World, a: Event, b: Event)
    ensures RunAll(w, [a, b]) == Next(Next(w, a), b) && RunAll(w, [a]) == Next(w, a)
  {
    hide Next;
    assert Init([a, b]) == [a] && Last([a, b]) == b && Init([a]) == [] && Last([a]) == a;
    assert RunAll(w, [a]) == Next(RunAll(w, []), a);
  }

  /** Each request that the guard reads to set a protocol, while the chip takes it for
      one command, breaks the claim for a later row that sets none: the noted protocol
      is judged, and the chip is on another. */
  lemma DisguisedRequestBreaks(power: Chip, cmd: string)
    requires !ReadAlike(cmd)
    ensures var last := LastOf(Split(cmd));
      Breaks(BootOf(power, CarFor(last), []), DisguiseRun(cmd), AwakePass(Live(RateFor(last)), ASK, 2))
  {
    hide RequestSafe, RunRow, Next, PollOk, Resets, CmdProto, VendorSwitch, LastOf, Transmits;
    var last := LastOf(Split(cmd));
    var boot, row := BootOf(power, CarFor(last), []), Row(1, "", "", ASK);
    var w1 := Next(boot, DisguiseRun(cmd)[0]);
    var w2 := Next(w1, DisguiseRun(cmd)[1]);
    DisguisedIsSeparated(cmd);
    OtherPinned(power, last);
    NotedElsewhere(w1, cmd);
    TwoEvents(boot, DisguiseRun(cmd)[0], DisguiseRun(cmd)[1]);
    LookGrants(w2, Live(RateFor(last)), CarFor(last));
    AskText();
    NoInit();
    NothingRead(Silent);
    LastAllowed(cmd);
    RowGoes(Asked(w2, AwakePass(Live(RateFor(last)), ASK, 2)).0, CarFor(last), OtherThan(last), last, 1, row, 2);
    EmptyFirst(OtherThan(last), [], CarFor(last));
    assert [""] + [] == [""];
  }

  lemma LastAllowed(cmd: string)
    ensures var last := LastOf(Split(cmd));
      && (last == NUL || Allowed(Live(RateFor(last)), last)) && !Cleared(Live(RateFor(last)), OtherThan(last))
  {
    LastIsBusFree(Unknown, Split(cmd));
  }

  /** The disguised request on a silent bus: the chip stays, the note changes. */
  lemma NotedElsewhere(w: World, cmd: string)
    requires !ReadAlike(cmd)
    requires var last := LastOf(Split(cmd)); Stands(w, CarFor(last), OtherThan(last), OtherThan(last), 0)
    ensures var last := LastOf(Split(cmd));
      Stands(Next(w, Quietly(Row(1, "", "", cmd), 1)), CarFor(last), OtherThan(last), last, 1)
  {
    hide RequestSafe, RunRow, PollOk, Resets, CmdProto, VendorSwitch, LastOf, Transmits, Allowed;
    var last, row := LastOf(Split(cmd)), Row(1, "", "", cmd);
    DisguisedIsSeparated(cmd);
    LookGrants(w, Silent, CarFor(last));
    NoInit();
    NothingRead(Silent);
    SilentAllows(Split(cmd));
    var w1 := Asked(w, Quietly(row, 1)).0;
    SameStands(w, w1, CarFor(last), OtherThan(last), OtherThan(last), 0);
    RowGoes(w1, CarFor(last), OtherThan(last), OtherThan(last), 0, row, 1);
    EmptyFirst(OtherThan(last), [], CarFor(last));
    assert [""] + [] == [""];
  }

  lemma SameStands(w: World, v: World, stored: char, q: char, pin: char, i: nat)
    requires Stands(w, stored, q, pin, i) && v == w.(guard := v.guard) && Inv(v) && !v.guard.final
    ensures Stands(v.(guard := v.guard.(final := false)), stored, q, pin, i)
  {
  }

  /** Such a request is itself transmitted on the other protocol, when the bus is awake
      at a rate on which all the protocols it seems to set are allowed. */
  lemma DisguisedRequestExposed(power: Chip, cmd: string)
    requires !ReadAlike(cmd) && Transmits(cmd)
    requires ReadChain(Live(RateFor(LastOf(Split(cmd)))), Split(cmd)).ok
    ensures var last := LastOf(Split(cmd));
      var boot, es := BootOf(power, CarFor(last), []), DisguiseRun(cmd)[..1];
      var e := AwakePass(Live(RateFor(last)), cmd, 1);
      Breaks(boot, es, e)
      && var v := RunRow(Asked(RunAll(boot, es), e).0, e.row, e.index).0;
         Last(v.log) == Sent(cmd, OtherThan(last)) && !SafeSent(v.guard.bus, Last(v.log))
  {
    hide RunRow, Next, PollOk, Resets, CmdProto, VendorSwitch, LastOf, Transmits;
    var last, row := LastOf(Split(cmd)), Row(1, "", "", cmd);
    var boot := BootOf(power, CarFor(last), []);
    var a := DisguiseRun(cmd)[0];
    assert DisguiseRun(cmd)[..1] == [a];
    var w1 := Next(boot, a);
    DisguisedIsSeparated(cmd);
    OtherPinned(power, last);
    TwoEvents(boot, a, a);
    LookGrants(w1, Live(RateFor(last)), CarFor(last));
    NoInit();
    NothingRead(Silent);
    LastAllowed(cmd);
    var w2 := Asked(w1, AwakePass(Live(RateFor(last)), cmd, 1)).0;
    RowGoes(w2, CarFor(last), OtherThan(last), OtherThan(last), 0, row, 1);
    EmptyFirst(OtherThan(last), [], CarFor(last));
    assert [""] + [] == [""];
  }

  // ---- a chain that asks before it sets ----------------------------------------------------

  /** A chain that asks something before it sets protocol 6. */
  predicate AsksFirst(chain: string, ask: string, set6: string) {
    Split(chain) == [ask, set6] && Transmits(ask) && !Opens(ask) && SetsTo(set6, '6')
  }

  /** With a car on protocol 6 and a bus that wakes up at 500 kbit/s, a second row of
      the same type whose chain asks before it sets protocol 6 asks on protocol 8, which
      an earlier row left: the guard was asked about 6 only. */
  lemma StaleAskIsReached(power: Chip, chain: string, ask: string, set6: string)
    requires AsksFirst(chain, ask, set6)
    ensures var boot, e := BootOf(power, '6', []), Pass(Live(500), [], Row(1, chain, "", ASK), 1, false);
      var es := [Quietly(Row(1, SetTo('8'), "", ASK), 0)];
      var (w, ok) := Asked(RunAll(boot, es), e);
      Boot(boot) && ok && var (v, requested) := RunRow(w, e.row, e.index);
      requested && RequestSafe(v, e.row) && !SafeSince(v.guard.bus, v.log, |w.log|)
  {
    hide RequestSafe, RunRow, Next, PollOk, Resets, CmdProto, VendorSwitch, Transmits;
    var boot, row := BootOf(power, '6', []), Row(1, chain, "", ASK);
    var a := Quietly(Row(1, SetTo('8'), "", ASK), 0);
    var w1 := Next(boot, a);
    OtherPinned(power, '6');
    TwoEvents(boot, a, a);
    LookGrants(w1, Live(500), '6');
    var w := Asked(w1, Pass(Live(500), [], row, 1, false)).0;
    AskText();
    ReadTwo(Live(500), ask, set6);
    RowGoes(w, '6', '8', '8', 0, row, 1);
    NothingRead(Silent);
    StaleIsExposed(ask, set6);
  }

  lemma ReadTwo(bus: Bus, ask: string, set6: string)
    requires !Opens(ask) && SetsTo(set6, '6') && bus == Live(500)
    ensures ReadChain(bus, [ask, set6]).ok && LastOf([ask, set6]) == '6'
  {
    hide CmdProto, Resets;
    SnocInit([], ask);
    SnocInit([ask], set6);
    assert [] + [ask] == [ask] && [ask] + [set6] == [ask, set6];
    forall b | b == bus || b == Unknown
      ensures ReadChain(b, [ask, set6]) == ReadOne(b, ReadOne(b, Reading(true, NUL, NUL), ask), set6)
    {
      assert ReadChain(b, [ask]) == ReadOne(b, ReadChain(b, []), ask);
    }
  }

  lemma StaleIsExposed(ask: string, set6: string)
    requires Transmits(ask) && !Opens(ask) && SetsTo(set6, '6')
    ensures Exposed(Live(500), '8', [""] + [ask, set6] + [ASK], '6')
    ensures EndsOn('8', [ask, set6], '6') == '6' && Cleared(Live(500), '6')
  {
    hide Transmits, VendorSwitch;
    NothingRead(Silent);
    var es := [""] + [ask, set6] + [ASK];
    assert es[0] == "" && es[1..][0] == ask;
    SnocInit([ask], set6);
    assert [ask] + [set6] == [ask, set6];
    EndsOnSnoc('8', [ask], set6, '6');
  }

  // ---- soundness is exact ------------------------------------------------------------------

  /** Sound but for that request and that chain. */
  predicate SoundBut(e: Event, cmd: string, chain: string) {
    && (e.Pass? ==> (SoundChain(e.row.init) || e.row.init == chain) && (SoundRequest(e.row.cmd) || e.row.cmd == cmd))
    && (e.NewCar? ==> InitsBut(e.typeInits, chain))
  }

  predicate InitsBut(inits: seq<string>, chain: string) {
    forall i :: 0 <= i < |inits| ==> SoundChain(inits[i]) || inits[i] == chain
  }

  /** Tables that hold that request and that chain among sound texts, in any run from
      boot, never send an unsafe request. */
  ghost predicate Harmless(cmd: string, chain: string) {
    forall boot, es, e :: Breaks(boot, es, e) ==>
      !(InitsBut(boot.car.typeInits, chain) && SoundBut(e, cmd, chain)
        && forall i :: 0 <= i < |es| ==> SoundBut(es[i], cmd, chain))
  }

  /** A request is harmless in every table exactly when it is sound. */
  lemma RequestMustBeSound(power: Chip, cmd: string)
    ensures Harmless(cmd, "") <==> SoundRequest(cmd)
  {
    hide Breaks, SoundRequest, SoundChain;
    NoInit();
    if SoundRequest(cmd) {
      SoundIsHarmless(cmd, "");
    } else {
      RequestHarms(power, cmd);
    }
  }

  /** So is a chain, as a row's or a type's init. */
  lemma ChainMustBeSound(power: Chip, chain: string)
    ensures Harmless(ASK, chain) <==> SoundChain(chain)
  {
    hide Breaks, SoundRequest, SoundChain;
    AskText();
    if SoundChain(chain) {
      SoundIsHarmless(ASK, chain);
    } else {
      UnsoundInitBreaks(power, chain);
      assert SoundBut(Quietly(Row(1, chain, "", ASK), 0), ASK, chain);
    }
  }

  lemma SoundIsHarmless(cmd: string, chain: string)
    requires SoundRequest(cmd) && SoundChain(chain)
    ensures Harmless(cmd, chain)
  {
    hide SoundRequest, SoundChain, RunRow, Asked, RequestSafe, Granted;
    forall boot, es, e | Breaks(boot, es, e) && InitsBut(boot.car.typeInits, chain) && SoundBut(e, cmd, chain)
                         && forall i :: 0 <= i < |es| ==> SoundBut(es[i], cmd, chain)
      ensures false
    {
      EveryRequestIsAllowed(boot, es, e);
    }
  }

  lemma RequestHarms(power: Chip, cmd: string)
    requires !SoundRequest(cmd)
    ensures !Harmless(cmd, "")
  {
    hide Breaks, SoundChain, ReadAlike, VendorSwitch, LastOf, DisguiseRun, AwakePass, SoundBut, RateFor, CarFor;
    var last := LastOf(Split(cmd));
    if !ReadAlike(cmd) {
      DisguisedRequestBreaks(power, cmd);
      DisguiseIsSound(cmd, Live(RateFor(last)));
      assert InitsBut(BootOf(power, CarFor(last), []).car.typeInits, "");
    } else {
      VendorRequestBreaks(power, cmd);
      OnlyItself(cmd);
    }
  }

  lemma OnlyItself(cmd: string)
    ensures SoundBut(Quietly(Row(1, "", "", cmd), 0), cmd, "")
  {
  }

  lemma DisguiseIsSound(cmd: string, bus: Bus)
    ensures forall i :: 0 <= i < |DisguiseRun(cmd)| ==> SoundBut(DisguiseRun(cmd)[i], cmd, "")
    ensures SoundBut(AwakePass(bus, ASK, 2), cmd, "")
  {
    hide SoundChain, SoundRequest;
    NoInit();
    AskText();
    SetText(OtherThan(LastOf(Split(cmd))));
  }

  // ---- the texts, spelled out -----------------------------------------------------------------

  lemma AskingParts()
    ensures var s := "01;ATSP6";
      |s| == 8 && s[0] != ';' && s[1] != ';' && s[2] == ';' && s[..2] == ASK && s[3..] == SetTo('6')
  {
    var s := "01;ATSP6";
    assert s[0] == '0' && s[1] == '1' && s[2] == ';' && |s| == 8;
    assert s[..2] == ASK && s[3..] == SetTo('6');
  }

  lemma AskingChain()
    ensures AsksFirst("01;ATSP6", ASK, SetTo('6')) && ';' in "01;ATSP6"
  {
    hide Norm, Transmits, CmdProto, Resets, SetsTo, Opens;
    var s := "01;ATSP6";
    AskText();
    SetText('6');
    SetSplit('6');
    AskingParts();
    SplitAt(s, 2);
  }

  /** The chain `01;ATSP6` as an init asks on the stale protocol 8. */
  lemma StaleChain(power: Chip)
    ensures var boot, e := BootOf(power, '6', []), Pass(Live(500), [], Row(1, "01;ATSP6", "", ASK), 1, false);
      var es := [Quietly(Row(1, SetTo('8'), "", ASK), 0)];
      var (w, ok) := Asked(RunAll(boot, es), e);
      ok && var v := RunRow(w, e.row, e.index).0; !SafeSince(v.guard.bus, v.log, |w.log|)
  {
    hide RunRow, Asked, RunAll, SafeSince;
    AskingChain();
    StaleAskIsReached(power, "01;ATSP6", ASK, SetTo('6'));
  }

  lemma {:induction false} TransmitsStays(a: string, b: string)
    requires Transmits(a) && |Norm(a)| >= 2
    ensures Transmits(a + b)
  {
    NormConcat(a, b);
    var c := Norm(a);
    assert (c + Norm(b))[..2] == c[..2];
  }

  /** What the guard reads in it. */
  lemma AskingReads()
    ensures var cmd := "01;ATSP6"; ';' in cmd && LastOf(Split(cmd)) == '6' && ReadChain(Live(500), Split(cmd)).ok
  {
    AskingChain();
    AskText();
    SetText('6');
    ReadTwo(Live(500), ASK, SetTo('6'));
  }

  /** And as a request it is itself transmitted there: the guard reads protocol 6. */
  lemma DisguisedRequest(power: Chip)
    ensures var cmd := "01;ATSP6";
      var boot, es := BootOf(power, '6', []), DisguiseRun(cmd)[..1];
      var e := AwakePass(Live(500), cmd, 1);
      Breaks(boot, es, e) && Last(RunRow(Asked(RunAll(boot, es), e).0, e.row, e.index).0.log) == Sent(cmd, '8')
  {
    hide RunRow, Asked, RunAll, Breaks, LastOf, CmdProto, Resets, Transmits, Split, Norm, AsksFirst, SetsTo;
    var cmd := "01;ATSP6";
    AskingReads();
    AskText();
    SeparatedOpensNothing(cmd);
    assert cmd == ASK + ";ATSP6";
    AskNorm();
    TransmitsStays(ASK, ";ATSP6");
    DisguisedRequestExposed(power, cmd);
  }

  lemma AskNorm()
    ensures Norm(ASK) == ASK && |ASK| == 2
  {
    var s := ASK;
    assert s[0] == '0' && s[1] == '1' && |s| == 2;
    PlainNorm(s);
  }

  /** A vendor's switch in a table: `STP33`. */
  lemma VendorText(power: Chip)
    ensures VendorSwitch("STP33") && !SoundChain("STP33")
    ensures Breaks(BootOf(power, '6', []), [], Quietly(Row(1, "STP33", "", ASK), 0))
  {
    var s := "STP33";
    assert s[0] == 'S' && s[1] == 'T' && s[2] == 'P' && s[3] == '3' && s[4] == '3' && |s| == 5;
    PlainNorm(s);
    SplitAt(s, 5);
    VendorOpensNothing(s);
    assert Last([s]) == s;
    UnsoundInitBreaks(power, s);
  }
}
