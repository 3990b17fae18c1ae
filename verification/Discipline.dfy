/** The poll pass over chip and bus guard as transitions of one state: what the
    guard remembers, what the runner believes the chip is set to, and the chip. */
module Discipline {
  import opened Wrappers
  import opened Numerals
  import opened ChainText
  import opened BusGuard
  import opened Chip

  /** The standing verdict. `ruledProto` is the protocol it was taken for,
      `okProto` the one a prelude may pin (NUL: none). */
  datatype Guard = Guard(bus: Bus, final: bool, finalOk: bool, ruledProto: char, okProto: char,
                         parked: bool, chipSent: bool)

  /** What the chip is set up for, as far as the runner knows. */
  datatype Mem = Mem(baselineSent: bool, chipGen: nat, hdrBorrowed: bool, rxheaderSet: bool,
                     initPin: char, moved: set<Facet>, chainCut: bool, lastType: int, lastPid: int)

  /** The settings and the current car: which protocol is in effect. */
  datatype Car = Car(setting: char, stored: char, fallback: bool, typeInits: seq<string>)

  /** A command on its way to the chip, and the protocol the chip was on. */
  datatype Sent = Sent(cmd: string, proto: char)

  datatype World = World(guard: Guard, mem: Mem, car: Car, chip: Chip, power: Chip, gen: nat, log: seq<Sent>)

  /** A table row: its type (0 standard, 1 custom, 2 specific), inits, receive
      filter and request. */
  datatype Row = Row(typ: nat, init: string, rxheader: string, cmd: string)

  const STANDARD: nat := 0

  // ---- the protocol in effect --------------------------------------------------------

  predicate Pinned(car: Car) {
    '6' <= car.setting <= '9'
  }

  /** A pinned setting wins, then the car's protocol, then the chip's search. */
  function Effective(car: Car): char {
    if Pinned(car) then car.setting
    else if !car.fallback && ('1' <= Upper(car.stored) <= '9' || 'A' <= Upper(car.stored) <= 'C')
    then Upper(car.stored)
    else '0'
  }

  // ---- the bus guard -----------------------------------------------------------------

  const SETTLE_LOOKS: nat := 8

  /** An unreadable bus is looked at again, up to eight times: an echo of the
      chip's own request dies, foreign traffic stays. */
  function Settle(bus: Bus, looks: seq<Bus>): Bus
    decreases looks
  {
    if bus != Unreadable || looks == [] then bus else Settle(looks[0], looks[1..])
  }

  function SettleOwnEcho(bus: Bus, chipSent: bool, looks: seq<Bus>): Bus {
    if bus.Unreadable? && chipSent then Settle(bus, if |looks| > SETTLE_LOOKS then looks[..SETTLE_LOOKS] else looks)
    else bus
  }

  /** Decide for the protocol in effect; a search verdict is carried out here. */
  function DecideNow(w: World, looks: seq<Bus>): (World, Verdict) {
    var bus := SettleOwnEcho(w.guard.bus, w.guard.chipSent, looks);
    var v := Decide(bus, Effective(w.car), Pinned(w.car));
    var w1 := w.(guard := w.guard.(bus := bus));
    (if v == Search then ForceSearch(w1) else w1, v)
  }

  function ForceSearch(w: World): World {
    if w.car.fallback then w
    else w.(car := w.car.(fallback := true), mem := w.mem.(baselineSent := false))
  }

  /** The verdict just taken is about the protocol in effect now; a bus that named
      its bit rate makes it final. */
  function Ruled(g: Guard, p: char, ok: bool): Guard {
    Standing(g.(ruledProto := p, okProto := if ok then p else NUL), ok)
  }

  function Standing(g: Guard, ok: bool): Guard {
    var live := g.bus.Live?;
    g.(chipSent := g.chipSent || ok, final := live, finalOk := if live then ok else g.finalOk, parked := !ok)
  }

  /** Asked before every pass. A final verdict stands for the protocol it was taken
      for; otherwise the bus is looked at again. */
  function PollOk(w: World, look: Bus, looks: seq<Bus>): (World, bool) {
    var g := w.guard;
    var p := Effective(w.car);
    if g.final && p == g.ruledProto then
      (w.(guard := g.(okProto := if g.finalOk then p else NUL)), g.finalOk)
    else
      var (w1, v) := DecideNow(w.(guard := g.(final := false, bus := look)), looks);
      var ok := v != Park;
      (w1.(guard := Ruled(w1.guard, Effective(w1.car), ok)), ok)
  }

  /** An answer proves the bit rate of the protocol this pass was allowed. */
  function Proven(w: World): World {
    var g := w.guard;
    if g.final || g.okProto == NUL then w
    else w.(guard := g.(final := true, finalOk := true, ruledProto := g.okProto, parked := false))
  }

  /** A one-shot job asks; a look that is young enough is reused. */
  function JobOk(w: World, probe: bool, look: Bus, looks: seq<Bus>): (World, bool) {
    var g := if probe && !w.guard.final then w.guard.(bus := look) else w.guard;
    var (w1, v) := DecideNow(w.(guard := g), looks);
    var ok := v != Park;
    (w1.(guard := w1.guard.(okProto := if ok then Effective(w1.car) else NUL)), ok)
  }

  /** A contact probe asks for a protocol it pins itself. */
  function CandidateOk(w: World, p: char, look: Bus, looks: seq<Bus>): (World, bool) {
    var g := w.guard;
    var bus := if g.final then g.bus else SettleOwnEcho(look, g.chipSent, looks);
    var ok := Allowed(bus, p);
    var g1 := g.(bus := bus);
    (w.(guard := if ok then g1.(chipSent := true, okProto := p) else g1), ok)
  }

  function Rearm(w: World): World {
    w.(guard := w.guard.(final := false, parked := false, okProto := NUL, ruledProto := NUL))
  }

  predicate PinOk(w: World, p: char) {
    PinAllowed(p, w.guard.okProto)
  }

  // ---- the baseline --------------------------------------------------------------------

  function Send(w: World, cmd: string): World {
    w.(log := w.log + [Sent(cmd, w.chip.proto)], chip := Exec(w.chip, w.power, cmd))
  }

  /** A chain of the firmware's own: no resets in it. */
  function SendAll(w: World, es: seq<string>): World
    decreases es
  {
    if es == [] then w else SendAll(Send(w, es[0]), es[1..])
  }

  /** The prelude went out: nothing is borrowed or moved after it. */
  function PreludeOut(w: World): World {
    w.(mem := w.mem.(hdrBorrowed := false, initPin := NUL, moved := {}, rxheaderSet := false))
  }

  function SendPrelude(w: World, p: char): World {
    PreludeOut(SendAll(w, Prelude(p)))
  }

  function SendBaseline(w: World): (World, bool) {
    var p := Effective(w.car);
    if !PinOk(w, p) then (w.(mem := w.mem.(baselineSent := false)), false)
    else (SendPrelude(w, p), true)
  }

  /** The baseline prelude is due until it went out, and again after a reset by
      another holder of the chip. */
  function Ensure(w: World): (World, bool) {
    if w.mem.baselineSent && w.mem.chipGen == w.gen then (w, true)
    else
      var (w1, ok) := SendBaseline(w);
      if !ok then (w1, false) else (w1.(mem := w1.mem.(baselineSent := true, chipGen := w1.gen)), true)
  }

  function Restore(w: World): (World, bool) {
    var p := Effective(w.car);
    if !PinOk(w, p) then (w, false)
    else (PreludeOut(SendAll(w, RestoreElements(w.mem.moved, Prelude(p)))), true)
  }

  function HeaderGiveBack(w: World): World {
    var p := Effective(w.car);
    var w1 :=
      match FuncHeader(p)
      case Some(func) => var w2 := Send(w, func); w2.(mem := w2.mem.(moved := w2.mem.moved - {Header}))
      case None => if PinOk(w, p) then SendPrelude(w, p) else w;
    w1.(mem := w1.mem.(hdrBorrowed := false))
  }

  /** A reset inside a chain of the tables: the prelude right behind it, or the
      chain is cut. */
  function AfterReset(w: World): (World, bool) {
    var p := Effective(w.car);
    if !PinOk(w, p) then (w.(mem := w.mem.(baselineSent := false, chainCut := true)), false)
    else (SendPrelude(w, p), true)
  }

  /** One element of a chain of the tables; the print commands are not sent. */
  function SendElement(w: World, cmd: string): (World, bool) {
    if cmd == "" || IsPrint(cmd) then (w, true)
    else
      var w1 := Send(w, cmd);
      if Resets(cmd) then AfterReset(w1) else (w1, true)
  }

  function SendElements(w: World, es: seq<string>): World
    decreases es
  {
    if es == [] then w
    else
      var (w1, go) := SendElement(w, es[0]);
      if go then SendElements(w1, es[1..]) else w1
  }

  function SendInit(w: World, chain: string): World {
    var w1 := SendElements(w, Split(chain));
    w1.(mem := w1.mem.(moved := w1.mem.moved + ChainSets(chain)))
  }

  // ---- one row ---------------------------------------------------------------------------

  function RunnerReset(w: World): World {
    w.(mem := w.mem.(lastType := -1, lastPid := -1, rxheaderSet := false))
  }

  predicate TypeDue(w: World, row: Row) {
    row.typ != w.mem.lastType
  }

  predicate RowDue(w: World, row: Row, index: nat) {
    TypeDue(w, row) || index != w.mem.lastPid
  }

  predicate Borrows(row: Row) {
    row.typ == STANDARD && Header in ChainSets(row.init)
  }

  /** The baseline back before another type, the functional header before a row
      that does not set one. */
  function Prepare(w: World, row: Row, index: nat): (World, bool) {
    if TypeDue(w, row) && w.mem.moved != {} then Restore(w)
    else if w.mem.hdrBorrowed && !Borrows(row) && RowDue(w, row, index) then (HeaderGiveBack(w), true)
    else (w, true)
  }

  function Then(pin: char, last: char): char {
    if last != NUL then last else pin
  }

  function TypeInitOf(w: World, row: Row): string {
    if row.typ < |w.car.typeInits| then w.car.typeInits[row.typ] else ""
  }

  /** What the guard is asked about: the chains that are due (none: ""). */
  function DueTypeInit(w: World, row: Row): string {
    if TypeDue(w, row) then TypeInitOf(w, row) else ""
  }

  function DueInit(w: World, row: Row, index: nat): string {
    if RowDue(w, row, index) then row.init else ""
  }

  /** May the row go out? Every protocol its chains set must be allowed on the bus
      as last looked at; when they set none, the one an earlier chain left. */
  function RowPins(w: World, row: Row, index: nat): (World, bool, char) {
    var bus := w.guard.bus;
    var t := ReadChain(bus, Split(DueTypeInit(w, row)));
    var i := ReadChain(bus, Split(DueInit(w, row, index)));
    var c := ReadChain(bus, Split(row.cmd));
    var pin := Then(t.last, i.last);
    if !t.ok || !i.ok || !c.ok then (w, false, NUL)
    else if pin == NUL && c.last == NUL && w.mem.initPin != NUL then
      if Allowed(bus, w.mem.initPin) then (w, true, w.mem.initPin)
      else (RunnerReset(w.(mem := w.mem.(baselineSent := false))), false, NUL)
    else (w, true, Then(pin, c.last))
  }

  function SetUpType(w: World, row: Row): World {
    if !TypeDue(w, row) then w
    else
      var init := TypeInitOf(w, row);
      var w1 := if init != "" then SendInit(w, init) else w;
      w1.(mem := w1.mem.(lastType := row.typ, lastPid := -1))
  }

  /** The receive filter of the row, or the one of an earlier row off again. */
  function SetUpFilter(w: World, row: Row): World {
    if row.rxheader != "" then
      var w1 := Send(w, "ATCRA" + row.rxheader);
      w1.(mem := w1.mem.(rxheaderSet := true))
    else if w.mem.rxheaderSet then
      var w1 := Send(w, "ATCRA");
      w1.(mem := w1.mem.(rxheaderSet := false))
    else w
  }

  function SetUpRow(w: World, row: Row, index: nat): World {
    if index == w.mem.lastPid then w
    else
      var w1 := if row.init != "" then SendInit(w, row.init) else w;
      var w2 := if Borrows(row) then w1.(mem := w1.mem.(hdrBorrowed := true)) else w1;
      var w3 := SetUpFilter(w2, row);
      w3.(mem := w3.mem.(lastPid := index))
  }

  function Request(w: World, row: Row, pinAfter: char): World {
    var w1 := Send(w.(mem := w.mem.(initPin := pinAfter)), row.cmd);
    w1.(mem := w1.mem.(moved := w1.mem.moved + ChainSets(row.cmd),
                       baselineSent := w1.mem.baselineSent && !Resets(row.cmd)))
  }

  /** The row set up, and its request sent unless a chain was cut. */
  function Perform(w: World, row: Row, index: nat, pinAfter: char): (World, bool) {
    var w1 := SetUpRow(SetUpType(w, row), row, index);
    if w1.mem.chainCut then (RunnerReset(w1.(mem := w1.mem.(chainCut := false))), false)
    else (Request(w1, row, pinAfter), true)
  }

  /** One poll of one row, up to its request: the new state, and whether the
      request went out. */
  function RunRow(w: World, row: Row, index: nat): (World, bool) {
    var (w1, sent) := Ensure(w);
    if !sent then (w1, false)
    else
      var (w2, ready) := Prepare(w1, row, index);
      if !ready then (w2, false)
      else
        var (w3, ok, pinAfter) := RowPins(w2, row, index);
        if !ok then (w3, false) else Perform(w3, row, index, pinAfter)
  }

  // ---- other events ---------------------------------------------------------------------

  /** Another car is made current: its protocol and inits, everything due again. */
  function Activate(w: World, stored: char, typeInits: seq<string>): World {
    var w1 := RunnerReset(w.(car := Car(w.car.setting, stored, false, typeInits)));
    Rearm(w1.(mem := w1.mem.(baselineSent := false)))
  }

  /** Too many silent polls: the stored protocol gives way to the search. */
  function GiveUp(w: World): World {
    RunnerReset(SendBaseline(w.(car := w.car.(fallback := true))).0)
  }

  /** Another holder reset the chip: its generation moves. */
  function ChipReset(w: World): World {
    w.(chip := w.power, gen := w.gen + 1)
  }
}
