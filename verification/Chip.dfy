/** The OBD chip as the chains see it: a protocol and a register per setting,
    moved by commands; the preludes that put the baseline back. */
module Chip {
  import opened Wrappers
  import opened Numerals
  import opened ChainText
  import opened BusGuard

  /** Each register holds the last command that set it. */
  datatype Chip = Chip(proto: char, regs: map<Reg, string>)

  function Get(c: Chip, r: Reg): string {
    if r in c.regs then c.regs[r] else ""
  }

  /** The register a command body sets: by the rule table, or one of the commands
      that put a register back and count as setting nothing. */
  function RegOf(body: string): Option<Reg> {
    match Rule(body)
    case Some(t) => Some(t.reg)
    case None =>
      if body == "S1" then Some(RSpaces)
      else if body == "CEA" then Some(RExtAddr)
      else if body == "CRA" then Some(RFilter)
      else if body == "AT1" then Some(RTiming)
      else if body == "E0" then Some(REcho)
      else if body == "L0" then Some(RLinefeed)
      else if body == "R1" then Some(RQuiet)
      else if body == "V0" then Some(RDlcV)
      else if body == "D0" then Some(RDlcD)
      else None
  }

  predicate AllHexFrom(c: string, k: nat) {
    forall i :: k <= i < |c| ==> IsHex(c[i])
  }

  /** The other protocol switches the chip obeys: STPhh, and VTP with one to three
      digits. No reader of the chains knows them. */
  predicate VendorSwitch(cmd: string) {
    var c := Norm(cmd);
    |c| >= 4 && c[1] == 'T' && c[2] == 'P' && AllHexFrom(c, 3)
    && ((c[0] == 'S' && |c| == 5) || (c[0] == 'V' && |c| <= 6))
  }

  /** "A protocol of the vendor's": none the guard has a bit rate for. */
  const VENDOR: char := '?'

  /** What one command does to the chip. `power` is the chip after a reset: its
      own defaults, on the protocol stored in its EEPROM. */
  function Exec(c: Chip, power: Chip, cmd: string): Chip {
    if Resets(cmd) then power
    else if CmdProto(cmd) != NUL then c.(proto := CmdProto(cmd))
    else if VendorSwitch(cmd) then c.(proto := VENDOR)
    else
      match Body(cmd)
      case None => c
      case Some(body) =>
        match RegOf(body)
        case Some(r) => if r == RProtocol then c else c.(regs := c.regs[r := body])
        case None => c
  }

  function ExecAll(c: Chip, power: Chip, es: seq<string>): Chip
    decreases es
  {
    if es == [] then c else ExecAll(Exec(c, power, es[0]), power, es[1..])
  }

  lemma {:induction false} ExecAppend(c: Chip, power: Chip, a: seq<string>, b: seq<string>)
    ensures ExecAll(c, power, a + b) == ExecAll(ExecAll(c, power, a), power, b)
    decreases a
  {
    if a == [] {
      assert a + b == b;
    } else {
      assert (a + b)[1..] == a[1..] + b;
      ExecAppend(Exec(c, power, a[0]), power, a[1..], b);
    }
  }

  // ---- the baseline ----------------------------------------------------------------

  predicate IsCan(p: char) {
    '6' <= p <= '9'
  }

  function FuncHeader(p: char): Option<string> {
    if p == '6' || p == '8' then Some("ATSH7DF")
    else if p == '7' || p == '9' then Some("ATSH18DB33F1")
    else None
  }

  /** Spaces, headers (off for K-line and J1850) and timeout. */
  function PreludeHead(p: char): seq<string> {
    ["ATS1", if '1' <= p <= '5' then "ATH0" else "ATH1", "ATST96"]
  }

  /** On CAN the functional header, and the receive filter cleared. */
  function PreludeTail(p: char): seq<string> {
    if IsCan(p) then [FuncHeader(p).value, "ATCRA"] else []
  }

  /** The prelude of a protocol. */
  function Prelude(p: char): seq<string> {
    PreludeHead(p) + (["ATTP" + [if ProtoDigit(p) then p else '0']] + PreludeTail(p))
  }

  /** What a register holds on the baseline of a CAN protocol. */
  function Base(p: char, r: Reg): string {
    match r
    case RProtocol => ""
    case RHeader => if p == '6' || p == '8' then "SH7DF" else "SH18DB33F1"
    case RFilter => "CRA"
    case RHeadersOn => "H1"
    case RSpaces => "S1"
    case RTimeout => "ST96"
    case RExtAddr => "CEA"
    case RFlowCtl => "FCSM0"
    case RAutoFc => "CFC1"
    case RTiming => "AT1"
    case RRaw => "CAF1"
    case RPriority => "CP18"
    case REcho => "E0"
    case RLinefeed => "L0"
    case RQuiet => "R1"
    case RDlcV => "V0"
    case RDlcD => "D0"
  }

  /** The registers a CAN prelude puts back by itself. */
  predicate InPrelude(r: Reg) {
    r == RHeader || r == RFilter || r == RHeadersOn || r == RSpaces || r == RTimeout
  }

  /** The register is where the baseline has it. */
  predicate AtBase(c: Chip, p: char, r: Reg) {
    r != RProtocol ==> Get(c, r) == Base(p, r)
  }

  /** A body that sets a register to anything but its base is counted. */
  lemma BodyIsCounted(p: char, body: string, r: Reg)
    requires IsCan(p) && RegOf(body) == Some(r) && r != RProtocol && body != Base(p, r)
    ensures FacetOf(r) in CommandSets(body)
  {
    hide Rule, RegOf, Base;
    UncountedIsBase(p, body, r);
    match Rule(body)
    case Some(t) => CountedReg(body);
    case None =>
  }

  lemma CountedReg(body: string)
    requires Rule(body).Some?
    ensures RegOf(body) == Some(Rule(body).value.reg)
  {
    hide Rule;
  }

  /** The commands that count as setting nothing put their register on its base. */
  lemma UncountedIsBase(p: char, body: string, r: Reg)
    requires IsCan(p) && RegOf(body) == Some(r) && r != RProtocol
    ensures (Rule(body).None? || !Rule(body).value.moves) ==> body == Base(p, r)
  {
    if Rule(body).Some? {
      RuleIsBase(p, body);
    } else {
      hide Rule;
    }
  }

  lemma RuleIsBase(p: char, body: string)
    requires Rule(body).Some?
    ensures !Rule(body).value.moves ==> body == Base(p, Rule(body).value.reg)
  {
    hide Arg;
  }

  /** A command that leaves a register off its base is one the reader counts. */
  lemma MovesAreCounted(p: char, cmd: string, c: Chip, power: Chip, r: Reg)
    requires IsCan(p) && !Resets(cmd)
    requires AtBase(c, p, r) && !AtBase(Exec(c, power, cmd), p, r)
    ensures FacetOf(r) in ElementSets(cmd)
  {
    BodyIsCounted(p, Body(cmd).value, r);
  }

  /** So is one that leaves the protocol, but for the vendor's switches. */
  lemma ProtoIsCounted(cmd: string, c: Chip, power: Chip)
    requires !Resets(cmd) && Exec(c, power, cmd).proto != c.proto
    ensures Protocol in ElementSets(cmd) <==> !VendorSwitch(cmd)
    ensures VendorSwitch(cmd) ==> Exec(c, power, cmd).proto == VENDOR
  {
    if CmdProto(cmd) != NUL {
      var n := Norm(cmd);
      assert n[2..][..2] == n[2..4];
      assert n[2..4] == "SP" || n[2..4] == "TP";
    }
  }
}
