/** Everything the tables move is put back before another row type: over every run
    of polls with a CAN protocol in effect and an unchanged look at the bus. */
module DisciplineBaseline {
  import opened Wrappers
  import opened ChainText
  import opened BusGuard
  import opened Chip
  import opened DisciplineSafety

  // ---- commands that write one register -------------------------------------------------

  /** The command writes that value into that register and does nothing else. */
  predicate Writes(cmd: string, r: Reg, v: string) {
    Setting(cmd) && Body(cmd) == Some(v) && RegOf(v) == Some(r) && r != RProtocol
  }

  lemma WritesText(cmd: string, v: string, r: Reg)
    requires Setting(cmd) && cmd == "AT" + v && 1 <= |v| < 16 && RegOf(v) == Some(r) && r != RProtocol
    ensures Writes(cmd, r, v)
  {
    PlainNorm(cmd);
    assert cmd[2..] == v;
  }

  lemma ExecWrites(c: Chip, power: Chip, cmd: string, r: Reg, v: string)
    requires Writes(cmd, r, v)
    ensures Exec(c, power, cmd) == c.(regs := c.regs[r := v])
  {
  }

  lemma ArgFirst(body: string, name: string)
    requires body != "" && name != "" && body[0] != name[0]
    ensures !Arg(body, name)
  {
    assert |body| > |name| ==> body[..|name|][0] == body[0];
  }

  lemma NoFlowOrFilter(body: string)
    requires body != "" && body[0] != 'F' && body[0] != 'C'
    ensures !Arg(body, "FCSH") && !Arg(body, "FCSD") && !Arg(body, "FCSM") && !Arg(body, "CEA") && !Arg(body, "CER")
    ensures !Arg(body, "CRA") && !Arg(body, "CM") && !Arg(body, "CF") && !Arg(body, "CP")
  {
    ArgFirst(body, "FCSH");
    ArgFirst(body, "FCSD");
    ArgFirst(body, "FCSM");
    ArgFirst(body, "CEA");
    ArgFirst(body, "CER");
    ArgFirst(body, "CRA");
    ArgFirst(body, "CM");
    ArgFirst(body, "CF");
    ArgFirst(body, "CP");
  }

  lemma WritesS1()
    ensures Writes("ATS1", RSpaces, "S1")
  {
    Spelled4('S', '1');
    assert "ATS1" == "AT" + "S1";
    WritesText("ATS1", "S1", RSpaces);
  }

  lemma WritesH1()
    ensures Writes("ATH1", RHeadersOn, "H1")
  {
    Spelled4('H', '1');
    assert "ATH1" == "AT" + "H1";
    WritesText("ATH1", "H1", RHeadersOn);
  }

  lemma RegST96()
    ensures RegOf("ST96") == Some(RTimeout)
  {
    assert "ST96"[0] == 'S';
    NoFlowOrFilter("ST96");
  }

  lemma WritesST96()
    ensures Writes("ATST96", RTimeout, "ST96")
  {
    hide RegOf, Writes, Setting, Norm;
    Spelled6('S', 'T', '9', '6');
    assert "ATST96" == "AT" + "ST96";
    RegST96();
    WritesText("ATST96", "ST96", RTimeout);
  }

  lemma WritesCRA()
    ensures Writes("ATCRA", RFilter, "CRA")
  {
    Spelled5('C', 'R', 'A');
    assert "ATCRA" == "AT" + "CRA";
    WritesText("ATCRA", "CRA", RFilter);
  }

  lemma RegSH7DF()
    ensures RegOf("SH7DF") == Some(RHeader)
  {
    assert "SH7DF"[0] == 'S';
    NoFlowOrFilter("SH7DF");
  }

  lemma WritesSH7DF()
    ensures Writes("ATSH7DF", RHeader, "SH7DF")
  {
    hide RegOf, Writes, Setting, Norm;
    Spelled7('S', 'H', '7', 'D', 'F');
    assert "ATSH7DF" == "AT" + "SH7DF";
    RegSH7DF();
    WritesText("ATSH7DF", "SH7DF", RHeader);
  }

  lemma WritesSH18DB33F1()
    ensures Writes("ATSH18DB33F1", RHeader, "SH18DB33F1")
  {
    PlainLongHeader();
    NoFlowOrFilter("SH18DB33F1");
    assert "ATSH18DB33F1" == "AT" + "SH18DB33F1" && "SH18DB33F1"[..2] == "SH";
    WritesText("ATSH18DB33F1", "SH18DB33F1", RHeader);
  }

  lemma WritesCEA()
    ensures Writes("ATCEA", RExtAddr, "CEA")
  {
    Spelled5('C', 'E', 'A');
    assert "ATCEA" == "AT" + "CEA";
    WritesText("ATCEA", "CEA", RExtAddr);
  }

  lemma WritesFCSM0()
    ensures Writes("ATFCSM0", RFlowCtl, "FCSM0")
  {
    Spelled7('F', 'C', 'S', 'M', '0');
    assert "ATFCSM0" == "AT" + "FCSM0";
    WritesText("ATFCSM0", "FCSM0", RFlowCtl);
  }

  lemma WritesCFC1()
    ensures Writes("ATCFC1", RAutoFc, "CFC1")
  {
    Spelled6('C', 'F', 'C', '1');
    assert "ATCFC1" == "AT" + "CFC1";
    WritesText("ATCFC1", "CFC1", RAutoFc);
  }

  lemma WritesAT1()
    ensures Writes("ATAT1", RTiming, "AT1")
  {
    Spelled5('A', 'T', '1');
    NoFlowOrFilter("AT1");
    ArgFirst("AT1", "SH");
    ArgFirst("AT1", "SP");
    ArgFirst("AT1", "TP");
    ArgFirst("AT1", "ST");
    assert "ATAT1" == "AT" + "AT1";
    WritesText("ATAT1", "AT1", RTiming);
  }

  lemma WritesCAF1()
    ensures Writes("ATCAF1", RRaw, "CAF1")
  {
    Spelled6('C', 'A', 'F', '1');
    assert "ATCAF1" == "AT" + "CAF1";
    WritesText("ATCAF1", "CAF1", RRaw);
  }

  lemma WritesCP18()
    ensures Writes("ATCP18", RPriority, "CP18")
  {
    Spelled6('C', 'P', '1', '8');
    assert "ATCP18" == "AT" + "CP18";
    WritesText("ATCP18", "CP18", RPriority);
  }

  lemma WritesE0()
    ensures Writes("ATE0", REcho, "E0")
  {
    Spelled4('E', '0');
    assert "ATE0" == "AT" + "E0";
    WritesText("ATE0", "E0", REcho);
  }

  lemma WritesL0()
    ensures Writes("ATL0", RLinefeed, "L0")
  {
    Spelled4('L', '0');
    assert "ATL0" == "AT" + "L0";
    WritesText("ATL0", "L0", RLinefeed);
  }

  lemma WritesR1()
    ensures Writes("ATR1", RQuiet, "R1")
  {
    Spelled4('R', '1');
    assert "ATR1" == "AT" + "R1";
    WritesText("ATR1", "R1", RQuiet);
  }

  lemma WritesV0()
    ensures Writes("ATV0", RDlcV, "V0")
  {
    Spelled4('V', '0');
    assert "ATV0" == "AT" + "V0";
    WritesText("ATV0", "V0", RDlcV);
  }

  lemma WritesD0()
    ensures Writes("ATD0", RDlcD, "D0")
  {
    Spelled4('D', '0');
    assert "ATD0" == "AT" + "D0";
    WritesText("ATD0", "D0", RDlcD);
  }

  lemma HeadWrites(p: char)
    requires IsCan(p)
    ensures Writes(PreludeHead(p)[0], RSpaces, "S1") && Writes(PreludeHead(p)[1], RHeadersOn, "H1")
    ensures Writes(PreludeHead(p)[2], RTimeout, "ST96")
  {
    WritesS1();
    WritesH1();
    WritesST96();
  }

  lemma ShortHeaderWrites(p: char)
    requires p == '6' || p == '8'
    ensures FuncHeader(p).Some? && Writes(FuncHeader(p).value, RHeader, Base(p, RHeader))
  {
    WritesSH7DF();
  }

  lemma LongHeaderWrites(p: char)
    requires p == '7' || p == '9'
    ensures FuncHeader(p).Some? && Writes(FuncHeader(p).value, RHeader, Base(p, RHeader))
  {
    WritesSH18DB33F1();
  }

  lemma HeaderWrites(p: char, f: string, v: string)
    requires IsCan(p) && FuncHeader(p) == Some(f) && Base(p, RHeader) == v
    ensures Writes(f, RHeader, v)
  {
    if p == '6' || p == '8' {
      ShortHeaderWrites(p);
    } else {
      LongHeaderWrites(p);
    }
  }

  // ---- the prelude and the undo commands put every register back ---------------------------

  /** Every register the prelude does not put back is where the baseline has it. */
  ghost predicate RestAtBase(c: Chip, p: char) {
    forall r :: !InPrelude(r) ==> AtBase(c, p, r)
  }

  ghost predicate AllAtBase(c: Chip, p: char) {
    forall r :: AtBase(c, p, r)
  }

  lemma OneWrite(c: Chip, power: Chip, cmd: string, r: Reg, v: string, rest: seq<string>)
    requires Writes(cmd, r, v)
    ensures ExecAll(c, power, [cmd] + rest) == ExecAll(c.(regs := c.regs[r := v]), power, rest)
  {
    assert ([cmd] + rest)[1..] == rest;
  }

  lemma PinKeepsRegs(c: Chip, power: Chip, p: char, rest: seq<string>)
    requires ProtoDigit(p)
    ensures ExecAll(c, power, ["ATTP" + [p]] + rest) == ExecAll(c.(proto := p), power, rest)
  {
    PinCommand(p);
    assert (["ATTP" + [p]] + rest)[1..] == rest;
  }

  function Write(c: Chip, r: Reg, v: string): Chip {
    c.(regs := c.regs[r := v])
  }

  /** The chip behind a CAN prelude. */
  function Behind(c: Chip, p: char): Chip {
    var c1 := Write(Write(Write(c, RSpaces, "S1"), RHeadersOn, "H1"), RTimeout, "ST96");
    Write(Write(c1.(proto := p), RHeader, Base(p, RHeader)), RFilter, "CRA")
  }

  lemma ThreeWrites(c: Chip, power: Chip, es: seq<string>, q: Reg, r: Reg, s: Reg, x: string, y: string, z: string,
                    rest: seq<string>)
    requires |es| == 3 && Writes(es[0], q, x) && Writes(es[1], r, y) && Writes(es[2], s, z)
    ensures ExecAll(c, power, es + rest) == ExecAll(Write(Write(Write(c, q, x), r, y), s, z), power, rest)
  {
    hide Writes;
    ExecAppend(c, power, es, rest);
    assert es == es[..2] + [es[2]];
    ExecAppend(c, power, es[..2], [es[2]]);
    TwoWrites(c, power, es[..2], q, r, x, y);
    OneWrite(Write(Write(c, q, x), r, y), power, es[2], s, z, []);
    assert [es[2]] + [] == [es[2]] && es[..2][0] == es[0] && es[..2][1] == es[1];
  }

  lemma TwoWrites(c: Chip, power: Chip, es: seq<string>, q: Reg, r: Reg, x: string, y: string)
    requires |es| == 2 && Writes(es[0], q, x) && Writes(es[1], r, y)
    ensures ExecAll(c, power, es) == Write(Write(c, q, x), r, y)
  {
    hide Writes, Exec;
    assert es == [es[0]] + ([es[1]] + []);
    OneWrite(c, power, es[0], q, x, [es[1]] + []);
    OneWrite(Write(c, q, x), power, es[1], r, y, []);
  }

  lemma TailWrites(p: char, es: seq<string>, v: string)
    requires IsCan(p) && es == PreludeTail(p) && v == Base(p, RHeader)
    ensures |es| == 2 && Writes(es[0], RHeader, v) && Writes(es[1], RFilter, "CRA")
  {
    HeaderWrites(p, FuncHeader(p).value, v);
    WritesCRA();
  }

  lemma PreludeExec(c: Chip, power: Chip, p: char)
    requires IsCan(p)
    ensures ExecAll(c, power, Prelude(p)) == Behind(c, p)
  {
    HeadWrites(p);
    var c1 := Write(Write(Write(c, RSpaces, "S1"), RHeadersOn, "H1"), RTimeout, "ST96");
    var pin := "ATTP" + [p];
    ThreeWrites(c, power, PreludeHead(p), RSpaces, RHeadersOn, RTimeout, "S1", "H1", "ST96", [pin] + PreludeTail(p));
    PinKeepsRegs(c1, power, p, PreludeTail(p));
    TailWrites(p, PreludeTail(p), Base(p, RHeader));
    TwoWrites(c1.(proto := p), power, PreludeTail(p), RHeader, RFilter, Base(p, RHeader), "CRA");
  }

  lemma PreludeRestores(c: Chip, power: Chip, p: char)
    requires IsCan(p)
    ensures var v := ExecAll(c, power, Prelude(p));
      v.proto == p && (forall r :: InPrelude(r) || AtBase(c, p, r) ==> AtBase(v, p, r))
  {
    PreludeExec(c, power, p);
  }

  /** The register of an undo entry; the last one puts two back. */
  function UndoReg(i: nat): Reg
    requires i < UNDO_COUNT
  {
    match i
    case 0 => RExtAddr
    case 1 => RFlowCtl
    case 2 => RAutoFc
    case 3 => RTiming
    case 4 => RRaw
    case 5 => RPriority
    case 6 => REcho
    case 7 => RLinefeed
    case 8 => RQuiet
    case _ => RDlcV
  }

  /** Entry i writes the base of its register. */
  ghost predicate EntryRestores(p: char, i: nat, es: seq<string>)
    requires i < UNDO_COUNT
  {
    && |es| == (if i == 9 then 2 else 1) && Writes(es[0], UndoReg(i), Base(p, UndoReg(i)))
    && (i == 9 ==> Writes(es[1], RDlcD, Base(p, RDlcD)))
  }

  lemma UndoFacet(i: nat, q: Reg)
    requires i < UNDO_COUNT && FacetOf(q) == UndoAt(i).facet
    ensures q == UndoReg(i) || (i == 9 && q == RDlcD)
  {
  }

  lemma UndoTableLow(p: char, i: nat)
    requires i < 4
    ensures EntryRestores(p, i, UndoAt(i).cmds)
  {
    hide Writes;
    if i == 0 { WritesCEA(); }
    else if i == 1 { WritesFCSM0(); }
    else if i == 2 { WritesCFC1(); }
    else { WritesAT1(); }
  }

  lemma UndoTableMid(p: char, i: nat)
    requires 4 <= i < 7
    ensures EntryRestores(p, i, UndoAt(i).cmds)
  {
    hide Writes;
    if i == 4 { WritesCAF1(); }
    else if i == 5 { WritesCP18(); }
    else { WritesE0(); }
  }

  lemma UndoTableHigh(p: char, i: nat)
    requires 7 <= i < UNDO_COUNT
    ensures EntryRestores(p, i, UndoAt(i).cmds)
  {
    hide Writes;
    if i == 7 { WritesL0(); }
    else if i == 8 { WritesR1(); }
    else {
      WritesV0();
      WritesD0();
    }
  }

  lemma UndoTable(p: char, i: nat)
    requires i < UNDO_COUNT
    ensures EntryRestores(p, i, UndoAt(i).cmds)
  {
    if i < 4 {
      UndoTableLow(p, i);
    } else if i < 7 {
      UndoTableMid(p, i);
    } else {
      UndoTableHigh(p, i);
    }
  }

  /** The facets of the undo table from entry i on. */
  predicate Undoable(f: Facet, i: nat) {
    exists j :: i <= j < UNDO_COUNT && UndoAt(j).facet == f
  }

  lemma EntryExec(c: Chip, power: Chip, p: char, i: nat, es: seq<string>)
    requires i < UNDO_COUNT && es == UndoAt(i).cmds
    ensures var v := ExecAll(c, power, es);
      && v.proto == c.proto
      && (forall r :: AtBase(c, p, r) || FacetOf(r) == UndoAt(i).facet ==> AtBase(v, p, r))
  {
    UndoTable(p, i);
    var r := UndoReg(i);
    if i == 9 {
      TwoWrites(c, power, es, r, RDlcD, Base(p, r), Base(p, RDlcD));
    } else {
      OneWrite(c, power, es[0], r, Base(p, r), []);
      assert es == [es[0]] + [];
    }
    var v := ExecAll(c, power, es);
    forall q | AtBase(c, p, q) || FacetOf(q) == UndoAt(i).facet
      ensures AtBase(v, p, q)
    {
      if FacetOf(q) == UndoAt(i).facet {
        UndoFacet(i, q);
      }
    }
  }

  lemma {:induction false} UndoRestores(c: Chip, power: Chip, p: char, sets: set<Facet>, i: nat)
    requires i <= UNDO_COUNT
    requires forall r :: !AtBase(c, p, r) ==> FacetOf(r) in sets && Undoable(FacetOf(r), i)
    ensures var v := ExecAll(c, power, UndoFrom(sets, i)); v.proto == c.proto && AllAtBase(v, p)
    decreases UNDO_COUNT - i
  {
    hide UndoAt, AtBase, Exec;
    if i < UNDO_COUNT {
      var es := if UndoAt(i).facet in sets then UndoAt(i).cmds else [];
      var v := ExecAll(c, power, es);
      UndoStep(c, power, p, sets, i, es);
      ExecAppend(c, power, es, UndoFrom(sets, i + 1));
      UndoRestores(v, power, p, sets, i + 1);
    }
  }

  lemma UndoStep(c: Chip, power: Chip, p: char, sets: set<Facet>, i: nat, es: seq<string>)
    requires i < UNDO_COUNT && es == if UndoAt(i).facet in sets then UndoAt(i).cmds else []
    requires forall r :: !AtBase(c, p, r) ==> FacetOf(r) in sets && Undoable(FacetOf(r), i)
    ensures var v := ExecAll(c, power, es);
      v.proto == c.proto && forall r :: !AtBase(v, p, r) ==> FacetOf(r) in sets && Undoable(FacetOf(r), i + 1)
  {
    if UndoAt(i).facet in sets {
      EntryExec(c, power, p, i, es);
    }
    var v := ExecAll(c, power, es);
    forall r | !AtBase(v, p, r)
      ensures FacetOf(r) in sets && Undoable(FacetOf(r), i + 1)
    {
      assert !AtBase(c, p, r);
      var j :| i <= j < UNDO_COUNT && UndoAt(j).facet == FacetOf(r);
      assert j != i;
    }
  }

  lemma RestIsUndoable(r: Reg)
    requires !InPrelude(r) && r != RProtocol
    ensures Undoable(FacetOf(r), 0)
  {
    var j := match r
      case RExtAddr => 0
      case RFlowCtl => 1
      case RAutoFc => 2
      case RTiming => 3
      case RRaw => 4
      case RPriority => 5
      case REcho => 6
      case RLinefeed => 7
      case RQuiet => 8
      case _ => 9;
    assert UndoAt(j).facet == FacetOf(r);
  }

  /** On CAN the restore chain puts every register back, if what is off the base is
      remembered as moved. */
  lemma RestoreIsComplete(c: Chip, power: Chip, p: char, moved: set<Facet>)
    requires IsCan(p)
    requires forall r :: !AtBase(c, p, r) ==> InPrelude(r) || FacetOf(r) in moved
    ensures var v := ExecAll(c, power, RestoreElements(moved, Prelude(p))); v.proto == p && AllAtBase(v, p)
  {
    PreludeRestores(c, power, p);
    var c1 := ExecAll(c, power, Prelude(p));
    forall r | !AtBase(c1, p, r)
      ensures FacetOf(r) in moved && Undoable(FacetOf(r), 0)
    {
      RestIsUndoable(r);
    }
    ExecAppend(c, power, Prelude(p), UndoFrom(moved, 0));
    UndoRestores(c1, power, p, moved, 0);
  }
}
