/** The `;`-separated AT chains of the tables as text: their elements, what each
    one sets on the chip beyond the baseline, and the in-place strip of the print
    commands. */
module ChainText {
  import opened Wrappers
  import opened Seqs
  import opened Numerals

  // ---- elements ------------------------------------------------------------------

  /** The elements between the separators; always at least one. */
  function Split(s: string): (es: seq<string>)
    ensures es != []
    ensures forall e <- es :: ';' !in e
  {
    if s == "" then [""]
    else if s[0] == ';' then [""] + Split(s[1..])
    else Prepend([s[0]], Split(s[1..]))
  }

  /** Text in front of the first element. */
  function Prepend(front: string, es: seq<string>): seq<string>
    requires es != []
  {
    [front + es[0]] + es[1..]
  }

  function Join(es: seq<string>): string {
    if es == [] then ""
    else if |es| == 1 then es[0]
    else es[0] + ";" + Join(es[1..])
  }

  /** A command as the chip reads it: no blanks, any case. */
  function Norm(s: string): string {
    if s == "" then ""
    else if IsBlank(Last(s)) then Norm(Init(s))
    else Norm(Init(s)) + [Upper(Last(s))]
  }

  // ---- what a command sets ---------------------------------------------------------

  /** The chip's settings, one register each. */
  datatype Reg =
    | RProtocol | RHeader | RFilter | RHeadersOn | RSpaces | RTimeout | RExtAddr | RFlowCtl
    | RAutoFc | RTiming | RRaw | RPriority | REcho | RLinefeed | RQuiet | RDlcV | RDlcD

  /** The bits under which the runner remembers what was moved. */
  datatype Facet =
    | Header | Filter | Protocol | Print | ExtAddr | FlowCtl | FcOff | Timing
    | Raw | Priority | Echo | Linefeed | Quiet | Dlc

  function FacetOf(r: Reg): Facet {
    match r
    case RProtocol => Protocol
    case RHeader => Header
    case RFilter => Filter
    case RHeadersOn | RSpaces | RTimeout => Print
    case RExtAddr => ExtAddr
    case RFlowCtl => FlowCtl
    case RAutoFc => FcOff
    case RTiming => Timing
    case RRaw => Raw
    case RPriority => Priority
    case REcho => Echo
    case RLinefeed => Linefeed
    case RQuiet => Quiet
    case RDlcV | RDlcD => Dlc
  }

  /** The body starts with the name and carries an argument. */
  predicate Arg(body: string, name: string) {
    |body| > |name| && body[..|name|] == name
  }

  /** A known command: the register it touches, and whether it counts as moved. */
  datatype Touch = Touch(reg: Reg, moves: bool)

  /** The rule table, first match wins. */
  function Rule(body: string): Option<Touch> {
    if body == "FCSM0" then Some(Touch(RFlowCtl, false))
    else if Arg(body, "FCSH") || Arg(body, "FCSD") || Arg(body, "FCSM") then Some(Touch(RFlowCtl, true))
    else if body == "CFC0" then Some(Touch(RAutoFc, true))
    else if body == "CFC1" then Some(Touch(RAutoFc, false))
    else if body == "CAF0" then Some(Touch(RRaw, true))
    else if body == "CAF1" then Some(Touch(RRaw, false))
    else if Arg(body, "CEA") || Arg(body, "CER") then Some(Touch(RExtAddr, true))
    else if Arg(body, "CRA") || Arg(body, "CM") || Arg(body, "CF") then Some(Touch(RFilter, true))
    else if Arg(body, "CP") then Some(Touch(RPriority, true))
    else if Arg(body, "SH") then Some(Touch(RHeader, true))
    else if Arg(body, "SP") || Arg(body, "TP") then Some(Touch(RProtocol, true))
    else if Arg(body, "ST") then Some(Touch(RTimeout, true))
    else if body == "H0" then Some(Touch(RHeadersOn, true))
    else if body == "H1" then Some(Touch(RHeadersOn, false))
    else if body == "S0" then Some(Touch(RSpaces, true))
    else if body == "AT0" || body == "AT2" then Some(Touch(RTiming, true))
    else if body == "E1" then Some(Touch(REcho, true))
    else if body == "L1" then Some(Touch(RLinefeed, true))
    else if body == "R0" then Some(Touch(RQuiet, true))
    else if body == "V1" then Some(Touch(RDlcV, true))
    else if body == "D1" then Some(Touch(RDlcD, true))
    else None
  }

  function CommandSets(body: string): set<Facet> {
    match Rule(body)
    case Some(Touch(reg, true)) => {FacetOf(reg)}
    case _ => {}
  }

  const CMD_MAX: nat := 32

  /** The text after "AT" of a command the table can know. */
  function Body(cmd: string): Option<string> {
    var c := Norm(cmd);
    if 2 < |c| < CMD_MAX && c[0] == 'A' && c[1] == 'T' then Some(c[2..]) else None
  }

  function ElementSets(cmd: string): set<Facet> {
    match Body(cmd)
    case None => {}
    case Some(body) => CommandSets(body)
  }

  function ElementsSet(es: seq<string>): set<Facet> {
    if es == [] then {} else ElementSets(es[0]) + ElementsSet(es[1..])
  }

  /** What a chain sets beyond the baseline. */
  function ChainSets(chain: string): set<Facet> {
    ElementsSet(Split(chain))
  }

  // ---- the reading loop -----------------------------------------------------------

  lemma NormSnoc(s: string, c: char)
    ensures Norm(s + [c]) == if IsBlank(c) then Norm(s) else Norm(s) + [Upper(c)]
  {
    SnocInit(s, c);
  }

  /** What one command, read so far as `cmd`, contributes when it ends here. */
  method EndOfCommand(cmd: string, overflow: bool, ghost raw: string) returns (sets: set<Facet>)
    requires |cmd| < CMD_MAX
    requires if overflow then |Norm(raw)| >= CMD_MAX else cmd == Norm(raw)
    ensures sets == ElementSets(raw)
  {
    sets := {};
    if !overflow && |cmd| > 2 && cmd[0] == 'A' && cmd[1] == 'T' {
      sets := CommandSets(cmd[2..]);
    }
  }

  /** The character loop over a chain, with its command buffer. */
  method ReadSets(chain: string) returns (sets: set<Facet>)
    ensures sets == ChainSets(chain)
  {
    hide ElementSets, Split;
    sets := {};
    var cmd := "";
    var overflow := false;
    ghost var raw := "";
    var p := 0;
    PrependNothing(Split(chain));
    while p < |chain|
      invariant 0 <= p <= |chain| && |cmd| < CMD_MAX
      invariant if overflow then |Norm(raw)| >= CMD_MAX else cmd == Norm(raw)
      invariant sets + ElementsSet(Prepend(raw, Split(chain[p..]))) == ChainSets(chain)
    {
      var c := chain[p];
      ghost var rest := chain[p..];
      assert rest[0] == c && rest[1..] == chain[p + 1..];
      SplitFirst(rest);
      NormSnoc(raw, c);
      if c == ';' {
        var here := EndOfCommand(cmd, overflow, raw);
        PrependEmpty(raw, Split(rest[1..]));
        assert ([raw] + Split(rest[1..]))[1..] == Split(rest[1..]);
        sets := sets + here;
        cmd, overflow, raw := "", false, "";
        PrependNothing(Split(rest[1..]));
      } else {
        PrependTwice(raw, [c], Split(rest[1..]));
        raw := raw + [c];
        if IsBlank(c) {
        } else if |cmd| < CMD_MAX - 1 {
          cmd := cmd + [Upper(c)];
        } else {
          overflow := true;
        }
      }
      p := p + 1;
    }
    assert chain[p..] == "";
    SplitFirst("");
    PrependEmpty(raw, []);
    assert [""] + [] == [""] && [raw] + [] == [raw];
    var here := EndOfCommand(cmd, overflow, raw);
    assert [raw][1..] == [];
    sets := sets + here;
  }

  lemma SplitFirst(s: string)
    ensures Split(s) ==
      if s == "" then [""] else if s[0] == ';' then [""] + Split(s[1..]) else Prepend([s[0]], Split(s[1..]))
  {
  }

  lemma PrependTwice(a: string, b: string, es: seq<string>)
    requires es != []
    ensures Prepend(a, Prepend(b, es)) == Prepend(a + b, es)
  {
    Assoc(a, b, es[0]);
  }

  lemma PrependNothing(es: seq<string>)
    requires es != []
    ensures Prepend("", es) == es
  {
    assert "" + es[0] == es[0];
  }

  lemma PrependEmpty(front: string, es: seq<string>)
    ensures Prepend(front, [""] + es) == [front] + es
  {
    assert front + "" == front;
    assert ([""] + es)[1..] == es;
  }

  // ---- putting the baseline back ----------------------------------------------------

  /** A facet and the commands that put it back. */
  datatype Undo = Undo(facet: Facet, cmds: seq<string>)

  const UNDO_COUNT: nat := 10

  /** What the prelude does not put back, in sending order. */
  function UndoAt(i: nat): Undo
    requires i < UNDO_COUNT
  {
    match i
    case 0 => Undo(ExtAddr, ["ATCEA"])
    case 1 => Undo(FlowCtl, ["ATFCSM0"])
    case 2 => Undo(FcOff, ["ATCFC1"])
    case 3 => Undo(Timing, ["ATAT1"])
    case 4 => Undo(Raw, ["ATCAF1"])
    case 5 => Undo(Priority, ["ATCP18"])
    case 6 => Undo(Echo, ["ATE0"])
    case 7 => Undo(Linefeed, ["ATL0"])
    case 8 => Undo(Quiet, ["ATR1"])
    case _ => Undo(Dlc, ["ATV0", "ATD0"])
  }

  function UndoFrom(sets: set<Facet>, i: nat): seq<string>
    requires i <= UNDO_COUNT
    decreases UNDO_COUNT - i
  {
    if i == UNDO_COUNT then []
    else (if UndoAt(i).facet in sets then UndoAt(i).cmds else []) + UndoFrom(sets, i + 1)
  }

  /** The elements of the restore chain. */
  function RestoreElements(sets: set<Facet>, prelude: seq<string>): seq<string> {
    prelude + UndoFrom(sets, 0)
  }

  // ---- dropping the print commands ----------------------------------------------------

  /** The commands that change how replies are printed. */
  predicate IsPrint(e: string) {
    var c := Norm(e);
    c == "ATH0" || c == "ATS0" || c == "ATE1"
  }

  function Keep(es: seq<string>): seq<string> {
    if es == [] then []
    else if IsPrint(es[0]) then Keep(es[1..])
    else [es[0]] + Keep(es[1..])
  }

  /** The chain without them. */
  function Strip(s: string): string {
    Join(Keep(Split(s)))
  }

  /** Every element with the separator behind it. */
  function Closed(es: seq<string>): string {
    if es == [] then "" else Closed(Init(es)) + (Last(es) + ";")
  }

  lemma {:induction false} ClosedJoin(es: seq<string>, e: string)
    ensures Closed(es) + e == Join(es + [e])
  {
    if es == [] {
      assert [] + [e] == [e];
    } else {
      ClosedFront(es);
      ClosedJoin(es[1..], e);
      var all := es + [e];
      assert all[0] == es[0] && all[1..] == es[1..] + [e];
      Assoc(es[0] + ";", Closed(es[1..]), e);
      assert Join(all) == es[0] + ";" + Join(all[1..]);
    }
  }

  lemma {:induction false} ClosedFront(es: seq<string>)
    requires es != []
    ensures Closed(es) == es[0] + ";" + Closed(es[1..])
  {
    if |es| == 1 {
      assert Init(es) == [] && es[1..] == [];
    } else {
      ClosedFront(Init(es));
      assert Init(es)[1..] == Init(es[1..]);
      Assoc(es[0] + ";", Closed(Init(es[1..])), Last(es) + ";");
    }
  }

  lemma ClosedOf(es: seq<string>)
    requires es != []
    ensures Closed(es) == (Closed(Init(es)) + Last(es)) + [';']
  {
  }

  lemma ClosedInit(es: seq<string>)
    requires es != []
    ensures Closed(es) != "" && Last(Closed(es)) == ';' && Init(Closed(es)) == Join(es)
  {
    hide Closed, Join;
    ClosedJoin(Init(es), Last(es));
    SnocParts([], es);
    ClosedOf(es);
    SnocInit(Closed(Init(es)) + Last(es), ';');
  }

  /** The first element of a text: up to the separator at e, or all of it. */
  lemma {:induction false} SplitAt(s: string, e: nat)
    requires e <= |s| && (forall i :: 0 <= i < e ==> s[i] != ';')
    ensures e < |s| && s[e] == ';' ==> Split(s) == [s[..e]] + Split(s[e + 1..])
    ensures e == |s| ==> Split(s) == [s]
  {
    if s == "" {
    } else if e == 0 {
      assert s[..0] == "";
    } else {
      SplitAt(s[1..], e - 1);
      assert [s[0]] + s[1..][..e - 1] == s[..e];
      if e < |s| {
        assert s[1..][e..] == s[e + 1..];
      } else {
        assert [s[0]] + s[1..] == s;
      }
    }
  }

  lemma {:induction false} KeepAppend(a: seq<string>, b: seq<string>)
    ensures Keep(a + b) == Keep(a) + Keep(b)
  {
    if a == [] {
      assert a + b == b;
    } else {
      assert (a + b)[1..] == a[1..] + b;
      KeepAppend(a[1..], b);
      Assoc([a[0]], Keep(a[1..]), Keep(b));
    }
  }

  /** One element, blanks dropped and upper-cased, when it fits. */
  method ElementBody(s: string, cap: nat) returns (body: Option<string>)
    requires cap >= 1
    ensures body == if |Norm(s)| < cap then Some(Norm(s)) else None
  {
    var out := "";
    var i := 0;
    while i < |s|
      invariant 0 <= i <= |s| && out == Norm(s[..i]) && |out| < cap
    {
      Grow(s, i);
      NormSnoc(s[..i], s[i]);
      if !IsBlank(s[i]) {
        if |out| + 1 >= cap {
          NormGrows(s, i + 1);
          return None;
        }
        out := out + [Upper(s[i])];
      }
      i := i + 1;
    }
    Whole(s);
    body := Some(out);
  }

  lemma {:induction false} NormGrows(s: string, i: nat)
    requires i <= |s|
    ensures |Norm(s[..i])| <= |Norm(s)|
    decreases |s| - i
  {
    if i == |s| {
      Whole(s);
    } else {
      Grow(s, i);
      NormSnoc(s[..i], s[i]);
      NormGrows(s, i + 1);
    }
  }

  /** memmove towards the front. */
  method MoveDown(a: array<char>, w: nat, p: nat, len: nat)
    requires w <= p && p + len <= a.Length
    modifies a
    ensures a[w..w + len] == old(a[p..p + len])
    ensures a[..w] == old(a[..w]) && a[p + len..] == old(a[p + len..])
  {
    ghost var was := a[..];
    for i := 0 to len
      invariant forall k :: w <= k < w + i ==> a[k] == was[k - w + p]
      invariant forall k :: 0 <= k < w ==> a[k] == was[k]
      invariant forall k :: p + i <= k < a.Length ==> a[k] == was[k]
    {
      a[w + i] := a[p + i];
    }
    assert a[w..w + len] == was[p..p + len];
    assert a[..w] == was[..w] && a[p + len..] == was[p + len..];
  }

  lemma KeepOne(e: string)
    ensures Keep([e]) == if IsPrint(e) then [] else [e]
  {
    assert [e][1..] == [];
  }

  /** The last element, which has no separator behind it. */
  method FinishStrip(chain: array<char>, w: nat, p: nat, e: nat, drop: bool, ghost kept: seq<string>)
    returns (m: nat)
    requires w <= p <= e <= chain.Length && chain[..w] == Closed(kept)
    modifies chain
    ensures m <= e
    ensures chain[..m] == Join(if drop then kept else kept + [old(chain[p..e])])
  {
    hide Closed, Join;
    NothingKept();
    m := w;
    if drop {
      if kept == [] {
        assert w == 0;
      } else {
        ClosedInit(kept);
        assert chain[w - 1] == Last(chain[..w]);
        assert chain[..w - 1] == Init(chain[..w]);
      }
      if w > 0 && chain[w - 1] == ';' {
        m := w - 1;
      }
    } else {
      ClosedJoin(kept, chain[p..e]);
      MoveDown(chain, w, p, e - p);
      m := w + (e - p);
      assert chain[..m] == chain[..w] + chain[w..m];
    }
  }

  /** One element with a separator behind it, in a text that ends at n. */
  method StepElement(chain: array<char>, w: nat, p: nat, e: nat, n: nat, drop: bool, ghost kept: seq<string>)
    returns (m: nat)
    requires w <= p <= e < n <= chain.Length && chain[..w] == Closed(kept)
    modifies chain
    ensures m <= e + 1
    ensures chain[..m] == Closed(if drop then kept else kept + [old(chain[p..e])])
    ensures chain[e + 1..n] == old(chain[e + 1..n])
  {
    if drop {
      return w;
    }
    hide Closed;
    ghost var behind := chain[e + 1..];
    assert chain[e + 1..n] == behind[..n - e - 1];
    m := KeepElement(chain, w, p, e, kept);
    assert chain[e + 1..n] == chain[e + 1..][..n - e - 1];
  }

  method KeepElement(chain: array<char>, w: nat, p: nat, e: nat, ghost kept: seq<string>) returns (m: nat)
    requires w <= p <= e < chain.Length && chain[..w] == Closed(kept)
    modifies chain
    ensures m == w + (e - p) + 1
    ensures chain[..m] == Closed(kept + [old(chain[p..e])])
    ensures chain[e + 1..] == old(chain[e + 1..])
  {
    ghost var element := chain[p..e];
    MoveDown(chain, w, p, e - p);
    m := w + (e - p);
    assert chain[..m] == Closed(kept) + element;
    ghost var behind := chain[e..];
    chain[m] := ';';
    m := m + 1;
    assert chain[..m] == (Closed(kept) + element) + ";";
    Assoc(Closed(kept), element, ";");
    SnocInit(kept, element);
    assert chain[e + 1..] == behind[1..];
  }

  lemma PrintIsShort(e: string)
    ensures IsPrint(e) <==> |Norm(e)| < 8 && (Norm(e) == "ATH0" || Norm(e) == "ATS0" || Norm(e) == "ATE1")
  {
    hide Norm;
  }

  /** Where the element that starts at p ends, and whether it goes. */
  method ReadElement(chain: array<char>, p: nat, n: nat) returns (e: nat, drop: bool)
    requires p < n <= chain.Length
    ensures p <= e <= n && drop == IsPrint(chain[p..e])
    ensures Split(chain[p..n]) == if e < n then [chain[p..e]] + Split(chain[e + 1..n]) else [chain[p..e]]
  {
    hide Norm, Split, IsPrint;
    e := p;
    ghost var rest := chain[p..n];
    while e < n && chain[e] != ';'
      invariant p <= e <= n
      invariant forall i :: 0 <= i < e - p ==> rest[i] != ';'
    {
      e := e + 1;
    }
    SplitAt(rest, e - p);
    assert rest[..e - p] == chain[p..e];
    if e < n {
      assert rest[e - p + 1..] == chain[e + 1..n];
    }
    PrintIsShort(chain[p..e]);
    var body := ElementBody(chain[p..e], 8);
    drop := body == Some("ATH0") || body == Some("ATS0") || body == Some("ATE1");
  }

  /** The in-place strip: `chain[..n]` is the text, and the result its first m
      characters. An element goes with the separator behind it, the last one with
      the separator before it. */
  method StripPrint(chain: array<char>, n: nat) returns (m: nat, dropped: nat)
    requires n <= chain.Length
    modifies chain
    ensures m <= n && chain[..m] == Strip(old(chain[..n]))
    ensures dropped == |Split(old(chain[..n]))| - |Keep(Split(old(chain[..n])))|
  {
    hide Split, Keep, Closed, Join, IsPrint;
    NothingKept();
    ghost var all := Split(chain[..n]);
    ghost var seen: seq<string> := [];
    var w, p := 0, 0;
    dropped := 0;
    assert chain[0..n] == chain[..n];
    while p < n
      invariant 0 <= w <= p <= n
      invariant chain[..w] == Closed(Keep(seen))
      invariant seen + Split(chain[p..n]) == all
      invariant dropped == |seen| - |Keep(seen)|
    {
      var e, drop := ReadElement(chain, p, n);
      ghost var element := chain[p..e];
      KeepSnoc(seen, element);
      if e == n {
        m := FinishStrip(chain, w, p, e, drop, Keep(seen));
        dropped := dropped + if drop then 1 else 0;
        return;
      }
      Assoc(seen, [element], Split(chain[e + 1..n]));
      w := StepElement(chain, w, p, e, n, drop, Keep(seen));
      dropped := dropped + if drop then 1 else 0;
      seen := seen + [element];
      p := e + 1;
    }
    m := w;
    KeepSnoc(seen, "");
    ClosedJoin(Keep(seen), "");
    assert chain[p..n] == "";
    assert Closed(Keep(seen)) + "" == Closed(Keep(seen));
  }

  lemma NothingKept()
    ensures Keep([]) == [] && Closed([]) == "" && Join([]) == "" && Split("") == [""] && !IsPrint("")
  {
    assert Norm("") == "";
  }

  lemma KeepSnoc(seen: seq<string>, e: string)
    ensures Keep(seen + [e]) == if IsPrint(e) then Keep(seen) else Keep(seen) + [e]
  {
    KeepOne(e);
    KeepAppend(seen, [e]);
  }

  // ---- what the strip promises ---------------------------------------------------------

  lemma {:induction false} SplitJoin(es: seq<string>)
    requires es != [] && forall e <- es :: ';' !in e
    ensures Split(Join(es)) == es
  {
    var e := es[0];
    assert e in es;
    if |es| == 1 {
      SplitAt(e, |e|);
    } else {
      var rest := Join(es[1..]);
      var s := e + ";" + rest;
      assert s[..|e|] == e && s[|e| + 1..] == rest;
      SplitAt(s, |e|);
      assert forall x <- es[1..] :: x in es;
      SplitJoin(es[1..]);
    }
  }

  lemma {:induction false} KeepMembers(es: seq<string>)
    ensures forall e <- Keep(es) :: e in es && !IsPrint(e)
    ensures ElementsSet(Keep(es)) <= ElementsSet(es)
    ensures Echo !in ElementsSet(Keep(es))
    ensures Keep(Keep(es)) == Keep(es)
  {
    if es != [] {
      KeepMembers(es[1..]);
      if !IsPrint(es[0]) {
        var k := Keep(es);
        assert k[0] == es[0] && k[1..] == Keep(es[1..]);
        EchoIsPrint(es[0]);
      }
    }
  }

  /** Only ATE1 turns the echo on. */
  lemma EchoIsPrint(e: string)
    ensures Echo in ElementSets(e) ==> IsPrint(e)
  {
    var c := Norm(e);
    if Body(e).Some? && Body(e).value == "E1" {
      assert c == c[..2] + c[2..];
      assert c == "ATE1";
    }
  }

  lemma StripElements(s: string)
    ensures Split(Strip(s)) == if Keep(Split(s)) == [] then [""] else Keep(Split(s))
  {
    KeepMembers(Split(s));
    if Keep(Split(s)) != [] {
      SplitJoin(Keep(Split(s)));
    }
  }

  /** Stripping again changes nothing; what is left sets nothing new and never
      turns the echo on. */
  lemma StripIsClean(s: string)
    ensures Strip(Strip(s)) == Strip(s)
    ensures ChainSets(Strip(s)) <= ChainSets(s)
    ensures Echo !in ChainSets(Strip(s))
  {
    KeepMembers(Split(s));
    StripElements(s);
    KeepOne("");
    assert [""][1..] == [];
  }
}
