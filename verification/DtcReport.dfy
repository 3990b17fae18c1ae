/** The report of a trouble-code scan: its categories, the detail per responder, the
    lamp and the count; and which codes a scan announces as new. */
module DtcReport {
  import opened Wrappers
  import opened Seqs

  datatype Kind = Stored | Pending | Permanent

  datatype Item = Item(code: string, ecu: nat, kind: Kind, status: nat, severity: nat, j1939: bool, oc: nat)

  datatype Src = Src(ecu: nat, mil: bool, count: nat, j1939: bool, lamps: bv8)

  datatype Report = Report(stored: seq<string>, pending: seq<string>, permanent: seq<string>,
                           items: seq<Item>, src: seq<Src>,
                           mil: bool, milCount: nat, nEcus: nat, j1939: bool, lamps: bv8)

  const CODES_MAX: nat := 32
  const ITEMS_MAX: nat := 48
  const SRC_MAX: nat := 8
  const CODE_LEN: nat := 16
  const LAMP_MIL: bv8 := 1

  /** A report before anything was added. */
  const EMPTY: Report := Report([], [], [], [], [], false, 0, 0, false, 0)

  /** What a code buffer holds of a code. */
  function Cut(code: string): string {
    if |code| < CODE_LEN then code else code[..CODE_LEN - 1]
  }

  function Codes(r: Report, kind: Kind): seq<string> {
    match kind
    case Stored => r.stored
    case Pending => r.pending
    case Permanent => r.permanent
  }

  function WithCodes(r: Report, kind: Kind, codes: seq<string>): Report {
    match kind
    case Stored => r.(stored := codes)
    case Pending => r.(pending := codes)
    case Permanent => r.(permanent := codes)
  }

  // ---- one code ---------------------------------------------------------------------

  predicate IsItem(it: Item, kind: Kind, code: string, ecu: nat) {
    it.kind == kind && it.ecu == ecu && it.code == code
  }

  predicate HasItem(r: Report, kind: Kind, code: string, ecu: nat) {
    exists i :: 0 <= i < |r.items| && IsItem(r.items[i], kind, code, ecu)
  }

  /** The report with the code in its category. */
  function Known(r: Report, kind: Kind, code: string): Report {
    if code in Codes(r, kind) then r else WithCodes(r, kind, Codes(r, kind) + [Cut(code)])
  }

  /** One code once in its category, one item per responder; what does not fit is
      left out. */
  function Add(r: Report, kind: Kind, code: string, ecu: nat, status: nat, severity: nat): (Report, bool) {
    if code == "" then (r, false)
    else if code !in Codes(r, kind) && |Codes(r, kind)| >= CODES_MAX then (r, false)
    else
      var r1 := Known(r, kind, code);
      if HasItem(r1, kind, code, ecu) || |r1.items| >= ITEMS_MAX then (r1, true)
      else (r1.(items := r1.items + [Item(Cut(code), ecu, kind, status, severity, false, 0)]), true)
  }

  /** The first item of that code and source, marked. */
  function MarkFirst(items: seq<Item>, kind: Kind, code: string, sa: nat, oc: nat): seq<Item> {
    if items == [] then []
    else if IsItem(items[0], kind, code, sa) then [items[0].(j1939 := true, oc := oc)] + items[1..]
    else [items[0]] + MarkFirst(items[1..], kind, code, sa, oc)
  }

  /** At item i: it is marked, or the first one is behind it. */
  lemma MarkHere(items: seq<Item>, i: nat, kind: Kind, code: string, sa: nat, oc: nat)
    requires i < |items|
    ensures items[..i] + MarkFirst(items[i..], kind, code, sa, oc) ==
      if IsItem(items[i], kind, code, sa) then items[i := items[i].(j1939 := true, oc := oc)]
      else items[..i + 1] + MarkFirst(items[i + 1..], kind, code, sa, oc)
  {
    hide IsItem;
    assert items[i..][0] == items[i] && items[i..][1..] == items[i + 1..];
    if IsItem(items[i], kind, code, sa) {
      var marked := items[i].(j1939 := true, oc := oc);
      assert items[i := marked] == items[..i] + ([marked] + items[i + 1..]);
    } else {
      Grow(items, i);
      Assoc(items[..i], [items[i]], MarkFirst(items[i + 1..], kind, code, sa, oc));
    }
  }

  lemma MarkNone(items: seq<Item>, kind: Kind, code: string, sa: nat, oc: nat)
    ensures items[..|items|] + MarkFirst(items[|items|..], kind, code, sa, oc) == items
    ensures items[..0] + MarkFirst(items[0..], kind, code, sa, oc) == MarkFirst(items, kind, code, sa, oc)
  {
    assert items[0..] == items;
  }

  function AddJ1939(r: Report, code: string, sa: nat, oc: nat, previous: bool): (Report, bool) {
    var kind := if previous then Pending else Stored;
    var (r1, ok) := Add(r, kind, code, sa, 0, 0);
    if !ok then (r1, false)
    else (r1.(j1939 := true, items := MarkFirst(r1.items, kind, code, sa, oc)), true)
  }

  // ---- one responder ------------------------------------------------------------------

  function AnyMil(src: seq<Src>): bool {
    src != [] && (AnyMil(Init(src)) || Last(src).mil)
  }

  function Sum(src: seq<Src>): nat {
    if src == [] then 0 else Sum(Init(src)) + Last(src).count
  }

  function Lamps(src: seq<Src>): bv8 {
    if src == [] then 0 else Lamps(Init(src)) | Last(src).lamps
  }

  function IndexOf(src: seq<Src>, ecu: nat): (k: nat)
    ensures k <= |src| && (k < |src| ==> src[k].ecu == ecu)
    ensures forall i :: 0 <= i < k ==> src[i].ecu != ecu
  {
    if src == [] then 0 else if src[0].ecu == ecu then 0 else 1 + IndexOf(src[1..], ecu)
  }

  function Fold(r: Report): Report {
    r.(mil := AnyMil(r.src), milCount := if Sum(r.src) > 255 then 255 else Sum(r.src), nEcus := |r.src|)
  }

  /** A responder's lamp and count: its last word replaces the one before. */
  function AddSrc(r: Report, ecu: nat, mil: bool, count: nat): Report {
    var k := IndexOf(r.src, ecu);
    if k == |r.src| && |r.src| >= SRC_MAX then r
    else
      var was := if k < |r.src| then r.src[k] else Src(0, false, 0, false, 0);
      var now := was.(ecu := ecu, mil := mil, count := count);
      Fold(r.(src := if k < |r.src| then r.src[k := now] else r.src + [now]))
  }

  function MarkSrc(src: seq<Src>, sa: nat, lamps: bv8): seq<Src> {
    if src == [] then []
    else
      var last := Last(src);
      MarkSrc(Init(src), sa, lamps) + [if last.ecu == sa then last.(j1939 := true, lamps := lamps) else last]
  }

  /** A J1939 controller's lamp word. */
  function AddSrcJ1939(r: Report, sa: nat, lamps: bv8, count: nat): Report {
    var r1 := AddSrc(r, sa, lamps & LAMP_MIL != 0, count);
    var src := MarkSrc(r1.src, sa, lamps);
    r1.(j1939 := true, src := src, lamps := Lamps(src))
  }

  // ---- what every sequence of calls keeps -----------------------------------------------

  predicate Distinct(codes: seq<string>) {
    forall i, j :: 0 <= i < j < |codes| ==> codes[i] != codes[j]
  }

  predicate Kept(codes: seq<string>) {
    Distinct(codes) && |codes| <= CODES_MAX && forall c <- codes :: |c| < CODE_LEN
  }

  ghost predicate Items(r: Report) {
    && |r.items| <= ITEMS_MAX
    && (forall i :: 0 <= i < |r.items| ==> r.items[i].code in Codes(r, r.items[i].kind))
    && (forall i, j :: 0 <= i < j < |r.items| ==> !IsItem(r.items[i], r.items[j].kind, r.items[j].code, r.items[j].ecu))
  }

  ghost predicate Responders(r: Report) {
    && |r.src| <= SRC_MAX && r.nEcus == |r.src|
    && (forall i, j :: 0 <= i < j < |r.src| ==> r.src[i].ecu != r.src[j].ecu)
    && r.mil == AnyMil(r.src) && r.milCount == (if Sum(r.src) > 255 then 255 else Sum(r.src))
    && r.lamps == Lamps(r.src)
  }

  /** Categories without duplicates, items in their category and once per responder,
      the lamp the OR, the count the saturated sum, the lamp word the union. */
  ghost predicate Inv(r: Report) {
    Kept(r.stored) && Kept(r.pending) && Kept(r.permanent) && Items(r) && Responders(r)
  }

  datatype Call =
    | Code(kind: Kind, code: string, ecu: nat, status: nat, severity: nat)
    | CodeJ1939(text: string, sa: nat, oc: nat, previous: bool)
    | Responder(id: nat, mil: bool, count: nat)
    | Controller(addr: nat, lamps: bv8, n: nat)

  function Do(r: Report, c: Call): Report {
    match c
    case Code(kind, code, ecu, status, severity) => Add(r, kind, code, ecu, status, severity).0
    case CodeJ1939(text, sa, oc, previous) => AddJ1939(r, text, sa, oc, previous).0
    case Responder(id, mil, count) => AddSrc(r, id, mil, count)
    case Controller(addr, lamps, n) => AddSrcJ1939(r, addr, lamps, n)
  }

  function DoAll(r: Report, cs: seq<Call>): Report {
    if cs == [] then r else Do(DoAll(r, Init(cs)), Last(cs))
  }

  /** A code fits its buffer. */
  predicate FitsBuffer(c: Call) {
    (c.Code? ==> |c.code| < CODE_LEN) && (c.CodeJ1939? ==> |c.text| < CODE_LEN)
  }

  lemma KnownKeeps(r: Report, kind: Kind, code: string)
    requires Inv(r) && |code| < CODE_LEN && (code in Codes(r, kind) || |Codes(r, kind)| < CODES_MAX)
    ensures Inv(Known(r, kind, code)) && code in Codes(Known(r, kind, code), kind)
  {
    hide Responders, Kept, IsItem;
    var v := Known(r, kind, code);
    KeptMore(Codes(r, kind), code);
    RespondersAlone(r, kind, Codes(v, kind));
    forall i | 0 <= i < |v.items|
      ensures v.items[i].code in Codes(v, v.items[i].kind)
    {
      assert r.items[i].code in Codes(r, r.items[i].kind);
    }
  }

  lemma KeptMore(codes: seq<string>, code: string)
    requires Kept(codes) && |code| < CODE_LEN && (code in codes || |codes| < CODES_MAX)
    ensures code !in codes ==> Kept(codes + [Cut(code)]) && code in codes + [Cut(code)]
  {
    assert Cut(code) == code;
    assert (codes + [code])[|codes|] == code;
  }

  lemma RespondersAlone(r: Report, kind: Kind, codes: seq<string>)
    requires Responders(r)
    ensures Responders(WithCodes(r, kind, codes))
  {
    hide Sum, AnyMil, Lamps;
  }

  lemma ItemsAlone(r: Report, items: seq<Item>)
    requires Responders(r)
    ensures Responders(r.(items := items))
  {
  }

  lemma AddKeeps(r: Report, kind: Kind, code: string, ecu: nat, status: nat, severity: nat)
    requires Inv(r) && |code| < CODE_LEN
    ensures Inv(Add(r, kind, code, ecu, status, severity).0)
  {
    hide Kept, Items, Responders, HasItem, Known;
    if code != "" && (code in Codes(r, kind) || |Codes(r, kind)| < CODES_MAX) {
      KnownKeeps(r, kind, code);
      var r1 := Known(r, kind, code);
      if !HasItem(r1, kind, code, ecu) && |r1.items| < ITEMS_MAX {
        var it := Item(Cut(code), ecu, kind, status, severity, false, 0);
        SnocInit(r1.items, it);
        ItemAdded(r1, r1.(items := r1.items + [it]), kind, code, ecu);
        ItemsAlone(r1, r1.items + [it]);
      }
    }
  }

  lemma ItemAdded(r: Report, v: Report, kind: Kind, code: string, ecu: nat)
    requires Items(r) && |r.items| < ITEMS_MAX && !HasItem(r, kind, code, ecu) && code in Codes(r, kind)
    requires v == r.(items := v.items) && |v.items| == |r.items| + 1 && v.items[..|r.items|] == r.items
    requires IsItem(v.items[|r.items|], kind, code, ecu)
    ensures Items(v)
  {
    forall i, j | 0 <= i < j < |v.items|
      ensures !IsItem(v.items[i], v.items[j].kind, v.items[j].code, v.items[j].ecu)
    {
      assert v.items[i] == r.items[i];
      if j < |r.items| {
        assert v.items[j] == r.items[j];
      }
    }
    forall i | 0 <= i < |v.items|
      ensures v.items[i].code in Codes(v, v.items[i].kind)
    {
      if i < |r.items| {
        assert v.items[i] == r.items[i];
      }
    }
  }

  lemma {:induction false} MarkFirstSame(items: seq<Item>, kind: Kind, code: string, sa: nat, oc: nat)
    ensures var ms := MarkFirst(items, kind, code, sa, oc);
      |ms| == |items| && forall i :: 0 <= i < |ms| ==>
        ms[i].code == items[i].code && ms[i].kind == items[i].kind && ms[i].ecu == items[i].ecu
  {
    if items != [] {
      MarkFirstSame(items[1..], kind, code, sa, oc);
    }
  }

  lemma {:induction false} FoldsSnoc(src: seq<Src>, x: Src)
    ensures AnyMil(src + [x]) == (AnyMil(src) || x.mil)
    ensures Sum(src + [x]) == Sum(src) + x.count
    ensures Lamps(src + [x]) == Lamps(src) | x.lamps
  {
    SnocInit(src, x);
  }

  lemma OrZero(a: bv8)
    ensures a | 0 == a
  {
  }

  /** Lamp words depend on nothing else of a responder. */
  lemma {:induction false} LampsSame(a: seq<Src>, b: seq<Src>)
    requires |a| == |b| && forall i :: 0 <= i < |a| ==> a[i].lamps == b[i].lamps
    ensures Lamps(a) == Lamps(b)
  {
    if a != [] {
      LampsSame(Init(a), Init(b));
    }
  }

  lemma SrcKeeps(r: Report, ecu: nat, mil: bool, count: nat)
    requires Responders(r)
    ensures Responders(AddSrc(r, ecu, mil, count))
  {
    hide Lamps, Sum, AnyMil;
    var k := IndexOf(r.src, ecu);
    var v := AddSrc(r, ecu, mil, count);
    if k < |r.src| {
      LampsSame(v.src, r.src);
    } else if |r.src| < SRC_MAX {
      FoldsSnoc(r.src, Last(v.src));
      OrZero(Lamps(r.src));
    }
  }

  lemma {:induction false} MarkSrcSame(src: seq<Src>, sa: nat, lamps: bv8)
    ensures var ms := MarkSrc(src, sa, lamps);
      && |ms| == |src| && AnyMil(ms) == AnyMil(src) && Sum(ms) == Sum(src)
      && forall i :: 0 <= i < |ms| ==> ms[i].ecu == src[i].ecu
  {
    if src != [] {
      MarkSrcSame(Init(src), sa, lamps);
      var x := if Last(src).ecu == sa then Last(src).(j1939 := true, lamps := lamps) else Last(src);
      FoldsSnoc(MarkSrc(Init(src), sa, lamps), x);
    }
  }

  lemma MarkNothing(sa: nat, lamps: bv8)
    ensures MarkSrc([], sa, lamps) == [] && Lamps([]) == 0
  {
  }

  lemma MarkStep(src: seq<Src>, k: nat, sa: nat, lamps: bv8)
    requires k < |src|
    ensures MarkSrc(src[..k + 1], sa, lamps) ==
      MarkSrc(src[..k], sa, lamps) + [if src[k].ecu == sa then src[k].(j1939 := true, lamps := lamps) else src[k]]
  {
    Grow(src, k);
    SnocInit(src[..k], src[k]);
  }

  lemma MarkKeeps(r: Report, kind: Kind, code: string, sa: nat, oc: nat)
    requires Items(r)
    ensures Items(r.(j1939 := true, items := MarkFirst(r.items, kind, code, sa, oc)))
  {
    MarkFirstSame(r.items, kind, code, sa, oc);
  }

  /** A responder's word leaves the codes alone. */
  lemma SrcAlone(r: Report, ecu: nat, mil: bool, count: nat)
    requires Items(r)
    ensures var v := AddSrc(r, ecu, mil, count);
      && v.stored == r.stored && v.pending == r.pending && v.permanent == r.permanent && v.items == r.items
      && Items(v) && forall src, lamps :: Items(v.(j1939 := true, src := src, lamps := lamps))
  {
  }

  lemma CallKeeps(r: Report, c: Call)
    requires Inv(r) && FitsBuffer(c)
    ensures Inv(Do(r, c))
  {
    hide Lamps, Sum, AnyMil, Kept, Add, AddSrc, MarkFirst, MarkSrc, Items;
    match c
    case Code(kind, code, ecu, status, severity) => AddKeeps(r, kind, code, ecu, status, severity);
    case CodeJ1939(text, sa, oc, previous) =>
      var kind := if previous then Pending else Stored;
      AddKeeps(r, kind, text, sa, 0, 0);
      MarkKeeps(Add(r, kind, text, sa, 0, 0).0, kind, text, sa, oc);
    case Responder(id, mil, count) =>
      SrcAlone(r, id, mil, count);
      SrcKeeps(r, id, mil, count);
    case Controller(addr, lamps, n) =>
      SrcAlone(r, addr, lamps & LAMP_MIL != 0, n);
      SrcKeeps(r, addr, lamps & LAMP_MIL != 0, n);
      MarkSrcSame(AddSrc(r, addr, lamps & LAMP_MIL != 0, n).src, addr, lamps);
  }

  /** Over any sequence of calls whose codes fit the buffers. */
  lemma {:induction false} CallsKeep(cs: seq<Call>)
    requires forall i :: 0 <= i < |cs| ==> FitsBuffer(cs[i])
    ensures Inv(DoAll(EMPTY, cs))
  {
    hide Do;
    if cs == [] {
      assert Inv(EMPTY);
    } else {
      CallsKeep(Init(cs));
      CallKeeps(DoAll(EMPTY, Init(cs)), Last(cs));
    }
  }

  /** A longer code is never found again: adding it keeps a category without
      duplicates exactly when it is full or does not hold the cut text. */
  lemma LongCodeRepeats(r: Report, kind: Kind, code: string, ecu: nat, status: nat, severity: nat)
    requires Inv(r) && code != ""
    ensures Distinct(Codes(Add(r, kind, code, ecu, status, severity).0, kind)) <==>
      (|code| < CODE_LEN || |Codes(r, kind)| == CODES_MAX || Cut(code) !in Codes(r, kind))
  {
    var codes := Codes(r, kind);
    assert Kept(codes);
    var v := Add(r, kind, code, ecu, status, severity).0;
    if code !in codes && |codes| < CODES_MAX {
      assert Codes(v, kind) == codes + [Cut(code)];
      if Cut(code) in codes {
        var i :| 0 <= i < |codes| && codes[i] == Cut(code);
        assert Codes(v, kind)[i] == Codes(v, kind)[|codes|];
      }
    } else {
      assert Codes(v, kind) == codes;
    }
  }

  // ---- the report in place ---------------------------------------------------------------

  class Filling {
    var r: Report

    constructor ()
      ensures r == EMPTY
    {
      r := EMPTY;
    }

    method AddCode(kind: Kind, code: string, ecu: nat, status: nat, severity: nat) returns (ok: bool)
      modifies this
      ensures (r, ok) == Add(old(r), kind, code, ecu, status, severity)
    {
      if code == "" {
        return false;
      }
      var codes := Codes(r, kind);
      var known := InSet(codes, code);
      if !known {
        if |codes| >= CODES_MAX {
          return false;
        }
        r := WithCodes(r, kind, codes + [Cut(code)]);
      }
      var i := 0;
      while i < |r.items|
        invariant i <= |r.items| && forall k :: 0 <= k < i ==> !IsItem(r.items[k], kind, code, ecu)
      {
        if IsItem(r.items[i], kind, code, ecu) {
          return true;
        }
        i := i + 1;
      }
      if |r.items| < ITEMS_MAX {
        r := r.(items := r.items + [Item(Cut(code), ecu, kind, status, severity, false, 0)]);
      }
      ok := true;
    }

    method AddCodeJ1939(code: string, sa: nat, oc: nat, previous: bool) returns (ok: bool)
      modifies this
      ensures (r, ok) == AddJ1939(old(r), code, sa, oc, previous)
    {
      hide MarkFirst, Add;
      var kind := if previous then Pending else Stored;
      ok := AddCode(kind, code, sa, 0, 0);
      if ok {
        r := r.(j1939 := true);
        MarkItem(kind, code, sa, oc);
      }
    }

    /** The first item of that code and source, marked in place. */
    method MarkItem(kind: Kind, code: string, sa: nat, oc: nat)
      modifies this
      ensures r == old(r).(items := MarkFirst(old(r).items, kind, code, sa, oc))
    {
      hide MarkFirst, IsItem;
      ghost var items := r.items;
      var i := 0;
      MarkNone(items, kind, code, sa, oc);
      while i < |r.items|
        invariant i <= |r.items| && r == old(r)
        invariant MarkFirst(items, kind, code, sa, oc) == items[..i] + MarkFirst(items[i..], kind, code, sa, oc)
      {
        MarkHere(items, i, kind, code, sa, oc);
        if IsItem(r.items[i], kind, code, sa) {
          r := r.(items := r.items[i := r.items[i].(j1939 := true, oc := oc)]);
          return;
        }
        i := i + 1;
      }
    }

    method AddResponder(ecu: nat, mil: bool, count: nat)
      modifies this
      ensures r == AddSrc(old(r), ecu, mil, count)
    {
      var k := 0;
      ghost var src := r.src;
      while k < |r.src| && r.src[k].ecu != ecu
        invariant k <= |r.src| && r == old(r)
        invariant IndexOf(src, ecu) == k + IndexOf(src[k..], ecu)
      {
        assert src[k..][0] == src[k] && src[k..][1..] == src[k + 1..];
        k := k + 1;
      }
      assert k < |src| ==> src[k..][0] == src[k];
      if k == |r.src| {
        if |r.src| >= SRC_MAX {
          return;
        }
        r := r.(src := r.src + [Src(ecu, mil, count, false, 0)]);
      } else {
        r := r.(src := r.src[k := r.src[k].(ecu := ecu, mil := mil, count := count)]);
      }
      FoldIn();
    }

    /** Any lamp, the sum of the counts. */
    method FoldIn()
      modifies this
      ensures r == Fold(old(r))
    {
      var sum, mil := 0, false;
      var i := 0;
      while i < |r.src|
        invariant i <= |r.src| && r == old(r) && sum == Sum(r.src[..i]) && mil == AnyMil(r.src[..i])
      {
        Grow(r.src, i);
        FoldsSnoc(r.src[..i], r.src[i]);
        mil := mil || r.src[i].mil;
        sum := sum + r.src[i].count;
        i := i + 1;
      }
      Whole(r.src);
      r := r.(mil := mil, milCount := if sum > 255 then 255 else sum, nEcus := |r.src|);
    }

    method AddController(sa: nat, lamps: bv8, count: nat)
      modifies this
      ensures r == AddSrcJ1939(old(r), sa, lamps, count)
    {
      hide AddSrc, MarkSrc, Lamps;
      AddResponder(sa, lamps & LAMP_MIL != 0, count);
      var src, all := MarkController(r.src, sa, lamps);
      r := r.(j1939 := true, src := src, lamps := all);
    }

    /** The controller's word noted, and the union of all of them. */
    static method MarkController(src: seq<Src>, sa: nat, lamps: bv8) returns (marked: seq<Src>, all: bv8)
      ensures marked == MarkSrc(src, sa, lamps) && all == Lamps(marked)
    {
      hide MarkSrc, Lamps;
      marked := [];
      all := 0;
      var k := 0;
      MarkNothing(sa, lamps);
      while k < |src|
        invariant k <= |src| && marked == MarkSrc(src[..k], sa, lamps) && all == Lamps(marked)
      {
        var s := src[k];
        MarkStep(src, k, sa, lamps);
        if s.ecu == sa {
          s := s.(j1939 := true, lamps := lamps);
        }
        FoldsSnoc(marked, s);
        marked := marked + [s];
        all := all | s.lamps;
        k := k + 1;
      }
      Whole(src);
    }

    /** After a clear: the stored items that are gone leave the detail too. */
    method DropItems(left: seq<string>)
      modifies this
      ensures r == old(r).(items := LeftItems(old(r).items, left))
    {
      var kept: seq<Item> := [];
      var i := 0;
      while i < |r.items|
        invariant i <= |r.items| && r == old(r) && kept == LeftItems(r.items[..i], left)
      {
        Grow(r.items, i);
        SnocInit(r.items[..i], r.items[i]);
        var there := InSet(left, r.items[i].code);
        if !(r.items[i].kind == Stored && !there) {
          kept := kept + [r.items[i]];
        }
        i := i + 1;
      }
      Whole(r.items);
      r := r.(items := kept);
    }
  }

  method InSet(codes: seq<string>, code: string) returns (known: bool)
    ensures known <==> code in codes
  {
    var i := 0;
    while i < |codes|
      invariant i <= |codes| && code !in codes[..i]
    {
      if codes[i] == code {
        return true;
      }
      Grow(codes, i);
      i := i + 1;
    }
    Whole(codes);
    known := false;
  }

  function LeftItems(items: seq<Item>, left: seq<string>): seq<Item> {
    if items == [] then []
    else if Last(items).kind == Stored && Last(items).code !in left then LeftItems(Init(items), left)
    else LeftItems(Init(items), left) + [Last(items)]
  }

  // ---- new codes over scans and clears -----------------------------------------------------

  /** What is kept between scans: the last good report and the codes it left. */
  datatype Memory = Memory(report: Report, newCodes: seq<string>, prev: seq<string>, prevValid: bool)

  datatype Event = Scan(r: Report, valid: bool) | Clear(present: seq<string>)

  function Absent(codes: seq<string>, prev: seq<string>): seq<string> {
    if codes == [] then []
    else if Last(codes) in prev then Absent(Init(codes), prev)
    else Absent(Init(codes), prev) + [Last(codes)]
  }

  /** A scan done, or a confirmed clear and the codes read after it; and the codes
      announced as new. */
  function Next(m: Memory, e: Event): (Memory, seq<string>) {
    match e
    case Scan(r, valid) =>
      var codes := if valid && m.prevValid then Absent(r.stored, m.prev) else [];
      (if valid then Memory(r, codes, r.stored, true) else m, codes)
    case Clear(present) =>
      (Memory(m.report.(stored := present, items := LeftItems(m.report.items, present)), [], present, true), [])
  }

  const FORGETFUL: Memory := Memory(EMPTY, [], [], false)

  function Run(es: seq<Event>): Memory {
    if es == [] then FORGETFUL else Next(Run(Init(es)), Last(es)).0
  }

  /** The codes the last valid scan or clear left, if there was one. */
  function Left(es: seq<Event>): Option<seq<string>> {
    if es == [] then None
    else
      match Last(es)
      case Scan(r, valid) => if valid then Some(r.stored) else Left(Init(es))
      case Clear(present) => Some(present)
  }

  lemma {:induction false} AbsentIs(codes: seq<string>, prev: seq<string>, c: string)
    ensures c in Absent(codes, prev) <==> c in codes && c !in prev
  {
    if codes != [] {
      AbsentIs(Init(codes), prev, c);
      assert codes == Init(codes) + [Last(codes)];
    }
  }

  lemma {:induction false} RemembersLeft(es: seq<Event>)
    ensures Run(es).prevValid == Left(es).Some?
    ensures Left(es).Some? ==> Run(es).prev == Left(es).value
  {
    if es != [] {
      RemembersLeft(Init(es));
    }
  }

  /** A stored code is announced as new exactly when it was absent from what the last
      valid scan or clear left; before the first of them nothing is. */
  lemma NewMeansAbsent(es: seq<Event>, r: Report, valid: bool, c: string)
    ensures c in Next(Run(es), Scan(r, valid)).1 <==>
      valid && c in r.stored && Left(es).Some? && c !in Left(es).value
  {
    RemembersLeft(es);
    AbsentIs(r.stored, Run(es).prev, c);
  }

  lemma {:induction false} LeftItemsFrom(items: seq<Item>, left: seq<string>)
    ensures forall x <- LeftItems(items, left) :: x in items && (x.kind == Stored ==> x.code in left)
    ensures |LeftItems(items, left)| <= |items|
  {
    if items != [] {
      LeftItemsFrom(Init(items), left);
      assert items == Init(items) + [Last(items)];
    }
  }

  predicate DistinctItems(items: seq<Item>) {
    forall i, j :: 0 <= i < j < |items| ==> !IsItem(items[i], items[j].kind, items[j].code, items[j].ecu)
  }

  lemma {:induction false} LeftItemsDistinct(items: seq<Item>, left: seq<string>)
    requires DistinctItems(items)
    ensures DistinctItems(LeftItems(items, left))
  {
    if items != [] {
      LeftItemsDistinct(Init(items), left);
      LeftItemsFrom(Init(items), left);
      var kept, x := LeftItems(Init(items), left), Last(items);
      forall i | 0 <= i < |kept|
        ensures !IsItem(kept[i], x.kind, x.code, x.ecu)
      {
        assert kept[i] in Init(items);
        var k :| 0 <= k < |Init(items)| && Init(items)[k] == kept[i];
        assert items[k] == kept[i] && items[|items| - 1] == x;
      }
    }
  }

  predicate GoodEvent(e: Event) {
    e.Clear? ==> Kept(e.present)
  }

  /** A clear leaves the kept report consistent: its items are in their categories. */
  lemma ClearKeeps(m: Memory, present: seq<string>)
    requires Inv(m.report) && Kept(present)
    ensures Inv(Next(m, Clear(present)).0.report)
  {
    hide Sum, AnyMil, Lamps, Kept;
    var r, v := m.report, Next(m, Clear(present)).0.report;
    LeftItemsFrom(r.items, present);
    LeftItemsDistinct(r.items, present);
    forall i | 0 <= i < |v.items|
      ensures v.items[i].code in Codes(v, v.items[i].kind)
    {
      var x := v.items[i];
      assert x in r.items;
      var k :| 0 <= k < |r.items| && r.items[k] == x;
    }
  }

  /** Over any run of scans and clears the kept report stays consistent. */
  lemma {:induction false} RunKeeps(es: seq<Event>)
    requires forall i :: 0 <= i < |es| ==> GoodEvent(es[i]) && (es[i].Scan? ==> Inv(es[i].r))
    ensures Inv(Run(es).report)
  {
    if es == [] {
      CallsKeep([]);
    } else {
      RunKeeps(Init(es));
      if Last(es).Clear? {
        ClearKeeps(Run(Init(es)), Last(es).present);
      }
    }
  }

  // ---- merging code lists --------------------------------------------------------------------

  function Merge(dst: seq<string>, src: seq<string>, cap: nat): seq<string> {
    if src == [] then dst
    else
      var d := Merge(dst, Init(src), cap);
      if Last(src) in d || |d| >= cap then d else d + [Last(src)]
  }

  method MergeCodes(dst: seq<string>, src: seq<string>, cap: nat) returns (r: seq<string>)
    ensures r == Merge(dst, src, cap)
  {
    r := dst;
    var i := 0;
    while i < |src|
      invariant i <= |src| && r == Merge(dst, src[..i], cap)
    {
      Grow(src, i);
      SnocInit(src[..i], src[i]);
      var dup := InSet(r, src[i]);
      if !dup && |r| < cap {
        r := r + [src[i]];
      }
      i := i + 1;
    }
    Whole(src);
  }

  /** Merging keeps what was there, adds nothing twice, and loses a code only when the
      list is full. */
  lemma {:induction false} MergeMeans(dst: seq<string>, src: seq<string>, cap: nat)
    requires Distinct(dst)
    ensures var r := Merge(dst, src, cap);
      && Distinct(r) && dst <= r && (|r| > |dst| ==> |r| <= cap)
      && (forall c <- r :: c in dst || c in src)
      && (|r| < cap ==> forall c <- src :: c in r)
  {
    if src != [] {
      MergeMeans(dst, Init(src), cap);
      assert src == Init(src) + [Last(src)];
    }
  }
}
