/** The table of stored databases and the lookup over all of them. */
module DtcLookup {
  import opened Wrappers
  import opened Seqs
  import opened DtcText
  import opened DtcImport
  import opened DtcDb
  import opened DtcStore

  /** A database in memory: its stored text and the index over it. */
  datatype Db = Db(name: string, buf: string, items: seq<Item>)

  /** No stored file is longer. */
  const STORED_MAX: nat := FILE_MAX + ENTRIES_MAX * 8

  lemma NoIndexOfNothing()
    ensures IndexOf("", ENTRIES_MAX).None?
  {
  }

  predicate Bounded(db: Db) {
    InBounds(db.buf, db.items)
  }

  predicate Has(db: Db, code: string) {
    exists k :: 0 <= k < |db.items| && db.items[k].code == code
  }

  /** A database whose codes are in order, as the importer stores them, that has the
      code: the search cannot miss it. */
  ghost predicate SureHas(db: Db, code: string) {
    Has(db, code) && StrictCodes(db.items)
  }

  /** What a reply buffer of cap bytes shows of a description. */
  function Shown(desc: string, cap: nat): string
    requires cap > 0
  {
    if |desc| < cap then desc else desc[..cap - 1]
  }

  class Databases {
    const slots: array<Option<Db>>

    ghost predicate Valid()
      reads this, slots
    {
      && (forall i :: 0 <= i < slots.Length && slots[i].Some? ==> Bounded(slots[i].value))
      && (forall i, j :: 0 <= i < j < slots.Length && slots[i].Some? && slots[j].Some? ==>
            slots[i].value.name != slots[j].value.name)
    }

    /** The databases by name. */
    ghost function View(): map<string, Db>
      reads this, slots
    {
      ViewOf(slots[..])
    }

    constructor ()
      ensures Valid() && fresh(slots) && slots.Length == DB_MAX && View() == map[]
    {
      slots := new Option<Db>[DB_MAX](_ => None);
      new;
      assert forall i :: 0 <= i < DB_MAX ==> slots[..][i].None?;
      ViewIs(slots[..]);
      assert View() == map[];
    }

    method Find(name: string) returns (k: int)
      requires Valid()
      ensures -1 <= k < slots.Length
      ensures k >= 0 ==> slots[k].Some? && slots[k].value.name == name
      ensures k == -1 ==> forall i :: 0 <= i < slots.Length && slots[i].Some? ==> slots[i].value.name != name
      ensures k >= 0 <==> name in View()
    {
      hide ViewOf;
      ViewNames(slots[..], name);
      k := 0;
      while k < slots.Length
        invariant 0 <= k <= slots.Length
        invariant forall i :: 0 <= i < k && slots[i].Some? ==> slots[i].value.name != name
      {
        if slots[k].Some? && slots[k].value.name == name {
          assert InSlot(slots[..], k, name);
          return;
        }
        k := k + 1;
      }
      k := -1;
    }

    /** A stored text, of any origin, indexed into the slot of its name or the first
        free one. */
    method Load(name: string, buf: string) returns (ok: bool)
      requires Valid()
      modifies slots
      ensures Valid()
      ensures ok ==> IndexOf(buf, ENTRIES_MAX).Some?
                     && View() == old(View())[name := Db(name, buf, IndexOf(buf, ENTRIES_MAX).value)]
      ensures !ok ==> View() == old(View())
      ensures ok <==> IndexOf(buf, ENTRIES_MAX).Some? && |buf| <= STORED_MAX
                      && (name in old(View()) || old(exists i :: 0 <= i < slots.Length && slots[i].None?))
    {
      hide IndexOf;
      NoIndexOfNothing();
      if buf == "" || |buf| > STORED_MAX {
        return false;
      }
      var index := Index(buf, ENTRIES_MAX);
      if index.None? {
        return false;
      }
      IndexIsBounded(buf, ENTRIES_MAX);
      var k := Find(name);
      if k == -1 {
        k := FreeSlot();
      }
      if k == -1 {
        return false;
      }
      ViewUpdate(slots[..], k, Db(name, buf, index.value));
      ghost var was := slots[..];
      slots[k] := Some(Db(name, buf, index.value));
      assert slots[..] == was[k := slots[k]];
      ok := true;
    }

    method FreeSlot() returns (k: int)
      ensures -1 <= k < slots.Length
      ensures k >= 0 ==> slots[k].None?
      ensures k == -1 ==> forall i :: 0 <= i < slots.Length ==> slots[i].Some?
    {
      k := 0;
      while k < slots.Length
        invariant 0 <= k <= slots.Length && forall i :: 0 <= i < k ==> slots[i].Some?
      {
        if slots[k].None? {
          return;
        }
        k := k + 1;
      }
      k := -1;
    }

    /** How many slots are taken. */
    method Used() returns (n: nat)
      requires Valid()
      ensures n == |View()|
    {
      hide ViewOf;
      n := 0;
      ViewSize(slots[..], 0);
      for i := 0 to slots.Length
        invariant n == |ViewOf(slots[..][..i])|
      {
        ViewSize(slots[..], i);
        if slots[i].Some? {
          n := n + 1;
        }
      }
      Whole(slots[..]);
    }

    method Delete(name: string)
      requires Valid()
      modifies slots
      ensures Valid() && View() == old(View()) - {name}
    {
      var k := Find(name);
      if k >= 0 {
        ViewRemove(slots[..], k);
        ghost var was := slots[..];
        slots[k] := None;
        assert slots[..] == was[k := None];
      }
    }

    /** The used slot with the least name behind `after`. */
    method NextByName(after: Option<string>) returns (best: int)
      ensures -1 <= best < slots.Length
      ensures best >= 0 ==> slots[best].Some? && Behind(slots[best].value.name, after)
      ensures best >= 0 ==>
        forall i :: 0 <= i < slots.Length && slots[i].Some? && Behind(slots[i].value.name, after) ==>
          Cmp(slots[best].value.name, slots[i].value.name) <= 0
      ensures best == -1 ==> forall i :: 0 <= i < slots.Length && slots[i].Some? ==> !Behind(slots[i].value.name, after)
    {
      best := -1;
      var i := 0;
      while i < slots.Length
        invariant 0 <= i <= slots.Length && -1 <= best < i
        invariant best >= 0 ==> slots[best].Some? && Behind(slots[best].value.name, after)
        invariant best >= 0 ==> forall j :: 0 <= j < i && slots[j].Some? && Behind(slots[j].value.name, after) ==>
          Cmp(slots[best].value.name, slots[j].value.name) <= 0
        invariant best == -1 ==> forall j :: 0 <= j < i && slots[j].Some? ==> !Behind(slots[j].value.name, after)
      {
        if slots[i].Some? && Behind(slots[i].value.name, after) {
          var name := slots[i].value.name;
          CmpZero(name, name);
          if best == -1 || Cmp(name, slots[best].value.name) < 0 {
            if best >= 0 {
              LessThanAll(slots[..], i, best, name, after);
            }
            best := i;
          } else {
            CmpSwap(name, slots[best].value.name);
          }
        }
        i := i + 1;
      }
    }

    /** The lookup: the databases in the order of their names, the first hit. A stored
        file that is not in order may be passed over, but says nothing wrong. */
    method Lookup(code: string, cap: nat) returns (found: Option<string>)
      requires Valid() && cap > 0
      ensures |code| == 5 ==> LookupMeans(View(), code, cap, found)
      ensures |code| != 5 ==> found == None
    {
      hide StrictCodes, Cmp, LookupMeans, SureHas;
      found := None;
      if |code| != 5 {
        return;
      }
      var after: Option<string> := None;
      ghost var seen: set<int> := {};
      var k := NextByName(after);
      while k != -1
        invariant -1 <= k < slots.Length
        invariant NextIs(slots[..], k, after)
        invariant NoHitBefore(slots[..], code, after)
        decreases AheadOf(slots[..], after)
      {
        var db := slots[k].value;
        assert slots[..][k] == slots[k];
        var i := Bsearch(db.items, code);
        if i >= 0 {
          var it := db.items[i];
          found := Some(Shown(db.buf[it.off..it.off + it.len], cap));
          FirstHitFound(slots[..], code, cap, k, i, after);
          return;
        }
        NotSure(db, code);
        NextStep(slots[..], code, k, after);
        after := Some(db.name);
        k := NextByName(after);
        assert NextIs(slots[..], k, after) by {
          assert forall j :: 0 <= j < slots.Length ==> slots[..][j] == slots[j];
        }
      }
      NothingFound(slots[..], code, cap, after);
    }
  }

  // ---- the table as a map ---------------------------------------------------------------

  ghost function ViewOf(s: seq<Option<Db>>): map<string, Db> {
    if s == [] then map[]
    else
      match Last(s)
      case Some(db) => ViewOf(Init(s))[db.name := db]
      case None => ViewOf(Init(s))
  }

  ghost predicate Unique(s: seq<Option<Db>>) {
    forall i, j :: 0 <= i < j < |s| && s[i].Some? && s[j].Some? ==> s[i].value.name != s[j].value.name
  }

  ghost predicate InSlot(s: seq<Option<Db>>, i: int, n: string) {
    0 <= i < |s| && s[i].Some? && s[i].value.name == n
  }

  lemma {:induction false} ViewIs(s: seq<Option<Db>>)
    requires Unique(s)
    ensures forall i :: 0 <= i < |s| && s[i].Some? ==>
      s[i].value.name in ViewOf(s) && ViewOf(s)[s[i].value.name] == s[i].value
    ensures forall n <- ViewOf(s) :: exists i :: InSlot(s, i, n)
  {
    if s != [] {
      ViewIs(Init(s));
      forall n <- ViewOf(s)
        ensures exists i :: InSlot(s, i, n)
      {
        if Last(s).Some? && Last(s).value.name == n {
          assert InSlot(s, |s| - 1, n);
        } else {
          assert n in ViewOf(Init(s));
          var i :| InSlot(Init(s), i, n);
          assert InSlot(s, i, n);
        }
      }
    }
  }

  /** One slot more: one database more, when it is taken. */
  lemma ViewSize(s: seq<Option<Db>>, i: nat)
    requires Unique(s) && i <= |s|
    ensures |ViewOf(s[..0])| == 0
    ensures i < |s| ==> |ViewOf(s[..i + 1])| == |ViewOf(s[..i])| + if s[i].Some? then 1 else 0
  {
    if i < |s| {
      Grow(s, i);
      SnocInit(s[..i], s[i]);
      ViewIs(s[..i]);
      if s[i].Some? {
        assert s[i].value.name !in ViewOf(s[..i]);
        assert ViewOf(s[..i + 1]).Keys == ViewOf(s[..i]).Keys + {s[i].value.name};
      }
    }
  }

  /** Fewer databases than slots leave one free. */
  lemma {:induction false} ViewRoom(s: seq<Option<Db>>)
    requires Unique(s)
    ensures |ViewOf(s)| <= |s|
    ensures |ViewOf(s)| < |s| <==> exists i :: 0 <= i < |s| && s[i].None?
  {
    if s != [] {
      ViewRoom(Init(s));
      ViewSize(s, |s| - 1);
      Whole(s);
      if Last(s).None? {
        assert s[|s| - 1].None?;
      } else {
        assert (exists i :: 0 <= i < |Init(s)| && Init(s)[i].None?) ==> exists i :: 0 <= i < |s| && s[i].None? by {
          assert forall i :: 0 <= i < |Init(s)| ==> Init(s)[i] == s[i];
        }
      }
    }
  }

  lemma ViewNames(s: seq<Option<Db>>, name: string)
    requires Unique(s)
    ensures name in ViewOf(s) <==> exists i :: InSlot(s, i, name)
  {
    ViewIs(s);
  }

  lemma ViewUpdate(s: seq<Option<Db>>, k: nat, db: Db)
    requires Unique(s) && k < |s|
    requires forall i :: 0 <= i < |s| && i != k && s[i].Some? ==> s[i].value.name != db.name
    requires s[k].Some? ==> s[k].value.name == db.name
    ensures Unique(s[k := Some(db)]) && ViewOf(s[k := Some(db)]) == ViewOf(s)[db.name := db]
  {
    var t := s[k := Some(db)];
    var changed := ViewOf(s)[db.name := db];
    ViewIs(s);
    ViewIs(t);
    forall n <- ViewOf(t)
      ensures n in changed && ViewOf(t)[n] == changed[n]
    {
      var i :| InSlot(t, i, n);
      if i != k {
        assert s[i] == t[i];
      }
    }
    forall n <- changed
      ensures n in ViewOf(t)
    {
      if n == db.name {
        assert t[k].Some?;
      } else {
        var i :| InSlot(s, i, n);
        assert t[i] == s[i];
      }
    }
  }

  lemma ViewRemove(s: seq<Option<Db>>, k: nat)
    requires Unique(s) && k < |s| && s[k].Some?
    ensures Unique(s[k := None]) && ViewOf(s[k := None]) == ViewOf(s) - {s[k].value.name}
  {
    var t := s[k := None];
    var left := ViewOf(s) - {s[k].value.name};
    ViewIs(s);
    ViewIs(t);
    forall n <- ViewOf(t)
      ensures n in left && ViewOf(t)[n] == left[n]
    {
      var i :| InSlot(t, i, n);
      assert s[i] == t[i];
    }
    forall n <- left
      ensures n in ViewOf(t)
    {
      var i :| InSlot(s, i, n);
      assert t[i] == s[i];
    }
  }

  lemma {:induction false} IndexIsBounded(buf: string, cap: nat)
    ensures IndexOf(buf, cap).Some? ==> InBounds(buf, IndexOf(buf, cap).value)
  {
  }

  // ---- the order of the names -------------------------------------------------------------

  predicate Behind(name: string, after: Option<string>) {
    after.None? || Cmp(name, after.value) > 0
  }

  lemma LessThanAll(s: seq<Option<Db>>, n: nat, best: nat, name: string, after: Option<string>)
    requires n <= |s| && best < n && s[best].Some?
    requires forall j :: 0 <= j < n && s[j].Some? && Behind(s[j].value.name, after) ==>
      Cmp(s[best].value.name, s[j].value.name) <= 0
    requires Cmp(name, s[best].value.name) < 0
    ensures forall j :: 0 <= j < n && s[j].Some? && Behind(s[j].value.name, after) ==> Cmp(name, s[j].value.name) <= 0
  {
    forall j | 0 <= j < n && s[j].Some? && Behind(s[j].value.name, after)
      ensures Cmp(name, s[j].value.name) <= 0
    {
      CmpTrans(name, s[best].value.name, s[j].value.name);
    }
  }

  /** Slot k is the next one behind a name; -1: there is none. */
  ghost predicate NextIs(s: seq<Option<Db>>, k: int, after: Option<string>) {
    if k == -1 then forall i :: 0 <= i < |s| && s[i].Some? ==> !Behind(s[i].value.name, after)
    else
      && 0 <= k < |s| && s[k].Some? && Behind(s[k].value.name, after)
      && forall i :: 0 <= i < |s| && s[i].Some? && Behind(s[i].value.name, after) ==>
           Cmp(s[k].value.name, s[i].value.name) <= 0
  }

  ghost predicate NoHitBefore(s: seq<Option<Db>>, code: string, after: Option<string>) {
    forall i :: 0 <= i < |s| && s[i].Some? && !Behind(s[i].value.name, after) ==> !SureHas(s[i].value, code)
  }

  lemma NotSure(db: Db, code: string)
    requires StrictCodes(db.items) ==> forall i :: 0 <= i < |db.items| ==> db.items[i].code != code
    ensures !SureHas(db, code)
  {
  }

  /** The slots still ahead. */
  ghost function AheadOf(s: seq<Option<Db>>, after: Option<string>): set<int> {
    set i | 0 <= i < |s| && s[i].Some? && Behind(s[i].value.name, after)
  }

  /** The answer of the first database, by name, that has the code, or of one before it
      that is not in order. */
  ghost predicate LookupMeans(view: map<string, Db>, code: string, cap: nat, found: Option<string>)
    requires cap > 0
  {
    match found
    case None => forall n <- view :: !SureHas(view[n], code)
    case Some(text) =>
      exists n <- view :: FirstWith(view, code, n) && Bounded(view[n])
        && exists d :: Says(view[n].buf, view[n].items, code, d) && text == Shown(d, cap)
  }

  ghost predicate FirstWith(view: map<string, Db>, code: string, n: string)
    requires n in view
  {
    Has(view[n], code) && forall m <- view :: Cmp(m, n) < 0 ==> !SureHas(view[m], code)
  }

  lemma NextStep(s: seq<Option<Db>>, code: string, k: nat, after: Option<string>)
    requires Unique(s) && NextIs(s, k, after) && NoHitBefore(s, code, after) && !SureHas(s[k].value, code)
    ensures NoHitBefore(s, code, Some(s[k].value.name))
    ensures AheadOf(s, Some(s[k].value.name)) < AheadOf(s, after)
  {
    hide SureHas;
    var name := s[k].value.name;
    CmpZero(name, name);
    forall i | 0 <= i < |s| && s[i].Some? && !Behind(s[i].value.name, Some(name))
      ensures !SureHas(s[i].value, code)
    {
      if Behind(s[i].value.name, after) {
        CmpSwap(name, s[i].value.name);
        CmpZero(name, s[i].value.name);
        assert i == k;
      }
    }
    forall i <- AheadOf(s, Some(name))
      ensures i in AheadOf(s, after)
    {
      if after.Some? {
        CmpSwap(s[i].value.name, name);
        CmpSwap(name, after.value);
        CmpTrans(after.value, name, s[i].value.name);
        CmpSwap(after.value, s[i].value.name);
      }
    }
    assert k in AheadOf(s, after) && k !in AheadOf(s, Some(name));
  }

  lemma FirstHitFound(s: seq<Option<Db>>, code: string, cap: nat, k: nat, i: nat, after: Option<string>)
    requires Unique(s) && NextIs(s, k, after) && NoHitBefore(s, code, after) && cap > 0
    requires Bounded(s[k].value) && i < |s[k].value.items| && s[k].value.items[i].code == code
    ensures LookupMeans(ViewOf(s), code, cap, Some(Shown(RowIn(s[k].value.buf, s[k].value.items[i]).desc, cap)))
  {
    ViewIs(s);
    var view, db := ViewOf(s), s[k].value;
    forall m <- view | Cmp(m, db.name) < 0
      ensures !SureHas(view[m], code)
    {
      var j :| InSlot(s, j, m);
      CmpSwap(m, db.name);
      assert !Behind(m, after);
    }
    assert Has(db, code);
    assert FirstWith(view, code, db.name);
    assert Says(db.buf, db.items, code, RowIn(db.buf, db.items[i]).desc);
  }

  lemma NothingFound(s: seq<Option<Db>>, code: string, cap: nat, after: Option<string>)
    requires Unique(s) && NextIs(s, -1, after) && NoHitBefore(s, code, after) && cap > 0
    ensures LookupMeans(ViewOf(s), code, cap, None)
  {
    ViewIs(s);
    var view := ViewOf(s);
    forall n <- view
      ensures !SureHas(view[n], code)
    {
      var j :| InSlot(s, j, n);
      assert !Behind(s[j].value.name, after);
    }
  }
}
