/** The trouble-code databases as their user sees them: files uploaded, deleted and kept
    over restarts, and a lookup that answers from them. */
module DtcUpload {
  import opened Wrappers
  import opened DtcText
  import opened DtcDb
  import opened DtcStore
  import opened DtcFile
  import opened DtcLookup

  const NAME_LEN: nat := 25

  predicate NameOk(name: string) {
    0 < |name| < NAME_LEN && forall i :: 0 <= i < |name| ==> NameChar(name[i])
  }

  predicate NameChar(c: char) {
    'a' <= c <= 'z' || 'A' <= c <= 'Z' || '0' <= c <= '9' || c == '_' || c == '-'
  }

  /** An upload that is taken: a good name, a size within the limits, a slot for it, and
      something valid in it. */
  predicate Accepts(files: map<string, string>, name: string, raw: string) {
    && NameOk(name) && 0 < |raw| <= FILE_MAX
    && (name in files || |files| < DB_MAX)
    && Meaning(raw) != map[]
  }

  /** A text that answers as that file does, and can be loaded. */
  ghost predicate StoredAs(text: string, raw: string) {
    && |text| <= STORED_MAX && IndexOf(text, ENTRIES_MAX).Some?
    && AnswersAs(text, IndexOf(text, ENTRIES_MAX).value, Meaning(raw))
  }

  function Loaded(name: string, text: string): Db {
    Db(name, text, match IndexOf(text, ENTRIES_MAX) case Some(items) => items case None => [])
  }

  /** The stored texts in memory. */
  function Cached(disk: map<string, string>): map<string, Db> {
    map n | n in disk :: Loaded(n, disk[n])
  }

  /** The file by the least name that has the code. */
  ghost predicate FirstFile(files: map<string, string>, code: string, n: string)
    requires n in files
  {
    code in Meaning(files[n]) && forall m <- files :: Cmp(m, n) < 0 ==> code !in Meaning(files[m])
  }

  /** The answer that file gives, cut to the reply; none when no file has the code. */
  ghost predicate AnsweredFrom(files: map<string, string>, code: string, cap: nat, found: Option<string>)
    requires cap > 0
  {
    match found
    case None => forall n <- files :: code !in Meaning(files[n])
    case Some(text) => exists n <- files :: FirstFile(files, code, n) && text == Shown(Meaning(files[n])[code], cap)
  }

  method CheckName(name: string) returns (ok: bool)
    ensures ok == NameOk(name)
  {
    if |name| == 0 || |name| >= NAME_LEN {
      return false;
    }
    for i := 0 to |name|
      invariant forall j :: 0 <= j < i ==> NameChar(name[j])
    {
      if !NameChar(name[i]) {
        return false;
      }
    }
    ok := true;
  }

  // ---- the cache and the disk ---------------------------------------------------------------

  lemma AsMany<A, B>(a: map<string, A>, b: map<string, B>)
    requires a.Keys == b.Keys
    ensures |a| == |b|
  {
    assert |a| == |a.Keys| && |b| == |b.Keys|;
  }

  lemma CachedMore(disk: map<string, string>, name: string, text: string)
    ensures Cached(disk[name := text]) == Cached(disk)[name := Loaded(name, text)]
  {
  }

  lemma CachedLess(disk: map<string, string>, name: string)
    ensures Cached(disk - {name}) == Cached(disk) - {name}
  {
  }

  /** Every stored text has a good name, and is that of its file. */
  ghost predicate Backed(disk: map<string, string>, files: map<string, string>) {
    && files.Keys == disk.Keys && |files| <= DB_MAX
    && forall n <- disk :: NameOk(n) && StoredAs(disk[n], files[n])
  }

  lemma MoreKeys(files: map<string, string>, name: string, raw: string)
    requires |files| <= DB_MAX && (name in files || |files| < DB_MAX)
    ensures |files[name := raw]| <= DB_MAX
  {
    var more := files[name := raw];
    assert more.Keys == if name in files then files.Keys else files.Keys + {name};
    assert |more| == |more.Keys| && |files| == |files.Keys|;
  }

  lemma BackedMore(disk: map<string, string>, files: map<string, string>, name: string, text: string, raw: string)
    requires Backed(disk, files) && (name in files || |files| < DB_MAX) && NameOk(name) && StoredAs(text, raw)
    ensures Backed(disk[name := text], files[name := raw])
  {
    hide NameOk, StoredAs;
    MoreKeys(files, name, raw);
  }

  lemma BackedLess(disk: map<string, string>, files: map<string, string>, name: string)
    requires Backed(disk, files)
    ensures Backed(disk - {name}, files - {name})
    ensures !NameOk(name) ==> files - {name} == files && name !in files
  {
    hide NameOk, StoredAs;
    var fewer := files - {name};
    assert fewer.Keys == files.Keys - {name};
    assert |fewer| == |fewer.Keys| && |files| == |files.Keys|;
    SubsetSize(fewer.Keys, files.Keys);
  }

  lemma BackedKeys(disk: map<string, string>, files: map<string, string>)
    requires Backed(disk, files)
    ensures files.Keys == disk.Keys == Cached(disk).Keys && |files| == |disk| == |Cached(disk)| <= DB_MAX
  {
    AsMany(files, disk);
    AsMany(disk, Cached(disk));
  }

  lemma SubsetSize(a: set<string>, b: set<string>)
    requires a <= b
    ensures |a| <= |b| && (a != b ==> |a| < |b|)
  {
    assert b == a + (b - a);
    if a != b {
      var x :| x in b - a;
      assert |b - a| > 0;
    }
  }

  /** What has been read in after i names of the directory. */
  function Part(disk: map<string, string>, order: seq<string>, i: nat): map<string, Db>
    requires i <= |order|
  {
    map n | n in disk && n in order[..i] :: Loaded(n, disk[n])
  }

  lemma PartMore(disk: map<string, string>, order: seq<string>, i: nat)
    requires i < |order| && order[i] in disk
    ensures Part(disk, order, i + 1) == Part(disk, order, i)[order[i] := Loaded(order[i], disk[order[i]])]
  {
    assert order[..i + 1] == order[..i] + [order[i]];
  }

  lemma PartAll(disk: map<string, string>, order: seq<string>)
    requires forall n <- disk :: n in order
    ensures Part(disk, order, |order|) == Cached(disk) && Part(disk, order, 0) == map[]
  {
    assert order[..|order|] == order;
  }

  /** There is a slot for each of them. */
  lemma RoomFor(disk: map<string, string>, order: seq<string>, i: nat)
    requires i < |order| && order[i] in disk && |disk| <= DB_MAX
    ensures order[i] in Part(disk, order, i) || |Part(disk, order, i)| < DB_MAX
  {
    var part := Part(disk, order, i);
    SubsetSize(part.Keys, disk.Keys);
    assert |part| == |part.Keys| && |disk| == |disk.Keys|;
  }

  lemma Loads(text: string, raw: string)
    requires StoredAs(text, raw)
    ensures |text| <= STORED_MAX && IndexOf(text, ENTRIES_MAX).Some?
  {
  }

  lemma BackedLoads(disk: map<string, string>, files: map<string, string>, n: string)
    requires Backed(disk, files) && n in disk
    ensures NameOk(n) && |disk[n]| <= STORED_MAX && IndexOf(disk[n], ENTRIES_MAX).Some?
  {
    Loads(disk[n], files[n]);
  }

  // ---- the answers --------------------------------------------------------------------------

  /** Every database answers as its file. */
  ghost predicate Serves(view: map<string, Db>, files: map<string, string>) {
    view.Keys == files.Keys && forall n <- files :: AnswersAs(view[n].buf, view[n].items, Meaning(files[n]))
  }

  lemma HasIsMeant(db: Db, m: map<string, string>, code: string)
    requires AnswersAs(db.buf, db.items, m)
    ensures SureHas(db, code) <==> code in m
    ensures Has(db, code) <==> code in m
  {
    if Has(db, code) {
      var k :| 0 <= k < |db.items| && db.items[k].code == code;
      assert Says(db.buf, db.items, code, RowIn(db.buf, db.items[k]).desc);
    }
    if code in m {
      assert Says(db.buf, db.items, code, m[code]);
    }
  }

  lemma AnswersFromFiles(view: map<string, Db>, files: map<string, string>, code: string, cap: nat,
        found: Option<string>)
    requires cap > 0 && Serves(view, files) && LookupMeans(view, code, cap, found)
    ensures AnsweredFrom(files, code, cap, found)
  {
    hide Meaning, Has, SureHas, Cmp, AnswersAs;
    forall n <- files
      ensures SureHas(view[n], code) <==> code in Meaning(files[n])
      ensures Has(view[n], code) <==> code in Meaning(files[n])
    {
      HasIsMeant(view[n], Meaning(files[n]), code);
    }
    if found.Some? {
      var n :| n in view && FirstWith(view, code, n) && Bounded(view[n])
        && exists d :: Says(view[n].buf, view[n].items, code, d) && found.value == Shown(d, cap);
      var d :| Says(view[n].buf, view[n].items, code, d) && found.value == Shown(d, cap);
      SaysWhatIsMeant(view[n], Meaning(files[n]), code, d);
      assert FirstFile(files, code, n);
    }
  }

  lemma SaysWhatIsMeant(db: Db, m: map<string, string>, code: string, d: string)
    requires AnswersAs(db.buf, db.items, m) && Says(db.buf, db.items, code, d)
    ensures code in m && m[code] == d
  {
  }

  lemma CachedServes(disk: map<string, string>, files: map<string, string>)
    requires Backed(disk, files)
    ensures Serves(Cached(disk), files)
  {
    hide Meaning, AnswersAs, IndexOf;
  }

  /** The stored texts on disk, their cache, and the files they came from. */
  class Store {
    var dbs: Databases
    var disk: map<string, string>
    ghost var files: map<string, string>

    ghost predicate Valid()
      reads this, dbs, dbs.slots
    {
      && dbs.Valid() && dbs.slots.Length == DB_MAX && dbs.View() == Cached(disk)
      && Backed(disk, files)
    }

    constructor ()
      ensures Valid() && files == map[] && fresh(dbs) && fresh(dbs.slots)
    {
      dbs := new Databases();
      disk, files := map[], map[];
    }

    /** Whether the name has a slot, or there is one left. */
    method HasSlot(name: string) returns (ok: bool)
      requires Valid()
      ensures ok == (name in files || |files| < DB_MAX)
    {
      hide ViewOf, Backed, Cached;
      var k := dbs.Find(name);
      var used := dbs.Used();
      BackedKeys(disk, files);
      ok := k != -1 || used < DB_MAX;
    }

    /** A text written to the disk and read into its slot. */
    method Keep(name: string, text: string, ghost raw: string) returns (ok: bool)
      requires Valid() && NameOk(name) && StoredAs(text, raw) && (name in files || |files| < DB_MAX)
      modifies this, dbs.slots
      ensures Valid() && dbs == old(dbs) && ok && files == old(files)[name := raw]
    {
      hide StoredAs, IndexOf, ViewOf, NameOk, Cached, Backed;
      BackedKeys(disk, files);
      Loads(text, raw);
      ViewRoom(dbs.slots[..]);
      CachedMore(disk, name, text);
      BackedMore(disk, files, name, text, raw);
      disk := disk[name := text];
      files := files[name := raw];
      ok := dbs.Load(name, text);
    }

    /** An uploaded file: checked, imported, written and cached. */
    method Upload(name: string, raw: string) returns (ok: bool)
      requires Valid()
      modifies this, dbs.slots
      ensures Valid() && dbs == old(dbs)
      ensures ok <==> Accepts(old(files), name, raw)
      ensures files == if ok then old(files)[name := raw] else old(files)
    {
      hide Meaning, AnswersAs, IndexOf, ViewOf, Valid, NameOk;
      ok := CheckName(name);
      if !ok || raw == "" || |raw| > FILE_MAX {
        return false;
      }
      ok := HasSlot(name);
      if !ok {
        return;
      }
      var text := StoreFile(raw);
      if text.None? {
        return false;
      }
      ok := Keep(name, text.value, raw);
    }

    method Delete(name: string) returns (ok: bool)
      requires Valid()
      modifies this, dbs.slots
      ensures Valid() && dbs == old(dbs)
      ensures ok <==> name in old(files)
      ensures files == old(files) - {name}
    {
      hide ViewOf, NameOk, Cached, Backed;
      BackedKeys(disk, files);
      BackedLess(disk, files, name);
      ok := CheckName(name);
      if !ok {
        return;
      }
      ok := name in disk;
      CachedLess(disk, name);
      disk := disk - {name};
      files := files - {name};
      dbs.Delete(name);
    }

    /** A restart: the cache is gone, and the directory is read in whatever order. */
    method Restart(order: seq<string>)
      requires Valid() && (forall n :: n in order <==> n in disk)
      modifies this
      ensures Valid() && files == old(files) && disk == old(disk) && fresh(dbs) && fresh(dbs.slots)
    {
      hide ViewOf, StoredAs, IndexOf, Part, Cached, NameOk, Backed;
      BackedKeys(disk, files);
      dbs := new Databases();
      var i := 0;
      PartAll(disk, order);
      while i < |order|
        invariant i <= |order| && disk == old(disk) && files == old(files)
        invariant dbs.Valid() && dbs.slots.Length == DB_MAX && fresh(dbs) && fresh(dbs.slots)
        invariant dbs.View() == Part(disk, order, i)
      {
        assert order[i] in order;
        RoomFor(disk, order, i);
        ViewRoom(dbs.slots[..]);
        BackedLoads(disk, files, order[i]);
        var ok := CheckName(order[i]);
        if ok {
          ok := dbs.Load(order[i], disk[order[i]]);
        }
        PartMore(disk, order, i);
        i := i + 1;
      }
    }

    /** A lookup answers with what the first file by name that has the code says of it. */
    method Lookup(code: string, cap: nat) returns (found: Option<string>)
      requires Valid() && cap > 0
      ensures |code| == 5 ==> AnsweredFrom(files, code, cap, found)
      ensures |code| != 5 ==> found == None
    {
      found := dbs.Lookup(code, cap);
      if |code| == 5 {
        CachedServes(disk, files);
        AnswersFromFiles(dbs.View(), files, code, cap, found);
      }
    }
  }
}
