/** The importer of a trouble-code database: entries normalised into a scratch
    buffer, sorted, and the last of each code kept. */
module DtcImport {
  import opened Wrappers
  import opened Seqs
  import opened DtcText

  /** A pair the tokenizers found in a file. */
  datatype Entry = Entry(code: string, desc: string)

  /** Where an entry's description lies, and when it came. */
  datatype Item = Item(code: string, off: nat, len: nat, seqNo: nat)

  /** A normalised entry. */
  datatype Row = Row(code: string, desc: string)

  // ---- the naive reading -----------------------------------------------------------

  /** What the entries mean: the last valid occurrence of a code wins. */
  function Naive(es: seq<Entry>): map<string, string> {
    if es == [] then map[]
    else
      match CodeOf(Last(es).code)
      case Some(c) => Naive(Init(es))[c := Clean(Last(es).desc)]
      case None => Naive(Init(es))
  }

  /** The valid entries, normalised, in order. */
  function RowsOf(es: seq<Entry>): seq<Row> {
    if es == [] then []
    else
      match CodeOf(Last(es).code)
      case Some(c) => RowsOf(Init(es)) + [Row(c, Clean(Last(es).desc))]
      case None => RowsOf(Init(es))
  }

  function MapOf(rows: seq<Row>): map<string, string> {
    if rows == [] then map[] else MapOf(Init(rows))[Last(rows).code := Last(rows).desc]
  }

  lemma {:induction false} NaiveIsMapOf(es: seq<Entry>)
    ensures Naive(es) == MapOf(RowsOf(es))
  {
    if es != [] {
      NaiveIsMapOf(Init(es));
      match CodeOf(Last(es).code)
      case Some(c) => SnocInit(RowsOf(Init(es)), Row(c, Clean(Last(es).desc)));
      case None =>
    }
  }

  /** In a map of rows a code stands for its last row. */
  lemma {:induction false} MapOfLast(rows: seq<Row>, k: nat)
    requires k < |rows| && forall j :: k < j < |rows| ==> rows[j].code != rows[k].code
    ensures rows[k].code in MapOf(rows) && MapOf(rows)[rows[k].code] == rows[k].desc
  {
    if k < |rows| - 1 {
      MapOfLast(Init(rows), k);
    }
  }

  lemma {:induction false} MapOfAbsent(rows: seq<Row>, c: string)
    ensures c in MapOf(rows) <==> exists k :: 0 <= k < |rows| && rows[k].code == c
  {
    if rows != [] {
      MapOfAbsent(Init(rows), c);
      if k :| 0 <= k < |Init(rows)| && Init(rows)[k].code == c {
        assert rows[k].code == c;
      }
    }
  }

  // ---- order and deduplication -------------------------------------------------------

  /** The order of the sort: by code, earlier entries first. */
  predicate Before(a: Item, b: Item) {
    Cmp(a.code, b.code) < 0 || (a.code == b.code && a.seqNo < b.seqNo)
  }

  ghost predicate Sorted(s: seq<Item>) {
    forall i, j :: 0 <= i < j < |s| ==> Before(s[i], s[j])
  }

  /** Each code once, in order. */
  ghost predicate StrictCodes(s: seq<Item>) {
    forall i, j :: 0 <= i < j < |s| ==> Cmp(s[i].code, s[j].code) < 0
  }

  /** No two entries came at the same time. */
  ghost predicate Numbered(s: seq<Item>) {
    forall i, j :: 0 <= i < j < |s| ==> s[i].seqNo != s[j].seqNo
  }

  lemma BeforeTrans(a: Item, b: Item, c: Item)
    requires Before(a, b) && Before(b, c)
    ensures Before(a, c)
  {
    CmpZero(a.code, b.code);
    CmpZero(b.code, c.code);
    CmpTrans(a.code, b.code, c.code);
  }

  lemma BeforeTotal(a: Item, b: Item)
    requires a.seqNo != b.seqNo
    ensures Before(a, b) || Before(b, a)
  {
    CmpZero(a.code, b.code);
    CmpSwap(a.code, b.code);
  }

  function Insert(x: Item, s: seq<Item>): seq<Item> {
    if s == [] then [x]
    else if Before(x, s[0]) then [x] + s
    else [s[0]] + Insert(x, s[1..])
  }

  /** Stands for the library's sort: some arrangement in this order. */
  function Sort(s: seq<Item>): seq<Item> {
    if s == [] then [] else Insert(s[0], Sort(s[1..]))
  }

  lemma {:induction false} InsertKeeps(x: Item, s: seq<Item>)
    ensures multiset(Insert(x, s)) == multiset([x] + s)
  {
    if s != [] && !Before(x, s[0]) {
      InsertKeeps(x, s[1..]);
      assert s == [s[0]] + s[1..];
    }
  }

  lemma {:induction false} SortKeeps(s: seq<Item>)
    ensures multiset(Sort(s)) == multiset(s)
  {
    if s != [] {
      SortKeeps(s[1..]);
      InsertKeeps(s[0], Sort(s[1..]));
      assert s == [s[0]] + s[1..];
    }
  }

  lemma {:induction false} InsertSorted(x: Item, s: seq<Item>)
    requires Sorted(s) && forall y <- s :: y.seqNo != x.seqNo
    ensures Sorted(Insert(x, s))
  {
    if s == [] {
    } else if Before(x, s[0]) {
      forall j | 0 <= j < |s|
        ensures Before(x, s[j])
      {
        if j > 0 {
          BeforeTrans(x, s[0], s[j]);
        }
      }
    } else {
      var rest := Insert(x, s[1..]);
      InsertSorted(x, s[1..]);
      InsertKeeps(x, s[1..]);
      BeforeTotal(x, s[0]);
      forall j | 0 <= j < |rest|
        ensures Before(s[0], rest[j])
      {
        assert rest[j] in multiset(rest);
        assert rest[j] == x || rest[j] in s[1..];
      }
    }
  }

  lemma {:induction false} SortSorted(s: seq<Item>)
    requires Numbered(s)
    ensures Sorted(Sort(s))
  {
    if s != [] {
      SortSorted(s[1..]);
      SortKeeps(s[1..]);
      forall y <- Sort(s[1..])
        ensures y.seqNo != s[0].seqNo
      {
        assert y in multiset(s[1..]);
      }
      InsertSorted(s[0], Sort(s[1..]));
    }
  }

  /** The last of each run of one code. */
  function Dedup(s: seq<Item>): seq<Item> {
    if s == [] then []
    else if |s| > 1 && s[0].code == s[1].code then Dedup(s[1..])
    else [s[0]] + Dedup(s[1..])
  }

  lemma {:induction false} DedupFrom(s: seq<Item>)
    ensures |Dedup(s)| <= |s| && forall x <- Dedup(s) :: x in s
    ensures s != [] ==> Dedup(s) != []
  {
    if s != [] {
      DedupFrom(s[1..]);
    }
  }

  lemma {:induction false} DedupStrict(s: seq<Item>)
    requires Sorted(s)
    ensures StrictCodes(Dedup(s))
  {
    if s != [] {
      DedupStrict(s[1..]);
      DedupFrom(s[1..]);
      if !(|s| > 1 && s[0].code == s[1].code) {
        forall x <- Dedup(s[1..])
          ensures Cmp(s[0].code, x.code) < 0
        {
          assert x in s[1..];
          var k :| 1 <= k < |s| && s[k] == x;
          FirstIsLess(s, k);
        }
      }
    }
  }

  lemma FirstIsLess(s: seq<Item>, k: nat)
    requires Sorted(s) && 1 <= k < |s| && s[0].code != s[1].code
    ensures Cmp(s[0].code, s[k].code) < 0
  {
    assert Before(s[0], s[1]);
    CmpZero(s[1].code, s[k].code);
    if k > 1 {
      assert Before(s[1], s[k]);
    }
    CmpTrans(s[0].code, s[1].code, s[k].code);
  }

  /** A code of a sorted list survives, with its latest entry. */
  lemma {:induction false} DedupKeepsLatest(s: seq<Item>, x: Item)
    requires Sorted(s) && x in s && forall y <- s :: y.code == x.code ==> y.seqNo <= x.seqNo
    ensures x in Dedup(s)
  {
    if |s| > 1 {
      assert Before(s[0], s[1]);
      CmpZero(s[0].code, s[1].code);
      assert s[1] in s;
    }
    if x != s[0] {
      assert x in s[1..];
      DedupKeepsLatest(s[1..], x);
    }
  }

  lemma DedupNothing()
    ensures Dedup([]) == []
  {
  }

  lemma DedupStep(s: seq<Item>, i: nat)
    requires i < |s|
    ensures if i + 1 < |s| && s[i].code == s[i + 1].code then Dedup(s[i..]) == Dedup(s[i + 1..])
            else Dedup(s[i..]) == [s[i]] + Dedup(s[i + 1..])
  {
    assert s[i..][1..] == s[i + 1..];
  }

  lemma TailHead<T>(t: seq<T>, s: seq<T>, i: nat)
    requires i < |s| && t == s[i..]
    ensures t[0] == s[i] && t[1..] == s[i + 1..] && (i + 1 < |s| ==> t[1] == s[i + 1])
  {
  }

  lemma SubSlice<T>(s: seq<T>, m: nat, a: nat, b: nat)
    requires a <= b <= m <= |s|
    ensures s[..m][a..b] == s[a..b]
  {
  }

  // ---- the emitter --------------------------------------------------------------------

  class Importer {
    const scratch: array<char>
    const items: array<Item>
    var used: nat
    var n: nat
    var rejected: nat

    ghost predicate Valid()
      reads this, scratch, items
    {
      && used <= scratch.Length && n <= items.Length
      && (forall k :: 0 <= k < n ==> items[k].seqNo == k && items[k].off + items[k].len <= used)
    }

    function RowAt(k: nat): Row
      requires Valid() && k < n
      reads this, scratch, items
    {
      Row(items[k].code, scratch[items[k].off..items[k].off + items[k].len])
    }

    ghost function Rows(): (rows: seq<Row>)
      requires Valid()
      reads this, scratch, items
      ensures |rows| == n
    {
      seq(n, k requires 0 <= k < n reads this, scratch, items requires Valid() => RowAt(k))
    }

    constructor (scratchCap: nat, itemsCap: nat)
      ensures Valid() && fresh(scratch) && fresh(items) && Rows() == []
      ensures scratch.Length == scratchCap && items.Length == itemsCap
      ensures used == 0 && rejected == 0
    {
      scratch := new char[scratchCap];
      items := new Item[itemsCap](_ => Item("", 0, 0, 0));
      used, n, rejected := 0, 0, 0;
    }

    /** Room for another entry, and for the longest description. */
    predicate HasRoom()
      reads this
    {
      n < items.Length && used + DESC_MAX + 2 <= scratch.Length
    }

    /** The description's characters behind what is used. */
    method Copy(desc: string) returns (w: nat)
      requires Valid() && used + DESC_MAX <= scratch.Length
      modifies scratch
      ensures w <= DESC_MAX && scratch[used..used + w] == Printable(desc)
      ensures scratch[..used] == old(scratch[..used])
    {
      hide Valid, Printable;
      w := 0;
      NothingPrintable();
      var i := 0;
      ghost var before := scratch[..used];
      while i < |desc| && w < DESC_MAX
        invariant i <= |desc| && w <= DESC_MAX
        invariant scratch[used..used + w] == Printable(desc[..i])
        invariant scratch[..used] == before
      {
        var c := desc[i];
        PrintableMore(desc, i);
        if c == '\t' {
          c := ' ';
        }
        if c >= ' ' {
          ghost var was := scratch[used..used + w];
          scratch[used + w] := c;
          w := w + 1;
          assert scratch[used..used + w] == was + [c];
        }
        i := i + 1;
      }
      FullStays(desc, i);
    }

    /** Validate and normalise one pair. */
    method Emit(e: Entry)
      requires Valid()
      modifies this, scratch, items
      ensures Valid()
      ensures var c := CodeOf(e.code);
        if c.Some? && old(HasRoom()) then
          && Rows() == old(Rows()) + [Row(c.value, Clean(e.desc))] && rejected == old(rejected)
          && used == old(used) + |Clean(e.desc)|
        else Rows() == old(Rows()) && rejected == old(rejected) + 1 && used == old(used)
    {
      var codeLen := |e.code|;
      if codeLen > 5 && (e.code[5] == '-' || e.code[5] == ' ' || e.code[5] == ':') {
        codeLen := 5;
      }
      Whole(e.code);
      var v := ReadCode(e.code[..codeLen]);
      if v.None? || n >= items.Length || used + DESC_MAX + 2 > scratch.Length {
        rejected := rejected + 1;
        assert forall k :: 0 <= k < n ==> RowAt(k) == old(RowAt(k));
        return;
      }
      Store(Format(v.value.0, v.value.1), e.desc);
    }

    /** Trailing spaces off. */
    method TrimSpaces(off: nat, len: nat) returns (w: nat)
      requires off + len <= scratch.Length
      ensures w <= len && scratch[off..off + w] == TrimEnd(scratch[off..off + len])
    {
      w := len;
      ghost var full := scratch[off..off + len];
      while w > 0 && scratch[off + w - 1] == ' '
        invariant w <= len
        invariant TrimEnd(full) == TrimEnd(scratch[off..off + w])
      {
        assert Init(scratch[off..off + w]) == scratch[off..off + w - 1];
        w := w - 1;
      }
    }

    /** The normalised description behind what is used; the entries stay as they are. */
    method CopyClean(desc: string) returns (w: nat)
      requires Valid() && HasRoom()
      modifies scratch
      ensures Valid() && Rows() == old(Rows())
      ensures used + w <= scratch.Length && scratch[used..used + w] == Clean(desc)
    {
      hide Printable, TrimEnd;
      ghost var was := scratch[..used];
      w := Copy(desc);
      w := TrimSpaces(used, w);
      forall k | 0 <= k < n
        ensures RowAt(k) == old(RowAt(k))
      {
        var a, b := items[k].off, items[k].off + items[k].len;
        SubSlice(scratch[..], used, a, b);
        SubSlice(old(scratch[..]), used, a, b);
      }
    }

    method Store(code: string, desc: string)
      requires Valid() && HasRoom()
      modifies this`used, this`n, scratch, items
      ensures Valid() && Rows() == old(Rows()) + [Row(code, Clean(desc))]
      ensures used == old(used) + |Clean(desc)|
    {
      hide Clean;
      ghost var rows := Rows();
      var off := used;
      var w := CopyClean(desc);
      items[n] := Item(code, off, w, n);
      used := used + w;
      n := n + 1;
      assert forall k :: 0 <= k < n - 1 ==> RowAt(k) == rows[k];
      assert RowAt(n - 1) == Row(code, Clean(desc));
    }

    /** Sorted, and the last of each run kept, in place. */
    method Finish() returns (w: nat)
      requires Valid()
      modifies items
      ensures w <= n && items[..w] == Dedup(Sort(old(items[..n])))
    {
      hide Sort, Dedup;
      ghost var sorted := Sort(items[..n]);
      SortItems();
      w := 0;
      var i := 0;
      DedupNothing();
      Whole(sorted);
      while i < n
        invariant 0 <= w <= i <= n
        invariant items[..w] + Dedup(sorted[i..]) == Dedup(sorted)
        invariant items[i..n] == sorted[i..]
      {
        TailHead(items[i..n], sorted, i);
        DedupStep(sorted, i);
        assert i + 1 < n ==> items[i + 1] == items[i..n][1];
        if !(i + 1 < n && items[i].code == items[i + 1].code) {
          Assoc(items[..w], [sorted[i]], Dedup(sorted[i + 1..]));
          KeepItem(w, i);
          w := w + 1;
        }
        i := i + 1;
      }
      assert sorted[i..] == [];
    }

    method KeepItem(w: nat, i: nat)
      requires w <= i < n <= items.Length
      modifies items
      ensures items[..w + 1] == old(items[..w] + [items[i]])
      ensures items[i + 1..n] == old(items[i..n][1..])
    {
      items[w] := items[i];
    }

    method SortItems()
      requires n <= items.Length
      modifies items
      ensures items[..n] == Sort(old(items[..n]))
    {
      var sorted := Sort(items[..n]);
      SortKeeps(items[..n]);
      assert |sorted| == |multiset(sorted)| == |multiset(items[..n])| == n;
      var i := 0;
      while i < n
        invariant i <= n && items[..i] == sorted[..i]
      {
        items[i] := sorted[i];
        i := i + 1;
      }
      Whole(sorted);
    }
  }

  lemma NothingPrintable()
    ensures Printable("") == ""
  {
  }

  lemma PrintableMore(desc: string, i: nat)
    requires i < |desc|
    ensures var before, c := Printable(desc[..i]), if desc[i] == '\t' then ' ' else desc[i];
      Printable(desc[..i + 1]) == if |before| < DESC_MAX && c >= ' ' then before + [c] else before
  {
    Grow(desc, i);
    SnocInit(desc[..i], desc[i]);
  }

  lemma {:induction false} FullStays(desc: string, i: nat)
    requires i <= |desc| && (i < |desc| ==> |Printable(desc[..i])| == DESC_MAX)
    ensures Printable(desc) == Printable(desc[..i])
    decreases |desc| - i
  {
    if i == |desc| {
      Whole(desc);
    } else {
      Grow(desc, i);
      SnocInit(desc[..i], desc[i]);
      FullStays(desc, i + 1);
    }
  }
}
