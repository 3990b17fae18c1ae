/** A whole file of trouble codes stored, and the lookup over all stored databases in
    the order of their names. */
module DtcStore {
  import opened Wrappers
  import opened Seqs
  import opened Numerals
  import opened DtcText
  import opened DtcImport
  import opened DtcDb

  const ENTRIES_MAX: nat := 20000
  const DB_MAX: nat := 8
  const FILE_MAX: nat := 1024 * 1024

  // ---- what fits ---------------------------------------------------------------------

  function Used(rows: seq<Row>): nat {
    if rows == [] then 0 else Used(Init(rows)) + |Last(rows).desc|
  }

  /** The rows the importer keeps: valid, and in room. */
  function Fitting(es: seq<Entry>, itemsCap: nat, cap: nat): seq<Row> {
    if es == [] then []
    else
      var before := Fitting(Init(es), itemsCap, cap);
      match CodeOf(Last(es).code)
      case Some(c) =>
        if |before| < itemsCap && Used(before) + DESC_MAX + 2 <= cap then before + [Row(c, Clean(Last(es).desc))]
        else before
      case None => before
  }

  function DescTotal(es: seq<Entry>): nat {
    if es == [] then 0 else DescTotal(Init(es)) + |Last(es).desc|
  }

  lemma {:induction false} CleanShrinks(desc: string)
    ensures |Printable(desc)| <= |desc| && |Clean(desc)| <= |desc|
  {
    if desc != "" {
      CleanShrinks(Init(desc));
    }
  }

  /** With room for the file's own text no entry is lost. */
  lemma {:induction false} NothingLost(es: seq<Entry>, itemsCap: nat, cap: nat)
    requires |es| <= itemsCap && DescTotal(es) + DESC_MAX + 2 <= cap
    ensures Fitting(es, itemsCap, cap) == RowsOf(es)
    ensures |RowsOf(es)| <= |es| && Used(RowsOf(es)) <= DescTotal(es)
  {
    hide Clean, CodeOf;
    if es != [] {
      NothingLost(Init(es), itemsCap, cap);
      CleanShrinks(Last(es).desc);
      match CodeOf(Last(es).code)
      case Some(c) => SnocInit(RowsOf(Init(es)), Row(c, Clean(Last(es).desc)));
      case None =>
    }
  }

  lemma {:induction false} FittingIsCanonical(es: seq<Entry>, itemsCap: nat, cap: nat)
    ensures Canonical(Fitting(es, itemsCap, cap)) && |Fitting(es, itemsCap, cap)| <= itemsCap
  {
    hide CodeOf, Printable, TrimEnd;
    if es != [] {
      FittingIsCanonical(Init(es), itemsCap, cap);
      if CodeOf(Last(es).code).Some? {
        CodeIsCanonical(Last(es).code);
      }
    }
  }

  lemma FittingNothing(itemsCap: nat, cap: nat)
    ensures Fitting([], itemsCap, cap) == [] && Used([]) == 0
  {
  }

  lemma FittingStep(es: seq<Entry>, i: nat, itemsCap: nat, cap: nat)
    requires i < |es|
    ensures var before, c := Fitting(es[..i], itemsCap, cap), CodeOf(es[i].code);
      if c.Some? && |before| < itemsCap && Used(before) + DESC_MAX + 2 <= cap then
        && Fitting(es[..i + 1], itemsCap, cap) == before + [Row(c.value, Clean(es[i].desc))]
        && Used(Fitting(es[..i + 1], itemsCap, cap)) == Used(before) + |Clean(es[i].desc)|
      else Fitting(es[..i + 1], itemsCap, cap) == before
  {
    hide CodeOf, Clean;
    Grow(es, i);
    SnocInit(es[..i], es[i]);
    if CodeOf(es[i].code).Some? {
      SnocInit(Fitting(es[..i], itemsCap, cap), Row(CodeOf(es[i].code).value, Clean(es[i].desc)));
    }
  }

  /** Every entry the tokenizers found, in order. */
  method ImportAll(im: Importer, es: seq<Entry>)
    requires im.Valid() && im.Rows() == [] && im.used == 0
    modifies im, im.scratch, im.items
    ensures im.Valid() && im.Rows() == Fitting(es, im.items.Length, im.scratch.Length)
  {
    hide CodeOf, Clean, Fitting, Used;
    FittingNothing(im.items.Length, im.scratch.Length);
    var i := 0;
    while i < |es|
      invariant i <= |es| && im.Valid()
      invariant im.Rows() == Fitting(es[..i], im.items.Length, im.scratch.Length) && im.used == Used(im.Rows())
    {
      FittingStep(es, i, im.items.Length, im.scratch.Length);
      im.Emit(es[i]);
      i := i + 1;
    }
    Whole(es);
  }

  // ---- the text always fits ------------------------------------------------------------

  function Lens(items: seq<Item>): nat {
    if items == [] then 0 else items[0].len + Lens(items[1..])
  }

  lemma {:induction false} LensInsert(x: Item, s: seq<Item>)
    ensures Lens(Insert(x, s)) == x.len + Lens(s)
  {
    if s == [] {
      assert [x][1..] == [];
    } else if Before(x, s[0]) {
      assert ([x] + s)[1..] == s;
    } else {
      LensInsert(x, s[1..]);
      assert ([s[0]] + Insert(x, s[1..]))[1..] == Insert(x, s[1..]);
    }
  }

  lemma {:induction false} LensSort(s: seq<Item>)
    ensures Lens(Sort(s)) == Lens(s)
  {
    if s != [] {
      LensSort(s[1..]);
      LensInsert(s[0], Sort(s[1..]));
    }
  }

  lemma {:induction false} LensDedup(s: seq<Item>)
    ensures Lens(Dedup(s)) <= Lens(s)
  {
    if s != [] {
      LensDedup(s[1..]);
      assert ([s[0]] + Dedup(s[1..]))[1..] == Dedup(s[1..]);
    }
  }

  lemma {:induction false} LensSnoc(s: seq<Item>, x: Item)
    ensures Lens(s + [x]) == Lens(s) + x.len
  {
    if s == [] {
      assert [] + [x] == [x] && [x][1..] == [];
    } else {
      LensSnoc(s[1..], x);
      assert (s + [x])[1..] == s[1..] + [x];
    }
  }

  lemma {:induction false} LensAreUsed(buf: string, items: seq<Item>, i: nat)
    requires InBounds(buf, items) && i <= |items|
    ensures Lens(items[..i]) == Used(RowsIn(buf, items)[..i])
  {
    if i > 0 {
      LensAreUsed(buf, items, i - 1);
      var rows := RowsIn(buf, items);
      Grow(items, i - 1);
      Grow(rows, i - 1);
      SnocInit(rows[..i - 1], rows[i - 1]);
      LensSnoc(items[..i - 1], items[i - 1]);
    }
  }

  lemma {:induction false} LinesLength(buf: string, items: seq<Item>)
    requires InBounds(buf, items) && forall k :: 0 <= k < |items| ==> |items[k].code| == 5
    ensures |Lines(RowsIn(buf, items))| == 7 * |items| + Lens(items)
  {
    if items != [] {
      LinesLength(buf, items[1..]);
      assert RowsIn(buf, items)[1..] == RowsIn(buf, items[1..]);
    }
  }

  lemma {:induction false} DecLength(n: nat, k: nat, p: nat)
    requires n < p && k >= 1 && p == Power(k)
    ensures |Dec(n)| <= k
    decreases k
  {
    if n >= 10 {
      DecLength(n / 10, k - 1, Power(k - 1));
    }
  }

  function Power(k: nat): nat {
    if k == 0 then 1 else 10 * Power(k - 1)
  }

  lemma HeaderLength(n: nat)
    requires n <= ENTRIES_MAX
    ensures |Header(n)| <= 14
  {
    assert Power(5) == 10 * Power(4) == 100 * Power(3) == 1000 * Power(2) == 10000 * Power(1) == 100000;
    DecLength(n, 5, 100000);
    assert |MAGIC| == 8;
  }

  lemma {:induction false} FittingIsBounded(es: seq<Entry>, itemsCap: nat, cap: nat)
    ensures Used(Fitting(es, itemsCap, cap)) <= cap
  {
    hide CodeOf, Printable, TrimEnd;
    if es != [] {
      FittingIsBounded(Init(es), itemsCap, cap);
      var before := Fitting(Init(es), itemsCap, cap);
      if CodeOf(Last(es).code).Some? {
        SnocInit(before, Row(CodeOf(Last(es).code).value, Clean(Last(es).desc)));
      }
    }
  }

  // ---- a file stored ---------------------------------------------------------------------

  /** What the importer says of its items. */
  lemma ImporterIsImported(im: Importer)
    requires im.Valid()
    ensures Imported(im.scratch[..], im.items[..im.n], im.Rows())
  {
    var items := im.items[..im.n];
    assert InBounds(im.scratch[..], items);
    forall k | 0 <= k < im.n
      ensures RowIn(im.scratch[..], items[k]) == im.Rows()[k]
    {
      assert im.Rows()[k] == im.RowAt(k);
    }
    assert RowsIn(im.scratch[..], items) == im.Rows();
  }

  lemma ImportedIsNumbered(scratch: string, items: seq<Item>, rows: seq<Row>)
    requires Imported(scratch, items, rows)
    ensures Numbered(items)
  {
  }

  lemma ImportedCodes(scratch: string, items: seq<Item>, rows: seq<Row>, kept: seq<Item>)
    requires Imported(scratch, items, rows) && Canonical(rows) && forall x <- kept :: x in items
    ensures InBounds(scratch, kept) && forall k :: 0 <= k < |kept| ==> |kept[k].code| == 5
  {
    MemberBounds(scratch, items, kept);
    forall k | 0 <= k < |kept|
      ensures |kept[k].code| == 5
    {
      assert kept[k] in items;
      var j :| 0 <= j < |items| && items[j] == kept[k];
      RowOfItem(scratch, items, rows, j);
    }
  }

  /** The text of an import is shorter than the buffer its caller sized for it, and no
      longer than a stored file may be. */
  lemma TextFits(scratch: string, items: seq<Item>, rows: seq<Row>, rawLen: nat)
    requires Imported(scratch, items, rows) && Canonical(rows) && |rows| <= ENTRIES_MAX
    requires Used(rows) <= rawLen + DESC_MAX + 16
    ensures var kept := Dedup(Sort(items));
      InBounds(scratch, kept) && |Text(RowsIn(scratch, kept))| <= rawLen + ENTRIES_MAX * 8
  {
    hide CanonicalRow, Header;
    var kept := Dedup(Sort(items));
    SortKeeps(items);
    KeptAreItems(items, Sort(items));
    ImportedCodes(scratch, items, rows, kept);
    LensSort(items);
    LensDedup(Sort(items));
    DedupFrom(Sort(items));
    SameSize(items, Sort(items));
    LensAreUsed(scratch, items, |items|);
    Whole(items);
    Whole(rows);
    LinesLength(scratch, kept);
    HeaderLength(|kept|);
  }

  /** The entries of a file of rawLen bytes, stored: the text, unless none was valid. */
  method Store(es: seq<Entry>, rawLen: nat) returns (text: Option<string>)
    ensures var rows := Fitting(es, ENTRIES_MAX, rawLen + DESC_MAX + 16);
      && (text.None? <==> rows == [])
      && (text.Some? ==>
            (IndexOf(text.value, ENTRIES_MAX).Some?
             && AnswersAs(text.value, IndexOf(text.value, ENTRIES_MAX).value, MapOf(rows))
             && |text.value| <= rawLen + ENTRIES_MAX * 8))
  {
    hide Canonical, Fitting, MapOf, IndexOf, AnswersAs, Text, Dedup, Sort, Header;
    var scratchCap := rawLen + DESC_MAX + 16;
    var im := new Importer(scratchCap, ENTRIES_MAX);
    ImportAll(im, es);
    ghost var rows := im.Rows();
    if im.n == 0 {
      return None;
    }
    FittingIsCanonical(es, ENTRIES_MAX, scratchCap);
    FittingIsBounded(es, ENTRIES_MAX, scratchCap);
    ghost var scratch, items := im.scratch[..], im.items[..im.n];
    ImporterIsImported(im);
    ImportedIsNumbered(scratch, items, rows);
    SortKeeps(items);
    SortSorted(items);
    StoredAnswersAsNaive(scratch, items, rows, Sort(items), ENTRIES_MAX);
    TextFits(scratch, items, rows, rawLen);
    KeptAreItems(items, Sort(items));
    ImportedCodes(scratch, items, rows, Dedup(Sort(items)));
    var n := im.Finish();
    assert im.items[..n] == Dedup(Sort(items)) && im.scratch[..] == scratch;
    var out := new char[rawLen + 32 + ENTRIES_MAX * 8];
    HeaderLength(n);
    CodesInPlace(im.items, n);
    var w := Serialize(im.scratch, im.items, n, out);
    TextNotEmpty(RowsIn(scratch, Dedup(Sort(items))));
    text := Some(out[..w]);
  }

  lemma TextNotEmpty(rows: seq<Row>)
    ensures |Text(rows)| > 0
  {
  }

  lemma CodesInPlace(a: array<Item>, n: nat)
    requires n <= a.Length && forall k :: 0 <= k < n ==> |a[..n][k].code| == 5
    ensures forall k :: 0 <= k < n ==> |a[k].code| == 5
  {
    forall k | 0 <= k < n
      ensures |a[k].code| == 5
    {
      assert a[..n][k] == a[k];
    }
  }

  /** With every description part of the file's own bytes, and no more entries than
      the limit, the stored text answers as the naive map of all entries. */
  lemma EveryEntryCounts(es: seq<Entry>, rawLen: nat)
    requires |es| <= ENTRIES_MAX && DescTotal(es) <= rawLen
    ensures MapOf(Fitting(es, ENTRIES_MAX, rawLen + DESC_MAX + 16)) == Naive(es)
  {
    NothingLost(es, ENTRIES_MAX, rawLen + DESC_MAX + 16);
    NaiveIsMapOf(es);
  }
}
