/** The stored form of a trouble-code database: written as sorted lines, indexed
    again, and searched; and the answer it gives for every code. */
module DtcDb {
  import opened Wrappers
  import opened Seqs
  import opened Numerals
  import opened DtcText
  import opened DtcImport

  // ---- the stored text ---------------------------------------------------------------

  predicate InBounds(buf: string, items: seq<Item>) {
    forall k :: 0 <= k < |items| ==> items[k].off + items[k].len <= |buf|
  }

  function RowIn(buf: string, it: Item): Row
    requires it.off + it.len <= |buf|
  {
    Row(it.code, buf[it.off..it.off + it.len])
  }

  function RowsIn(buf: string, items: seq<Item>): seq<Row>
    requires InBounds(buf, items)
  {
    seq(|items|, k requires 0 <= k < |items| => RowIn(buf, items[k]))
  }

  function Line(r: Row): string {
    r.code + "\t" + r.desc + "\n"
  }

  function Lines(rows: seq<Row>): string {
    if rows == [] then "" else Line(rows[0]) + Lines(rows[1..])
  }

  const MAGIC: string := "#dtcdb1 "

  function Header(n: nat): string {
    MAGIC + (Dec(n) + "\n")
  }

  function Text(rows: seq<Row>): string {
    Header(|rows|) + Lines(rows)
  }

  lemma {:induction false} LinesSnoc(rows: seq<Row>, r: Row)
    ensures Lines(rows + [r]) == Lines(rows) + Line(r)
  {
    if rows == [] {
      assert [] + [r] == [r] && [r][1..] == [];
      assert Lines([r]) == Line(r) + "";
    } else {
      assert (rows + [r])[1..] == rows[1..] + [r];
      LinesSnoc(rows[1..], r);
      Assoc(Line(rows[0]), Lines(rows[1..]), Line(r));
    }
  }

  lemma {:induction false} LinesGrow(rows: seq<Row>, i: nat)
    requires i <= |rows|
    ensures |Lines(rows[..i])| <= |Lines(rows)|
    decreases |rows| - i
  {
    if i == |rows| {
      Whole(rows);
    } else {
      Grow(rows, i);
      LinesSnoc(rows[..i], rows[i]);
      LinesGrow(rows, i + 1);
    }
  }

  /** Characters into the buffer at w. */
  method Put(out: array<char>, w: nat, s: string) returns (end: nat)
    requires w + |s| <= out.Length
    modifies out
    ensures end == w + |s| && out[..end] == old(out[..w]) + s
  {
    var i := 0;
    ghost var before := out[..w];
    while i < |s|
      invariant i <= |s| && out[..w + i] == before + s[..i]
    {
      Grow(s, i);
      ghost var was := out[..w + i];
      out[w + i] := s[i];
      assert out[..w + i + 1] == was + [s[i]];
      Assoc(before, s[..i], [s[i]]);
      i := i + 1;
    }
    Whole(s);
    end := w + |s|;
  }

  method PutLine(out: array<char>, w: nat, r: Row) returns (end: nat)
    requires |r.code| == 5 && w + 7 + |r.desc| <= out.Length
    modifies out
    ensures end == w + |Line(r)| && out[..end] == old(out[..w]) + Line(r)
  {
    ghost var before := out[..w];
    end := Put(out, w, r.code);
    end := Put(out, end, "\t");
    end := Put(out, end, r.desc);
    end := Put(out, end, "\n");
    LineJoins(before, r);
  }

  lemma LineJoins(before: string, r: Row)
    ensures (((before + r.code) + "\t") + r.desc) + "\n" == before + Line(r)
  {
    Assoc(before, r.code, "\t");
    Assoc(before, r.code + "\t", r.desc);
    Assoc(before, r.code + "\t" + r.desc, "\n");
  }

  /** As much of the text as the buffer takes with a NUL behind it; its whole length. */
  method PutCut(out: array<char>, s: string) returns (n: nat)
    modifies out
    ensures n == |s|
    ensures |s| < out.Length ==> out[..|s|] == s
    ensures 0 < out.Length <= |s| ==> out[..out.Length - 1] == s[..out.Length - 1]
  {
    n := |s|;
    if out.Length > 0 {
      var m := if n < out.Length then n else out.Length - 1;
      var end := Put(out, 0, s[..m]);
      out[end] := '\0';
      assert out[..m] == s[..m];
      Whole(s);
    }
  }

  /** The rows as text. Nothing when the buffer is too small for its rows; a header
      alone is cut, and counted whole. */
  method Serialize(scratch: array<char>, items: array<Item>, n: nat, out: array<char>) returns (w: nat)
    requires out != scratch && n <= items.Length
    requires InBounds(scratch[..], items[..n]) && forall k :: 0 <= k < n ==> |items[k].code| == 5
    modifies out
    ensures var text := Text(RowsIn(scratch[..], items[..n]));
      && w == (if n > 0 && |text| >= out.Length then 0 else |text|)
      && (|text| < out.Length ==> out[..|text|] == text)
      && (n == 0 && 0 < out.Length <= |text| ==> out[..out.Length - 1] == text[..out.Length - 1])
  {
    hide Line, Header, Lines;
    ghost var rows := RowsIn(scratch[..], items[..n]);
    NoLines();
    ghost var head := Header(n);
    w := PutCut(out, Header(n));
    var i := 0;
    assert rows[..0] == [];
    assert head + "" == head;
    while i < n
      invariant i <= n && (i > 0 ==> w < out.Length) && w == |head + Lines(rows[..i])|
      invariant scratch[..] == old(scratch[..]) && items[..n] == old(items[..n])
      invariant w < out.Length ==> out[..w] == head + Lines(rows[..i])
      invariant i == 0 && 0 < out.Length <= |head| ==> out[..out.Length - 1] == head[..out.Length - 1]
    {
      var it := items[i];
      assert it == items[..n][i];
      ghost var r := rows[i];
      LinesStep(head, rows, i);
      if w + 7 + it.len >= out.Length {
        LinesGrow(rows, i + 1);
        return 0;
      }
      w := PutLine(out, w, Row(it.code, scratch[it.off..it.off + it.len]));
      assert scratch[it.off..it.off + it.len] == scratch[..][it.off..it.off + it.len];
      i := i + 1;
    }
    Whole(rows);
  }

  lemma NoLines()
    ensures Lines([]) == ""
  {
  }

  lemma LinesStep(head: string, rows: seq<Row>, i: nat)
    requires i < |rows| && |rows[i].code| == 5
    ensures |Line(rows[i])| == 7 + |rows[i].desc|
    ensures head + Lines(rows[..i + 1]) == (head + Lines(rows[..i])) + Line(rows[i])
  {
    Grow(rows, i);
    LinesSnoc(rows[..i], rows[i]);
    LineLength(rows[i]);
    Assoc(head, Lines(rows[..i]), Line(rows[i]));
  }

  lemma LineLength(r: Row)
    ensures |r.code| == 5 ==> |Line(r)| == 7 + |r.desc|
  {
  }

  // ---- indexing a stored text ----------------------------------------------------------

  /** The next line end at or behind p. */
  function Eol(buf: string, p: nat): (e: nat)
    requires p <= |buf|
    ensures p <= e <= |buf| && (e < |buf| ==> buf[e] == '\n')
    ensures forall i :: p <= i < e ==> buf[i] != '\n'
    decreases |buf| - p
  {
    if p == |buf| || buf[p] == '\n' then p else Eol(buf, p + 1)
  }

  /** A line of an entry: five characters, a tab, the description. */
  predicate IsEntryLine(buf: string, p: nat, e: nat)
    requires p <= e <= |buf|
  {
    e - p >= 6 && buf[p + 5] == '\t'
  }

  function ItemAt(buf: string, p: nat, e: nat, n: nat): Item
    requires p <= e <= |buf| && IsEntryLine(buf, p, e)
  {
    Item(buf[p..p + 5], p + 6, (e - p - 6) % 0x1_0000, n)
  }

  function IndexLines(buf: string, p: nat, n: nat, cap: nat): (items: seq<Item>)
    ensures InBounds(buf, items) && forall k :: 0 <= k < |items| ==> |items[k].code| == 5
    decreases |buf| - p
  {
    if p >= |buf| || n >= cap then []
    else
      var e := Eol(buf, p);
      if IsEntryLine(buf, p, e) then [ItemAt(buf, p, e, n)] + IndexLines(buf, e + 1, n + 1, cap)
      else IndexLines(buf, e + 1, n, cap)
  }

  /** The index of a stored text; none when its count is not the declared one. */
  function IndexOf(buf: string, cap: nat): Option<seq<Item>> {
    if |buf| < 8 || buf[..8] != MAGIC then None
    else
      var items := IndexLines(buf, Eol(buf, 0) + 1, 0, cap);
      if |items| == Atoi(buf[8..]) then Some(items) else None
  }

  method LineEnd(buf: string, p: nat) returns (e: nat)
    requires p <= |buf|
    ensures e == Eol(buf, p)
  {
    e := p;
    while e < |buf| && buf[e] != '\n'
      invariant p <= e <= |buf| && Eol(buf, e) == Eol(buf, p)
    {
      e := e + 1;
    }
  }

  lemma IndexStep(buf: string, p: nat, n: nat, cap: nat)
    ensures IndexLines(buf, p, n, cap) ==
      if p >= |buf| || n >= cap then []
      else if IsEntryLine(buf, p, Eol(buf, p)) then
        [ItemAt(buf, p, Eol(buf, p), n)] + IndexLines(buf, Eol(buf, p) + 1, n + 1, cap)
      else IndexLines(buf, Eol(buf, p) + 1, n, cap)
  {
  }

  method Index(buf: string, cap: nat) returns (items: Option<seq<Item>>)
    ensures items == IndexOf(buf, cap)
  {
    hide Eol, Atoi, IsEntryLine, ItemAt, IndexLines;
    if |buf| < 8 || buf[..8] != MAGIC {
      return None;
    }
    var declared := Atoi(buf[8..]);
    var line := LineEnd(buf, 0);
    line := line + 1;
    ghost var all := IndexLines(buf, line, 0, cap);
    var got: seq<Item> := [];
    assert got + all == all;
    while line < |buf| && |got| < cap
      invariant got + IndexLines(buf, line, |got|, cap) == all
      decreases |buf| - line
    {
      var eol := LineEnd(buf, line);
      IndexStep(buf, line, |got|, cap);
      if IsEntryLine(buf, line, eol) {
        Assoc(got, [ItemAt(buf, line, eol, |got|)], IndexLines(buf, eol + 1, |got| + 1, cap));
        got := got + [ItemAt(buf, line, eol, |got|)];
      }
      line := eol + 1;
    }
    IndexStep(buf, line, |got|, cap);
    assert got + [] == got;
    items := if |got| == declared then Some(got) else None;
  }

  // ---- the round trip --------------------------------------------------------------------

  /** Rows as the importer makes them. */
  predicate Canonical(rows: seq<Row>) {
    forall k :: 0 <= k < |rows| ==> CanonicalRow(rows[k])
  }

  predicate CanonicalRow(r: Row) {
    |r.code| == 5 && '\n' !in r.code && '\n' !in r.desc && |r.desc| <= DESC_MAX
  }

  /** The items locate these rows in the text. */
  ghost predicate Locates(buf: string, items: seq<Item>, rows: seq<Row>) {
    InBounds(buf, items) && RowsIn(buf, items) == rows
  }

  lemma EolIs(buf: string, p: nat, e: nat)
    requires p <= e < |buf| && buf[e] == '\n' && forall i :: p <= i < e ==> buf[i] != '\n'
    ensures Eol(buf, p) == e
  {
  }

  /** The line of a row, found where it stands. */
  lemma LineFound(front: string, r: Row, rest: string)
    requires CanonicalRow(r)
    ensures var buf, p := front + (Line(r) + rest), |front|;
      && Eol(buf, p) == p + 6 + |r.desc| && IsEntryLine(buf, p, Eol(buf, p))
      && forall n: nat :: ItemAt(buf, p, Eol(buf, p), n) == Item(r.code, p + 6, |r.desc|, n)
                  && RowIn(buf, ItemAt(buf, p, Eol(buf, p), n)) == r
  {
    var buf, p := front + (Line(r) + rest), |front|;
    var e := p + 6 + |r.desc|;
    LineParts(front, r, rest);
    forall i | p <= i < e
      ensures buf[i] != '\n'
    {
      if i < p + 5 {
        assert buf[p..p + 5][i - p] == buf[i];
      } else if i > p + 5 {
        assert buf[p + 6..e][i - p - 6] == buf[i];
      }
    }
    EolIs(buf, p, e);
  }

  lemma LineParts(front: string, r: Row, rest: string)
    requires |r.code| == 5
    ensures var buf, p := front + (Line(r) + rest), |front|;
      var e := p + 6 + |r.desc|;
      && e < |buf| && buf[p..p + 5] == r.code && buf[p + 5] == '\t' && buf[p + 6..e] == r.desc && buf[e] == '\n'
  {
  }

  lemma {:induction false} LinesAreIndexed(front: string, rows: seq<Row>, n: nat, cap: nat)
    requires Canonical(rows) && n + |rows| <= cap
    ensures Locates(front + Lines(rows), IndexLines(front + Lines(rows), |front|, n, cap), rows)
    decreases rows
  {
    hide Line, Eol, IsEntryLine, ItemAt, CanonicalRow;
    var buf := front + Lines(rows);
    if rows == [] {
      assert buf == front;
    } else {
      LineFound(front, rows[0], Lines(rows[1..]));
      var next := front + Line(rows[0]);
      Assoc(front, Line(rows[0]), Lines(rows[1..]));
      LineLengthIs(rows[0]);
      LinesAreIndexed(next, rows[1..], n + 1, cap);
      var first, others := ItemAt(buf, |front|, Eol(buf, |front|), n), IndexLines(buf, |next|, n + 1, cap);
      assert IndexLines(buf, |front|, n, cap) == [first] + others;
      LocatesMore(buf, first, others, rows);
    }
  }

  lemma LineLengthIs(r: Row)
    requires CanonicalRow(r)
    ensures |Line(r)| == 7 + |r.desc|
  {
  }

  lemma LocatesMore(buf: string, first: Item, others: seq<Item>, rows: seq<Row>)
    requires rows != [] && Locates(buf, others, rows[1..])
    requires first.off + first.len <= |buf| && RowIn(buf, first) == rows[0]
    ensures Locates(buf, [first] + others, rows)
  {
    var items := [first] + others;
    forall k | 0 <= k < |rows|
      ensures RowIn(buf, items[k]) == rows[k]
    {
      if k > 0 {
        assert items[k] == others[k - 1] && rows[k] == rows[1..][k - 1];
        assert RowsIn(buf, others)[k - 1] == RowIn(buf, others[k - 1]);
      }
    }
    assert RowsIn(buf, items) == rows;
  }

  lemma HeaderEnd(n: nat, rest: string)
    ensures var buf := Header(n) + rest;
      && |buf| >= 8 && buf[..8] == MAGIC && buf[8..] == Dec(n) + ("\n" + rest)
      && Eol(buf, 0) + 1 == |Header(n)|
  {
    var buf := Header(n) + rest;
    Assoc(MAGIC, Dec(n) + "\n", rest);
    Assoc(Dec(n), "\n", rest);
    var e := 8 + |Dec(n)|;
    assert |MAGIC| == 8;
    assert buf[8..] == Dec(n) + ("\n" + rest);
    forall i | 0 <= i < e
      ensures buf[i] != '\n'
    {
      if i < 8 {
        assert buf[..8][i] == MAGIC[i];
        NoLineEndInMagic(i);
      } else {
        assert buf[i] == buf[8..][i - 8] == Dec(n)[i - 8];
      }
    }
    assert buf[e] == buf[8..][|Dec(n)|];
    EolIs(buf, 0, e);
  }

  lemma NoLineEndInMagic(i: nat)
    requires i < 8
    ensures MAGIC[i] != '\n'
  {
  }

  /** What was written is indexed as it was: every row, in order. */
  lemma TextIsIndexed(rows: seq<Row>, cap: nat)
    requires Canonical(rows) && |rows| <= cap
    ensures IndexOf(Text(rows), cap).Some? && Locates(Text(rows), IndexOf(Text(rows), cap).value, rows)
  {
    hide Eol, Atoi, IndexLines, Header, Canonical, Lines;
    var buf := Text(rows);
    HeaderEnd(|rows|, Lines(rows));
    AtoiOfDec(|rows|, "\n" + Lines(rows));
    LinesAreIndexed(Header(|rows|), rows, 0, cap);
  }

  // ---- the search --------------------------------------------------------------------------

  /** Of codes in order, the one asked for or none; of others, at least no wrong one. */
  method Bsearch(items: seq<Item>, code: string) returns (k: int)
    ensures -1 <= k < |items| && (k >= 0 ==> items[k].code == code)
    ensures k == -1 && StrictCodes(items) ==> forall i :: 0 <= i < |items| ==> items[i].code != code
  {
    hide StrictCodes;
    var lo, hi := 0, |items| - 1;
    while lo <= hi
      invariant 0 <= lo <= hi + 1 <= |items|
      invariant StrictCodes(items) ==> Between(items, code, lo, hi)
      decreases hi + 1 - lo
    {
      var mid := (lo + hi) / 2;
      var c := Cmp(code, items[mid].code);
      if c == 0 {
        CmpZero(code, items[mid].code);
        return mid;
      }
      if StrictCodes(items) {
        Halved(items, code, lo, hi, mid);
      }
      if c < 0 {
        hi := mid - 1;
      } else {
        lo := mid + 1;
      }
    }
    if StrictCodes(items) {
      NoneBetween(items, code, lo, hi);
    }
    k := -1;
  }

  /** The code can be nowhere but from lo to hi. */
  ghost predicate Between(items: seq<Item>, code: string, lo: int, hi: int) {
    && (forall i :: 0 <= i < lo && i < |items| ==> Cmp(items[i].code, code) < 0)
    && (forall i :: hi < i < |items| && 0 <= i ==> Cmp(code, items[i].code) < 0)
  }

  lemma Halved(items: seq<Item>, code: string, lo: nat, hi: nat, mid: nat)
    requires StrictCodes(items) && lo <= mid <= hi < |items| && Between(items, code, lo, hi)
    ensures Cmp(code, items[mid].code) < 0 ==> Between(items, code, lo, mid - 1)
    ensures Cmp(code, items[mid].code) > 0 ==> Between(items, code, mid + 1, hi)
  {
    CmpSwap(code, items[mid].code);
    forall i | mid <= i < |items| && Cmp(code, items[mid].code) < 0
      ensures Cmp(code, items[i].code) < 0
    {
      AtOrAfter(items, mid, i);
      CmpTrans(code, items[mid].code, items[i].code);
    }
    forall i | 0 <= i <= mid && Cmp(code, items[mid].code) > 0
      ensures Cmp(items[i].code, code) < 0
    {
      AtOrAfter(items, i, mid);
      CmpTrans(items[i].code, items[mid].code, code);
    }
  }

  lemma NoneBetween(items: seq<Item>, code: string, lo: int, hi: int)
    requires Between(items, code, lo, hi) && hi < lo
    ensures forall i :: 0 <= i < |items| ==> items[i].code != code
  {
    forall i | 0 <= i < |items|
      ensures items[i].code != code
    {
      CmpZero(items[i].code, code);
      CmpZero(code, items[i].code);
    }
  }

  lemma AtOrAfter(items: seq<Item>, i: nat, j: nat)
    requires StrictCodes(items) && i <= j < |items|
    ensures Cmp(items[i].code, items[j].code) <= 0
  {
    CmpZero(items[i].code, items[j].code);
  }

  // ---- the answers -----------------------------------------------------------------------

  /** The database says this of a code, and of no other description. */
  ghost predicate Says(buf: string, items: seq<Item>, code: string, desc: string)
    requires InBounds(buf, items)
  {
    exists k :: 0 <= k < |items| && items[k].code == code && RowIn(buf, items[k]).desc == desc
  }

  /** A database that answers every code as that map does, each code once, in order. */
  ghost predicate AnswersAs(buf: string, items: seq<Item>, m: map<string, string>) {
    && InBounds(buf, items) && StrictCodes(items)
    && (forall c, d :: Says(buf, items, c, d) <==> c in m && m[c] == d)
  }

  /** The item of every row lies where the importer put it, numbered as it came. */
  ghost predicate Imported(scratch: string, items: seq<Item>, rows: seq<Row>) {
    Locates(scratch, items, rows) && forall k :: 0 <= k < |items| ==> items[k].seqNo == k
  }

  lemma MemberBounds(scratch: string, items: seq<Item>, some: seq<Item>)
    requires InBounds(scratch, items) && forall x <- some :: x in items
    ensures InBounds(scratch, some)
  {
    forall k | 0 <= k < |some|
      ensures some[k].off + some[k].len <= |scratch|
    {
      assert some[k] in items;
    }
  }

  /** The items of any sorted arrangement that survive the deduplication. */
  lemma KeptAreItems(items: seq<Item>, sorted: seq<Item>)
    requires multiset(sorted) == multiset(items)
    ensures forall x <- Dedup(sorted) :: x in items
    ensures forall x <- sorted :: x in items
    ensures forall x <- items :: x in sorted
  {
    DedupFrom(sorted);
    forall x <- sorted
      ensures x in items
    {
      assert x in multiset(items);
    }
    forall x <- items
      ensures x in sorted
    {
      assert x in multiset(sorted);
    }
  }

  /** A survivor is the last of its code. */
  lemma {:induction false} SurvivorIsLatest(s: seq<Item>, x: Item, y: Item)
    requires Sorted(s) && x in Dedup(s) && y in s && y.code == x.code
    ensures y.seqNo <= x.seqNo
  {
    DedupFrom(s[1..]);
    CmpZero(x.code, y.code);
    if |s| > 1 && s[0].code == s[1].code {
      if y == s[0] {
        var i :| 1 <= i < |s| && s[i] == x by {
          assert x in s[1..];
        }
        assert Before(s[0], s[i]);
      } else {
        assert y in s[1..];
        SurvivorIsLatest(s[1..], x, y);
      }
    } else if x in Dedup(s[1..]) {
      assert x in s[1..];
      if y == s[0] {
        var i :| 1 <= i < |s| && s[i] == x;
        FirstIsLess(s, i);
        CmpZero(s[0].code, s[i].code);
        assert Before(s[0], s[i]);
      } else {
        assert y in s[1..];
        SurvivorIsLatest(s[1..], x, y);
      }
    } else if y != s[0] {
      var j :| 1 <= j < |s| && s[j] == y;
      FirstIsLess(s, j);
    }
  }

  /** A survivor stands for the last row of its code. */
  lemma SurvivorIsLastRow(scratch: string, items: seq<Item>, rows: seq<Row>, sorted: seq<Item>, x: Item)
    requires Imported(scratch, items, rows) && multiset(sorted) == multiset(items) && Sorted(sorted)
    requires x in Dedup(sorted)
    ensures x in items
    ensures x.code in MapOf(rows) && RowIn(scratch, x).desc == MapOf(rows)[x.code]
  {
    KeptAreItems(items, sorted);
    var k :| 0 <= k < |items| && items[k] == x;
    RowOfItem(scratch, items, rows, k);
    forall j | k < j < |rows|
      ensures rows[j].code != rows[k].code
    {
      RowOfItem(scratch, items, rows, j);
      if items[j].code == x.code {
        assert items[j] in sorted;
        SurvivorIsLatest(sorted, x, items[j]);
      }
    }
    MapOfLast(rows, k);
  }

  lemma RowOfItem(scratch: string, items: seq<Item>, rows: seq<Row>, k: nat)
    requires Locates(scratch, items, rows) && k < |items|
    ensures |rows| == |items| && rows[k] == RowIn(scratch, items[k]) && rows[k].code == items[k].code
  {
    assert RowsIn(scratch, items)[k] == RowIn(scratch, items[k]);
  }

  /** Every code of the rows survives. */
  lemma CodeSurvives(scratch: string, items: seq<Item>, rows: seq<Row>, sorted: seq<Item>, c: string)
    requires Imported(scratch, items, rows) && multiset(sorted) == multiset(items) && Sorted(sorted)
    requires c in MapOf(rows)
    ensures exists x <- Dedup(sorted) :: x.code == c
  {
    MapOfAbsent(rows, c);
    var i :| 0 <= i < |rows| && rows[i].code == c;
    var k := LastRow(rows, c, i);
    RowOfItem(scratch, items, rows, k);
    KeptAreItems(items, sorted);
    forall y <- sorted | y.code == c
      ensures y.seqNo <= items[k].seqNo
    {
      assert y in items;
      var j :| 0 <= j < |items| && items[j] == y;
      RowOfItem(scratch, items, rows, j);
    }
    assert items[k] in sorted;
    DedupKeepsLatest(sorted, items[k]);
  }

  /** The last row of a code that has one. */
  ghost function LastRow(rows: seq<Row>, c: string, i: nat): (k: nat)
    requires i < |rows| && rows[i].code == c
    ensures k < |rows| && rows[k].code == c && forall j :: k < j < |rows| ==> rows[j].code != c
    decreases |rows| - i
  {
    if j :| i < j < |rows| && rows[j].code == c then LastRow(rows, c, j) else i
  }

  /** The rows that are written: what survives of an import. */
  function Written(scratch: string, sorted: seq<Item>): seq<Row>
    requires InBounds(scratch, Dedup(sorted))
  {
    RowsIn(scratch, Dedup(sorted))
  }

  /** Imported, sorted in any way that keeps to the order, deduplicated, written,
      indexed again and searched: each code is answered as the map of the last
      occurrences does, and the codes are strictly sorted. */
  lemma StoredAnswersAsNaive(scratch: string, items: seq<Item>, rows: seq<Row>, sorted: seq<Item>, cap: nat)
    requires Imported(scratch, items, rows) && Canonical(rows) && |rows| <= cap
    requires multiset(sorted) == multiset(items) && Sorted(sorted)
    ensures InBounds(scratch, Dedup(sorted))
    ensures var text := Text(Written(scratch, sorted));
      IndexOf(text, cap).Some? && AnswersAs(text, IndexOf(text, cap).value, MapOf(rows))
  {
    hide IndexOf, Text, Dedup, MapOf, CanonicalRow;
    var kept := Dedup(sorted);
    KeptAreItems(items, sorted);
    MemberBounds(scratch, items, kept);
    DedupStrict(sorted);
    WrittenIsCanonical(scratch, items, rows, kept);
    DedupFrom(sorted);
    SameSize(items, sorted);
    var out := Written(scratch, sorted);
    TextIsIndexed(out, cap);
    var ix := IndexOf(Text(out), cap).value;
    SameCodes(Text(out), ix, scratch, kept);
    forall c, d
      ensures Says(Text(out), ix, c, d) <==> c in MapOf(rows) && MapOf(rows)[c] == d
    {
      SaysTheSame(Text(out), ix, scratch, kept, c, d);
      SaysAsMap(scratch, items, rows, sorted, c, d);
    }
  }

  lemma SameSize(items: seq<Item>, sorted: seq<Item>)
    requires multiset(sorted) == multiset(items)
    ensures |sorted| == |items|
  {
    assert |multiset(sorted)| == |multiset(items)|;
  }

  lemma WrittenIsCanonical(scratch: string, items: seq<Item>, rows: seq<Row>, kept: seq<Item>)
    requires Locates(scratch, items, rows) && Canonical(rows) && InBounds(scratch, kept)
    requires forall x <- kept :: x in items
    ensures Canonical(RowsIn(scratch, kept))
  {
    hide CanonicalRow;
    forall k | 0 <= k < |kept|
      ensures CanonicalRow(RowsIn(scratch, kept)[k])
    {
      assert kept[k] in items;
      var j :| 0 <= j < |items| && items[j] == kept[k];
      RowOfItem(scratch, items, rows, j);
    }
  }

  /** Two places that hold the same rows. */
  lemma SameCodes(buf: string, ix: seq<Item>, scratch: string, kept: seq<Item>)
    requires InBounds(scratch, kept) && Locates(buf, ix, RowsIn(scratch, kept)) && StrictCodes(kept)
    ensures StrictCodes(ix)
  {
    forall i, j | 0 <= i < j < |ix|
      ensures Cmp(ix[i].code, ix[j].code) < 0
    {
      RowOfItem(buf, ix, RowsIn(scratch, kept), i);
      RowOfItem(buf, ix, RowsIn(scratch, kept), j);
    }
  }

  lemma SaysTheSame(buf: string, ix: seq<Item>, scratch: string, kept: seq<Item>, c: string, d: string)
    requires InBounds(scratch, kept) && Locates(buf, ix, RowsIn(scratch, kept))
    ensures Says(buf, ix, c, d) <==> Says(scratch, kept, c, d)
  {
    var rows := RowsIn(scratch, kept);
    if Says(buf, ix, c, d) {
      var k :| 0 <= k < |ix| && ix[k].code == c && RowIn(buf, ix[k]).desc == d;
      RowOfItem(buf, ix, rows, k);
      assert kept[k].code == c;
    }
    if Says(scratch, kept, c, d) {
      var k :| 0 <= k < |kept| && kept[k].code == c && RowIn(scratch, kept[k]).desc == d;
      RowOfItem(buf, ix, rows, k);
      assert ix[k].code == c;
    }
  }

  lemma SaysAsMap(scratch: string, items: seq<Item>, rows: seq<Row>, sorted: seq<Item>, c: string, d: string)
    requires Imported(scratch, items, rows) && multiset(sorted) == multiset(items) && Sorted(sorted)
    requires InBounds(scratch, Dedup(sorted))
    ensures Says(scratch, Dedup(sorted), c, d) <==> c in MapOf(rows) && MapOf(rows)[c] == d
  {
    var kept := Dedup(sorted);
    if Says(scratch, kept, c, d) {
      var k :| 0 <= k < |kept| && kept[k].code == c && RowIn(scratch, kept[k]).desc == d;
      SurvivorIsLastRow(scratch, items, rows, sorted, kept[k]);
    }
    if c in MapOf(rows) {
      CodeSurvives(scratch, items, rows, sorted, c);
      var x :| x in kept && x.code == c;
      SurvivorIsLastRow(scratch, items, rows, sorted, x);
      var k :| 0 <= k < |kept| && kept[k] == x;
      if MapOf(rows)[c] == d {
        assert kept[k].code == c && RowIn(scratch, kept[k]).desc == d;
      }
    }
  }
}
