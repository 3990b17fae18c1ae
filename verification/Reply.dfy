/** From the parsed lines of a reply to its payloads: rows without a header, and
    the responders of a functional request kept apart. */
module Reply {
  import opened Wrappers
  import opened Bits
  import opened Seqs
  import opened IsoTp

  // ---- headers off -----------------------------------------------------------------

  /** The rows in arrival order, up to the first one whose printed index is not
      the next sequence number. */
  function Rows(lines: seq<Line>, next: nat): seq<byte> {
    if lines == [] then []
    else if lines[0].isoIndex < 0 then Rows(lines[1..], next)
    else if lines[0].isoIndex != next % 16 then []
    else lines[0].bytes + Rows(lines[1..], next + 1)
  }

  function Plain(lines: seq<Line>): seq<byte> {
    if lines == [] then [] else lines[0].bytes + Plain(lines[1..])
  }

  function Headerless(lines: seq<Line>, total: Option<nat>, cap: nat): seq<byte>
    requires lines != []
  {
    if lines[0].isoIndex >= 0 || total.Some? then
      var data := Take(Rows(lines, 0), cap);
      if total.Some? then Take(data, total.value) else data
    else Take(Plain(lines), cap)
  }

  method AssembleRows(lines: seq<Line>, payload: array<byte>) returns (n: nat)
    modifies payload
    ensures Holds(payload, n, Rows(lines, 0))
  {
    n := 0;
    var next, i := 0, 0;
    ghost var got: seq<byte> := [];
    while i < |lines|
      invariant 0 <= i <= |lines|
      invariant Holds(payload, n, got)
      invariant got + Rows(lines[i..], next) == Rows(lines, 0)
    {
      var l := lines[i];
      ghost var rest := lines[i..];
      assert rest[0] == l && rest[1..] == lines[i + 1..];
      if l.isoIndex >= 0 {
        if l.isoIndex != next % 16 {
          assert got + [] == got;
          return;
        }
        n := Put(payload, n, l.bytes, got);
        Assoc(got, l.bytes, Rows(rest[1..], next + 1));
        got := got + l.bytes;
        next := next + 1;
      }
      i := i + 1;
    }
    assert got + [] == got;
  }

  method AssembleHeaderless(lines: seq<Line>, total: Option<nat>, payload: array<byte>) returns (n: nat)
    requires lines != []
    modifies payload
    ensures n <= payload.Length && payload[..n] == Headerless(lines, total, payload.Length)
  {
    if lines[0].isoIndex >= 0 || total.Some? {
      n := AssembleRows(lines, payload);
      if total.Some? && total.value < n {
        n := total.value;
      }
    } else {
      n := 0;
      ghost var got: seq<byte> := [];
      for i := 0 to |lines|
        invariant Holds(payload, n, got)
        invariant got + Plain(lines[i..]) == Plain(lines)
      {
        assert lines[i..][1..] == lines[i + 1..];
        n := Put(payload, n, lines[i].bytes, got);
        Assoc(got, lines[i].bytes, Plain(lines[i + 1..]));
        got := got + lines[i].bytes;
      }
      assert got + [] == got;
    }
  }

  // ---- rows of a payload, printed and lost -------------------------------------------

  function Flat(rows: seq<seq<byte>>): seq<byte> {
    if rows == [] then [] else Flat(Init(rows)) + Last(rows)
  }

  /** Row k as the chip prints it: `0:` to `F:` and round again. */
  function Row(rows: seq<seq<byte>>, k: nat): Line
    requires k < |rows|
  {
    Line(rows[k], None, k % 16, 0)
  }

  /** The printed rows that arrived, by their numbers. */
  function Arrived(rows: seq<seq<byte>>, kept: seq<nat>): (lines: seq<Line>)
    requires forall k <- kept :: k < |rows|
    ensures |lines| == |kept|
  {
    seq(|kept|, i requires 0 <= i < |kept| => assert kept[i] in kept; Row(rows, kept[i]))
  }

  /** How many rows arrived before the first one is missing. */
  function Intact(kept: seq<nat>, i: nat): (j: nat)
    requires i <= |kept|
    ensures i <= j <= |kept|
    ensures forall t :: i <= t < j ==> kept[t] == t
    ensures j < |kept| ==> kept[j] != j
    decreases |kept| - i
  {
    if i < |kept| && kept[i] == i then Intact(kept, i + 1) else i
  }

  /** The first row out of place is printed with another index than the one due. */
  predicate Shows(kept: seq<nat>) {
    var j := Intact(kept, 0);
    j < |kept| ==> kept[j] % 16 != j % 16
  }

  lemma {:induction false} RowsUpToGap(rows: seq<seq<byte>>, kept: seq<nat>, i: nat)
    requires (forall k <- kept :: k < |rows|) && i <= |kept|
    requires forall t :: 0 <= t < i ==> kept[t] == t
    ensures Intact(kept, i) <= |rows|
    ensures var j := Intact(kept, i);
      Flat(rows[..i]) + Rows(Arrived(rows, kept)[i..], i) == Flat(rows[..j]) + Rows(Arrived(rows, kept)[j..], j)
    decreases |kept| - i
  {
    var lines := Arrived(rows, kept);
    assert i > 0 ==> kept[i - 1] in kept;
    if i < |kept| && kept[i] == i {
      assert kept[i] in kept;
      assert lines[i..][0] == Row(rows, i) && lines[i..][1..] == lines[i + 1..];
      RowsUpToGap(rows, kept, i + 1);
      Grow(rows, i);
      SnocInit(rows[..i], rows[i]);
      Assoc(Flat(rows[..i]), rows[i], Rows(lines[i + 1..], i + 1));
    }
  }

  /** What is assembled: the rows before the first one out of place, and whatever its
      index lets through behind them. */
  lemma RowsFromGap(rows: seq<seq<byte>>, kept: seq<nat>)
    requires forall k <- kept :: k < |rows|
    ensures var j := Intact(kept, 0);
      && j <= |rows|
      && Rows(Arrived(rows, kept), 0) == Flat(rows[..j]) + Rows(Arrived(rows, kept)[j..], j)
      && (Shows(kept) ==> Rows(Arrived(rows, kept)[j..], j) == [])
      && (!Shows(kept) ==> kept[j] in kept && rows[kept[j]] <= Rows(Arrived(rows, kept)[j..], j))
  {
    var lines, j := Arrived(rows, kept), Intact(kept, 0);
    RowsUpToGap(rows, kept, 0);
    assert lines[0..] == lines && rows[..0] == [] && Flat([]) == [];
    if j < |kept| {
      assert kept[j] in kept;
      assert lines[j..][0] == Row(rows, kept[j]);
    }
  }

  lemma {:induction false} FlatPrefix(rows: seq<seq<byte>>, j: nat)
    requires j <= |rows|
    ensures Flat(rows[..j]) <= Flat(rows)
    decreases |rows| - j
  {
    if j == |rows| {
      Whole(rows);
    } else {
      FlatPrefix(rows, j + 1);
      Grow(rows, j);
      SnocInit(rows[..j], rows[j]);
    }
  }

  lemma PrefixCut<T>(a: seq<T>, b: seq<T>, whole: seq<T>, cap: nat)
    requires a <= whole && b <= whole
    ensures Take(Take(a, cap), |b|) <= b
  {
  }

  /** The result with the length line there. */
  lemma WithLength(lines: seq<Line>, n: nat, cap: nat)
    requires lines != []
    ensures Headerless(lines, Some(n), cap) == Take(Take(Rows(lines, 0), cap), n)
  {
  }

  /** Rows lost so that the first gap shows, the length line there: what is assembled is
      a prefix of the payload, whatever its size and however often the printed index
      wraps. Bytes never move. */
  lemma LostRowsGivePrefix(p: seq<byte>, rows: seq<seq<byte>>, kept: seq<nat>, cap: nat)
    requires p <= Flat(rows) && kept != [] && (forall k <- kept :: k < |rows|) && Shows(kept)
    ensures Headerless(Arrived(rows, kept), Some(|p|), cap) <= p
  {
    hide Rows, Arrived, Flat, Headerless;
    var j := Intact(kept, 0);
    RowsFromGap(rows, kept);
    assert Rows(Arrived(rows, kept), 0) == Flat(rows[..j]);
    FlatPrefix(rows, j);
    WithLength(Arrived(rows, kept), |p|, cap);
    var got := Flat(rows[..j]);
    PrefixCut(got, p, Flat(rows), cap);
  }

  function AllOf(n: nat): seq<nat> {
    seq(n, i => i)
  }

  /** Every row there: exactly the payload, over any number of wraps. */
  lemma AllRowsRoundTrip(p: seq<byte>, rows: seq<seq<byte>>, cap: nat)
    requires p <= Flat(rows) && rows != [] && |p| <= cap
    ensures Headerless(Arrived(rows, AllOf(|rows|)), Some(|p|), cap) == p
  {
    hide Rows, Flat, Headerless;
    AllInPlace(rows);
    var lines := Arrived(rows, AllOf(|rows|));
    RowsFromGap(rows, AllOf(|rows|));
    WithLength(lines, |p|, cap);
    Whole(rows);
    assert Rows(lines, 0) == Flat(rows);
    CutPayload(p, Flat(rows), cap);
  }

  lemma AllInPlace(rows: seq<seq<byte>>)
    ensures Intact(AllOf(|rows|), 0) == |rows|
  {
  }

  lemma CutPayload<T>(p: seq<T>, all: seq<T>, cap: nat)
    requires p <= all && |p| <= cap
    ensures Take(Take(all, cap), |p|) == p
  {
  }

  /** Rows of those sizes. */
  predicate Shaped(rows: seq<seq<byte>>, sizes: seq<nat>) {
    |rows| == |sizes| && forall i :: 0 <= i < |rows| ==> |rows[i]| == sizes[i]
  }

  function Total(sizes: seq<nat>): nat {
    if sizes == [] then 0 else Total(Init(sizes)) + Last(sizes)
  }

  lemma {:induction false} FlatSize(rows: seq<seq<byte>>, sizes: seq<nat>, j: nat)
    requires Shaped(rows, sizes) && j <= |rows|
    ensures |Flat(rows[..j])| == Total(sizes[..j])
  {
    if j > 0 {
      FlatSize(rows, sizes, j - 1);
      Grow(rows, j - 1);
      Grow(sizes, j - 1);
      SnocInit(rows[..j - 1], rows[j - 1]);
      SnocInit(sizes[..j - 1], sizes[j - 1]);
    }
  }

  /** Whatever the rows hold, what is assembled from those that arrived is a prefix of
      the first n bytes. */
  ghost predicate AlwaysPrefix(sizes: seq<nat>, kept: seq<nat>, n: nat, cap: nat)
    requires kept != [] && n <= Total(sizes) && forall k <- kept :: k < |sizes|
  {
    forall rows :: Shaped(rows, sizes) ==> IsPrefix(rows, kept, n, cap)
  }

  predicate IsPrefix(rows: seq<seq<byte>>, kept: seq<nat>, n: nat, cap: nat)
    requires kept != [] && forall k <- kept :: k < |rows|
  {
    Headerless(Arrived(rows, kept), Some(n), cap) <= Take(Flat(rows), n)
  }

  /** Row k of ones among rows of zeros. */
  function Marked(sizes: seq<nat>, k: nat): (rows: seq<seq<byte>>)
    ensures Shaped(rows, sizes)
  {
    seq(|sizes|, i requires 0 <= i < |sizes| => seq(sizes[i], t => if i == k then 1 else 0))
  }

  /** The byte of the payload behind its first j rows. */
  lemma ByteBehind(rows: seq<seq<byte>>, j: nat)
    requires j < |rows| && rows[j] != []
    ensures |Flat(rows[..j])| < |Flat(rows)| && Flat(rows)[|Flat(rows[..j])|] == rows[j][0]
  {
    FlatPrefix(rows, j + 1);
    Grow(rows, j);
    SnocInit(rows[..j], rows[j]);
    assert Flat(rows[..j + 1])[|Flat(rows[..j])|] == rows[j][0];
  }

  /** The bound is exact, for rows that arrive in any order and with any lost or repeated:
      the result is a prefix whatever the rows hold exactly when the first gap shows, or
      the bytes asked for end before it. */
  lemma PrefixExactly(sizes: seq<nat>, kept: seq<nat>, n: nat, cap: nat)
    requires kept != [] && (forall k <- kept :: k < |sizes|) && (forall size <- sizes :: size > 0) && n <= Total(sizes)
    ensures Intact(kept, 0) <= |sizes|
    ensures AlwaysPrefix(sizes, kept, n, cap) <==> Shows(kept) || Min(n, cap) <= Total(sizes[..Intact(kept, 0)])
  {
    var j := Intact(kept, 0);
    RowsFromGap(Marked(sizes, 0), kept);
    if Shows(kept) || Min(n, cap) <= Total(sizes[..j]) {
      forall rows | Shaped(rows, sizes)
        ensures IsPrefix(rows, kept, n, cap)
      {
        StaysPrefix(rows, sizes, kept, n, cap);
      }
    } else {
      MarkMoves(sizes, kept, n, cap);
    }
  }

  lemma StaysPrefix(rows: seq<seq<byte>>, sizes: seq<nat>, kept: seq<nat>, n: nat, cap: nat)
    requires kept != [] && (forall k <- kept :: k < |sizes|) && n <= Total(sizes) && Shaped(rows, sizes)
    requires Intact(kept, 0) <= |sizes|
    requires Shows(kept) || Min(n, cap) <= Total(sizes[..Intact(kept, 0)])
    ensures IsPrefix(rows, kept, n, cap)
  {
    hide Rows, Flat, Headerless, Arrived, Total;
    var j := Intact(kept, 0);
    FlatSize(rows, sizes, j);
    FlatSize(rows, sizes, |rows|);
    Whole(rows);
    Whole(sizes);
    if Shows(kept) {
      LostRowsGivePrefix(Flat(rows)[..n], rows, kept, cap);
    } else {
      RowsFromGap(rows, kept);
      FlatPrefix(rows, j);
      WithLength(Arrived(rows, kept), n, cap);
      assert Take(Take(Rows(Arrived(rows, kept), 0), cap), n) == Flat(rows[..j])[..Min(n, cap)];
    }
  }

  /** A row behind a gap that does not show moves up. */
  lemma MarkMoves(sizes: seq<nat>, kept: seq<nat>, n: nat, cap: nat)
    requires kept != [] && (forall k <- kept :: k < |sizes|) && (forall size <- sizes :: size > 0) && n <= Total(sizes)
    requires !Shows(kept) && Intact(kept, 0) <= |sizes| && Min(n, cap) > Total(sizes[..Intact(kept, 0)])
    ensures !AlwaysPrefix(sizes, kept, n, cap)
  {
    hide Rows, Flat, Headerless, Arrived, Total;
    var j := Intact(kept, 0);
    var k := kept[j];
    var rows := Marked(sizes, k);
    assert k in kept && sizes[k] in sizes;
    RowsFromGap(rows, kept);
    FlatSize(rows, sizes, j);
    FlatSize(rows, sizes, |rows|);
    Whole(rows);
    Whole(sizes);
    assert j < |sizes| && sizes[j] in sizes;
    ByteBehind(rows, j);
    WithLength(Arrived(rows, kept), n, cap);
    ByteDiffers(Flat(rows[..j]), Rows(Arrived(rows, kept)[j..], j), rows[k], Flat(rows), n, cap);
    assert !IsPrefix(rows, kept, n, cap);
  }

  lemma ByteDiffers(a: seq<byte>, b: seq<byte>, row: seq<byte>, flat: seq<byte>, n: nat, cap: nat)
    requires row != [] && row <= b && |a| < |flat| && flat[|a|] != row[0] && |a| < n && |a| < cap
    ensures !(Take(Take(a + b, cap), n) <= Take(flat, n))
  {
    var got := Take(Take(a + b, cap), n);
    assert got[|a|] == b[0] == row[0];
  }

  // ---- headers on: which responders are kept -------------------------------------------

  /** Where an id belongs in an ascending list. */
  function Place(hs: seq<nat>, h: nat): (at: nat)
    ensures at <= |hs|
    ensures forall i :: 0 <= i < at ==> hs[i] < h
    ensures at < |hs| ==> h <= hs[at]
  {
    if hs != [] && hs[0] < h then
      var at := Place(hs[1..], h) + 1;
      assert forall i :: 1 <= i < at ==> hs[i] == hs[1..][i - 1];
      at
    else 0
  }

  /** Sorted insertion; a full list keeps the lowest. */
  function Insert(hs: seq<nat>, h: nat, cap: nat): seq<nat> {
    var at := Place(hs, h);
    if at < |hs| && hs[at] == h then hs
    else Take(hs[..at] + [h] + hs[at..], cap)
  }

  function LowestIds(lines: seq<Line>, cap: nat): seq<nat> {
    if lines == [] then []
    else
      var hs := LowestIds(Init(lines), cap);
      if Last(lines).header.Some? then Insert(hs, Last(lines).header.value, cap) else hs
  }

  function IdsOf(lines: seq<Line>): set<nat> {
    set l <- lines | l.header.Some? :: l.header.value
  }

  ghost predicate Ascending(hs: seq<nat>) {
    forall i, j :: 0 <= i < j < |hs| ==> hs[i] < hs[j]
  }

  /** The list is the lowest ids, ascending, as many as the cap allows. */
  ghost predicate KeepsLowest(hs: seq<nat>, ids: set<nat>, cap: nat) {
    && Ascending(hs) && |hs| <= cap
    && (forall h <- hs :: h in ids)
    && (forall x <- ids :: InOrAbove(x, hs, cap))
  }

  lemma InsertAscending(hs: seq<nat>, h: nat)
    requires Ascending(hs) && h !in hs
    ensures var at := Place(hs, h);
      Ascending(hs[..at] + [h] + hs[at..])
  {
    hide Place;
    var at := Place(hs, h);
    Member(hs, at);
    BetweenAscends(hs, at, h);
  }

  lemma BetweenAscends(hs: seq<nat>, at: nat, h: nat)
    requires Ascending(hs) && at <= |hs|
    requires (forall i :: 0 <= i < at ==> hs[i] < h) && (at < |hs| ==> h < hs[at])
    ensures Ascending(hs[..at] + [h] + hs[at..])
  {
    var all := hs[..at] + [h] + hs[at..];
    forall i, j | 0 <= i < j < |all|
      ensures all[i] < all[j]
    {
      assert all[i] == (if i < at then hs[i] else if i == at then h else hs[i - 1]);
      assert all[j] == (if j < at then hs[j] else if j == at then h else hs[j - 1]);
    }
  }

  lemma Member(hs: seq<nat>, i: int)
    ensures 0 <= i < |hs| ==> hs[i] in hs
  {
  }

  lemma InsertKeepsLowest(hs: seq<nat>, ids: set<nat>, h: nat, cap: nat)
    requires KeepsLowest(hs, ids, cap)
    ensures KeepsLowest(Insert(hs, h, cap), ids + {h}, cap)
  {
    var at := Place(hs, h);
    if at < |hs| && hs[at] == h {
      assert h in hs;
    } else {
      NotThere(hs, h);
      InsertAscending(hs, h);
      var all := hs[..at] + [h] + hs[at..];
      InsertMembers(hs, h, at);
      TakeLowest(all, cap);
      forall x | x in ids + {h}
        ensures InOrAbove(x, Take(all, cap), cap)
      {
        if x in all {
          assert InOrAbove(x, Take(all, cap), cap);
        } else {
          assert InOrAbove(x, hs, cap);
          FullBelow(hs, h, at, cap, x);
        }
      }
    }
  }

  lemma NotThere(hs: seq<nat>, h: nat)
    requires Ascending(hs)
    ensures var at := Place(hs, h); h in hs ==> at < |hs| && hs[at] == h
  {
  }

  lemma InsertMembers(hs: seq<nat>, h: nat, at: nat)
    requires at <= |hs|
    ensures forall x :: x in hs[..at] + [h] + hs[at..] <==> x == h || x in hs
  {
    assert hs == hs[..at] + hs[at..];
  }

  ghost predicate InOrAbove(x: nat, kept: seq<nat>, cap: nat) {
    x in kept || (|kept| == cap && forall y <- kept :: y < x)
  }

  /** Cutting an ascending list keeps its lowest members. */
  lemma TakeLowest(all: seq<nat>, cap: nat)
    requires Ascending(all)
    ensures Ascending(Take(all, cap))
    ensures forall x <- all :: InOrAbove(x, Take(all, cap), cap)
  {
    var out := Take(all, cap);
    forall x | x in all
      ensures InOrAbove(x, out, cap)
    {
      var i :| 0 <= i < |all| && all[i] == x;
      if i < cap {
        assert out[i] == x;
      } else {
        forall y | y in out
          ensures y < x
        {
          var j :| 0 <= j < |out| && out[j] == y;
          assert all[j] == y;
        }
      }
    }
  }

  lemma FullBelow(hs: seq<nat>, h: nat, at: nat, cap: nat, x: nat)
    requires |hs| == cap && at <= cap && (forall y <- hs :: y < x)
    requires at < |hs| ==> h < hs[at]
    ensures InOrAbove(x, Take(hs[..at] + [h] + hs[at..], cap), cap)
  {
    var all := hs[..at] + [h] + hs[at..];
    InsertMembers(hs, h, at);
    Member(hs, at);
    if at == |hs| {
      assert Take(all, cap) == hs;
    } else {
      assert Take(all, cap) == all[..cap];
      assert forall y <- all[..cap] :: y in all;
    }
  }

  lemma {:induction false} LowestIdsKeepsLowest(lines: seq<Line>, cap: nat)
    ensures KeepsLowest(LowestIds(lines, cap), IdsOf(lines), cap)
  {
    if lines != [] {
      LowestIdsKeepsLowest(Init(lines), cap);
      SnocParts([], lines);
      var l := Last(lines);
      assert lines == Init(lines) + [l];
      assert l in lines;
      if l.header.Some? {
        InsertKeepsLowest(LowestIds(Init(lines), cap), IdsOf(Init(lines)), l.header.value, cap);
        assert IdsOf(lines) == IdsOf(Init(lines)) + {l.header.value};
      } else {
        assert IdsOf(lines) == IdsOf(Init(lines));
      }
    }
  }

  /** That description leaves no choice. */
  lemma {:induction false} LowestUnique(a: seq<nat>, b: seq<nat>, ids: set<nat>, cap: nat)
    requires KeepsLowest(a, ids, cap) && KeepsLowest(b, ids, cap)
    ensures a == b
  {
    SameAt(a, b, ids, cap, Min(|a|, |b|));
    NotLonger(a, b, ids, cap);
    NotLonger(b, a, ids, cap);
  }

  lemma NotLonger(a: seq<nat>, b: seq<nat>, ids: set<nat>, cap: nat)
    requires KeepsLowest(a, ids, cap) && KeepsLowest(b, ids, cap)
    requires forall i :: 0 <= i < |a| && i < |b| ==> a[i] == b[i]
    ensures |b| <= |a|
  {
    if |a| < |b| {
      Member(b, |a|);
      Known(a, ids, cap, b[|a|]);
    }
  }

  lemma Known(hs: seq<nat>, ids: set<nat>, cap: nat, x: nat)
    ensures KeepsLowest(hs, ids, cap) && x in ids && x !in hs ==> |hs| == cap
  {
  }

  lemma {:induction false} SameAt(a: seq<nat>, b: seq<nat>, ids: set<nat>, cap: nat, n: nat)
    requires KeepsLowest(a, ids, cap) && KeepsLowest(b, ids, cap) && n <= |a| && n <= |b|
    ensures forall i :: 0 <= i < n ==> a[i] == b[i]
  {
    if n > 0 {
      SameAt(a, b, ids, cap, n - 1);
      NotSkipped(a, b, ids, cap, n - 1);
      NotSkipped(b, a, ids, cap, n - 1);
    }
  }

  lemma NotSkipped(a: seq<nat>, b: seq<nat>, ids: set<nat>, cap: nat, k: nat)
    requires KeepsLowest(a, ids, cap) && KeepsLowest(b, ids, cap) && k < |a| && k < |b|
    requires forall i :: 0 <= i < k ==> a[i] == b[i]
    ensures a[k] >= b[k]
  {
    assert a[k] in a && a[k] in ids && b[k] in b;
  }

  /** The list with the id in its place, cut at the end. */
  lemma InsertedAt(now: seq<nat>, hs: seq<nat>, m: nat, at: nat, h: nat)
    requires |now| == m && at < m <= |hs| + 1 && at <= |hs| && now[at] == h
    requires forall i :: 0 <= i < at ==> now[i] == hs[i]
    requires forall i :: at < i < m ==> now[i] == hs[i - 1]
    ensures now == (hs[..at] + [h] + hs[at..])[..m]
  {
  }

  /** Sorted insertion in place, the buffer's size being the cap. */
  method InsertId(hdrs: array<nat>, n: nat, h: nat) returns (m: nat)
    requires n <= hdrs.Length
    modifies hdrs
    ensures n <= m <= hdrs.Length && hdrs[..m] == Insert(old(hdrs[..n]), h, hdrs.Length)
  {
    ghost var hs := hdrs[..n];
    var at := 0;
    while at < n && hdrs[at] < h
      invariant 0 <= at <= n
      invariant forall i :: 0 <= i < at ==> hs[i] < h
    {
      at := at + 1;
    }
    assert at == Place(hs, h);
    m := n;
    if at < n && hdrs[at] == h {
      return;
    }
    if n < hdrs.Length {
      m := n + 1;
    } else if at >= hdrs.Length {
      assert Insert(hs, h, hdrs.Length) == hs;
      return;
    }
    OpenGap(hdrs, hs, m, at);
    hdrs[at] := h;
    InsertedAt(hdrs[..m], hs, m, at, h);
  }

  /** Move the elements from `at` up by one, the last one out when m is full. */
  method OpenGap(hdrs: array<nat>, ghost hs: seq<nat>, m: nat, at: nat)
    requires at < m <= hdrs.Length && |hs| <= m <= |hs| + 1 && hdrs[..|hs|] == hs
    modifies hdrs
    ensures forall i :: 0 <= i < at ==> hdrs[i] == hs[i]
    ensures forall i :: at < i < m ==> hdrs[i] == hs[i - 1]
  {
    var k := m - 1;
    assert forall i :: 0 <= i < |hs| ==> hdrs[i] == hdrs[..|hs|][i];
    while k > at
      invariant at <= k < m
      invariant forall i :: 0 <= i <= k && i < |hs| ==> hdrs[i] == hs[i]
      invariant forall i :: k < i < m ==> hdrs[i] == hs[i - 1]
    {
      hdrs[k] := hdrs[k - 1];
      k := k - 1;
    }
  }

  method CollectIds(lines: seq<Line>, cap: nat) returns (ids: seq<nat>)
    ensures ids == LowestIds(lines, cap)
  {
    var hdrs := new nat[cap];
    var n := 0;
    for i := 0 to |lines|
      invariant n <= hdrs.Length && hdrs[..n] == LowestIds(lines[..i], cap)
    {
      Grow(lines, i);
      SnocInit(lines[..i], lines[i]);
      if lines[i].header.Some? {
        n := InsertId(hdrs, n, lines[i].header.value);
      }
    }
    Whole(lines);
    ids := hdrs[..n];
  }

  // ---- the two entry points --------------------------------------------------------------

  datatype Failure = BusError | NothingFound

  const PAYLOAD_MAX: nat := 128
  const ECUS_MAX: nat := 8

  /** One responder's payload; no id when the headers were off. */
  datatype Ecu = Ecu(id: Option<nat>, payload: seq<byte>)

  /** The lowest id of the lines that have one. */
  function LowestOf(lines: seq<Line>): Option<nat> {
    if lines == [] then None
    else
      match (LowestOf(Init(lines)), Last(lines).header)
      case (Some(a), Some(b)) => Some(if b < a then b else a)
      case (None, h) => h
      case (a, None) => a
  }

  function PayloadOf(lines: seq<Line>, sawError: bool, total: Option<nat>, cap: nat): Result<seq<byte>, Failure> {
    if sawError then Err(BusError)
    else if lines == [] then Err(NothingFound)
    else
      var low := LowestOf(lines);
      var data := if lines[0].header.Some? && low.Some? then Assembled(lines, low.value, cap)
                  else Headerless(lines, total, cap);
      if data == [] then Err(NothingFound) else Ok(data)
  }

  lemma {:induction false} LowestIsLeast(lines: seq<Line>)
    ensures LowestOf(lines).None? <==> IdsOf(lines) == {}
    ensures LowestOf(lines).Some? ==>
      LowestOf(lines).value in IdsOf(lines) && forall x <- IdsOf(lines) :: LowestOf(lines).value <= x
  {
    if lines != [] {
      LowestIsLeast(Init(lines));
      SnocParts([], lines);
      IdsSnoc(Init(lines), Last(lines));
    }
  }

  lemma IdsSnoc(a: seq<Line>, l: Line)
    ensures IdsOf(a + [l]) == if l.header.Some? then IdsOf(a) + {l.header.value} else IdsOf(a)
  {
    assert forall x :: x in a + [l] <==> x in a || x == l;
  }

  method ToPayload(lines: seq<Line>, sawError: bool, total: Option<nat>, payload: array<byte>)
    returns (r: Result<nat, Failure>)
    modifies payload
    ensures match PayloadOf(lines, sawError, total, payload.Length)
      case Err(e) => r == Err(e)
      case Ok(data) => r == Ok(|data|) && |data| <= payload.Length && payload[..|data|] == data
  {
    if sawError {
      return Err(BusError);
    }
    if |lines| == 0 {
      return Err(NothingFound);
    }
    var n;
    if lines[0].header.Some? {
      var lowest: Option<nat> := None;
      for i := 0 to |lines|
        invariant lowest == LowestOf(lines[..i])
        invariant i > 0 ==> lowest.Some?
      {
        Grow(lines, i);
        SnocInit(lines[..i], lines[i]);
        match lines[i].header {
          case None =>
          case Some(h) =>
            if lowest.None? || h < lowest.value {
              lowest := Some(h);
            }
        }
      }
      Whole(lines);
      n := AssembleHeaderFrames(lines, lowest.value, payload);
    } else {
      n := AssembleHeaderless(lines, total, payload);
    }
    r := if n == 0 then Err(NothingFound) else Ok(n);
  }

  /** The payloads of the given responders, the empty ones left out. */
  function NonEmpty(lines: seq<Line>, ids: seq<nat>, cap: nat): seq<Ecu> {
    if ids == [] then []
    else
      var data := Assembled(lines, Last(ids), cap);
      NonEmpty(lines, Init(ids), cap) + if data == [] then [] else [Ecu(Some(Last(ids)), data)]
  }

  function EcusCap(maxEcus: nat): nat {
    if maxEcus > ECUS_MAX then ECUS_MAX else maxEcus
  }

  function PayloadsOf(lines: seq<Line>, sawError: bool, total: Option<nat>, maxEcus: nat): Result<seq<Ecu>, Failure> {
    if maxEcus == 0 then Ok([])
    else if sawError then Err(BusError)
    else if lines == [] then Ok([])
    else if lines[0].header.None? then
      var data := Headerless(lines, total, PAYLOAD_MAX);
      Ok(if data == [] then [] else [Ecu(None, data)])
    else Ok(NonEmpty(lines, LowestIds(lines, EcusCap(maxEcus)), PAYLOAD_MAX))
  }

  method ToPayloads(lines: seq<Line>, sawError: bool, total: Option<nat>, maxEcus: nat)
    returns (r: Result<seq<Ecu>, Failure>)
    ensures r == PayloadsOf(lines, sawError, total, maxEcus)
  {
    if maxEcus == 0 {
      return Ok([]);
    }
    if sawError {
      return Err(BusError);
    }
    if |lines| == 0 {
      return Ok([]);
    }
    var payload := new byte[PAYLOAD_MAX];
    if lines[0].header.None? {
      var n := AssembleHeaderless(lines, total, payload);
      return Ok(if n > 0 then [Ecu(None, payload[..n])] else []);
    }
    var ids := CollectIds(lines, EcusCap(maxEcus));
    var out: seq<Ecu> := [];
    for i := 0 to |ids|
      invariant out == NonEmpty(lines, ids[..i], PAYLOAD_MAX)
    {
      Grow(ids, i);
      SnocInit(ids[..i], ids[i]);
      var n := AssembleHeaderFrames(lines, ids[i], payload);
      if n > 0 {
        out := out + [Ecu(Some(ids[i]), payload[..n])];
      }
    }
    Whole(ids);
    r := Ok(out);
  }

  // ---- what the demultiplexing promises -----------------------------------------------------

  lemma {:induction false} OwnIds(lines: seq<Line>, id: nat)
    ensures id in IdsOf(lines) <==> Own(lines, id) != []
  {
    if lines != [] {
      OwnIds(Init(lines), id);
      SnocParts([], lines);
      IdsSnoc(Init(lines), Last(lines));
    }
  }

  lemma {:induction false} SamePayloads(a: seq<Line>, b: seq<Line>, ids: seq<nat>, cap: nat)
    requires forall id :: Own(a, id) == Own(b, id)
    ensures NonEmpty(a, ids, cap) == NonEmpty(b, ids, cap)
  {
    if ids != [] {
      SamePayloads(a, b, Init(ids), cap);
      AssembledFromOwn(a, b, Last(ids), cap);
    }
  }

  /** Any interleaving of the responders' lines gives the same payloads: two
      replies in which every responder has the same lines in the same order, in
      whatever order between responders, are told apart by nothing. */
  lemma {:induction false} InterleavingInvisible(a: seq<Line>, b: seq<Line>, total: Option<nat>, maxEcus: nat)
    requires a != [] && b != [] && a[0].header.Some? && b[0].header.Some?
    requires forall id :: Own(a, id) == Own(b, id)
    ensures PayloadsOf(a, false, total, maxEcus) == PayloadsOf(b, false, total, maxEcus)
    ensures forall cap :: PayloadOf(a, false, total, cap) == PayloadOf(b, false, total, cap)
  {
    SameIds(a, b);
    var cap := EcusCap(maxEcus);
    LowestIdsKeepsLowest(a, cap);
    LowestIdsKeepsLowest(b, cap);
    LowestUnique(LowestIds(a, cap), LowestIds(b, cap), IdsOf(a), cap);
    SamePayloads(a, b, LowestIds(a, cap), PAYLOAD_MAX);
    SameLowest(a, b);
    forall size
      ensures PayloadOf(a, false, total, size) == PayloadOf(b, false, total, size)
    {
      AssembledFromOwn(a, b, LowestOf(a).value, size);
    }
  }

  lemma SameIds(a: seq<Line>, b: seq<Line>)
    requires forall id :: Own(a, id) == Own(b, id)
    ensures IdsOf(a) == IdsOf(b)
  {
    forall id
      ensures id in IdsOf(a) <==> id in IdsOf(b)
    {
      OwnIds(a, id);
      OwnIds(b, id);
    }
  }

  lemma {:induction false} SameLowest(a: seq<Line>, b: seq<Line>)
    requires a != [] && a[0].header.Some? && IdsOf(a) == IdsOf(b)
    ensures LowestOf(a) == LowestOf(b) && LowestOf(a).Some?
  {
    LowestIsLeast(a);
    LowestIsLeast(b);
    assert a[0] in a;
    assert a[0].header.value in IdsOf(a);
  }

  lemma {:induction false} NonEmptyMembers(lines: seq<Line>, ids: seq<nat>, cap: nat)
    requires Ascending(ids)
    ensures var out := NonEmpty(lines, ids, cap);
      && (forall e <- out :: e.id.Some? && e.id.value in ids && e.payload != [] &&
            e.payload == Assembled(Own(lines, e.id.value), e.id.value, cap))
      && (forall id <- ids :: Assembled(lines, id, cap) != [] ==> Ecu(Some(id), Assembled(lines, id, cap)) in out)
      && (forall i, j :: 0 <= i < j < |out| ==> out[i].id.value < out[j].id.value)
  {
    if ids != [] {
      NonEmptyMembers(lines, Init(ids), cap);
      OnlyOwnLines(lines, Last(ids));
      OwnOfOwn(lines, Last(ids));
      AssembledFromOwn(lines, Own(lines, Last(ids)), Last(ids), cap);
      SnocParts([], ids);
      forall x | x in Init(ids)
        ensures x < Last(ids)
      {
      }
    }
  }

  lemma {:induction false} OwnOfOwn(lines: seq<Line>, id: nat)
    ensures Own(Own(lines, id), id) == Own(lines, id)
  {
    if lines != [] {
      var a, l := Init(lines), Last(lines);
      OwnOfOwn(a, id);
      assert lines == a + [l];
      OwnSnoc(a, l, id);
      OwnSnoc(Own(a, id), l, id);
      assert Own(a, id) + [] == Own(a, id);
    }
  }

  /** Of a reply with headers: the lowest distinct ids up to the cap, ascending,
      minus those that assemble to nothing, each with the payload of its own
      lines alone. */
  lemma PayloadsAreTheLowest(lines: seq<Line>, total: Option<nat>, maxEcus: nat)
    requires lines != [] && lines[0].header.Some? && maxEcus > 0
    ensures PayloadsOf(lines, false, total, maxEcus).Ok?
    ensures var out, kept := PayloadsOf(lines, false, total, maxEcus).value, LowestIds(lines, EcusCap(maxEcus));
      && KeepsLowest(kept, IdsOf(lines), EcusCap(maxEcus))
      && (forall e <- out :: e.id.Some? && e.id.value in kept && e.payload != [] &&
            e.payload == Assembled(Own(lines, e.id.value), e.id.value, PAYLOAD_MAX))
      && (forall id <- kept :: Assembled(lines, id, PAYLOAD_MAX) != [] ==>
            Ecu(Some(id), Assembled(lines, id, PAYLOAD_MAX)) in out)
      && (forall i, j :: 0 <= i < j < |out| ==> out[i].id.value < out[j].id.value)
  {
    var cap := EcusCap(maxEcus);
    LowestIdsKeepsLowest(lines, cap);
    NonEmptyMembers(lines, LowestIds(lines, cap), PAYLOAD_MAX);
  }

  lemma {:induction false} FirstNonEmpty(lines: seq<Line>, ids: seq<nat>, cap: nat)
    requires ids != [] && Assembled(lines, ids[0], cap) != []
    ensures NonEmpty(lines, ids, cap) != []
    ensures NonEmpty(lines, ids, cap)[0] == Ecu(Some(ids[0]), Assembled(lines, ids[0], cap))
  {
    if |ids| > 1 {
      FirstNonEmpty(lines, Init(ids), cap);
    } else {
      assert Init(ids) == [];
    }
  }

  /** The single-payload reading and the first entry of the other agree. */
  lemma FirstPayloadAgrees(lines: seq<Line>, total: Option<nat>, maxEcus: nat)
    requires lines != [] && maxEcus > 0 && PayloadOf(lines, false, total, PAYLOAD_MAX).Ok?
    ensures var out := PayloadsOf(lines, false, total, maxEcus);
      out.Ok? && out.value != [] && out.value[0].payload == PayloadOf(lines, false, total, PAYLOAD_MAX).value
  {
    if lines[0].header.Some? {
      var cap := EcusCap(maxEcus);
      var kept := LowestIds(lines, cap);
      LowestIdsKeepsLowest(lines, cap);
      LowestIsLeast(lines);
      assert lines[0] in lines;
      assert lines[0].header.value in IdsOf(lines);
      var low := LowestOf(lines).value;
      FirstIsLeast(kept, IdsOf(lines), cap, low);
      FirstNonEmpty(lines, kept, PAYLOAD_MAX);
    }
  }

  lemma FirstIsLeast(kept: seq<nat>, ids: set<nat>, cap: nat, low: nat)
    requires KeepsLowest(kept, ids, cap) && cap > 0
    requires low in ids && forall x <- ids :: low <= x
    ensures kept != [] && kept[0] == low
  {
    assert InOrAbove(low, kept, cap);
    Member(kept, 0);
  }
}
