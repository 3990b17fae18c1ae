/** The restore chain as text in a bounded buffer: the prelude and the undo command
    of every facet that was moved. */
module RestoreChain {
  import opened Seqs
  import opened ChainText
  import opened BusGuard
  import opened Chip

  /** What snprintf leaves in a buffer of cap bytes. */
  function Fit(s: string, cap: nat): string
    requires cap > 0
  {
    if |s| < cap then s else s[..cap - 1]
  }

  const RESTORE_LEN: nat := 128

  lemma {:induction false} JoinAppend(a: seq<string>, b: seq<string>)
    requires a != [] && b != []
    ensures Join(a + b) == Join(a) + ";" + Join(b)
  {
    if |a| == 1 {
      assert a + b == [a[0]] + b && (a + b)[1..] == b;
    } else {
      assert (a + b)[1..] == a[1..] + b && (a + b)[0] == a[0];
      JoinAppend(a[1..], b);
      Assoc(a[0] + ";", Join(a[1..]), ";" + Join(b));
      Assoc(a[0] + ";" + Join(a[1..]), ";", Join(b));
      Assoc(Join(a[1..]), ";", Join(b));
    }
  }

  lemma FitMore(s: string, t: string, cap: nat)
    requires cap > 0
    ensures |s| < cap ==> Fit(s + t, cap) == s + Fit(t, cap - |s|)
    ensures |s| >= cap ==> Fit(s + t, cap) == Fit(s, cap)
  {
    if |s| < cap && |s| + |t| >= cap {
      assert (s + t)[..cap - 1] == s + t[..cap - 1 - |s|];
    }
  }

  lemma EntryText(i: nat)
    requires i < UNDO_COUNT
    ensures UndoAt(i).cmds != [] && 4 <= |Join(UndoAt(i).cmds)| <= (if i == 9 then 9 else 7)
  {
  }

  /** What an entry adds behind a text. */
  function Piece(done: seq<string>, cmds: seq<string>): string {
    (if done != [] then ";" else "") + Join(cmds)
  }

  lemma PieceJoins(done: seq<string>, cmds: seq<string>)
    requires cmds != []
    ensures Join(done + cmds) == Join(done) + Piece(done, cmds)
  {
    if done == [] {
      assert done + cmds == cmds && "" + Join(cmds) == Join(cmds);
    } else {
      JoinAppend(done, cmds);
      Assoc(Join(done), ";", Join(cmds));
    }
  }

  /** The buffer holds the chain, cut where it is full; n is what was written. */
  method Build(sets: set<Facet>, prelude: string, ghost es: seq<string>, cap: nat) returns (out: string, n: nat)
    requires prelude == Join(es) && (es == [] <==> prelude == "")
    ensures out == if cap == 0 then "" else Fit(Join(RestoreElements(sets, es)), cap)
    ensures n == |out|
  {
    hide UndoAt;
    if cap == 0 {
      return "", 0;
    }
    out, n := Fit(prelude, cap), |prelude|;
    ghost var done := es;
    var i := 0;
    while i < UNDO_COUNT
      invariant i <= UNDO_COUNT
      invariant done + UndoFrom(sets, i) == RestoreElements(sets, es)
      invariant n == |Join(done)| && out == Fit(Join(done), cap)
      invariant done == [] <==> n == 0
    {
      var undo := UndoAt(i);
      Assoc(done, if undo.facet in sets then undo.cmds else [], UndoFrom(sets, i + 1));
      if undo.facet in sets {
        EntryText(i);
        if n >= cap {
          break;
        }
        PieceJoins(done, undo.cmds);
        var piece := (if n > 0 then ";" else "") + Join(undo.cmds);
        FitMore(Join(done), piece, cap);
        out := out + Fit(piece, cap - n);
        n := n + |piece|;
        done := done + undo.cmds;
      } else {
        assert done + [] == done;
      }
      i := i + 1;
    }
    if n >= cap {
      CutStays(done, UndoFrom(sets, i), cap);
      n := cap - 1;
    }
    assert done + [] == done;
  }

  lemma CutStays(done: seq<string>, more: seq<string>, cap: nat)
    requires 0 < cap <= |Join(done)|
    ensures Fit(Join(done + more), cap) == Fit(Join(done), cap)
  {
    if more == [] {
      assert done + more == done;
    } else {
      PieceJoins(done, more);
      FitMore(Join(done), Piece(done, more), cap);
    }
  }

  // ---- it always fits ---------------------------------------------------------------------

  /** The length an entry can add: its commands and the separators before them. */
  function Room(i: nat): nat
    requires i <= UNDO_COUNT
    decreases UNDO_COUNT - i
  {
    if i == UNDO_COUNT then 0 else (if i == 9 then 10 else 8) + Room(i + 1)
  }

  lemma {:induction false} UndoFits(sets: set<Facet>, i: nat, done: seq<string>)
    requires i <= UNDO_COUNT
    ensures |Join(done + UndoFrom(sets, i))| <= |Join(done)| + Room(i)
    decreases UNDO_COUNT - i
  {
    hide UndoAt;
    if i == UNDO_COUNT {
      assert done + [] == done;
    } else {
      var cmds := if UndoAt(i).facet in sets then UndoAt(i).cmds else [];
      Assoc(done, cmds, UndoFrom(sets, i + 1));
      UndoFits(sets, i + 1, done + cmds);
      if cmds != [] {
        EntryText(i);
        PieceJoins(done, cmds);
      } else {
        assert done + [] == done;
      }
    }
  }

  lemma HeadText(p: char)
    ensures |Join(PreludeHead(p))| == 16
  {
    var es := PreludeHead(p);
    assert es[1..][1..] == [es[2]] && es[1..] == [es[1], es[2]];
    assert Join([es[2]]) == es[2];
    assert Join(es[1..]) == es[1] + ";" + es[2];
    assert Join(es) == es[0] + ";" + Join(es[1..]);
  }

  lemma TailText(p: char)
    ensures PreludeTail(p) == [] || |Join(PreludeTail(p))| <= 18
  {
    if IsCan(p) {
      var es := PreludeTail(p);
      assert es[1..] == [es[1]];
      assert Join(es) == es[0] + ";" + es[1];
    }
  }

  lemma PreludeText(p: char)
    ensures Prelude(p) != [] && 0 < |Join(Prelude(p))| <= 41
  {
    hide PreludeTail, PreludeHead;
    HeadText(p);
    TailText(p);
    var pin := "ATTP" + [if ProtoDigit(p) then p else '0'];
    assert |pin| == 5 && Join([pin]) == pin;
    assert PreludeHead(p) != [] by { HeadText(p); }
    JoinAppend(PreludeHead(p), [pin] + PreludeTail(p));
    if PreludeTail(p) == [] {
      assert [pin] + PreludeTail(p) == [pin];
    } else {
      JoinAppend([pin], PreludeTail(p));
    }
  }

  /** Whatever was moved and whatever protocol is in effect, the restore buffer
      holds the whole chain. */
  lemma RestoreAlwaysFits(sets: set<Facet>, p: char)
    ensures |Join(RestoreElements(sets, Prelude(p)))| < RESTORE_LEN
    ensures Fit(Join(RestoreElements(sets, Prelude(p))), RESTORE_LEN) == Join(RestoreElements(sets, Prelude(p)))
  {
    hide Prelude;
    PreludeText(p);
    UndoFits(sets, 0, Prelude(p));
    RoomNeeded();
  }

  lemma RoomNeeded()
    ensures Room(0) == 82
  {
    assert Room(9) == 10;
    assert Room(7) == 26;
    assert Room(5) == 42;
    assert Room(3) == 58;
    assert Room(1) == 74;
  }
}
