/** May the OBD chip transmit on a protocol, given what is on the bus? The pure
    half of the bus guard: verdicts, and the protocols a chain sets. */
module BusGuard {
  import opened Wrappers
  import opened Seqs
  import opened Numerals
  import opened ChainText

  datatype Bus = Unknown | Silent | Live(kbps: nat) | Unreadable

  datatype Verdict = Allow | Search | Park

  /** "No protocol". */
  const NUL: char := '\0'

  /** The bit rate of a CAN protocol; 0 for the search, K-line, J1850 and the
      user's own CAN definitions. */
  function Kbps(proto: char): nat {
    if proto == '6' || proto == '7' then 500
    else if proto == '8' || proto == '9' || proto == 'A' || proto == 'a' then 250
    else 0
  }

  predicate IsSearch(proto: char) {
    proto == '0' || proto == NUL
  }

  /** Not this guard's to judge. */
  predicate Unjudged(proto: char) {
    !IsSearch(proto) && Kbps(proto) == 0
  }

  function Decide(bus: Bus, proto: char, pinned: bool): Verdict {
    if bus.Unknown? || bus.Silent? then Allow
    else if Unjudged(proto) then Allow
    else if bus.Unreadable? then Park
    else if IsSearch(proto) || Kbps(proto) == bus.kbps then Allow
    else if pinned then Park else Search
  }

  /** The guard allows a transmission on this protocol on this bus. */
  predicate Allowed(bus: Bus, proto: char) {
    Decide(bus, proto, true) == Allow
  }

  /** A prelude may pin what the last look was taken for, and nothing else. */
  predicate PinAllowed(proto: char, ruled: char) {
    Unjudged(proto) || (ruled != NUL && proto == ruled)
  }

  predicate ProtoDigit(p: char) {
    '0' <= p <= '9' || 'A' <= p <= 'C'
  }

  /** The protocol an ATSP / ATTP command sets, NUL for any other command. */
  function CmdProto(cmd: string): char {
    var c := Norm(cmd);
    var n := |c|;
    if (n == 5 || n == 6) && c[0] == 'A' && c[1] == 'T' && (c[2] == 'S' || c[2] == 'T') && c[3] == 'P'
       && (n == 5 || c[4] == 'A' || (c[4] == '0' && c[5] == '0')) && ProtoDigit(c[n - 1])
    then c[n - 1] else NUL
  }

  /** ATZ, ATD, ATWS: the chip loads its defaults and its stored protocol. */
  predicate Resets(cmd: string) {
    var c := Norm(cmd);
    c == "ATZ" || c == "ATD" || c == "ATWS"
  }

  /** What the guard reads in a chain: may it go out, the protocol it leaves the
      chip on (NUL: the baseline's), the first one refused. */
  datatype Reading = Reading(ok: bool, last: char, refused: char)

  function ReadOne(bus: Bus, r: Reading, cmd: string): Reading {
    var last := if Resets(cmd) then NUL else r.last;
    var p := CmdProto(cmd);
    if p == NUL then r.(last := last)
    else if r.ok && !Allowed(bus, p) then Reading(false, p, p)
    else r.(last := p)
  }

  function ReadChain(bus: Bus, es: seq<string>): Reading {
    if es == [] then Reading(true, NUL, NUL)
    else ReadOne(bus, ReadChain(bus, Init(es)), Last(es))
  }

  // ---- the loops over the text ------------------------------------------------------

  /** The loop of the protocol reader: a seven-byte buffer, and nothing for a
      command that does not fit it. */
  method ReadCmdProto(cmd: string) returns (p: char)
    ensures p == CmdProto(cmd)
  {
    var c := "";
    var i := 0;
    while i < |cmd|
      invariant 0 <= i <= |cmd| && c == Norm(cmd[..i]) && |c| <= 6
    {
      Grow(cmd, i);
      NormSnoc(cmd[..i], cmd[i]);
      if !IsBlank(cmd[i]) {
        if |c| >= 6 {
          NormGrows(cmd, i + 1);
          return NUL;
        }
        c := c + [Upper(cmd[i])];
      }
      i := i + 1;
    }
    Whole(cmd);
    var n := |c|;
    if (n != 5 && n != 6) || c[0] != 'A' || c[1] != 'T' || (c[2] != 'S' && c[2] != 'T') || c[3] != 'P' {
      return NUL;
    }
    p := c[n - 1];
    if n == 6 && c[4] != 'A' && !(c[4] == '0' && p == '0') {
      return NUL;
    }
    if !ProtoDigit(p) {
      return NUL;
    }
  }

  method ReadCmdResets(cmd: string) returns (b: bool)
    ensures b == Resets(cmd)
  {
    var body := ElementBody(cmd, 5);
    b := body == Some("ATZ") || body == Some("ATD") || body == Some("ATWS");
  }

  method JudgeOne(bus: Bus, was: Reading, element: string) returns (r: Reading)
    ensures r == ReadOne(bus, was, element)
  {
    r := was;
    var proto := ReadCmdProto(element);
    var resets := ReadCmdResets(element);
    if resets {
      r := r.(last := NUL);
    }
    if proto != NUL {
      r := r.(last := proto);
      if r.ok && Decide(bus, proto, true) != Allow {
        r := r.(ok := false, refused := proto);
      }
    }
  }

  /** Where the element that starts at p ends. */
  method ElementEnd(chain: string, p: nat) returns (e: nat)
    requires p < |chain|
    ensures p <= e <= |chain|
    ensures Split(chain[p..]) == if e < |chain| then [chain[p..e]] + Split(chain[e + 1..]) else [chain[p..e]]
  {
    e := p;
    ghost var rest := chain[p..];
    while e < |chain| && chain[e] != ';'
      invariant p <= e <= |chain|
      invariant forall i :: 0 <= i < e - p ==> rest[i] != ';'
    {
      e := e + 1;
    }
    SplitAt(rest, e - p);
    assert rest[..e - p] == chain[p..e];
    if e < |chain| {
      assert rest[e - p + 1..] == chain[e + 1..];
    } else {
      assert rest == chain[p..e];
    }
  }

  /** The loop over a chain's elements. */
  method ChainAllowed(bus: Bus, chain: string) returns (r: Reading)
    ensures r == ReadChain(bus, Split(chain))
  {
    r := Reading(true, NUL, NUL);
    ghost var seen: seq<string> := [];
    var p := 0;
    Whole(chain);
    while p < |chain|
      invariant 0 <= p <= |chain|
      invariant seen + Split(chain[p..]) == Split(chain)
      invariant r == ReadChain(bus, seen)
    {
      var e := ElementEnd(chain, p);
      ghost var element := chain[p..e];
      r := JudgeOne(bus, r, chain[p..e]);
      SnocInit(seen, element);
      if e == |chain| {
        return;
      }
      Assoc(seen, [element], Split(chain[e + 1..]));
      seen := seen + [element];
      p := e + 1;
    }
    assert chain[p..] == "";
    SnocInit(seen, "");
    assert Norm("") == "";
  }

  // ---- what the reading means ---------------------------------------------------------

  /** Every protocol of the chain counts, not only the one it ends on. */
  lemma {:induction false} ReadingMeans(bus: Bus, es: seq<string>)
    ensures var r := ReadChain(bus, es);
      && (r.ok <==> forall e <- es :: CmdProto(e) == NUL || Allowed(bus, CmdProto(e)))
      && (r.ok ==> r.refused == NUL)
      && (!r.ok ==> !Allowed(bus, r.refused) && exists e <- es :: CmdProto(e) == r.refused)
      && (r.ok && r.last != NUL ==> Allowed(bus, r.last))
  {
    if es != [] {
      ReadingMeans(bus, Init(es));
      assert es == Init(es) + [Last(es)];
      assert Last(es) in es;
      if exists e <- Init(es) :: CmdProto(e) == ReadChain(bus, Init(es)).refused {
        var e :| e in Init(es) && CmdProto(e) == ReadChain(bus, Init(es)).refused;
        assert e in es;
      }
    }
  }

  /** Refusing does not depend on who pinned the protocol: a search verdict is a
      refusal with a way out. */
  lemma SearchIsRefusal(bus: Bus, proto: char)
    ensures Decide(bus, proto, false) == Allow <==> Allowed(bus, proto)
    ensures Decide(bus, proto, false) == Search ==> bus.Live? && !IsSearch(proto) && Allowed(bus, '0')
    ensures Decide(bus, proto, true) != Search
  {
  }

  /** The protocol a chain leaves the chip on, as the guard reads it: on any bus. */
  function LastOf(es: seq<string>): char {
    ReadChain(Unknown, es).last
  }

  lemma {:induction false} LastIsBusFree(bus: Bus, es: seq<string>)
    ensures ReadChain(bus, es).last == LastOf(es)
    ensures LastOf(es) == NUL || ProtoDigit(LastOf(es))
  {
    if es != [] {
      LastIsBusFree(bus, Init(es));
    }
  }
}
