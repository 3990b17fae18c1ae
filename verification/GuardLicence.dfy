/** A verdict licenses one protocol: over every run of guard calls, car
    activations and preludes, in any order. */
module GuardLicence {
  import opened Seqs
  import opened BusGuard
  import opened Discipline

  /** The atomic steps of the poller, the jobs, a contact probe and the store. */
  datatype Call =
    | Poll(look: Bus, looks: seq<Bus>)
    | Answered
    | Job(probe: bool, look: Bus, looks: seq<Bus>)
    | Candidate(p: char, look: Bus, looks: seq<Bus>)
    | Switch(stored: char, typeInits: seq<string>)
    | Baseline
    | PutBack

  function Do(w: World, c: Call): World {
    match c
    case Poll(look, looks) => PollOk(w, look, looks).0
    case Answered => Proven(w)
    case Job(probe, look, looks) => JobOk(w, probe, look, looks).0
    case Candidate(p, look, looks) => CandidateOk(w, p, look, looks).0
    case Switch(stored, inits) => Activate(w, stored, inits)
    case Baseline => SendBaseline(w).0
    case PutBack => Restore(w).0
  }

  function After(w: World, cs: seq<Call>): World {
    if cs == [] then w else Do(After(w, Init(cs)), Last(cs))
  }

  /** The call, made in w, says yes, and to that protocol. */
  predicate Grants(w: World, c: Call, p: char) {
    match c
    case Poll(look, looks) => PollOk(w, look, looks).1 && Effective(Do(w, c).car) == p
    case Job(probe, look, looks) => JobOk(w, probe, look, looks).1 && Effective(Do(w, c).car) == p
    case Candidate(q, look, looks) => CandidateOk(w, q, look, looks).1 && q == p
    case _ => false
  }

  /** The i-th call of the run granted p, and no car was made current since. */
  ghost predicate GrantedAt(w: World, cs: seq<Call>, p: char, i: nat) {
    && i < |cs|
    && Grants(After(w, cs[..i]), cs[i], p)
    && forall j :: i < j < |cs| ==> !cs[j].Switch?
  }

  lemma SendKeepsGuard(w: World, es: seq<string>)
    ensures SendAll(w, es).guard == w.guard
    decreases es
  {
    if es != [] {
      SendKeepsGuard(Send(w, es[0]), es[1..]);
    }
  }

  lemma PreludesKeepGuard(w: World)
    ensures SendBaseline(w).0.guard == w.guard && Restore(w).0.guard == w.guard
  {
    var p := Effective(w.car);
    SendKeepsGuard(w, Chip.Prelude(p));
    SendKeepsGuard(w, ChainText.RestoreElements(w.mem.moved, Chip.Prelude(p)));
  }

  /** One call: a permission it leaves was granted by it or stood before. */
  lemma OneCall(w: World, c: Call)
    ensures var p := Do(w, c).guard.okProto;
      p == NUL || Grants(w, c, p) || (!c.Switch? && w.guard.okProto == p)
  {
    hide SendBaseline, Restore, DecideNow, Allowed, SettleOwnEcho, Effective;
    PreludesKeepGuard(w);
  }

  lemma JustGranted(w: World, cs: seq<Call>, c: Call, p: char)
    requires Grants(After(w, cs), c, p)
    ensures GrantedAt(w, cs + [c], p, |cs|)
  {
    SnocInit(cs, c);
  }

  lemma StillGranted(w: World, cs: seq<Call>, c: Call, p: char, i: nat)
    requires GrantedAt(w, cs, p, i) && !c.Switch?
    ensures GrantedAt(w, cs + [c], p, i)
  {
    assert (cs + [c])[..i] == cs[..i];
  }

  /** What a prelude may pin was granted, by a call for that very protocol, after
      the last switch. */
  lemma {:induction false} PermissionWasGranted(w: World, cs: seq<Call>)
    requires w.guard.okProto == NUL && After(w, cs).guard.okProto != NUL
    ensures exists i :: GrantedAt(w, cs, After(w, cs).guard.okProto, i)
  {
    if cs != [] {
      var c, earlier := Last(cs), Init(cs);
      var p := After(w, cs).guard.okProto;
      assert cs == earlier + [c];
      OneCall(After(w, earlier), c);
      if Grants(After(w, earlier), c, p) {
        JustGranted(w, earlier, c, p);
      } else {
        PermissionWasGranted(w, earlier);
        var i :| GrantedAt(w, earlier, p, i);
        StillGranted(w, earlier, c, p, i);
      }
    }
  }

  /** Every prelude sent for a protocol the guard judges, as the baseline or its
      restore, was preceded by a granting call for that same protocol, with no
      switch between; activations may come anywhere. */
  lemma PreludeWasLicensed(w: World, cs: seq<Call>)
    requires w.guard.okProto == NUL
    requires var now := After(w, cs); SendBaseline(now).1 || Restore(now).1
    ensures var p := Effective(After(w, cs).car);
      Unjudged(p) || exists i :: GrantedAt(w, cs, p, i)
  {
    var now := After(w, cs);
    if !Unjudged(Effective(now.car)) {
      PermissionWasGranted(w, cs);
    }
  }

  /** After a switch no judged protocol is pinned until a call grants it. */
  lemma NothingPinnedAfterSwitch(w: World, before: seq<Call>, stored: char, inits: seq<string>,
                                                    since: seq<Call>, p: char)
    requires w.guard.okProto == NUL && !Unjudged(p)
    requires forall i :: 0 <= i < |since| ==>
      !Grants(After(w, before + [Switch(stored, inits)] + since[..i]), since[i], p)
    ensures !PinOk(After(w, before + [Switch(stored, inits)] + since), p)
  {
    var cs := before + [Switch(stored, inits)] + since;
    if PinOk(After(w, cs), p) {
      PermissionWasGranted(w, cs);
      var i :| GrantedAt(w, cs, p, i);
      GrantIsLate(w, before, Switch(stored, inits), since, p, i);
    }
  }

  lemma GrantIsLate(w: World, before: seq<Call>, s: Call, since: seq<Call>, p: char, i: nat)
    requires s.Switch? && GrantedAt(w, before + [s] + since, p, i)
    ensures |before| < i <= |before| + |since|
    ensures Grants(After(w, before + [s] + since[..i - |before| - 1]), since[i - |before| - 1], p)
  {
    hide After;
    var cs := before + [s] + since;
    assert cs[|before|] == s;
    assert i != |before|;
    var k := i - |before| - 1;
    assert cs[..i] == before + [s] + since[..k];
    assert cs[i] == since[k];
  }
}
