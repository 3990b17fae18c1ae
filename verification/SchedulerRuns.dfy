/** Fairness and pacing of the scheduler over whole runs of poll passes, with groups
    and types switched between them. */
module SchedulerRuns {
  import opened Seqs
  import opened Scheduler

  /** A pass looks at the clock, and when its entry is due runs it until later. */
  datatype Event =
    | Pass(classes: set<Class>, now: int, later: int, ok: bool)
    | Group(g: nat, enabled: bool, overrideMs: int)
    | Restored(g: nat)
    | Types(types: seq<bool>)

  datatype Run = Run(entry: nat, start: int, end: int)

  datatype World = World(st: State, clock: int, log: seq<Run>)

  /** The clock strictly advances; groups exist. */
  predicate Legal(w: World, cfg: Config, e: Event) {
    match e
    case Pass(_, now, later, _) => w.clock < now < later
    case Group(g, _, _) => g < |cfg.groups|
    case Restored(g) => g < |cfg.groups|
    case Types(types) => |types| == TYPES
  }

  function Step(w: World, cfg: Config, e: Event): (v: World)
    requires Matches(w.st, cfg) && Legal(w, cfg, e)
    ensures Matches(v.st, cfg) && w.clock <= v.clock && w.log <= v.log
  {
    match e
    case Pass(classes, now, later, ok) =>
      var best := Next(w.st, cfg, classes);
      if best >= 0 && w.st.slots[best].due <= now then
        World(Ran(w.st, cfg, best, later, ok), later, w.log + [Run(best, now, later)])
      else w.(clock := now)
    case Group(g, enabled, overrideMs) => w.(st := GroupSet(w.st, g, enabled, overrideMs))
    case Restored(g) => w.(st := GroupRestore(w.st, cfg, g))
    case Types(types) => w.(st := w.st.(typeEnabled := types))
  }

  ghost predicate LegalRun(w: World, cfg: Config, es: seq<Event>)
    requires Matches(w.st, cfg)
    decreases es, 0
  {
    es == [] || (LegalRun(w, cfg, Init(es)) && Legal(After(w, cfg, Init(es)), cfg, Last(es)))
  }

  ghost function After(w: World, cfg: Config, es: seq<Event>): (v: World)
    requires Matches(w.st, cfg) && LegalRun(w, cfg, es)
    ensures Matches(v.st, cfg) && w.log <= v.log
    decreases es, 1
  {
    if es == [] then w else Step(After(w, cfg, Init(es)), cfg, Last(es))
  }

  /** In every pass of the run entry x is enabled and in the polled classes. */
  ghost predicate StaysPolled(w: World, cfg: Config, es: seq<Event>, x: nat)
    requires Matches(w.st, cfg) && LegalRun(w, cfg, es)
    decreases es
  {
    es == [] || (StaysPolled(w, cfg, Init(es), x)
                 && (Last(es).Pass? ==> Polled(After(w, cfg, Init(es)).st, cfg, Last(es).classes, x)))
  }

  function Passes(es: seq<Event>): nat {
    if es == [] then 0 else Passes(Init(es)) + if Last(es).Pass? then 1 else 0
  }

  /** What ran since. */
  ghost function Since(w: World, v: World): seq<Run>
    requires w.log <= v.log
  {
    v.log[|w.log|..]
  }

  predicate RanIn(log: seq<Run>, x: nat) {
    exists k :: 0 <= k < |log| && log[k].entry == x
  }

  predicate Distinct(log: seq<Run>) {
    forall i, j :: 0 <= i < j < |log| ==> log[i].entry != log[j].entry
  }

  /** While x waits, due: it is as it was, nothing ran twice, and what ran is due later. */
  ghost predicate Waiting(w: World, v: World, x: nat, passes: nat)
    requires x < |w.st.slots| && |v.st.slots| == |w.st.slots| && w.log <= v.log
  {
    && v.st.slots[x] == w.st.slots[x] && v.st.slots[x].due <= v.clock
    && Distinct(Since(w, v)) && |Since(w, v)| == passes
    && forall k :: 0 <= k < |Since(w, v)| ==>
         Since(w, v)[k].entry < |v.st.slots| && v.st.slots[Since(w, v)[k].entry].due > v.st.slots[x].due
  }

  lemma RanSlots(st: State, cfg: Config, i: nat, now: int, ok: bool)
    requires Matches(st, cfg) && i < Entries(cfg)
    ensures var v := Ran(st, cfg, i, now, ok);
      && |v.slots| == |st.slots| && v.slots[i].due >= now
      && (ClassOf(cfg, i) == BusTx ==> v.slots[i].due >= now + BUS_TX_FLOOR_MS * 1000)
      && forall k :: 0 <= k < |st.slots| && k != i ==> v.slots[k] == st.slots[k]
  {
    hide BasePeriodMs, BackedOffMs;
  }

  lemma SinceSnoc(w: World, v: World, u: World, r: Run)
    requires w.log <= v.log && u.log == v.log + [r]
    ensures Since(w, u) == Since(w, v) + [r]
  {
  }

  lemma PassWaits(w: World, v: World, cfg: Config, e: Event, x: nat, passes: nat)
    requires Matches(w.st, cfg) && Matches(v.st, cfg) && w.log <= v.log
    requires Legal(v, cfg, e) && e.Pass? && Polled(v.st, cfg, e.classes, x)
    requires x < Entries(cfg) && Waiting(w, v, x, passes)
    ensures var u := Step(v, cfg, e);
      RanIn(Since(w, u), x) || Waiting(w, u, x, passes + 1)
  {
    hide Polled, Ran, Next;
    NextIsNext(v.st, cfg, e.classes);
    var best := Next(v.st, cfg, e.classes);
    assert best >= 0 && !Sooner(v.st.slots[x], v.st.slots[best]);
    var u := Step(v, cfg, e);
    RanSlots(v.st, cfg, best, e.later, e.ok);
    SinceSnoc(w, v, u, Run(best, e.now, e.later));
    var log := Since(w, v);
    if best == x {
      assert Since(w, u)[|log|].entry == x;
    } else {
      forall k | 0 <= k < |log|
        ensures log[k].entry != best
      {
      }
    }
  }

  lemma OtherWaits(w: World, v: World, cfg: Config, e: Event, x: nat, passes: nat)
    requires Matches(w.st, cfg) && Matches(v.st, cfg) && w.log <= v.log && x < Entries(cfg)
    requires Legal(v, cfg, e) && !e.Pass? && Waiting(w, v, x, passes)
    ensures Waiting(w, Step(v, cfg, e), x, passes)
  {
  }

  lemma RanInMore(a: seq<Run>, b: seq<Run>, x: nat)
    requires RanIn(a, x) && a <= b
    ensures RanIn(b, x)
  {
    var k :| 0 <= k < |a| && a[k].entry == x;
    assert b[k].entry == x;
  }

  /** Until x has run, every pass runs something, and nothing twice. */
  lemma {:induction false} NobodyTwice(w: World, cfg: Config, es: seq<Event>, x: nat)
    requires Matches(w.st, cfg) && LegalRun(w, cfg, es) && StaysPolled(w, cfg, es, x)
    requires x < Entries(cfg) && w.st.slots[x].due <= w.clock
    ensures var v := After(w, cfg, es);
      RanIn(Since(w, v), x) || Waiting(w, v, x, Passes(es))
  {
    if es != [] {
      NobodyTwice(w, cfg, Init(es), x);
      var v, u := After(w, cfg, Init(es)), After(w, cfg, es);
      if RanIn(Since(w, v), x) {
        assert Since(w, v) <= Since(w, u);
        RanInMore(Since(w, v), Since(w, u), x);
      } else if Last(es).Pass? {
        PassWaits(w, v, cfg, Last(es), x, Passes(Init(es)));
      } else {
        OtherWaits(w, v, cfg, Last(es), x, Passes(Init(es)));
      }
    }
  }

  /** Distinct entries below n are at most n. */
  lemma {:induction false} Pigeonhole(log: seq<Run>, n: nat, x: nat)
    requires Distinct(log) && x < n && !RanIn(log, x) && forall k :: 0 <= k < |log| ==> log[k].entry < n
    ensures |log| < n
  {
    var others := Below(n) - {x};
    BelowIs(n, x);
    EntriesCount(log);
    forall i <- EntriesOf(log)
      ensures i in others
    {
      BelowIs(n, i);
    }
    Subset(EntriesOf(log), others);
  }

  function EntriesOf(log: seq<Run>): set<int> {
    set k | 0 <= k < |log| :: log[k].entry
  }

  lemma {:induction false} EntriesCount(log: seq<Run>)
    requires Distinct(log)
    ensures |EntriesOf(log)| == |log|
  {
    if log != [] {
      EntriesCount(Init(log));
      assert EntriesOf(log) == EntriesOf(Init(log)) + {Last(log).entry};
    }
  }

  function Below(n: nat): set<int> {
    if n == 0 then {} else Below(n - 1) + {n - 1}
  }

  lemma {:induction false} BelowIs(n: nat, x: int)
    ensures x in Below(n) <==> 0 <= x < n
    ensures |Below(n)| == n
  {
    if n > 0 {
      BelowIs(n - 1, x);
      BelowIs(n - 1, n - 1);
    }
  }

  lemma Subset(a: set<int>, b: set<int>)
    requires a <= b
    ensures |a| <= |b|
  {
    assert b == a + (b - a);
  }

  /** Fairness: a due entry that stays enabled and in the polled classes runs before
      any other runs twice, and within as many passes as there are entries. */
  lemma DueEntryRuns(w: World, cfg: Config, es: seq<Event>, x: nat)
    requires Matches(w.st, cfg) && LegalRun(w, cfg, es) && StaysPolled(w, cfg, es, x)
    requires x < Entries(cfg) && w.st.slots[x].due <= w.clock
    ensures var log := Since(w, After(w, cfg, es));
      && (!RanIn(log, x) ==> Distinct(log) && |log| == Passes(es))
      && (Passes(es) >= Entries(cfg) ==> RanIn(log, x))
  {
    NobodyTwice(w, cfg, es, x);
    var log := Since(w, After(w, cfg, es));
    if !RanIn(log, x) {
      Pigeonhole(log, Entries(cfg), x);
    }
  }

  // ---- pacing ----------------------------------------------------------------------------

  /** A row that asks the network is due a second after each of its runs. */
  ghost predicate Paced(v: World, cfg: Config, n: nat)
    requires Matches(v.st, cfg) && n <= |v.log|
  {
    && (forall k :: n <= k < |v.log| ==> v.log[k].entry < Entries(cfg) && v.log[k].end <= v.clock)
    && (forall k :: n <= k < |v.log| && ClassOf(cfg, v.log[k].entry) == BusTx ==>
          v.st.slots[v.log[k].entry].due >= v.log[k].end + BUS_TX_FLOOR_MS * 1000)
    && (forall j, k :: n <= j < k < |v.log| && v.log[j].entry == v.log[k].entry
                       && ClassOf(cfg, v.log[k].entry) == BusTx ==>
          v.log[k].start >= v.log[j].end + BUS_TX_FLOOR_MS * 1000)
  }

  lemma StepPaced(v: World, cfg: Config, e: Event, n: nat)
    requires Matches(v.st, cfg) && Legal(v, cfg, e) && n <= |v.log| && Paced(v, cfg, n)
    ensures Paced(Step(v, cfg, e), cfg, n)
  {
    hide Ran, Next;
    if e.Pass? {
      var best := Next(v.st, cfg, e.classes);
      if best >= 0 && v.st.slots[best].due <= e.now {
        RanSlots(v.st, cfg, best, e.later, e.ok);
        var u := Step(v, cfg, e);
        assert u.log[|v.log|] == Run(best, e.now, e.later);
        assert forall k :: n <= k < |v.log| ==> u.log[k] == v.log[k];
      }
    }
  }

  /** Two runs of a row that asks the network are never less than a second apart,
      whatever the groups' periods, overrides and the backoff. */
  lemma {:induction false} AskingIsPaced(w: World, cfg: Config, es: seq<Event>)
    requires Matches(w.st, cfg) && LegalRun(w, cfg, es)
    ensures var v := After(w, cfg, es);
      forall j, k :: |w.log| <= j < k < |v.log| && v.log[j].entry == v.log[k].entry
                     && v.log[k].entry < Entries(cfg) && ClassOf(cfg, v.log[k].entry) == BusTx ==>
        v.log[k].start >= v.log[j].end + 1_000_000
  {
    AllPaced(w, cfg, es);
  }

  lemma {:induction false} AllPaced(w: World, cfg: Config, es: seq<Event>)
    requires Matches(w.st, cfg) && LegalRun(w, cfg, es)
    ensures Paced(After(w, cfg, es), cfg, |w.log|)
  {
    hide Paced, Step, Legal;
    if es == [] {
      NothingPaced(w, cfg);
    } else {
      AllPaced(w, cfg, Init(es));
      StepPaced(After(w, cfg, Init(es)), cfg, Last(es), |w.log|);
    }
  }

  lemma NothingPaced(w: World, cfg: Config)
    requires Matches(w.st, cfg)
    ensures Paced(w, cfg, |w.log|)
  {
  }
}
