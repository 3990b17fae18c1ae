/** The poll scheduler: earliest due first, least recently run on a tie, with group
    overrides and backoff; and what that means for every row over whole runs. */
module Scheduler {

  datatype Class = Chip | Passive | BusTx

  datatype Pid = Pid(typ: nat, group: int, periodMs: nat, enabled: bool, rowClass: Class)
  datatype Filter = Filter(group: int, periodMs: nat, enabled: bool)
  datatype Group = Group(periodMs: nat, enabledDefault: bool)

  /** The tables as loaded: entries are the PIDs, then the filters. */
  datatype Config = Config(pids: seq<Pid>, filters: seq<Filter>, groups: seq<Group>)

  datatype Slot = Slot(due: int, lastRun: int, failStreak: nat)

  /** A group's override is in force when it is not negative. */
  datatype State = State(slots: seq<Slot>, groupEnabled: seq<bool>, overrides: seq<int>, typeEnabled: seq<bool>)

  const TYPES: nat := 3
  const STAGGER_US: int := 10000
  const BACKOFF_STREAK: nat := 3
  const BACKOFF_MULT: nat := 4
  const PASSIVE_FLOOR_MS: nat := 20
  const BUS_TX_FLOOR_MS: nat := 1000
  const STREAK_MAX: nat := 0xFFFF

  predicate LegalConfig(cfg: Config) {
    forall i :: 0 <= i < |cfg.pids| ==> cfg.pids[i].typ < TYPES
  }

  function Entries(cfg: Config): nat {
    |cfg.pids| + |cfg.filters|
  }

  predicate Matches(st: State, cfg: Config) {
    && |st.slots| == Entries(cfg) && |st.groupEnabled| == |cfg.groups| && |st.overrides| == |cfg.groups|
    && |st.typeEnabled| == TYPES && LegalConfig(cfg)
  }

  function GroupOf(cfg: Config, i: nat): int
    requires i < Entries(cfg)
  {
    if i < |cfg.pids| then cfg.pids[i].group else cfg.filters[i - |cfg.pids|].group
  }

  function OwnPeriod(cfg: Config, i: nat): nat
    requires i < Entries(cfg)
  {
    if i < |cfg.pids| then cfg.pids[i].periodMs else cfg.filters[i - |cfg.pids|].periodMs
  }

  predicate SelfEnabled(cfg: Config, i: nat)
    requires i < Entries(cfg)
  {
    if i < |cfg.pids| then cfg.pids[i].enabled else cfg.filters[i - |cfg.pids|].enabled
  }

  function ClassOf(cfg: Config, i: nat): Class
    requires i < Entries(cfg)
  {
    if i < |cfg.pids| then cfg.pids[i].rowClass else Chip
  }

  predicate InGroup(cfg: Config, g: int) {
    0 <= g < |cfg.groups|
  }

  predicate EntryEnabled(st: State, cfg: Config, i: nat)
    requires Matches(st, cfg) && i < Entries(cfg)
  {
    var g := GroupOf(cfg, i);
    && SelfEnabled(cfg, i) && InGroup(cfg, g) && st.groupEnabled[g]
    && (i < |cfg.pids| ==> st.typeEnabled[cfg.pids[i].typ])
  }

  /** The period before backoff and floors: a group's override retargets all its
      rows, a row without one of its own inherits the group's. */
  function BasePeriodMs(st: State, cfg: Config, i: nat): nat
    requires Matches(st, cfg) && i < Entries(cfg)
  {
    var g := GroupOf(cfg, i);
    if !InGroup(cfg, g) then OwnPeriod(cfg, i)
    else if st.overrides[g] >= 0 then st.overrides[g]
    else if OwnPeriod(cfg, i) == 0 then cfg.groups[g].periodMs
    else OwnPeriod(cfg, i)
  }

  function BackedOffMs(base: nat, streak: nat): nat {
    if streak >= BACKOFF_STREAK then (if base == 0 then 1000 else base) * BACKOFF_MULT else base
  }

  function FlooredMs(ms: nat, rowClass: Class): nat {
    if rowClass == BusTx && ms < BUS_TX_FLOOR_MS then BUS_TX_FLOOR_MS
    else if ms == 0 && rowClass != Chip then PASSIVE_FLOOR_MS
    else ms
  }

  function PeriodUs(st: State, cfg: Config, i: nat): nat
    requires Matches(st, cfg) && i < Entries(cfg)
  {
    FlooredMs(BackedOffMs(BasePeriodMs(st, cfg, i), st.slots[i].failStreak), ClassOf(cfg, i)) * 1000
  }

  predicate Polled(st: State, cfg: Config, classes: set<Class>, i: nat)
    requires Matches(st, cfg)
  {
    i < Entries(cfg) && EntryEnabled(st, cfg, i) && ClassOf(cfg, i) in classes
  }

  /** Slot a goes before slot b. */
  predicate Sooner(a: Slot, b: Slot) {
    a.due < b.due || (a.due == b.due && a.lastRun < b.lastRun)
  }

  /** The entry to run next: the first polled one no other goes before. */
  ghost predicate IsNext(st: State, cfg: Config, classes: set<Class>, best: int)
    requires Matches(st, cfg)
  {
    if best == -1 then forall i: nat :: i < Entries(cfg) ==> !Polled(st, cfg, classes, i)
    else
      && 0 <= best && Polled(st, cfg, classes, best)
      && forall i: nat :: i < Entries(cfg) && Polled(st, cfg, classes, i) ==>
           !Sooner(st.slots[i], st.slots[best]) && (i < best ==> Sooner(st.slots[best], st.slots[i]))
  }

  /** The search over the first n entries. */
  function Scan(st: State, cfg: Config, classes: set<Class>, n: nat): (best: int)
    requires Matches(st, cfg) && n <= Entries(cfg)
    ensures -1 <= best < n
  {
    if n == 0 then -1
    else
      var before := Scan(st, cfg, classes, n - 1);
      if Polled(st, cfg, classes, n - 1) && (before == -1 || Sooner(st.slots[n - 1], st.slots[before])) then n - 1
      else before
  }

  function Next(st: State, cfg: Config, classes: set<Class>): (best: int)
    requires Matches(st, cfg)
    ensures -1 <= best < Entries(cfg)
  {
    Scan(st, cfg, classes, Entries(cfg))
  }

  lemma {:induction false} ScanFinds(st: State, cfg: Config, classes: set<Class>, n: nat)
    requires Matches(st, cfg) && n <= Entries(cfg)
    ensures var best := Scan(st, cfg, classes, n);
      if best == -1 then forall i: nat :: i < n ==> !Polled(st, cfg, classes, i)
      else
        && Polled(st, cfg, classes, best)
        && forall i: nat :: i < n && Polled(st, cfg, classes, i) ==>
             !Sooner(st.slots[i], st.slots[best]) && (i < best ==> Sooner(st.slots[best], st.slots[i]))
  {
    hide Polled;
    if n > 0 {
      ScanFinds(st, cfg, classes, n - 1);
    }
  }

  /** The search finds the first polled entry that no other goes before. */
  lemma NextIsNext(st: State, cfg: Config, classes: set<Class>)
    requires Matches(st, cfg)
    ensures IsNext(st, cfg, classes, Next(st, cfg, classes))
  {
    ScanFinds(st, cfg, classes, Entries(cfg));
  }

  function Ran(st: State, cfg: Config, i: nat, now: int, ok: bool): State
    requires Matches(st, cfg) && i < Entries(cfg)
  {
    var streak := if ok then 0 else if st.slots[i].failStreak < STREAK_MAX then st.slots[i].failStreak + 1
                  else st.slots[i].failStreak;
    var st1 := st.(slots := st.slots[i := Slot(st.slots[i].due, now, streak)]);
    st1.(slots := st1.slots[i := Slot(now + PeriodUs(st1, cfg, i), now, streak)])
  }

  function GroupSet(st: State, g: nat, enabled: bool, overrideMs: int): State
    requires g < |st.groupEnabled| && g < |st.overrides|
  {
    st.(groupEnabled := st.groupEnabled[g := enabled],
        overrides := if overrideMs >= 0 then st.overrides[g := overrideMs] else st.overrides)
  }

  function GroupRestore(st: State, cfg: Config, g: nat): State
    requires Matches(st, cfg) && g < |cfg.groups|
  {
    st.(groupEnabled := st.groupEnabled[g := cfg.groups[g].enabledDefault], overrides := st.overrides[g := -1])
  }

  // ---- the scheduler in place ------------------------------------------------------------

  class Sched {
    const slots: array<Slot>
    const groupEnabled: array<bool>
    const overrides: array<int>
    const typeEnabled: array<bool>

    ghost const Repr: set<object> := {slots, groupEnabled, overrides, typeEnabled}

    ghost function St(): State
      reads Repr
    {
      State(slots[..], groupEnabled[..], overrides[..], typeEnabled[..])
    }

    ghost predicate Valid(cfg: Config)
      reads Repr
    {
      Matches(St(), cfg) && groupEnabled != typeEnabled
    }

    constructor (cfg: Config, types: seq<bool>, now: int)
      requires LegalConfig(cfg) && |types| == TYPES
      ensures Valid(cfg) && fresh(Repr) && St().typeEnabled == types
      ensures forall i :: 0 <= i < Entries(cfg) ==> slots[i] == Slot(now + i * STAGGER_US, 0, 0)
      ensures forall g :: 0 <= g < |cfg.groups| ==>
        groupEnabled[g] == cfg.groups[g].enabledDefault && overrides[g] == -1
    {
      slots := new Slot[Entries(cfg)](_ => Slot(0, 0, 0));
      groupEnabled := new bool[|cfg.groups|](_ => false);
      overrides := new int[|cfg.groups|](_ => -1);
      typeEnabled := new bool[TYPES](i requires 0 <= i < |types| => types[i]);
      new;
      assert typeEnabled[..] == types;
      Reset(cfg, now);
    }

    /** A table was loaded: first polls staggered, groups at their defaults. */
    method Reset(cfg: Config, now: int)
      requires Valid(cfg)
      modifies slots, groupEnabled, overrides
      ensures Valid(cfg) && St().typeEnabled == old(St().typeEnabled)
      ensures forall i :: 0 <= i < Entries(cfg) ==> slots[i] == Slot(now + i * STAGGER_US, 0, 0)
      ensures forall g :: 0 <= g < |cfg.groups| ==>
        groupEnabled[g] == cfg.groups[g].enabledDefault && overrides[g] == -1
    {
      for i := 0 to slots.Length
        invariant forall k :: 0 <= k < i ==> slots[k] == Slot(now + k * STAGGER_US, 0, 0)
      {
        slots[i] := Slot(now + i * STAGGER_US, 0, 0);
      }
      ghost var types := typeEnabled[..];
      for g := 0 to groupEnabled.Length
        invariant forall k :: 0 <= k < g ==> groupEnabled[k] == cfg.groups[k].enabledDefault && overrides[k] == -1
        invariant typeEnabled[..] == types
        invariant forall k :: 0 <= k < slots.Length ==> slots[k] == Slot(now + k * STAGGER_US, 0, 0)
      {
        groupEnabled[g] := cfg.groups[g].enabledDefault;
        overrides[g] := -1;
      }
    }

    method Period(cfg: Config, i: nat) returns (us: nat)
      requires Valid(cfg) && i < Entries(cfg)
      ensures us == PeriodUs(St(), cfg, i)
    {
      var g := GroupOf(cfg, i);
      var ms := OwnPeriod(cfg, i);
      if ms == 0 {
        if InGroup(cfg, g) {
          ms := if overrides[g] >= 0 then overrides[g] else cfg.groups[g].periodMs;
        }
      } else if InGroup(cfg, g) && overrides[g] >= 0 {
        ms := overrides[g];
      }
      if slots[i].failStreak >= BACKOFF_STREAK {
        var backed := if ms == 0 then 1000 else ms;
        ms := backed * BACKOFF_MULT;
      }
      var rowClass := ClassOf(cfg, i);
      if rowClass == BusTx && ms < BUS_TX_FLOOR_MS {
        ms := BUS_TX_FLOOR_MS;
      } else if ms == 0 && rowClass != Chip {
        ms := PASSIVE_FLOOR_MS;
      }
      us := ms * 1000;
    }

    method Enabled(cfg: Config, i: nat) returns (on: bool)
      requires Valid(cfg) && i < Entries(cfg)
      ensures on == EntryEnabled(St(), cfg, i)
    {
      if !SelfEnabled(cfg, i) {
        return false;
      }
      var g := GroupOf(cfg, i);
      if g < 0 || g >= |cfg.groups| || !groupEnabled[g] {
        return false;
      }
      if i < |cfg.pids| && !typeEnabled[cfg.pids[i].typ] {
        return false;
      }
      on := true;
    }

    /** The search loop. */
    method NextOf(cfg: Config, classes: set<Class>) returns (best: int)
      requires Valid(cfg)
      ensures best == Next(St(), cfg, classes)
    {
      hide EntryEnabled;
      best := -1;
      ghost var st := St();
      var i := 0;
      while i < slots.Length
        invariant 0 <= i <= slots.Length && best == Scan(st, cfg, classes, i)
      {
        var on := Enabled(cfg, i);
        if on && ClassOf(cfg, i) in classes {
          if best < 0 || slots[i].due < slots[best].due
             || (slots[i].due == slots[best].due && slots[i].lastRun < slots[best].lastRun) {
            best := i;
          }
        }
        i := i + 1;
      }
    }

    method Done(cfg: Config, i: nat, now: int, ok: bool)
      requires Valid(cfg) && i < Entries(cfg)
      modifies slots
      ensures Valid(cfg) && St() == Ran(old(St()), cfg, i, now, ok)
    {
      hide PeriodUs;
      var s := slots[i];
      var streak := s.failStreak;
      if ok {
        streak := 0;
      } else if streak < STREAK_MAX {
        streak := streak + 1;
      }
      slots[i] := Slot(s.due, now, streak);
      ghost var st1 := old(St()).(slots := old(St()).slots[i := slots[i]]);
      assert St() == st1;
      var period := Period(cfg, i);
      slots[i] := Slot(now + period, now, streak);
      assert slots[..] == st1.slots[i := slots[i]];
    }

    method SetGroup(cfg: Config, g: nat, enabled: bool, overrideMs: int)
      requires Valid(cfg) && g < |cfg.groups|
      modifies groupEnabled, overrides
      ensures Valid(cfg) && St() == GroupSet(old(St()), g, enabled, overrideMs)
    {
      ghost var types := typeEnabled[..];
      groupEnabled[g] := enabled;
      assert groupEnabled[..] == old(groupEnabled[..])[g := enabled];
      if overrideMs >= 0 {
        overrides[g] := overrideMs;
        assert overrides[..] == old(overrides[..])[g := overrideMs];
      }
      assert typeEnabled[..] == types;
    }

    method RestoreGroup(cfg: Config, g: nat)
      requires Valid(cfg) && g < |cfg.groups|
      modifies groupEnabled, overrides
      ensures Valid(cfg) && St() == GroupRestore(old(St()), cfg, g)
    {
      ghost var types := typeEnabled[..];
      groupEnabled[g] := cfg.groups[g].enabledDefault;
      assert groupEnabled[..] == old(groupEnabled[..])[g := cfg.groups[g].enabledDefault];
      overrides[g] := -1;
      assert overrides[..] == old(overrides[..])[g := -1];
      assert typeEnabled[..] == types;
    }
  }
}
