/** The startup latch: N workers initialise, wait for each other, and only then bind their sockets.
    The workers run as interleaved steps; a step is what happens between two points where another
    thread may run. Spurious wakeups of the condition variable are steps of the environment. */
module StartupLatch {
  import opened Wire

  /** Where a worker is. `gen` is its copy of the generation it saw on entry. */
  datatype Pc =
    | Initialising
    | AtGate             // calls wait, needs the mutex
    | Inside(gen: int)   // holds the mutex, has read the generation
    | Checking(gen: int) // holds the mutex, about to test the predicate
    | Asleep(gen: int)   // in the condition variable, mutex given back
    | Woken(gen: int)    // notified or spuriously woken, needs the mutex again
    | Notifying          // holds the mutex, was the last to arrive
    | Returned           // wait has returned
    | Bound              // has bound its sockets

  datatype State = State(count: int, generation: int, owner: Option<nat>, pcs: seq<Pc>)

  function Init(n: nat): State {
    State(n, 0, None, seq(n, _ => Initialising))
  }

  predicate HoldsMutex(pc: Pc) {
    pc.Inside? || pc.Checking? || pc.Notifying?
  }

  /** A worker can take a step unless it sleeps, is done, or needs a mutex that is taken. */
  predicate Enabled(s: State, t: nat) {
    t < |s.pcs| &&
    match s.pcs[t]
    case AtGate => s.owner.None?
    case Woken(_) => s.owner.None?
    case Asleep(_) => false
    case Bound => false
    case _ => true
  }

  function WakeAll(pcs: seq<Pc>): (r: seq<Pc>)
    ensures |r| == |pcs|
  {
    seq(|pcs|, i requires 0 <= i < |pcs| => if pcs[i].Asleep? then Woken(pcs[i].gen) else pcs[i])
  }

  /** One step of worker t. */
  function Next(s: State, t: nat): (r: State)
    requires Enabled(s, t)
    ensures |r.pcs| == |s.pcs|
  {
    match s.pcs[t]
    case Initialising => s.(pcs := s.pcs[t := AtGate])
    case AtGate => s.(owner := Some(t), pcs := s.pcs[t := Inside(s.generation)])
    case Inside(gen) =>
      if s.count - 1 == 0
      then s.(count := 0, generation := s.generation + 1, pcs := s.pcs[t := Notifying])
      else s.(count := s.count - 1, pcs := s.pcs[t := Checking(gen)])
    case Notifying => s.(owner := None, pcs := WakeAll(s.pcs)[t := Returned])
    case Checking(gen) =>
      if gen != s.generation
      then s.(owner := None, pcs := s.pcs[t := Returned])
      else s.(owner := None, pcs := s.pcs[t := Asleep(gen)])
    case Woken(gen) => s.(owner := Some(t), pcs := s.pcs[t := Checking(gen)])
    case Returned => s.(pcs := s.pcs[t := Bound])
  }

  datatype Action = Advance(t: nat) | SpuriousWake(t: nat)

  predicate Possible(s: State, a: Action) {
    match a
    case Advance(t) => Enabled(s, t)
    case SpuriousWake(t) => t < |s.pcs| && s.pcs[t].Asleep?
  }

  /** A worker's step is possible exactly if it is enabled, a spurious wakeup exactly if it sleeps. */
  lemma PossibleExactly(s: State, t: nat)
    ensures Possible(s, Advance(t)) <==> Enabled(s, t)
    ensures Possible(s, SpuriousWake(t)) <==> t < |s.pcs| && s.pcs[t].Asleep?
  {}

  function Do(s: State, a: Action): (r: State)
    requires Possible(s, a)
    ensures |r.pcs| == |s.pcs|
  {
    match a
    case Advance(t) => Next(s, t)
    case SpuriousWake(t) => s.(pcs := s.pcs[t := Woken(s.pcs[t].gen)])
  }

  /** Where the schedule `run` of n workers ends, if each of its steps is possible. */
  function After(n: nat, run: seq<Action>): Option<State> {
    if run == [] then Some(Init(n))
    else
      var before := After(n, run[..|run| - 1]);
      if before.Some? && Possible(before.value, run[|run| - 1])
      then Some(Do(before.value, run[|run| - 1]))
      else None
  }

  /** A schedule cannot get past a step that is not possible. */
  lemma {:induction false} AfterPrefix(n: nat, run: seq<Action>, k: nat)
    requires k <= |run| && After(n, run).Some?
    ensures After(n, run[..k]).Some?
    decreases |run|
  {
    if k == |run| {
      assert run[..k] == run;
    } else {
      var most := run[..|run| - 1];
      AfterPrefix(n, most, k);
      assert most[..k] == run[..k];
    }
  }

  lemma AfterStep(n: nat, run: seq<Action>, k: nat)
    requires k < |run| && After(n, run[..k]).Some?
    ensures After(n, run[..k + 1]) ==
      if Possible(After(n, run[..k]).value, run[k]) then Some(Do(After(n, run[..k]).value, run[k])) else None
  {
    assert run[..k + 1][..k] == run[..k];
  }

  // --- The invariant --------------------------------------------------------------------------------

  predicate Arrived(pc: Pc) {
    !(pc.Initialising? || pc.AtGate? || pc.Inside?)
  }

  /** How many workers have not yet counted down. */
  function Missing(pcs: seq<Pc>): nat {
    if pcs == [] then 0
    else Missing(pcs[..|pcs| - 1]) + (if Arrived(pcs[|pcs| - 1]) then 0 else 1)
  }

  lemma {:induction false} MissingUpdate(pcs: seq<Pc>, t: nat, pc: Pc)
    requires t < |pcs|
    ensures Missing(pcs[t := pc]) ==
      Missing(pcs) + (if Arrived(pc) then 0 else 1) - (if Arrived(pcs[t]) then 0 else 1)
  {
    var last := |pcs| - 1;
    if t == last {
      assert pcs[t := pc][..last] == pcs[..last];
    } else {
      assert pcs[t := pc][..last] == pcs[..last][t := pc];
      MissingUpdate(pcs[..last], t, pc);
    }
  }

  lemma {:induction false} SameArrivals(a: seq<Pc>, b: seq<Pc>)
    requires |a| == |b| && forall i :: 0 <= i < |a| ==> Arrived(a[i]) == Arrived(b[i])
    ensures Missing(a) == Missing(b)
  {
    if a == [] {
    } else {
      SameArrivals(a[..|a| - 1], b[..|b| - 1]);
    }
  }

  lemma {:induction false} NoneMissing(pcs: seq<Pc>)
    ensures Missing(pcs) == 0 <==> forall i :: 0 <= i < |pcs| ==> Arrived(pcs[i])
  {
    if pcs == [] {
    } else {
      NoneMissing(pcs[..|pcs| - 1]);
    }
  }

  predicate ReadsGeneration(pc: Pc) {
    pc.Inside? || pc.Checking? || pc.Asleep? || pc.Woken?
  }

  ghost predicate ThreadInv(s: State, i: nat)
    requires i < |s.pcs|
  {
    var pc := s.pcs[i];
    (s.owner == Some(i) <==> HoldsMutex(pc)) &&
    (ReadsGeneration(pc) ==> pc.gen == 0) &&
    (pc.Returned? || pc.Bound? || pc.Notifying? ==> s.generation == 1) &&
    (pc.Inside? ==> s.generation == 0) &&
    // a sleeper whose release has come is about to be notified
    (pc.Asleep? && s.generation == 1 ==>
      s.owner.Some? && s.owner.value < |s.pcs| && s.pcs[s.owner.value].Notifying?)
  }

  ghost predicate Inv(s: State) {
    s.count == Missing(s.pcs) &&
    s.generation == (if s.count == 0 then 1 else 0) &&
    (s.owner.Some? ==> s.owner.value < |s.pcs|) &&
    forall i: nat :: i < |s.pcs| ==> ThreadInv(s, i)
  }

  lemma InitInv(n: nat)
    requires n >= 1
    ensures Inv(Init(n))
  {
    AllMissing(n);
  }

  lemma {:induction false} AllMissing(n: nat)
    ensures Missing(seq(n, _ => Initialising)) == n
  {
    if n == 0 {
    } else {
      assert seq(n, _ => Initialising)[..n - 1] == seq(n - 1, _ => Initialising);
      AllMissing(n - 1);
    }
  }

  lemma AdvanceInv(s: State, t: nat)
    requires Inv(s) && Enabled(s, t)
    ensures Inv(Next(s, t))
  {
    var r := Next(s, t);
    assert ThreadInv(s, t);
    if s.pcs[t].Notifying? {
      SameArrivals(s.pcs, r.pcs);
    } else {
      MissingUpdate(s.pcs, t, r.pcs[t]);
      assert r.pcs == s.pcs[t := r.pcs[t]];
    }
    NoneMissing(s.pcs);
    NoneMissing(r.pcs);
    forall i: nat | i < |r.pcs|
      ensures ThreadInv(r, i)
    {
      assert ThreadInv(s, i);
    }
  }

  lemma SpuriousInv(s: State, t: nat)
    requires Inv(s) && Possible(s, SpuriousWake(t))
    ensures Inv(Do(s, SpuriousWake(t)))
  {
    var r := Do(s, SpuriousWake(t));
    MissingUpdate(s.pcs, t, r.pcs[t]);
    assert ThreadInv(s, t);
    forall i: nat | i < |r.pcs|
      ensures ThreadInv(r, i)
    {
      assert ThreadInv(s, i);
      if s.owner.Some? {
        assert ThreadInv(s, s.owner.value);
      }
    }
  }

  lemma {:induction false} ReachableInv(n: nat, run: seq<Action>, s: State)
    requires n >= 1 && After(n, run) == Some(s)
    ensures Inv(s) && |s.pcs| == n
  {
    if run == [] {
      InitInv(n);
    } else {
      var before := After(n, run[..|run| - 1]).value;
      ReachableInv(n, run[..|run| - 1], before);
      match run[|run| - 1]
      case Advance(t) => AdvanceInv(before, t);
      case SpuriousWake(t) => SpuriousInv(before, t);
    }
  }

  // --- Safety and progress, for every number of workers and every schedule ---------------------------

  /** Nobody gets past the latch before everybody has arrived; so no worker binds its sockets while
      another is still initialising. */
  lemma NobodyPassesEarly(n: nat, run: seq<Action>, s: State, t: nat)
    requires n >= 1 && After(n, run) == Some(s)
    requires t < n && |s.pcs| == n && (s.pcs[t].Returned? || s.pcs[t].Bound?)
    ensures forall i :: 0 <= i < n ==> Arrived(s.pcs[i])
  {
    ReachableInv(n, run, s);
    assert ThreadInv(s, t);
    NoneMissing(s.pcs);
  }

  /** No wakeup is lost: once the latch is open and its mutex free, nobody sleeps. */
  lemma NoWakeupIsLost(n: nat, run: seq<Action>, s: State)
    requires n >= 1 && After(n, run) == Some(s)
    requires s.count == 0 && s.owner == None
    ensures forall i :: 0 <= i < |s.pcs| ==> !s.pcs[i].Asleep?
  {
    ReachableInv(n, run, s);
    forall i | 0 <= i < |s.pcs|
      ensures !s.pcs[i].Asleep?
    {
      assert ThreadInv(s, i);
    }
  }

  /** Until all workers have bound, some worker can take a step, without help of a spurious wakeup. */
  lemma NeverStuck(n: nat, run: seq<Action>, s: State)
    requires n >= 1 && After(n, run) == Some(s)
    ensures (exists t: nat :: Enabled(s, t)) <==> (exists t: nat :: t < |s.pcs| && !s.pcs[t].Bound?)
  {
    ReachableInv(n, run, s);
    if t: nat :| t < |s.pcs| && !s.pcs[t].Bound? {
      if s.owner.Some? {
        assert ThreadInv(s, s.owner.value);
        assert Enabled(s, s.owner.value);
      } else if s.count == 0 {
        NoWakeupIsLost(n, run, s);
        assert Enabled(s, t);
      } else {
        NoneMissing(s.pcs);
        var i: nat :| i < |s.pcs| && !Arrived(s.pcs[i]);
        assert ThreadInv(s, i);
        assert Enabled(s, i);
      }
    }
  }

  /** How far a worker still has to go. Waking without a reason is the only way back. */
  function Rank(pc: Pc, generation: int): nat {
    match pc
    case Initialising => 10
    case AtGate => 9
    case Inside(_) => 8
    case Woken(gen) => if gen == generation then 7 else 4
    case Checking(gen) => if gen == generation then 6 else 3
    case Notifying => 6
    case Asleep(_) => 5
    case Returned => 1
    case Bound => 0
  }

  function Measure(pcs: seq<Pc>, generation: int): nat {
    if pcs == [] then 0
    else Measure(pcs[..|pcs| - 1], generation) + Rank(pcs[|pcs| - 1], generation)
  }

  /** If only worker t's rank may rise, and by at most d, so does the measure. */
  lemma {:induction false} MeasureChange(a: seq<Pc>, g: int, b: seq<Pc>, h: int, t: int, d: int)
    requires |a| == |b|
    requires forall i :: 0 <= i < |a| && i != t ==> Rank(b[i], h) <= Rank(a[i], g)
    requires 0 <= t < |a| ==> Rank(b[t], h) <= Rank(a[t], g) + d
    ensures Measure(b, h) <= Measure(a, g) + (if 0 <= t < |a| then d else 0)
  {
    if a == [] {
    } else {
      MeasureChange(a[..|a| - 1], g, b[..|b| - 1], h, t, d);
    }
  }

  lemma AdvanceDecreases(s: State, t: nat)
    requires Inv(s) && Enabled(s, t)
    ensures Measure(Next(s, t).pcs, Next(s, t).generation) < Measure(s.pcs, s.generation)
  {
    var r := Next(s, t);
    assert ThreadInv(s, t);
    forall i | 0 <= i < |s.pcs| && i != t
      ensures Rank(r.pcs[i], r.generation) <= Rank(s.pcs[i], s.generation)
    {
      assert ThreadInv(s, i);
    }
    MeasureChange(s.pcs, s.generation, r.pcs, r.generation, t, -1);
  }

  lemma SpuriousIncrease(s: State, t: nat)
    requires Inv(s) && Possible(s, SpuriousWake(t))
    ensures Measure(Do(s, SpuriousWake(t)).pcs, s.generation) <= Measure(s.pcs, s.generation) + 2
  {
    MeasureChange(s.pcs, s.generation, Do(s, SpuriousWake(t)).pcs, s.generation, t, 2);
  }

  function Advances(run: seq<Action>): nat {
    if run == [] then 0
    else Advances(run[..|run| - 1]) + (if run[|run| - 1].Advance? then 1 else 0)
  }

  lemma {:induction false} AdvancesCounts(run: seq<Action>)
    ensures Advances(run) == |set i | 0 <= i < |run| && run[i].Advance?|
  {
    var all := set i | 0 <= i < |run| && run[i].Advance?;
    if run == [] {
      assert all == {};
    } else {
      var last := |run| - 1;
      var before := set i | 0 <= i < last && run[..last][i].Advance?;
      AdvancesCounts(run[..last]);
      assert all == if run[last].Advance? then before + {last} else before;
    }
  }

  lemma OneMore(n: nat, run: seq<Action>, s: State, t: nat)
    requires After(n, run) == Some(s) && Enabled(s, t)
    ensures After(n, run + [Advance(t)]) == Some(Next(s, t))
  {
    assert (run + [Advance(t)])[..|run|] == run;
    PossibleExactly(s, t);
    hide Enabled, Next;
  }

  /** From wherever a schedule has led, the workers can go on, without any spurious wakeup, until all
      have bound. */
  lemma {:induction false} AllGetThrough(n: nat, run: seq<Action>, s: State) returns (rest: seq<Action>, end: State)
    requires n >= 1 && After(n, run) == Some(s)
    ensures After(n, run + rest) == Some(end) && forall i :: 0 <= i < |rest| ==> rest[i].Advance?
    ensures |end.pcs| == n && forall i :: 0 <= i < n ==> end.pcs[i].Bound?
    decreases Measure(s.pcs, s.generation)
  {
    hide After, Enabled, Next, Measure, Inv;
    if t: nat :| Enabled(s, t) {
      ReachableInv(n, run, s);
      OneMore(n, run, s, t);
      AdvanceDecreases(s, t);
      var later: seq<Action>;
      later, end := AllGetThrough(n, run + [Advance(t)], Next(s, t));
      rest := [Advance(t)] + later;
      Regroup(run, [Advance(t)], later);
    } else {
      AllBound(n, run, s);
      rest, end := [], s;
      assert run + [] == run;
    }
  }

  lemma AllBound(n: nat, run: seq<Action>, s: State)
    requires n >= 1 && After(n, run) == Some(s) && !exists t: nat :: Enabled(s, t)
    ensures |s.pcs| == n && forall i :: 0 <= i < n ==> s.pcs[i].Bound?
  {
    ReachableInv(n, run, s);
    NeverStuck(n, run, s);
    hide After, Enabled, Inv;
  }

  lemma Regroup<A>(a: seq<A>, b: seq<A>, c: seq<A>)
    ensures a + (b + c) == a + b + c
  {}

  /** Every schedule is short: N workers take at most 10 N steps, and two more for each spurious
      wakeup. With NeverStuck, all workers bind as long as spurious wakeups are finitely many. */
  lemma {:induction false} SchedulesAreBounded(n: nat, run: seq<Action>, s: State)
    requires n >= 1 && After(n, run) == Some(s)
    ensures Advances(run) + Measure(s.pcs, s.generation) <= 10 * n + 2 * (|run| - Advances(run))
  {
    if run == [] {
      InitialMeasure(n);
    } else {
      var before := After(n, run[..|run| - 1]).value;
      SchedulesAreBounded(n, run[..|run| - 1], before);
      ReachableInv(n, run[..|run| - 1], before);
      match run[|run| - 1]
      case Advance(t) => AdvanceDecreases(before, t);
      case SpuriousWake(t) => SpuriousIncrease(before, t);
    }
  }

  lemma {:induction false} InitialMeasure(n: nat)
    ensures Measure(seq(n, _ => Initialising), 0) == 10 * n
  {
    if n == 0 {
    } else {
      assert seq(n, _ => Initialising)[..n - 1] == seq(n - 1, _ => Initialising);
      InitialMeasure(n - 1);
    }
  }

  // --- The latch as an object --------------------------------------------------------------------------

  /** The latch's fields, and the workers that call `wait`; each method is one worker's step. */
  class CountdownLatch {
    const n: nat
    var count: int
    var generation: int
    var owner: Option<nat>
    var pcs: seq<Pc>

    function Current(): State
      reads this
    {
      State(count, generation, owner, pcs)
    }

    constructor (n: nat)
      ensures this.n == n && Current() == Init(n)
    {
      this.n := n;
      count, generation, owner := n, 0, None;
      pcs := seq(n, _ => Initialising);
    }

    /** The critical section of `wait` up to the wait on the condition variable. */
    method CountDown(t: nat)
      requires Enabled(Current(), t) && pcs[t].Inside?
      modifies this
      ensures Current() == Next(old(Current()), t)
    {
      count := count - 1;
      if count == 0 {
        generation := generation + 1;
        pcs := pcs[t := Notifying];
      } else {
        pcs := pcs[t := Checking(pcs[t].gen)];
      }
    }

    method NotifyAllAndReturn(t: nat)
      requires Enabled(Current(), t) && pcs[t].Notifying?
      modifies this
      ensures Current() == Next(old(Current()), t)
    {
      for i := 0 to |pcs|
        invariant |pcs| == |old(pcs)|
        invariant forall j :: 0 <= j < i ==> pcs[j] == WakeAll(old(pcs))[j]
        invariant forall j :: i <= j < |pcs| ==> pcs[j] == old(pcs)[j]
        invariant count == old(count) && generation == old(generation)
      {
        if pcs[i].Asleep? {
          pcs := pcs[i := Woken(pcs[i].gen)];
        }
      }
      assert pcs == WakeAll(old(pcs));
      pcs := pcs[t := Returned];
      owner := None;
    }

    /** Tests the predicate of the condition variable: return, or give the mutex back and sleep. */
    method TestAndSleep(t: nat)
      requires Enabled(Current(), t) && pcs[t].Checking?
      modifies this
      ensures Current() == Next(old(Current()), t)
    {
      owner := None;
      if pcs[t].gen != generation {
        pcs := pcs[t := Returned];
      } else {
        pcs := pcs[t := Asleep(pcs[t].gen)];
      }
    }

    method Step(t: nat)
      requires Enabled(Current(), t)
      modifies this
      ensures Current() == Next(old(Current()), t)
    {
      match pcs[t]
      case Initialising => pcs := pcs[t := AtGate];
      case AtGate =>
        owner := Some(t);
        pcs := pcs[t := Inside(generation)];
      case Inside(_) => CountDown(t);
      case Checking(_) => TestAndSleep(t);
      case Woken(gen) =>
        owner := Some(t);
        pcs := pcs[t := Checking(gen)];
      case Notifying => NotifyAllAndReturn(t);
      case Returned => pcs := pcs[t := Bound];
    }

    /** The condition variable lets worker t go on without having been notified. */
    method WakeSpuriously(t: nat)
      requires Possible(Current(), SpuriousWake(t))
      modifies this
      ensures Current() == Do(old(Current()), SpuriousWake(t))
    {
      pcs := pcs[t := Woken(pcs[t].gen)];
    }

    /** What any schedule makes of a fresh latch: it goes as far as its steps are possible. Nobody has
        passed before all arrived, no wakeup is lost, the workers can go on until all have bound, and
        they take a bounded number of steps. */
    method Run(schedule: seq<Action>) returns (taken: nat)
      requires n >= 1 && Current() == Init(n)
      modifies this
      ensures taken <= |schedule| && After(n, schedule[..taken]) == Some(Current())
      ensures taken == |schedule| <==> After(n, schedule).Some?
      ensures taken < |schedule| ==> !Possible(Current(), schedule[taken])
      ensures |pcs| == n
      ensures forall t: nat :: t < n && (pcs[t].Returned? || pcs[t].Bound?) ==>
        forall i :: 0 <= i < n ==> Arrived(pcs[i])
      ensures count == 0 && owner == None ==> forall i :: 0 <= i < n ==> !pcs[i].Asleep?
      ensures (exists t: nat :: Enabled(Current(), t)) <==> (exists t: nat :: t < n && !pcs[t].Bound?)
      ensures Advances(schedule[..taken]) <= 10 * n + 2 * (taken - Advances(schedule[..taken]))
    {
      taken := 0;
      assert schedule[..|schedule|] == schedule;
      while taken < |schedule| && Possible(Current(), schedule[taken])
        invariant taken <= |schedule| && After(n, schedule[..taken]) == Some(Current())
      {
        AfterStep(n, schedule, taken);
        match schedule[taken] {
          case Advance(t) => Step(t);
          case SpuriousWake(t) => WakeSpuriously(t);
        }
        taken := taken + 1;
      }
      if taken < |schedule| {
        AfterStep(n, schedule, taken);
        if After(n, schedule).Some? {
          AfterPrefix(n, schedule, taken + 1);
        }
      }
      WhatHolds(schedule[..taken]);
    }

    lemma WhatHolds(run: seq<Action>)
      requires n >= 1 && After(n, run) == Some(Current())
      ensures |pcs| == n
      ensures forall t: nat :: t < n && (pcs[t].Returned? || pcs[t].Bound?) ==>
        forall i :: 0 <= i < n ==> Arrived(pcs[i])
      ensures count == 0 && owner == None ==> forall i :: 0 <= i < n ==> !pcs[i].Asleep?
      ensures (exists t: nat :: Enabled(Current(), t)) <==> (exists t: nat :: t < n && !pcs[t].Bound?)
      ensures Advances(run) <= 10 * n + 2 * (|run| - Advances(run))
    {
      var s := Current();
      ReachableInv(n, run, s);
      forall t: nat | t < n && (pcs[t].Returned? || pcs[t].Bound?)
        ensures forall i :: 0 <= i < n ==> Arrived(pcs[i])
      {
        NobodyPassesEarly(n, run, s, t);
      }
      if count == 0 && owner == None {
        NoWakeupIsLost(n, run, s);
      }
      NeverStuck(n, run, s);
      SchedulesAreBounded(n, run, s);
    }
  }
}
