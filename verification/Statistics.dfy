/** The traffic counters: one record per thread, 64-bit and wrapping, drained by an aggregation
    that may run while other threads keep counting; and the scaling of a byte count to a rate. */
module Statistics {
  import opened Wire

  datatype Direction = Direction(packets: nat, bytes: nat)
  datatype Stats = Stats(incoming: Direction, outgoing: Direction)

  const ZERO := Stats(Direction(0, 0), Direction(0, 0))

  /** Exact componentwise sum, without wrap-around. */
  function Plus(a: Stats, b: Stats): Stats {
    Stats(Direction(a.incoming.packets + b.incoming.packets, a.incoming.bytes + b.incoming.bytes),
          Direction(a.outgoing.packets + b.outgoing.packets, a.outgoing.bytes + b.outgoing.bytes))
  }

  function Low64(n: nat): (r: nat)
    ensures r < TWO_TO_THE_64
  {
    n % TWO_TO_THE_64
  }

  /** What a 64-bit counter record holds of an exact one. */
  function Wrap(s: Stats): Stats {
    Stats(Direction(Low64(s.incoming.packets), Low64(s.incoming.bytes)),
          Direction(Low64(s.outgoing.packets), Low64(s.outgoing.bytes)))
  }

  function Incoming(size: nat): Stats { Stats(Direction(1, size), Direction(0, 0)) }
  function Outgoing(size: nat): Stats { Stats(Direction(0, 0), Direction(1, size)) }

  /** Exact sum of a sequence of records. */
  function Total(records: seq<Stats>): Stats {
    if records == [] then ZERO else Plus(Total(records[..|records| - 1]), records[|records| - 1])
  }

  /** Records that agree modulo 2^64. */
  ghost predicate Congruent(a: Stats, b: Stats) {
    a.incoming.packets % TWO_TO_THE_64 == b.incoming.packets % TWO_TO_THE_64 &&
    a.incoming.bytes % TWO_TO_THE_64 == b.incoming.bytes % TWO_TO_THE_64 &&
    a.outgoing.packets % TWO_TO_THE_64 == b.outgoing.packets % TWO_TO_THE_64 &&
    a.outgoing.bytes % TWO_TO_THE_64 == b.outgoing.bytes % TWO_TO_THE_64
  }

  /** A 64-bit record keeps what it is given modulo 2^64, so exactly as long as that fits. */
  lemma WrapKeeps(s: Stats)
    ensures Congruent(Wrap(s), s)
    ensures Wrap(s).incoming.packets < TWO_TO_THE_64 && Wrap(s).incoming.bytes < TWO_TO_THE_64
    ensures Wrap(s).outgoing.packets < TWO_TO_THE_64 && Wrap(s).outgoing.bytes < TWO_TO_THE_64
    ensures (s.incoming.packets < TWO_TO_THE_64 && s.incoming.bytes < TWO_TO_THE_64 &&
      s.outgoing.packets < TWO_TO_THE_64 && s.outgoing.bytes < TWO_TO_THE_64) ==> Wrap(s) == s
  {}

  lemma CongruentIffWrapsAgree(a: Stats, b: Stats)
    ensures Congruent(a, b) <==> Wrap(a) == Wrap(b)
  {}

  lemma Low64OfSum(a: nat, b: nat)
    ensures Low64(Low64(a) + b) == Low64(a + b)
  {}

  lemma WrapOfSum(a: Stats, b: Stats)
    ensures Wrap(Plus(Wrap(a), b)) == Wrap(Plus(a, b))
  {
    Low64OfSum(a.incoming.packets, b.incoming.packets);
    Low64OfSum(a.incoming.bytes, b.incoming.bytes);
    Low64OfSum(a.outgoing.packets, b.outgoing.packets);
    Low64OfSum(a.outgoing.bytes, b.outgoing.bytes);
  }

  /** Records that agree modulo 2^64 still agree after adding the same amount to both. */
  lemma WrapCongruence(a: Stats, b: Stats, c: Stats)
    requires Wrap(a) == Wrap(b)
    ensures Wrap(Plus(a, c)) == Wrap(Plus(b, c))
  {
    WrapOfSum(a, c);
    WrapOfSum(b, c);
  }

  lemma {:induction false} TotalWithout(records: seq<Stats>, i: nat, v: Stats)
    requires i < |records|
    ensures Plus(Total(records[i := v]), records[i]) == Plus(Total(records), v)
  {
    var last := |records| - 1;
    var changed := records[i := v];
    if i == last {
      assert changed[..last] == records[..last];
    } else {
      assert changed[..last] == records[..last][i := v];
      TotalWithout(records[..last], i, v);
    }
  }

  lemma AddReport(reports: seq<Stats>, total: Stats)
    ensures Total(reports + [total]) == Plus(Total(reports), total)
  {
    assert (reports + [total])[..|reports|] == reports;
  }

  lemma {:induction false} TotalOfZeros(n: nat)
    ensures Total(seq(n, _ => ZERO)) == ZERO
  {
    if n == 0 {
    } else {
      assert seq(n, _ => ZERO)[..n - 1] == seq(n - 1, _ => ZERO);
      TotalOfZeros(n - 1);
    }
  }

  // --- Counting and draining -------------------------------------------------------------------

  /** One counter update by one thread. */
  datatype Update = Update(thread: nat, amount: Stats)

  predicate InRange(updates: seq<Update>, threads: nat) {
    forall u :: u in updates ==> u.thread < threads
  }

  /** The update as the 64-bit counters record it. */
  function Count(counters: seq<Stats>, u: Update): (r: seq<Stats>)
    requires u.thread < |counters|
    ensures |r| == |counters|
  {
    counters[u.thread := Wrap(Plus(counters[u.thread], u.amount))]
  }

  function CountAll(counters: seq<Stats>, updates: seq<Update>): (r: seq<Stats>)
    requires InRange(updates, |counters|)
    ensures |r| == |counters|
  {
    if updates == [] then counters
    else Count(CountAll(counters, updates[..|updates| - 1]), updates[|updates| - 1])
  }

  /** The update as an ideal, unbounded ledger records it. */
  function Book(ledger: seq<Stats>, u: Update): (r: seq<Stats>)
    requires u.thread < |ledger|
    ensures |r| == |ledger|
  {
    ledger[u.thread := Plus(ledger[u.thread], u.amount)]
  }

  function BookAll(ledger: seq<Stats>, updates: seq<Update>): (r: seq<Stats>)
    requires InRange(updates, |ledger|)
    ensures |r| == |ledger|
  {
    if updates == [] then ledger
    else Book(BookAll(ledger, updates[..|updates| - 1]), updates[|updates| - 1])
  }

  /** Nothing is lost: what was reported so far, plus what the counters still hold, is all the
      traffic ever booked, modulo 2^64. */
  ghost predicate Conserved(reported: Stats, counters: seq<Stats>, ledger: seq<Stats>) {
    Congruent(Plus(reported, Total(counters)), Total(ledger))
  }

  /** What agreement modulo 2^64 says, component by component. */
  lemma InNumbers(reported: Stats, held: Stats, all: Stats)
    requires Congruent(Plus(reported, held), all)
    ensures (reported.incoming.packets + held.incoming.packets) % TWO_TO_THE_64 == all.incoming.packets % TWO_TO_THE_64
    ensures (reported.incoming.bytes + held.incoming.bytes) % TWO_TO_THE_64 == all.incoming.bytes % TWO_TO_THE_64
    ensures (reported.outgoing.packets + held.outgoing.packets) % TWO_TO_THE_64 == all.outgoing.packets % TWO_TO_THE_64
    ensures (reported.outgoing.bytes + held.outgoing.bytes) % TWO_TO_THE_64 == all.outgoing.bytes % TWO_TO_THE_64
  {}

  lemma CountConserves(reported: Stats, counters: seq<Stats>, ledger: seq<Stats>, u: Update)
    requires |counters| == |ledger| && u.thread < |ledger|
    requires Conserved(reported, counters, ledger)
    ensures Conserved(reported, Count(counters, u), Book(ledger, u))
  {
    hide Congruent;
    var t := u.thread;
    CongruentIffWrapsAgree(Plus(reported, Total(counters)), Total(ledger));
    CongruentIffWrapsAgree(Plus(reported, Total(Count(counters, u))), Total(Book(ledger, u)));
    TotalWithout(counters, t, Wrap(Plus(counters[t], u.amount)));
    WrapReplaces(reported, Total(Count(counters, u)), Total(counters), counters[t], u.amount);
    WrapCongruence(Plus(reported, Total(counters)), Total(ledger), u.amount);
    TotalWithout(ledger, t, Plus(ledger[t], u.amount));
    PlusCancels(Total(Book(ledger, u)), ledger[t], Total(ledger), u.amount);
  }

  lemma PlusCancels(a: Stats, b: Stats, c: Stats, d: Stats)
    requires Plus(a, b) == Plus(c, Plus(b, d))
    ensures a == Plus(c, d)
  {}

  /** Replacing a record `held` by the wrapped `held + amount` moves the sum by `amount` modulo 2^64. */
  lemma WrapReplaces(reported: Stats, after: Stats, before: Stats, held: Stats, amount: Stats)
    requires Plus(after, held) == Plus(before, Wrap(Plus(held, amount)))
    ensures Wrap(Plus(reported, after)) == Wrap(Plus(Plus(reported, before), amount))
  {
    Low64Replaces(reported.incoming.packets, after.incoming.packets, before.incoming.packets,
      held.incoming.packets, amount.incoming.packets);
    Low64Replaces(reported.incoming.bytes, after.incoming.bytes, before.incoming.bytes,
      held.incoming.bytes, amount.incoming.bytes);
    Low64Replaces(reported.outgoing.packets, after.outgoing.packets, before.outgoing.packets,
      held.outgoing.packets, amount.outgoing.packets);
    Low64Replaces(reported.outgoing.bytes, after.outgoing.bytes, before.outgoing.bytes,
      held.outgoing.bytes, amount.outgoing.bytes);
  }

  lemma Low64Replaces(reported: nat, after: nat, before: nat, held: nat, amount: nat)
    requires after + held == before + Low64(held + amount)
    ensures Low64(reported + after) == Low64(reported + before + amount)
  {
    var q := (held + amount) / TWO_TO_THE_64;
    assert reported + before + amount == reported + after + TWO_TO_THE_64 * q;
  }

  lemma {:induction false} CountAllConserves(reported: Stats, counters: seq<Stats>, ledger: seq<Stats>,
                                             updates: seq<Update>)
    requires |counters| == |ledger| && InRange(updates, |ledger|)
    requires Conserved(reported, counters, ledger)
    ensures Conserved(reported, CountAll(counters, updates), BookAll(ledger, updates))
  {
    if updates == [] {
    } else {
      var most := updates[..|updates| - 1];
      CountAllConserves(reported, counters, ledger, most);
      CountConserves(reported, CountAll(counters, most), BookAll(ledger, most), updates[|updates| - 1]);
    }
  }

  /** An aggregation under way: the running total and the counters it leaves behind. */
  datatype Load = Load(total: Stats, counters: seq<Stats>)

  predicate Interleavable(others: seq<seq<Update>>, threads: nat) {
    |others| == threads && forall i :: 0 <= i < |others| ==> InRange(others[i], threads)
  }

  /** One step: the updates of running threads land, then thread t is read, reset and added. */
  ghost function LoadStep(l: Load, t: nat, updates: seq<Update>): (r: Load)
    requires t < |l.counters| && InRange(updates, |l.counters|)
    ensures |r.counters| == |l.counters|
  {
    var current := CountAll(l.counters, updates);
    Load(Wrap(Plus(l.total, current[t])), current[t := ZERO])
  }

  /** The first `n` steps of an aggregation, where `others[i]` land just before thread i is read. */
  ghost function LoadSteps(counters: seq<Stats>, others: seq<seq<Update>>, n: nat): (l: Load)
    requires Interleavable(others, |counters|) && n <= |counters|
    ensures |l.counters| == |counters|
  {
    if n == 0 then Load(ZERO, counters)
    else LoadStep(LoadSteps(counters, others, n - 1), n - 1, others[n - 1])
  }

  /** The ledger after the updates that land during the first `n` steps. */
  ghost function LedgerAfter(ledger: seq<Stats>, others: seq<seq<Update>>, n: nat): (r: seq<Stats>)
    requires Interleavable(others, |ledger|) && n <= |ledger|
    ensures |r| == |ledger|
  {
    if n == 0 then ledger else BookAll(LedgerAfter(ledger, others, n - 1), others[n - 1])
  }

  /** However updates land between the steps of an aggregation, none is lost or counted twice. */
  lemma {:induction false} LoadConserves(reported: Stats, counters: seq<Stats>, ledger: seq<Stats>,
                                         others: seq<seq<Update>>, n: nat)
    requires |counters| == |ledger| && Interleavable(others, |ledger|) && n <= |ledger|
    requires Conserved(reported, counters, ledger)
    ensures var l := LoadSteps(counters, others, n);
      Conserved(Plus(reported, l.total), l.counters, LedgerAfter(ledger, others, n))
  {
    hide Conserved, LoadStep, BookAll;
    if n == 0 {
      assert Plus(reported, ZERO) == reported;
    } else {
      hide Plus;
      LoadConserves(reported, counters, ledger, others, n - 1);
      LoadStepConserves(reported, LoadSteps(counters, others, n - 1), LedgerAfter(ledger, others, n - 1),
        n - 1, others[n - 1]);
    }
  }

  /** The same in numbers, component by component. */
  lemma LoadLosesNothing(reported: Stats, counters: seq<Stats>, ledger: seq<Stats>, others: seq<seq<Update>>, n: nat)
    requires |counters| == |ledger| && Interleavable(others, |ledger|) && n <= |ledger|
    requires Conserved(reported, counters, ledger)
    ensures var l, all := LoadSteps(counters, others, n), Total(LedgerAfter(ledger, others, n));
      var held := Total(l.counters);
      (reported.incoming.packets + l.total.incoming.packets + held.incoming.packets) % TWO_TO_THE_64 ==
        all.incoming.packets % TWO_TO_THE_64 &&
      (reported.incoming.bytes + l.total.incoming.bytes + held.incoming.bytes) % TWO_TO_THE_64 ==
        all.incoming.bytes % TWO_TO_THE_64 &&
      (reported.outgoing.packets + l.total.outgoing.packets + held.outgoing.packets) % TWO_TO_THE_64 ==
        all.outgoing.packets % TWO_TO_THE_64 &&
      (reported.outgoing.bytes + l.total.outgoing.bytes + held.outgoing.bytes) % TWO_TO_THE_64 ==
        all.outgoing.bytes % TWO_TO_THE_64
  {
    hide Congruent, LoadSteps, LedgerAfter, Total;
    LoadConserves(reported, counters, ledger, others, n);
    var l := LoadSteps(counters, others, n);
    var all := Total(LedgerAfter(ledger, others, n));
    InNumbers(Plus(reported, l.total), Total(l.counters), all);
  }

  lemma LoadStepConserves(reported: Stats, l: Load, ledger: seq<Stats>, t: nat, updates: seq<Update>)
    requires |l.counters| == |ledger| && t < |ledger| && InRange(updates, |ledger|)
    requires Conserved(Plus(reported, l.total), l.counters, ledger)
    ensures var r := LoadStep(l, t, updates);
      Conserved(Plus(reported, r.total), r.counters, BookAll(ledger, updates))
  {
    hide Conserved, Plus, Total, Wrap, CountAll, BookAll;
    CountAllConserves(Plus(reported, l.total), l.counters, ledger, updates);
    DrainConserves(reported, l.total, CountAll(l.counters, updates), BookAll(ledger, updates), t);
  }

  lemma PlusZero(a: Stats)
    ensures Plus(a, ZERO) == a
  {}

  /** A step that starts an aggregation reads just this record. */
  lemma OneRead(counters: seq<Stats>, t: nat, updates: seq<Update>)
    requires t < |counters| && InRange(updates, |counters|)
    ensures var current := CountAll(counters, updates);
      LoadStep(Load(ZERO, counters), t, updates) == Load(Wrap(Plus(ZERO, current[t])), current[t := ZERO])
    ensures updates == [] ==> CountAll(counters, updates) == counters
  {
    hide Wrap, Plus;
  }

  /** Moving one thread's record into the running total changes nothing but the place it is held. */
  lemma DrainConserves(reported: Stats, total: Stats, counters: seq<Stats>, ledger: seq<Stats>, t: nat)
    requires t < |counters| && Conserved(Plus(reported, total), counters, ledger)
    ensures Conserved(Plus(reported, Wrap(Plus(total, counters[t]))), counters[t := ZERO], ledger)
  {
    hide Congruent;
    CongruentIffWrapsAgree(Plus(Plus(reported, total), Total(counters)), Total(ledger));
    CongruentIffWrapsAgree(Plus(Plus(reported, Wrap(Plus(total, counters[t]))), Total(counters[t := ZERO])),
      Total(ledger));
    TotalWithout(counters, t, ZERO);
    var rest := Total(counters[t := ZERO]);
    var moved := Plus(total, counters[t]);
    Rearrange(reported, total, Total(counters), counters[t], rest);
    WrapOfSum(moved, Plus(reported, rest));
    Swap(reported, Wrap(moved), rest);
  }

  lemma Rearrange(reported: Stats, total: Stats, all: Stats, one: Stats, rest: Stats)
    requires Plus(rest, one) == Plus(all, ZERO)
    ensures Plus(Plus(reported, total), all) == Plus(Plus(total, one), Plus(reported, rest))
  {}

  lemma PlusAssociates(a: Stats, b: Stats, c: Stats)
    ensures Plus(Plus(a, b), c) == Plus(a, Plus(b, c))
  {}

  lemma Swap(a: Stats, b: Stats, c: Stats)
    ensures Plus(Plus(a, b), c) == Plus(b, Plus(a, c))
  {}

  /** With no update in between, an aggregation returns the wrapped sum and leaves all counters 0. */
  lemma {:induction false} QuietLoad(counters: seq<Stats>, others: seq<seq<Update>>, n: nat)
    requires Interleavable(others, |counters|) && n <= |counters|
    requires forall i :: 0 <= i < n ==> others[i] == []
    ensures var total, sum := LoadSteps(counters, others, n).total, Total(counters[..n]);
      total.incoming.packets == sum.incoming.packets % TWO_TO_THE_64 &&
      total.incoming.bytes == sum.incoming.bytes % TWO_TO_THE_64 &&
      total.outgoing.packets == sum.outgoing.packets % TWO_TO_THE_64 &&
      total.outgoing.bytes == sum.outgoing.bytes % TWO_TO_THE_64
    ensures forall i :: 0 <= i < |counters| ==>
      LoadSteps(counters, others, n).counters[i] == if i < n then ZERO else counters[i]
  {
    if n == 0 {
    } else {
      QuietLoad(counters, others, n - 1);
      var l := LoadSteps(counters, others, n - 1);
      assert others[n - 1] == [] && CountAll(l.counters, []) == l.counters;
      hide Wrap, CountAll;
      assert counters[..n][..n - 1] == counters[..n - 1];
      WrapOfSum(Total(counters[..n - 1]), counters[n - 1]);
    }
  }

  // --- A thread's own ledger ---------------------------------------------------------------------

  /** Other threads' updates may land during an aggregation, but not this thread's own. */
  predicate TickPossible(tick: Option<seq<seq<Update>>>, threads: nat, own: nat) {
    tick.Some? ==>
      Interleavable(tick.value, threads) &&
      forall i :: 0 <= i < |tick.value| ==> forall u :: u in tick.value[i] ==> u.thread != own
  }

  lemma {:induction false} BookAllKeeps(ledger: seq<Stats>, updates: seq<Update>, t: nat)
    requires InRange(updates, |ledger|) && t < |ledger|
    requires forall u :: u in updates ==> u.thread != t
    ensures BookAll(ledger, updates)[t] == ledger[t]
  {
    if updates == [] {
    } else {
      BookAllKeeps(ledger, updates[..|updates| - 1], t);
      assert updates[|updates| - 1] in updates;
    }
  }

  lemma {:induction false} OthersKeepOwnLedger(ledger: seq<Stats>, others: seq<seq<Update>>, n: nat, t: nat)
    requires Interleavable(others, |ledger|) && n <= |ledger| && t < |ledger|
    requires forall i :: 0 <= i < |others| ==> forall u :: u in others[i] ==> u.thread != t
    ensures LedgerAfter(ledger, others, n)[t] == ledger[t]
  {
    if n == 0 {
    } else {
      OthersKeepOwnLedger(ledger, others, n - 1, t);
      BookAllKeeps(LedgerAfter(ledger, others, n - 1), others[n - 1], t);
    }
  }

  /** The exact sum of a batch of updates. */
  function Amounts(updates: seq<Update>): Stats {
    if updates == [] then ZERO else Plus(Amounts(updates[..|updates| - 1]), updates[|updates| - 1].amount)
  }

  lemma {:induction false} BookAllAddsUp(ledger: seq<Stats>, updates: seq<Update>)
    requires InRange(updates, |ledger|)
    ensures Total(BookAll(ledger, updates)) == Plus(Total(ledger), Amounts(updates))
  {
    if updates == [] {
    } else {
      var u := updates[|updates| - 1];
      var before := BookAll(ledger, updates[..|updates| - 1]);
      BookAllAddsUp(ledger, updates[..|updates| - 1]);
      TotalWithout(before, u.thread, Plus(before[u.thread], u.amount));
    }
  }

  // --- Whole runs ------------------------------------------------------------------------------

  /** What can happen to the counters: an update, or an aggregation with updates landing inside. */
  datatype Activity = Counting(u: Update) | Aggregating(others: seq<seq<Update>>)

  ghost predicate PossibleOnce(a: Activity, threads: nat) {
    match a
    case Counting(u) => u.thread < threads
    case Aggregating(others) => Interleavable(others, threads)
  }

  ghost predicate Possible(run: seq<Activity>, threads: nat) {
    forall i :: 0 <= i < |run| ==> PossibleOnce(run[i], threads)
  }

  /** A run is possible exactly if all its updates are of the threads there are. */
  lemma PossibleExactly(run: seq<Activity>, threads: nat)
    ensures Possible(run, threads) <==> forall i :: 0 <= i < |run| ==>
      (run[i].Counting? ==> run[i].u.thread < threads) &&
      (run[i].Aggregating? ==> |run[i].others| == threads && forall k :: 0 <= k < threads ==>
        forall u :: u in run[i].others[k] ==> u.thread < threads)
  {
    forall i | 0 <= i < |run|
      ensures PossibleOnce(run[i], threads) <==>
        (run[i].Counting? ==> run[i].u.thread < threads) &&
        (run[i].Aggregating? ==> |run[i].others| == threads && forall k :: 0 <= k < threads ==>
          forall u :: u in run[i].others[k] ==> u.thread < threads)
    {}
  }

  /** The sum of all totals reported in a run, and the counters it leaves. */
  ghost function AfterRun(threads: nat, run: seq<Activity>): (l: Load)
    requires Possible(run, threads)
    ensures |l.counters| == threads
  {
    if run == [] then Load(ZERO, seq(threads, _ => ZERO))
    else
      var before := AfterRun(threads, run[..|run| - 1]);
      assert PossibleOnce(run[|run| - 1], threads);
      match run[|run| - 1]
      case Counting(u) => Load(before.total, Count(before.counters, u))
      case Aggregating(others) =>
        var l := LoadSteps(before.counters, others, threads);
        Load(Plus(before.total, l.total), l.counters)
  }

  /** All traffic of a run, whichever thread counted it and whenever. */
  ghost function Traffic(run: seq<Activity>): Stats {
    if run == [] then ZERO
    else
      Plus(Traffic(run[..|run| - 1]),
        match run[|run| - 1]
        case Counting(u) => u.amount
        case Aggregating(others) => AmountsOfAll(others, |others|))
  }

  ghost function AmountsOfAll(others: seq<seq<Update>>, n: nat): Stats
    requires n <= |others|
  {
    if n == 0 then ZERO else Plus(AmountsOfAll(others, n - 1), Amounts(others[n - 1]))
  }

  lemma {:induction false} LedgerAddsUp(ledger: seq<Stats>, others: seq<seq<Update>>, n: nat)
    requires Interleavable(others, |ledger|) && n <= |ledger|
    ensures Total(LedgerAfter(ledger, others, n)) == Plus(Total(ledger), AmountsOfAll(others, n))
  {
    if n == 0 {
    } else {
      hide Total, BookAll, Amounts, Plus;
      LedgerAddsUp(ledger, others, n - 1);
      BookAllAddsUp(LedgerAfter(ledger, others, n - 1), others[n - 1]);
      PlusAssociates(Total(ledger), AmountsOfAll(others, n - 1), Amounts(others[n - 1]));
    }
  }

  /** Over any run of any number of threads, with aggregations interrupted anywhere: all reported
      totals together with what the counters still hold are exactly the traffic, modulo 2^64. */
  lemma {:induction false} NoTrafficLost(threads: nat, run: seq<Activity>)
    requires Possible(run, threads)
    ensures var l, traffic := AfterRun(threads, run), Traffic(run);
      var held := Total(l.counters);
      (l.total.incoming.packets + held.incoming.packets) % TWO_TO_THE_64 == traffic.incoming.packets % TWO_TO_THE_64 &&
      (l.total.incoming.bytes + held.incoming.bytes) % TWO_TO_THE_64 == traffic.incoming.bytes % TWO_TO_THE_64 &&
      (l.total.outgoing.packets + held.outgoing.packets) % TWO_TO_THE_64 == traffic.outgoing.packets % TWO_TO_THE_64 &&
      (l.total.outgoing.bytes + held.outgoing.bytes) % TWO_TO_THE_64 == traffic.outgoing.bytes % TWO_TO_THE_64
  {
    hide Congruent, AfterRun, Traffic, Total, Plus;
    var ledger := LedgerOfRun(threads, run);
    var l := AfterRun(threads, run);
    InNumbers(l.total, Total(l.counters), Traffic(run));
  }

  lemma {:induction false} LedgerOfRun(threads: nat, run: seq<Activity>) returns (ledger: seq<Stats>)
    requires Possible(run, threads)
    ensures |ledger| == threads && Total(ledger) == Traffic(run)
    ensures Conserved(AfterRun(threads, run).total, AfterRun(threads, run).counters, ledger)
  {
    if run == [] {
      TotalOfZeros(threads);
      ledger := seq(threads, _ => ZERO);
    } else {
      var before := AfterRun(threads, run[..|run| - 1]);
      ledger := LedgerOfRun(threads, run[..|run| - 1]);
      assert PossibleOnce(run[|run| - 1], threads);
      match run[|run| - 1]
      case Counting(u) =>
        CountConserves(before.total, before.counters, ledger, u);
        BookAllAddsUp(ledger, [u]);
        assert BookAll(ledger, [u]) == Book(ledger, u);
        ledger := Book(ledger, u);
      case Aggregating(others) =>
        LoadConserves(before.total, before.counters, ledger, others, threads);
        LedgerAddsUp(ledger, others, threads);
        ledger := LedgerAfter(ledger, others, threads);
    }
  }

  /** Packets and bytes of a sequence of messages. */
  function Tally(messages: seq<Message>): Direction {
    if messages == [] then Direction(0, 0)
    else
      var t := Tally(messages[..|messages| - 1]);
      Direction(t.packets + 1, t.bytes + |messages[|messages| - 1].bytes|)
  }

  lemma TallyStep(messages: seq<Message>, m: Message)
    ensures Tally(messages + [m]) == Direction(Tally(messages).packets + 1, Tally(messages).bytes + |m.bytes|)
  {
    assert (messages + [m])[..|messages|] == messages;
  }

  lemma {:induction false} TallyPackets(messages: seq<Message>)
    ensures Tally(messages).packets == |messages|
  {
    if messages == [] {
    } else {
      TallyPackets(messages[..|messages| - 1]);
    }
  }

  /** What a tick of the statistics timer may find: for each thread, updates of threads other than the
      one that the timer runs on, landing just before that thread's record is read. */
  lemma TickPossibleExactly(others: seq<seq<Update>>, threads: nat, own: nat)
    ensures TickPossible(Some(others), threads, own) <==>
      |others| == threads &&
      forall i, k :: 0 <= i < |others| && 0 <= k < |others[i]| ==>
        others[i][k].thread < threads && others[i][k].thread != own
    ensures TickPossible(None, threads, own)
  {
    forall i, k | 0 <= i < |others| && 0 <= k < |others[i]|
      ensures others[i][k] in others[i]
    {}
  }

  // --- Rates -----------------------------------------------------------------------------------

  const UNITS: seq<string> := ["bps", "Kbps", "Mbps", "Gbps"]
  const TWO_TO_THE_63: nat := 0x8000_0000_0000_0000

  function Pow1000(k: nat): (p: nat)
    ensures p >= 1
  {
    if k == 0 then 1 else 1000 * Pow1000(k - 1)
  }

  /** `rate` units of 1000^k per second is `bits` per `interval` seconds, rounded down. */
  ghost predicate RoundsDown(rate: nat, k: nat, bits: nat, interval: nat) {
    rate * (Pow1000(k) * interval) <= bits < (rate + 1) * (Pow1000(k) * interval)
  }

  /** More than 1000 units of 1000^k per second: a larger unit is called for. */
  ghost predicate NeedsLargerUnit(k: nat, bits: nat, interval: nat) {
    1001 * (Pow1000(k) * interval) <= bits
  }

  lemma UnfoldNeeds(j: nat, bits: nat, interval: nat)
    ensures NeedsLargerUnit(j, bits, interval) <==> 1001 * (Pow1000(j) * interval) <= bits
  {}

  lemma FirstUnit(bits: nat, interval: nat)
    requires interval > 0
    ensures RoundsDown(bits / interval, 0, bits, interval)
  {
    assert Pow1000(0) * interval == interval;
    var rate := bits / interval;
    assert bits == rate * interval + bits % interval;
    assert (rate + 1) * interval == rate * interval + interval;
  }

  /** Dividing a rounded-down rate by 1000 gives the rounded-down rate in the next unit. */
  lemma NextUnit(rate: nat, k: nat, bits: nat, interval: nat)
    requires RoundsDown(rate, k, bits, interval)
    ensures RoundsDown(rate / 1000, k + 1, bits, interval)
    ensures rate > 1000 ==> NeedsLargerUnit(k, bits, interval)
  {
    var u := Pow1000(k) * interval;
    var q := rate / 1000;
    assert Pow1000(k + 1) * interval == 1000 * u;
    ThousandFold(q, rate, u);
    if rate > 1000 {
      Multiply(1001, rate, u);
    }
  }

  lemma ThousandFold(q: nat, rate: nat, u: nat)
    requires 1000 * q <= rate < 1000 * (q + 1)
    ensures q * (1000 * u) <= rate * u && (rate + 1) * u <= (q + 1) * (1000 * u)
  {
    Multiply(1000 * q, rate, u);
    Multiply(rate + 1, 1000 * (q + 1), u);
    Reassociate(q, u);
    Reassociate(q + 1, u);
  }

  lemma Reassociate(q: nat, u: nat)
    ensures (1000 * q) * u == q * (1000 * u)
  {}

  lemma Multiply(a: nat, b: nat, u: nat)
    requires a <= b
    ensures a * u <= b * u
  {}

  /** A rate computed from the wrapped bit count is right exactly when nothing wrapped: otherwise
      the true count lies above the whole bucket the rate stands for. */
  lemma RightIffNotWrapped(rate: nat, k: nat, bits: nat, interval: nat)
    requires 0 < interval < TWO_TO_THE_63
    requires RoundsDown(rate, k, Low64(bits), interval)
    requires k > 0 ==> rate >= 1
    ensures RoundsDown(rate, k, bits, interval) <==> bits < TWO_TO_THE_64
    ensures bits < TWO_TO_THE_64 ==> Low64(bits) == bits
  {
    if bits < TWO_TO_THE_64 {
      assert Low64(bits) == bits;
    } else {
      var u := Pow1000(k) * interval;
      assert (rate + 1) * u == rate * u + u;
      if k > 0 {
        Multiply(1, rate, u);
      } else {
        assert u == interval;
      }
      assert u < TWO_TO_THE_64;
      assert bits >= Low64(bits) + TWO_TO_THE_64;
    }
  }

  /** 2^61 bytes in five seconds: the bit count wraps to 0, and the rate 0 is not the rate. */
  lemma WrappedRateIsWrong()
    ensures var bytes := TWO_TO_THE_64 / 8;
      Low64(8 * bytes) / 5 == 0 && !RoundsDown(0, 0, 8 * bytes, 5)
  {
    assert Pow1000(0) * 5 == 5;
  }

  /** Bits per second of `bytes` counted over `interval` seconds, in the smallest unit that brings
      the number to at most 1000, or in the largest unit. Right for every count below 2^61 bytes,
      and for no other. */
  method BitsPerSec(bytes: nat, interval: nat) returns (rate: nat, k: nat, unit: string)
    requires bytes < TWO_TO_THE_64
    requires 0 < interval < TWO_TO_THE_63
    ensures k < |UNITS| && unit == UNITS[k]
    ensures rate <= 1000 || k == 3
    ensures k > 0 ==> rate >= 1
    ensures RoundsDown(rate, k, 8 * bytes, interval) <==> 8 * bytes < TWO_TO_THE_64
    ensures 8 * bytes < TWO_TO_THE_64 ==>
      forall j: nat :: j < k ==> 1001 * (Pow1000(j) * interval) <= 8 * bytes
  {
    hide RoundsDown, NeedsLargerUnit, Pow1000, Low64;
    var bits := Low64(8 * bytes);
    rate := bits / interval;
    FirstUnit(bits, interval);
    k := 0;
    while rate > 1000 && k + 1 != |UNITS|
      invariant k < |UNITS|
      invariant k > 0 ==> rate >= 1
      invariant RoundsDown(rate, k, bits, interval)
      invariant forall j: nat :: j < k ==> NeedsLargerUnit(j, bits, interval)
      decreases |UNITS| - k
    {
      NextUnit(rate, k, bits, interval);
      rate := rate / 1000;
      k := k + 1;
    }
    unit := UNITS[k];
    RightIffNotWrapped(rate, k, 8 * bytes, interval);
    forall j: nat | j < k
      ensures NeedsLargerUnit(j, bits, interval) <==> 1001 * (Pow1000(j) * interval) <= bits
    {
      UnfoldNeeds(j, bits, interval);
    }
  }
}
