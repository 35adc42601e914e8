/** The completion-queue engine: a fixed pool of events, each owning one slice of a slab, a LIFO
    free list of event ids, and a loop that handles completions in whatever order the kernel
    delivers them. A payload to be forwarded is copied from the receive slice to a send slice. */
module UringRelay {
  import opened Wire
  import opened RelaySpec
  import opened Statistics
  import opened RelayLogic
  import opened UringSpec

  const NUM_EVENTS: nat := 16
  const QUEUE_DEPTH: nat := 4096
  const STATISTICS_TIMEOUT_MS: nat := 5000
  const TWO_TO_THE_32: nat := 0x1_0000_0000

  datatype EventType = Invalid | ClientRx | PeerRx | PeerTx | Timer

  /** An event record. The io vector shares its memory with the timeout of a timer event, so
      writing one overwrites the other. */
  datatype RingEvent = RingEvent(kind: EventType, index: nat, iovBase: nat, iovLen: nat, address: Endpoint)

  datatype Op = RecvClient | RecvPeer | SendClient | Timeout

  /** A submission queue entry: an operation on the event it carries as user data. */
  datatype Sqe = Sqe(op: Op, ev: nat)

  function OpFor(kind: EventType): Op {
    match kind
    case ClientRx => RecvClient
    case PeerRx => RecvPeer
    case PeerTx => SendClient
    case _ => Timeout
  }

  /** A completion queue entry: the event it carries as user data, the result, for a receive what
      arrived from whom; and what other threads do just before it is handled. */
  datatype Cqe = Cqe(ev: nat, res: int, bytes: seq<byte>, from: Endpoint,
                     others: seq<Datagram>, updates: seq<seq<Update>>)

  /** The cast of a 32-bit result to an unsigned size. */
  function AsUint32(res: int): (n: nat) {
    res % TWO_TO_THE_32
  }

  // --- What completed sends add to the counters ----------------------------------------------------

  function Counted(results: seq<int>): Direction {
    if results == [] then Direction(0, 0)
    else
      var d := Counted(results[..|results| - 1]);
      Direction(d.packets + 1, d.bytes + AsUint32(results[|results| - 1]))
  }

  /** Bytes the kernel did send: a negative result is an error and sends none. */
  function Sent(results: seq<int>): nat {
    if results == [] then 0
    else Sent(results[..|results| - 1]) + (if results[|results| - 1] < 0 then 0 else results[|results| - 1])
  }

  lemma {:induction false} CountedAtLeastSent(results: seq<int>)
    requires forall i :: 0 <= i < |results| ==> INT32_MIN <= results[i] < TWO_TO_THE_31
    ensures Counted(results).packets == |results| && Counted(results).bytes >= Sent(results)
    ensures Counted(results).bytes == Sent(results) <==> forall i :: 0 <= i < |results| ==> results[i] >= 0
  {
    if results == [] {
    } else {
      CountedAtLeastSent(results[..|results| - 1]);
    }
  }

  /** One failed send, reported as -1, is counted as almost 2^32 bytes sent. */
  lemma FailedSendIsCounted()
    ensures Counted([-1]) == Direction(1, TWO_TO_THE_32 - 1) && Sent([-1]) == 0
  {
    CountedStep([], -1);
    assert [] + [-1] == [-1];
  }

  lemma CountedStep(results: seq<int>, res: int)
    ensures Counted(results + [res]) == Direction(Counted(results).packets + 1, Counted(results).bytes + AsUint32(res))
  {
    assert (results + [res])[..|results|] == results;
  }

  /** A write confined to slice `id` leaves the first bytes of slice i alone. */
  lemma OtherSlice(before: seq<byte>, after: seq<byte>, id: nat, i: nat, len: nat)
    requires |before| == |after| && i != id && len <= MEMORY_PER_PACKET
    requires MEMORY_PER_PACKET * i + len <= |before|
    requires forall b :: 0 <= b < |before| && !(MEMORY_PER_PACKET * id <= b < MEMORY_PER_PACKET * (id + 1)) ==>
      after[b] == before[b]
    ensures after[MEMORY_PER_PACKET * i..MEMORY_PER_PACKET * i + len] ==
      before[MEMORY_PER_PACKET * i..MEMORY_PER_PACKET * i + len]
  {}

  // --- Ids in a queue --------------------------------------------------------------------------------

  predicate Distinct(ids: seq<nat>) {
    forall i, j :: 0 <= i < j < |ids| ==> ids[i] != ids[j]
  }

  function Ids(queue: seq<Sqe>): (ids: seq<nat>)
    ensures |ids| == |queue|
  {
    seq(|queue|, i requires 0 <= i < |queue| => queue[i].ev)
  }

  ghost function Below(n: nat): (s: set<nat>)
    ensures forall i: int :: i in s <==> 0 <= i < n
  {
    if n == 0 then {} else Below(n - 1) + {n - 1}
  }

  lemma {:induction false} BelowSize(n: nat)
    ensures |Below(n)| == n
  {
    if n == 0 {
    } else {
      BelowSize(n - 1);
    }
  }

  function FirstIds(k: nat): (ids: seq<nat>)
    ensures |ids| == k && forall i :: 0 <= i < k ==> ids[i] == i
  {
    seq(k, i => i)
  }

  lemma FirstIdsHolds(k: nat)
    ensures forall i: nat :: i in FirstIds(k) <==> i < k
  {
    forall i: nat | i < k
      ensures i in FirstIds(k)
    {
      assert FirstIds(k)[i] == i;
    }
  }

  ghost function Elements(ids: seq<nat>): (s: set<nat>)
    ensures forall i :: i in s <==> i in ids
  {
    set i | i in ids
  }

  lemma {:induction false} DistinctSize(ids: seq<nat>)
    requires Distinct(ids)
    ensures |Elements(ids)| == |ids|
  {
    if ids == [] {
    } else {
      var most := ids[..|ids| - 1];
      DistinctSize(most);
      assert Elements(ids) == Elements(most) + {ids[|ids| - 1]};
    }
  }

  /** Distinct ids below n: there are at most n of them, and the others number n minus as many. */
  lemma DistinctBelow(ids: seq<nat>, n: nat)
    requires Distinct(ids) && forall i :: 0 <= i < |ids| ==> ids[i] < n
    ensures |ids| <= n && |Below(n) - Elements(ids)| == n - |ids|
  {
    DistinctSize(ids);
    BelowSize(n);
    assert Elements(ids) <= Below(n);
    assert Below(n) == Elements(ids) + (Below(n) - Elements(ids));
  }

  lemma DistinctWithout(ids: seq<nat>, n: nat, absent: nat)
    requires Distinct(ids) && absent < n && absent !in ids
    requires forall i :: 0 <= i < |ids| ==> ids[i] < n
    ensures |ids| < n
  {
    DistinctBelow(ids, n);
    assert absent in Below(n) - Elements(ids);
  }

  // --- The life of an event, on plain values ----------------------------------------------------------

  /** Which event is where: the receives and the timer never move, all other events are sends. */
  function KindOf(n: nat, main: bool, i: nat): EventType {
    if i + 1 == n then ClientRx
    else if i + 2 == n then PeerRx
    else if i + 3 == n && main then Timer
    else PeerTx
  }

  /** Every event in use is armed exactly once, with its own operation: queued, or with the kernel;
      except those in hand. */
  ghost predicate ArmedOnce(n: nat, main: bool, free: seq<nat>, pending: seq<Sqe>, submitted: map<nat, Op>,
                            hand: set<nat>) {
    Distinct(Ids(pending)) &&
    (forall k :: 0 <= k < |pending| ==>
      pending[k].ev < n && pending[k].ev !in free && pending[k].ev !in submitted && pending[k].ev !in hand &&
      pending[k].op == OpFor(KindOf(n, main, pending[k].ev))) &&
    (forall i :: i in submitted ==> i < n && i !in free && i !in hand && submitted[i] == OpFor(KindOf(n, main, i))) &&
    (forall i :: i in hand ==> i < n && i !in free) &&
    forall i: nat :: i < n && i !in free && i !in hand ==> i in submitted || i in Ids(pending)
  }

  lemma ArmOne(n: nat, main: bool, free: seq<nat>, pending: seq<Sqe>, submitted: map<nat, Op>, hand: set<nat>, id: nat)
    requires id !in hand && ArmedOnce(n, main, free, pending, submitted, hand + {id})
    ensures ArmedOnce(n, main, free, pending + [Sqe(OpFor(KindOf(n, main, id)), id)], submitted, hand)
  {
    var longer := pending + [Sqe(OpFor(KindOf(n, main, id)), id)];
    assert Ids(longer) == Ids(pending) + [id];
    assert forall k :: 0 <= k < |pending| ==> Ids(pending)[k] == pending[k].ev;
  }

  lemma SubmitFirst(n: nat, main: bool, free: seq<nat>, pending: seq<Sqe>, submitted: map<nat, Op>)
    requires pending != [] && ArmedOnce(n, main, free, pending, submitted, {})
    ensures ArmedOnce(n, main, free, pending[1..], submitted[pending[0].ev := pending[0].op], {})
  {
    var ids, rest := Ids(pending), pending[1..];
    assert Ids(rest) == ids[1..];
    assert ids == [pending[0].ev] + Ids(rest);
    forall k | 0 <= k < |rest|
      ensures rest[k].ev != pending[0].ev
    {
      assert rest[k] == pending[k + 1] && ids[k + 1] != ids[0];
    }
  }

  lemma TakeOne(n: nat, main: bool, free: seq<nat>, pending: seq<Sqe>, submitted: map<nat, Op>, id: nat)
    requires id in submitted && ArmedOnce(n, main, free, pending, submitted, {})
    ensures ArmedOnce(n, main, free, pending, submitted - {id}, {id})
  {}

  lemma FreeOne(n: nat, main: bool, free: seq<nat>, pending: seq<Sqe>, submitted: map<nat, Op>, id: nat)
    requires ArmedOnce(n, main, free, pending, submitted, {id})
    ensures ArmedOnce(n, main, free + [id], pending, submitted, {})
  {
    assert forall i: nat :: i in free + [id] <==> i in free || i == id;
    assert forall k :: 0 <= k < |pending| ==> Ids(pending)[k] == pending[k].ev;
  }

  lemma TakeFree(n: nat, main: bool, free: seq<nat>, pending: seq<Sqe>, submitted: map<nat, Op>, hand: set<nat>)
    requires free != [] && Distinct(free) && free[|free| - 1] < n
    requires ArmedOnce(n, main, free, pending, submitted, hand)
    ensures ArmedOnce(n, main, free[..|free| - 1], pending, submitted, hand + {free[|free| - 1]})
  {
    var less, id := free[..|free| - 1], free[|free| - 1];
    assert free == less + [id];
    assert forall i: nat :: i in less <==> i in free && i != id;
  }

  /** A send is live while its event is allocated and not in the handler's hand. */
  predicate Live(low: nat, free: seq<nat>, hand: set<nat>, i: nat) {
    i < low && i !in free && i !in hand
  }

  /** Live sends and the forwarded messages they carry correspond one to one. */
  ghost predicate Corresponds(low: nat, free: seq<nat>, hand: set<nat>, serial: map<nat, nat>,
                              carrier: seq<Option<nat>>) {
    (forall i: nat :: Live(low, free, hand, i) ==>
      i in serial && serial[i] < |carrier| && carrier[serial[i]] == Some(i)) &&
    forall s :: 0 <= s < |carrier| && carrier[s].Some? ==>
      Live(low, free, hand, carrier[s].value) && carrier[s].value in serial && serial[carrier[s].value] == s
  }

  /** Moving an event between the free list and the hand changes no live send. */
  lemma LiveOnly(low: nat, free: seq<nat>, hand: set<nat>, free': seq<nat>, hand': set<nat>,
                 serial: map<nat, nat>, carrier: seq<Option<nat>>)
    requires Corresponds(low, free, hand, serial, carrier)
    requires forall i: nat :: i < low ==> (i in free || i in hand <==> i in free' || i in hand')
    ensures Corresponds(low, free', hand', serial, carrier)
    ensures forall i: nat :: Live(low, free, hand, i) <==> Live(low, free', hand', i)
  {}

  /** The event taken from the end of the free list is in hand instead. */
  lemma LiveAfterTake(low: nat, free: seq<nat>, hand: set<nat>, serial: map<nat, nat>, carrier: seq<Option<nat>>)
    requires free != [] && Distinct(free) && Corresponds(low, free, hand, serial, carrier)
    ensures var less, id := free[..|free| - 1], free[|free| - 1];
      Corresponds(low, less, hand + {id}, serial, carrier) &&
      forall i: nat :: Live(low, free, hand, i) <==> Live(low, less, hand + {id}, i)
  {
    var less, id := free[..|free| - 1], free[|free| - 1];
    assert free == less + [id];
    assert forall i: nat :: i in free <==> i in less || i == id;
    LiveOnly(low, free, hand, less, hand + {id}, serial, carrier);
  }

  lemma LiveAfterFree(low: nat, free: seq<nat>, id: nat, serial: map<nat, nat>, carrier: seq<Option<nat>>)
    requires Corresponds(low, free, {id}, serial, carrier)
    ensures Corresponds(low, free + [id], {}, serial, carrier)
    ensures forall i: nat :: Live(low, free, {id}, i) <==> Live(low, free + [id], {}, i)
  {
    assert forall i: nat :: i in free + [id] <==> i in free || i == id;
    LiveOnly(low, free, {id}, free + [id], {}, serial, carrier);
  }

  /** The event in hand starts to carry the next forwarded message. */
  lemma LiveAfterQueue(low: nat, free: seq<nat>, hand: set<nat>, serial: map<nat, nat>, carrier: seq<Option<nat>>,
                       id: nat)
    requires id < low && id !in free && id !in hand && Corresponds(low, free, hand + {id}, serial, carrier)
    ensures Corresponds(low, free, hand, serial[id := |carrier|], carrier + [Some(id)])
    ensures forall i: nat :: Live(low, free, hand, i) <==> i == id || Live(low, free, hand + {id}, i)
  {
    assert forall i: nat :: Live(low, free, hand, i) <==> i == id || Live(low, free, hand + {id}, i);
  }

  /** The event in hand has delivered its message. */
  lemma LiveAfterCompletion(low: nat, free: seq<nat>, serial: map<nat, nat>, carrier: seq<Option<nat>>, id: nat)
    requires Live(low, free, {}, id) && Corresponds(low, free, {}, serial, carrier)
    ensures serial[id] < |carrier| && Corresponds(low, free, {id}, serial, carrier[serial[id] := None])
    ensures forall i: nat :: Live(low, free, {id}, i) ==> Live(low, free, {}, i)
  {
    assert forall i: nat :: Live(low, free, {id}, i) <==> i != id && Live(low, free, {}, i);
  }

  lemma LastOf(free: seq<nat>)
    requires free != [] && Distinct(free)
    ensures var less, id := free[..|free| - 1], free[|free| - 1];
      Distinct(less) && forall i: nat :: i in less <==> i in free && i != id
  {
    var less, id := free[..|free| - 1], free[|free| - 1];
    assert free == less + [id];
  }

  /** Every completion is booked once, and what was forwarded and not completed occupies the events
      that are not free. */
  ghost predicate Booked(order: seq<nat>, results: seq<int>, completed: set<nat>, forwarded: nat, free: nat, low: nat) {
    |order| == |results| && Distinct(order) && (forall s :: s in completed <==> s in order) &&
    forwarded + free == |order| + low
  }

  lemma BookOne(order: seq<nat>, results: seq<int>, completed: set<nat>, forwarded: nat, free: nat, low: nat,
                s: nat, res: int)
    requires Booked(order, results, completed, forwarded, free, low) && s !in completed
    ensures Booked(order + [s], results + [res], completed + {s}, forwarded, free + 1, low)
  {
    assert forall i :: 0 <= i < |order| ==> order[i] in order;
  }

  lemma BookForward(order: seq<nat>, results: seq<int>, completed: set<nat>, forwarded: nat, free: nat, low: nat)
    requires Booked(order, results, completed, forwarded, free, low) && free > 0
    ensures Booked(order, results, completed, forwarded + 1, free - 1, low)
  {}

  // --- What a handler does to the queues ---------------------------------------------------------------

  /** The submission queue, what the kernel holds, and which message each send carries. */
  datatype Queues = Queues(pending: seq<Sqe>, submitted: map<nat, Op>, serial: map<nat, nat>)

  /** The event of a receive or tick is queued again, after the send of message `next`, carried by an
      event that was free, if there is something to forward. The event of a send is just gone. */
  ghost predicate Moved(n: nat, main: bool, q: Queues, r: Queues, ev: nat, forwards: bool, next: nat, free: seq<nat>) {
    r.submitted == q.submitted - {ev} &&
    if KindOf(n, main, ev) == PeerTx then r.pending == q.pending && r.serial == q.serial
    else
      var again := [Sqe(OpFor(KindOf(n, main, ev)), ev)];
      if forwards then
        exists id :: id in free && r.serial == q.serial[id := next] &&
          r.pending == q.pending + [Sqe(SendClient, id)] + again
      else r.serial == q.serial && r.pending == q.pending + again
  }

  // --- Events as tasks -----------------------------------------------------------------------------------

  /** What the operation on event i is for. */
  function TaskOf(n: nat, main: bool, serial: map<nat, nat>, i: nat): Task {
    match KindOf(n, main, i)
    case ClientRx => ClientReceive
    case PeerRx => PeerReceive
    case Timer => Tick
    case _ => Send(if i in serial then serial[i] else 0)
  }

  function QueuedTasks(n: nat, main: bool, serial: map<nat, nat>, pending: seq<Sqe>): (tasks: seq<Task>)
    ensures |tasks| == |pending|
    ensures forall k :: 0 <= k < |pending| ==> tasks[k] == TaskOf(n, main, serial, pending[k].ev)
  {
    seq(|pending|, k requires 0 <= k < |pending| => TaskOf(n, main, serial, pending[k].ev))
  }

  ghost function HeldTasks(n: nat, main: bool, serial: map<nat, nat>, submitted: map<nat, Op>): set<Task> {
    set i | i in submitted :: TaskOf(n, main, serial, i)
  }

  ghost function RingOf(n: nat, main: bool, q: Queues, outcome: Outcome, trace: seq<Event>, sent: seq<nat>,
                        results: seq<int>, reports: nat): Ring {
    Ring(outcome, QueuedTasks(n, main, q.serial, q.pending), HeldTasks(n, main, q.serial, q.submitted),
      trace, sent, results, reports)
  }

  /** No two events held by the kernel are for the same task. */
  ghost predicate TasksApart(n: nat, main: bool, q: Queues) {
    forall i, j :: i in q.submitted && j in q.submitted && i != j ==>
      TaskOf(n, main, q.serial, i) != TaskOf(n, main, q.serial, j)
  }

  lemma EventsAreApart(n: nat, main: bool, free: seq<nat>, q: Queues, carrier: seq<Option<nat>>)
    requires n >= 3 && ArmedOnce(n, main, free, q.pending, q.submitted, {})
    requires Corresponds(if main then n - 3 else n - 2, free, {}, q.serial, carrier)
    ensures TasksApart(n, main, q)
  {
    var low := if main then n - 3 else n - 2;
    forall i | i in q.submitted && KindOf(n, main, i) == PeerTx
      ensures i in q.serial && q.serial[i] < |carrier| && carrier[q.serial[i]] == Some(i)
    {
      assert Live(low, free, {}, i);
    }
  }

  /** The event of an operation, by what the operation is for. */
  function EventOf(n: nat, main: bool, carrier: seq<Option<nat>>, task: Task): Option<nat>
    requires n >= 3
  {
    match task
    case ClientReceive => Some(n - 1)
    case PeerReceive => Some(n - 2)
    case Tick => if main then Some(n - 3) else None
    case Send(s) => if s < |carrier| then carrier[s] else None
  }

  lemma EventOfTaskOf(n: nat, main: bool, free: seq<nat>, q: Queues, carrier: seq<Option<nat>>, i: nat)
    requires n >= 3 && ArmedOnce(n, main, free, q.pending, q.submitted, {}) && i in q.submitted
    requires Corresponds(if main then n - 3 else n - 2, free, {}, q.serial, carrier)
    ensures EventOf(n, main, carrier, TaskOf(n, main, q.serial, i)) == Some(i)
  {
    if KindOf(n, main, i) == PeerTx {
      assert Live(if main then n - 3 else n - 2, free, {}, i);
    }
  }

  lemma TaskOfEventOf(n: nat, main: bool, free: seq<nat>, q: Queues, carrier: seq<Option<nat>>, task: Task)
    requires n >= 3 && EventOf(n, main, carrier, task).Some?
    requires Corresponds(if main then n - 3 else n - 2, free, {}, q.serial, carrier)
    ensures TaskOf(n, main, q.serial, EventOf(n, main, carrier, task).value) == task
  {}

  /** The kernel holds a task exactly if it holds its event. */
  lemma HoldsTask(n: nat, main: bool, free: seq<nat>, q: Queues, carrier: seq<Option<nat>>, task: Task)
    requires n >= 3 && ArmedOnce(n, main, free, q.pending, q.submitted, {})
    requires Corresponds(if main then n - 3 else n - 2, free, {}, q.serial, carrier)
    ensures task in HeldTasks(n, main, q.serial, q.submitted) <==>
      EventOf(n, main, carrier, task).Some? && EventOf(n, main, carrier, task).value in q.submitted
  {
    hide ArmedOnce, Corresponds, TaskOf, EventOf;
    if i :| i in q.submitted && TaskOf(n, main, q.serial, i) == task {
      EventOfTaskOf(n, main, free, q, carrier, i);
    }
    if EventOf(n, main, carrier, task).Some? {
      TaskOfEventOf(n, main, free, q, carrier, task);
    }
  }

  lemma HeldWithout(n: nat, main: bool, q: Queues, ev: nat)
    requires TasksApart(n, main, q) && ev in q.submitted
    ensures HeldTasks(n, main, q.serial, q.submitted - {ev}) ==
      HeldTasks(n, main, q.serial, q.submitted) - {TaskOf(n, main, q.serial, ev)}
  {
    hide TaskOf;
  }

  lemma HeldWith(n: nat, main: bool, serial: map<nat, nat>, submitted: map<nat, Op>, ev: nat, op: Op)
    ensures HeldTasks(n, main, serial, submitted[ev := op]) ==
      HeldTasks(n, main, serial, submitted) + {TaskOf(n, main, serial, ev)}
  {
    hide TaskOf;
    var one := submitted[ev := op];
    assert forall i :: i in one <==> i in submitted || i == ev;
    assert TaskOf(n, main, serial, ev) in HeldTasks(n, main, serial, one);
  }

  /** What an event without an operation carries does not matter. */
  lemma SerialOfIdle(n: nat, main: bool, q: Queues, id: nat, next: nat, submitted: map<nat, Op>)
    requires id !in submitted && forall k :: 0 <= k < |q.pending| ==> q.pending[k].ev != id
    ensures QueuedTasks(n, main, q.serial[id := next], q.pending) == QueuedTasks(n, main, q.serial, q.pending)
    ensures HeldTasks(n, main, q.serial[id := next], submitted) == HeldTasks(n, main, q.serial, submitted)
  {
    forall i | i != id
      ensures TaskOf(n, main, q.serial[id := next], i) == TaskOf(n, main, q.serial, i)
    {}
    hide TaskOf;
  }

  lemma QueuedWith(n: nat, main: bool, serial: map<nat, nat>, pending: seq<Sqe>, e: Sqe)
    ensures QueuedTasks(n, main, serial, pending + [e]) ==
      QueuedTasks(n, main, serial, pending) + [TaskOf(n, main, serial, e.ev)]
  {
    hide TaskOf;
  }

  /** The tasks that a handler queues. */
  function Requeued(n: nat, main: bool, ev: nat, forwards: bool, next: nat): seq<Task> {
    match KindOf(n, main, ev)
    case ClientRx => [ClientReceive]
    case PeerRx => if forwards then [Send(next), PeerReceive] else [PeerReceive]
    case Timer => [Tick]
    case _ => []
  }

  lemma MovedTasks(n: nat, main: bool, free: seq<nat>, q: Queues, r: Queues, carrier: seq<Option<nat>>, ev: nat,
                   forwards: bool, next: nat)
    requires n >= 3 && ArmedOnce(n, main, free, q.pending, q.submitted, {}) && ev in q.submitted
    requires Corresponds(if main then n - 3 else n - 2, free, {}, q.serial, carrier)
    requires forall k :: 0 <= k < |free| ==> KindOf(n, main, free[k]) == PeerTx
    requires forwards ==> KindOf(n, main, ev) == PeerRx
    requires Moved(n, main, q, r, ev, forwards, next, free)
    ensures HeldTasks(n, main, r.serial, r.submitted) ==
      HeldTasks(n, main, q.serial, q.submitted) - {TaskOf(n, main, q.serial, ev)}
    ensures QueuedTasks(n, main, r.serial, r.pending) ==
      QueuedTasks(n, main, q.serial, q.pending) + Requeued(n, main, ev, forwards, next)
  {
    EventsAreApart(n, main, free, q, carrier);
    HeldWithout(n, main, q, ev);
    var again := Sqe(OpFor(KindOf(n, main, ev)), ev);
    if forwards {
      var id :| id in free && r.serial == q.serial[id := next] &&
        r.pending == q.pending + [Sqe(SendClient, id)] + [again];
      assert KindOf(n, main, id) == PeerTx;
      SerialOfIdle(n, main, q, id, next, r.submitted);
      QueuedWith(n, main, r.serial, q.pending, Sqe(SendClient, id));
      QueuedWith(n, main, r.serial, q.pending + [Sqe(SendClient, id)], again);
    } else if KindOf(n, main, ev) != PeerTx {
      QueuedWith(n, main, r.serial, q.pending, again);
    }
  }

  /** What the reference makes of a completion that does not stop the worker, in terms of its event. */
  lemma ReferenceOfEvent(g: Config, r: Ring, c: Completion, n: nat, main: bool, serial: map<nat, nat>, ev: nat)
    requires r.outcome == Running && Reportable(g, r, c) && TaskOf(n, main, serial, ev) == c.task
    requires c.task == ClientReceive || c.task == PeerReceive ==> c.res >= 0
    requires !(Forwards(r.trace, c) && |Relayed(r.trace)| == |r.sent| + g.sends)
    ensures AfterCompletion(g, r, c) ==
      Ring(Running, r.queued + Requeued(n, main, ev, Forwards(r.trace, c), |Relayed(r.trace)|), r.held - {c.task},
        r.trace + EventsOf(c), r.sent + SerialPart(n, main, serial, ev), r.results + ResultPart(n, main, ev, c.res),
        r.reports + ReportPart(n, main, ev))
  {
    assert r.queued + [] == r.queued && r.sent + [] == r.sent && r.results + [] == r.results;
    hide Relayed, TableAfter, Lookup, TickPossible, Registrations;
  }

  /** The completions that stop the worker. */
  lemma StopsAsReference(outcome: Outcome, g: Config, r: Ring, c: Completion)
    requires r.outcome == Running && Reportable(g, r, c)
    requires outcome == ReceiveFailed ==> (c.task == ClientReceive || c.task == PeerReceive) && c.res < 0
    requires outcome == OutOfEvents ==>
      c.task == PeerReceive && c.res >= 0 && Forwards(r.trace, c) && |Relayed(r.trace)| == |r.sent| + g.sends
    requires outcome == ReceiveFailed || outcome == OutOfEvents
    ensures AfterCompletion(g, r, c) ==
      r.(outcome := outcome, trace := if outcome == OutOfEvents then r.trace + EventsOf(c) else r.trace)
  {
    hide Relayed, Reportable, Forwards, EventsOf;
  }

  lemma SubmitStep(r: Ring, k: nat)
    requires k > 0
    ensures Submit(r, k) == Submit(Submit(r, 1), k - 1)
    ensures r.queued == [] ==> Submit(r, 1) == r
  {}

  lemma ReferenceStep(g: Config, r: Ring, batches: seq<Batch>, i: nat)
    requires i < |batches| && r.outcome == Running
    ensures var next := AfterBatch(g, Submit(r, batches[i].submitted), batches[i].completions);
      Reference(g, r, batches[i..]) == if next.outcome == Running then Reference(g, next, batches[i + 1..]) else next
  {
    hide AfterBatch, Submit;
    assert batches[i..][1..] == batches[i + 1..];
  }

  lemma AfterBatchStep(g: Config, r: Ring, cs: seq<Completion>, i: nat)
    requires i < |cs| && r.outcome == Running
    ensures var next := AfterCompletion(g, r, cs[i]);
      AfterBatch(g, r, cs[i..]) == if next.outcome == Running then AfterBatch(g, next, cs[i + 1..]) else next
  {
    hide AfterCompletion;
    assert cs[i..][1..] == cs[i + 1..];
  }

  /** The free list, the queues and the messages in flight fit together. */
  ghost predicate Consistent(n: nat, main: bool, free: seq<nat>, q: Queues, carrier: seq<Option<nat>>) {
    n >= 3 && ArmedOnce(n, main, free, q.pending, q.submitted, {}) &&
    Corresponds(if main then n - 3 else n - 2, free, {}, q.serial, carrier) &&
    forall k :: 0 <= k < |free| ==> KindOf(n, main, free[k]) == PeerTx
  }

  /** The message that the completion of event ev books as sent, if any. */
  function SerialPart(n: nat, main: bool, serial: map<nat, nat>, ev: nat): seq<nat> {
    if KindOf(n, main, ev) == PeerTx then [if ev in serial then serial[ev] else 0] else []
  }

  function ReportPart(n: nat, main: bool, ev: nat): nat {
    if KindOf(n, main, ev) == Timer then 1 else 0
  }

  function ResultPart(n: nat, main: bool, ev: nat, res: int): seq<int> {
    if KindOf(n, main, ev) == PeerTx then [res] else []
  }

  /** What a handler does to the queues is what the reference does to the tasks. */
  lemma MovedAsReference(g: Config, r: Ring, c: Completion, n: nat, main: bool, free: seq<nat>, q: Queues,
                         after: Queues, carrier: seq<Option<nat>>, ev: nat)
    requires Consistent(n, main, free, q, carrier) && ev in q.submitted
    requires r == RingOf(n, main, q, Running, r.trace, r.sent, r.results, r.reports) && |carrier| == |Relayed(r.trace)|
    requires Reportable(g, r, c) && TaskOf(n, main, q.serial, ev) == c.task
    requires c.task == ClientReceive || c.task == PeerReceive ==> c.res >= 0
    requires !(Forwards(r.trace, c) && |Relayed(r.trace)| == |r.sent| + g.sends)
    requires Moved(n, main, q, after, ev, Forwards(r.trace, c), |carrier|, free)
    ensures AfterCompletion(g, r, c) == RingOf(n, main, after, Running, r.trace + EventsOf(c),
      r.sent + SerialPart(n, main, q.serial, ev), r.results + ResultPart(n, main, ev, c.res),
      r.reports + ReportPart(n, main, ev))
  {
    assert Forwards(r.trace, c) ==> KindOf(n, main, ev) == PeerRx;
    hide Relayed, Reportable, Moved, ArmedOnce, Corresponds, AfterCompletion, KindOf, Requeued, EventsOf, HeldTasks,
      QueuedTasks, Forwards, SerialPart, ResultPart, ReportPart;
    ReferenceOfEvent(g, r, c, n, main, q.serial, ev);
    MovedTasks(n, main, free, q, after, carrier, ev, Forwards(r.trace, c), |carrier|);
  }

  // --- The worker ------------------------------------------------------------------------------------

  class ListenContext {
    const n: nat            // number of events, NUM_EVENTS in the program
    const threadIndex: nat
    const events: array<RingEvent>
    const buffer: array<byte>
    const relay: Relay
    var freeIds: seq<nat>
    var pending: seq<Sqe>         // submission queue entries not yet taken by the kernel
    var submitted: map<nat, Op>   // operations the kernel is working on

    var serial: map<nat, nat>               // for a send in flight, which forwarded message it carries
    var carrier: seq<Option<nat>>           // for a forwarded message, the event carrying it, or None once sent
    ghost var completed: map<nat, Message>  // for a completed send's message, what its event held at that moment
    ghost var order: seq<nat>               // forwarded messages in order of completion
    ghost var sendResults: seq<int>         // and the results of their sends

    predicate IsMain() { threadIndex == 0 }

    /** Ids below this one are for sends; above sit the receives and the main worker's timer. */
    function Low(): nat
      requires n >= 3
    {
      if IsMain() then n - 3 else n - 2
    }

    predicate InUse(i: nat)
      reads this`freeIds
    {
      i < n && i !in freeIds
    }

    predicate Shape() {
      3 <= n <= QUEUE_DEPTH && events.Length == n && buffer.Length == MEMORY_PER_PACKET * n
    }

    ghost predicate FreeList()
      requires Shape()
      reads this`freeIds
    {
      Distinct(freeIds) && forall k :: 0 <= k < |freeIds| ==> freeIds[k] < Low()
    }

    function KindAt(i: nat): EventType {
      KindOf(n, IsMain(), i)
    }

    ghost predicate Kinds()
      requires Shape()
      reads this`freeIds, events
    {
      forall i: nat :: InUse(i) ==> RecordOk(i, events[i])
    }

    ghost predicate RecordOk(i: nat, e: RingEvent)
      requires Shape()
    {
      e.kind == KindAt(i) && e.index == i &&
      (e.kind != Timer ==> e.iovBase == MEMORY_PER_PACKET * i && e.iovLen <= MEMORY_PER_PACKET) &&
      (e.kind == ClientRx || e.kind == PeerRx ==> e.iovLen == MEMORY_PER_PACKET) &&
      (e.kind == Timer ==>
        e.iovBase == STATISTICS_TIMEOUT_MS / 1000 && e.iovLen == STATISTICS_TIMEOUT_MS % 1000 * 1000000)
    }

    ghost predicate Armed(hand: set<nat>)
      reads this`freeIds, this`pending, this`submitted
    {
      ArmedOnce(n, IsMain(), freeIds, pending, submitted, hand)
    }

    /** The send event i holds exactly the message m in its own slice. */
    ghost predicate HoldsMessage(i: nat, m: Message)
      requires Shape()
      reads events, buffer
    {
      i < n && events[i].address == m.to && events[i].iovLen == |m.bytes| &&
      MEMORY_PER_PACKET * i + |m.bytes| <= buffer.Length &&
      buffer[MEMORY_PER_PACKET * i..MEMORY_PER_PACKET * i + |m.bytes|] == m.bytes
    }

    /** Live sends and forwarded messages not yet sent correspond one to one, and every live send
        holds its message unchanged. */
    ghost predicate Payloads(forwarded: seq<Message>, hand: set<nat>)
      requires Shape()
      reads this`freeIds, this`serial, this`carrier, events, buffer
    {
      |carrier| == |forwarded| && Corresponds(Low(), freeIds, hand, serial, carrier) &&
      forall i: nat :: Live(Low(), freeIds, hand, i) ==> HoldsItsMessage(i, forwarded)
    }

    ghost predicate HoldsItsMessage(i: nat, forwarded: seq<Message>)
      requires Shape()
      reads this`serial, events, buffer
    {
      i in serial && serial[i] < |forwarded| && HoldsMessage(i, forwarded[serial[i]])
    }

    /** A forwarded message is either carried by a send or was completed, once, with its own bytes
        and address. */
    ghost predicate Deliveries(forwarded: seq<Message>)
      reads this`carrier, this`completed
    {
      |carrier| == |forwarded| &&
      (forall s :: 0 <= s < |carrier| ==> (carrier[s].None? <==> s in completed)) &&
      forall s :: s in completed ==> s < |carrier| && completed[s] == forwarded[s]
    }

    ghost predicate Accounts()
      reads this`sendResults, relay
    {
      relay.Valid() && threadIndex < |relay.perThread| &&
      relay.ledger[threadIndex].outgoing == Counted(sendResults) &&
      relay.ledger[threadIndex].incoming == Handed(relay.trace) &&
      forall i :: 0 <= i < |sendResults| ==> INT32_MIN <= sendResults[i] < TWO_TO_THE_31
    }

    /** Every completion has been booked once; sends in flight and free events share the ids below Low. */
    ghost predicate Finished()
      requires Shape()
      reads this`order, this`sendResults, this`completed, this`carrier, this`freeIds
    {
      Booked(order, sendResults, completed.Keys, |carrier|, |freeIds|, Low())
    }

    ghost predicate Inv(hand: set<nat>)
      reads this, events, buffer, relay
    {
      Shape() && FreeList() && Kinds() && Armed(hand) && Payloads(relay.forwarded, hand) &&
      Deliveries(relay.forwarded) && Accounts() && Finished()
    }

    /** The state at the head of the loop. */
    ghost predicate Valid()
      reads this, events, buffer, relay
    {
      Inv({})
    }

    /** Sends in flight: allocated and not yet released. */
    ghost function InFlight(): (ids: set<nat>)
      requires Shape()
      reads this`freeIds
    {
      Below(Low()) - Elements(freeIds)
    }

    constructor (threadIndex: nat, n: nat, threads: nat)
      requires 3 <= n <= QUEUE_DEPTH && threadIndex < threads
      ensures this.n == n && this.threadIndex == threadIndex
      ensures Shape() && fresh(events) && fresh(buffer) && fresh(relay)
      ensures freeIds == FirstIds(n) && pending == [] && submitted == map[]
      ensures carrier == [] && completed == map[] && order == [] && sendResults == []
      ensures relay.trace == [] && relay.forwarded == [] && relay.reports == [] && Accounts() &&
        |relay.perThread| == threads
    {
      this.n, this.threadIndex := n, threadIndex;
      events := new RingEvent[n](_ => RingEvent(Invalid, 0, 0, 0, Endpoint(0, 0)));
      buffer := new byte[MEMORY_PER_PACKET * n](_ => 0);
      relay := new Relay(threads);
      var ids: seq<nat> := [];
      for i := 0 to n
        invariant ids == FirstIds(i)
      {
        ids := ids + [i];
      }
      freeIds := ids;
      pending, submitted := [], map[];
      serial, carrier, completed, order, sendResults := map[], [], map[], [], [];
    }

    /** During start-up the free list still counts from 0, and no send is in flight. */
    ghost predicate Starting(k: nat)
      requires Shape()
      reads this, events
    {
      k <= n && freeIds == FirstIds(k) && Kinds() && Armed({})
    }

    /** Allocates the next event from the end of the free list and arms it. */
    method ArmNext(ghost k: nat, kind: EventType)
      requires Shape() && k < n && Starting(k + 1) && kind == KindAt(k) && kind != PeerTx
      modifies this`freeIds, this`pending, events
      ensures Starting(k)
      ensures pending == old(pending) + [Sqe(OpFor(kind), k)]
    {
      FirstIdsHolds(k);
      FirstIdsHolds(k + 1);
      TakeFree(n, IsMain(), freeIds, pending, submitted, {});
      hide ArmedOnce;
      var id := AllocEvent(kind);
      assert id == Some(k) && freeIds == FirstIds(k);
      if kind == Timer {
        WriteTimeout(id.value);
      }
      Arm(OpFor(kind), id.value, {});
    }

    method ArmReceives()
      requires Shape() && Starting(n) && pending == []
      modifies this`freeIds, this`pending, events
      ensures Starting(n - 2) && pending == [Sqe(RecvClient, n - 1), Sqe(RecvPeer, n - 2)]
    {
      assert KindAt(n - 1) == ClientRx && KindAt(n - 2) == PeerRx;
      assert OpFor(ClientRx) == RecvClient && OpFor(PeerRx) == RecvPeer;
      hide *;
      ArmNext(n - 1, ClientRx);
      ArmNext(n - 2, PeerRx);
    }

    /** Arms the receives, and the timer on the main worker. */
    method ArmAll()
      requires Shape() && freeIds == FirstIds(n) && pending == [] && submitted == map[]
      modifies this`freeIds, this`pending, events
      ensures Starting(Low())
      ensures IsMain() ==> pending == [Sqe(RecvClient, n - 1), Sqe(RecvPeer, n - 2), Sqe(Timeout, n - 3)]
      ensures !IsMain() ==> pending == [Sqe(RecvClient, n - 1), Sqe(RecvPeer, n - 2)]
    {
      NothingInUse();
      assert IsMain() ==> KindAt(n - 3) == Timer;
      assert OpFor(Timer) == Timeout;
      assert Low() == if IsMain() then n - 3 else n - 2;
      hide *;
      ArmReceives();
      if IsMain() {
        ArmNext(n - 3, Timer);
      }
    }

    lemma NothingInUse()
      requires Shape() && freeIds == FirstIds(n) && pending == [] && submitted == map[]
      ensures Starting(n)
    {
      FirstIdsHolds(n);
    }

    /** What a worker does before its loop. */
    method Start()
      requires Shape() && freeIds == FirstIds(n) && pending == [] && submitted == map[]
      requires carrier == [] && completed == map[] && order == [] && sendResults == []
      requires relay.trace == [] && relay.forwarded == [] && relay.reports == [] && Accounts()
      modifies this`freeIds, this`pending, events
      ensures Valid() && RingNow(Running) == Initial(Setup())
    {
      hide Accounts, Starting, Valid, RingNow, Setup, Initial;
      ArmAll();
      StartedIsValid();
      StartedIsInitial();
    }

    lemma StartedIsInitial()
      requires n >= 3 && submitted == map[] && order == [] && sendResults == [] && relay.trace == []
      requires relay.reports == []
      requires IsMain() ==> pending == [Sqe(RecvClient, n - 1), Sqe(RecvPeer, n - 2), Sqe(Timeout, n - 3)]
      requires !IsMain() ==> pending == [Sqe(RecvClient, n - 1), Sqe(RecvPeer, n - 2)]
      ensures RingNow(Running) == Initial(Setup())
    {
      assert HeldTasks(n, IsMain(), serial, map[]) == {};
      assert QueuedTasks(n, IsMain(), serial, pending) == Initial(Setup()).queued;
    }

    lemma StartedIsValid()
      requires Shape() && Starting(Low()) && Accounts()
      requires carrier == [] && completed == map[] && order == [] && sendResults == [] && relay.forwarded == []
      ensures Valid()
    {
      hide Accounts, Armed, Kinds;
      FirstIdsHolds(Low());
    }

    /** Writes the timeout over the event's io vector. */
    method WriteTimeout(id: nat)
      requires Shape() && id < n
      modifies events
      ensures events[id] == old(events[id]).(
        iovBase := STATISTICS_TIMEOUT_MS / 1000, iovLen := STATISTICS_TIMEOUT_MS % 1000 * 1000000)
      ensures forall i :: 0 <= i < n && i != id ==> events[i] == old(events[i])
    {
      events[id] := events[id].(
        iovBase := STATISTICS_TIMEOUT_MS / 1000, iovLen := STATISTICS_TIMEOUT_MS % 1000 * 1000000);
    }

    // --- The pool -------------------------------------------------------------------------------------

    /** The last id of the free list, with its record reset to its own slice; None is the abort. */
    method AllocEvent(kind: EventType) returns (id: Option<nat>)
      requires Shape() && forall k :: 0 <= k < |freeIds| ==> freeIds[k] < n
      modifies this`freeIds, events
      ensures id.None? <==> old(freeIds) == []
      ensures id.None? ==> freeIds == old(freeIds) && events[..] == old(events[..])
      ensures id.Some? ==>
        id.value == old(freeIds)[|old(freeIds)| - 1] && freeIds == old(freeIds)[..|old(freeIds)| - 1] && id.value < n &&
        events[id.value] ==
          RingEvent(kind, id.value, MEMORY_PER_PACKET * id.value, MEMORY_PER_PACKET, old(events[id.value].address)) &&
        forall i :: 0 <= i < n && i != id.value ==> events[i] == old(events[i])
    {
      if |freeIds| == 0 {
        return None;
      }
      var freeId := freeIds[|freeIds| - 1];
      freeIds := freeIds[..|freeIds| - 1];
      events[freeId] := RingEvent(kind, freeId, MEMORY_PER_PACKET * freeId, MEMORY_PER_PACKET, events[freeId].address);
      id := Some(freeId);
    }

    method ReleaseEvent(id: nat)
      requires Shape() && id < n && events[id].index == id
      modifies this`freeIds
      ensures freeIds == old(freeIds) + [id]
    {
      freeIds := freeIds + [events[id].index];
    }

    /** Queues an operation on event `id`, unless the queue is full: false is the abort. */
    method AddSqe(op: Op, id: nat) returns (ok: bool)
      modifies this`pending
      ensures ok <==> |old(pending)| < QUEUE_DEPTH
      ensures ok ==> pending == old(pending) + [Sqe(op, id)]
    {
      ok := |pending| < QUEUE_DEPTH;
      if ok {
        pending := pending + [Sqe(op, id)];
      }
    }

    /** The queue never fills: its entries are distinct events, and some event is not among them. */
    lemma PendingBound(hand: set<nat>, absent: nat)
      requires Shape() && Armed(hand)
      requires absent < n && (absent in hand || absent in freeIds)
      ensures |pending| < n <= QUEUE_DEPTH
    {
      var ids := Ids(pending);
      assert forall k :: 0 <= k < |ids| ==> ids[k] == pending[k].ev;
      DistinctWithout(ids, n, absent);
    }

    /** Arms the event in hand; there is always room, so the abort cannot happen. */
    method Arm(op: Op, id: nat, ghost hand: set<nat>)
      requires Shape() && id !in hand && Armed(hand + {id}) && op == OpFor(KindAt(id))
      modifies this`pending
      ensures Armed(hand)
      ensures pending == old(pending) + [Sqe(op, id)]
    {
      PendingBound(hand + {id}, id);
      ArmOne(n, IsMain(), freeIds, pending, submitted, hand, id);
      var ok := AddSqe(op, id);
      assert ok;
    }

    /** The kernel is done with an operation: its event is now in hand. */
    method TakeCompletion(id: nat)
      requires Shape() && Armed({}) && id in submitted
      modifies this`submitted
      ensures Armed({id}) && InUse(id)
      ensures submitted == old(submitted) - {id}
    {
      TakeOne(n, IsMain(), freeIds, pending, submitted, id);
      submitted := submitted - {id};
    }

    /** Even when everything in use is queued at once, the queue has room. */
    lemma QueueNeverFull()
      requires Valid()
      ensures |pending| <= n <= QUEUE_DEPTH
    {
      var ids := Ids(pending);
      assert forall k :: 0 <= k < |ids| ==> ids[k] == pending[k].ev;
      DistinctBelow(ids, n);
    }

    /** The free list and the sends in flight share the ids below Low. */
    lemma InFlightCount()
      requires Shape() && FreeList()
      ensures |InFlight()| == Low() - |freeIds|
      ensures |InFlight()| == Low() <==> freeIds == []
    {
      DistinctBelow(freeIds, Low());
    }

    /** Operations in flight never share a slice of the slab. */
    lemma SlicesDisjoint(i: nat, j: nat)
      requires Valid() && InUse(i) && InUse(j) && i != j
      requires events[i].kind != Timer && events[j].kind != Timer
      ensures events[i].iovBase + events[i].iovLen <= buffer.Length
      ensures events[i].iovBase + events[i].iovLen <= events[j].iovBase ||
        events[j].iovBase + events[j].iovLen <= events[i].iovBase
    {}

    // --- Sending ----------------------------------------------------------------------------------------

    /** Takes the last free event, which is not yet a live send; no live send is touched. */
    method TakeSendEvent(ghost forwarded: seq<Message>) returns (id: nat)
      requires Shape() && FreeList() && Kinds() && freeIds != []
      modifies this`freeIds, events
      ensures id == old(freeIds)[|old(freeIds)| - 1] && freeIds == old(freeIds)[..|old(freeIds)| - 1]
      ensures id < Low() && InUse(id) && FreeList() && Kinds()
      ensures forall i: nat :: i < n && i != id && old(HoldsItsMessage(i, forwarded)) ==> HoldsItsMessage(i, forwarded)
    {
      LastOf(freeIds);
      hide Distinct;
      var taken := AllocEvent(PeerTx);
      id := taken.value;
    }

    /** What becomes of the books when the last free event is taken in hand. */
    lemma FreeTaken(hand: set<nat>)
      requires Shape() && FreeList() && freeIds != [] && Armed(hand)
      requires Corresponds(Low(), freeIds, hand, serial, carrier)
      ensures var less, id := freeIds[..|freeIds| - 1], freeIds[|freeIds| - 1];
        ArmedOnce(n, IsMain(), less, pending, submitted, hand + {id}) &&
        Corresponds(Low(), less, hand + {id}, serial, carrier) &&
        forall i: nat :: Live(Low(), freeIds, hand, i) <==> Live(Low(), less, hand + {id}, i)
    {
      TakeFree(n, IsMain(), freeIds, pending, submitted, hand);
      LiveAfterTake(Low(), freeIds, hand, serial, carrier);
    }

    /** Takes a free event for a send; None is the out-of-events abort. */
    method AllocSend(ghost forwarded: seq<Message>, ghost hand: set<nat>) returns (id: Option<nat>)
      requires Shape() && FreeList() && Kinds() && Armed(hand) && Payloads(forwarded, hand)
      modifies this`freeIds, events
      ensures id.None? <==> old(freeIds) == []
      ensures id.None? ==> freeIds == []
      ensures id.Some? ==> id.value < Low() && InUse(id.value)
      ensures id.Some? ==> FreeList() && Kinds()
      ensures id.Some? ==> Armed(hand + {id.value}) && Payloads(forwarded, hand + {id.value})
      ensures id.Some? ==> id.value in old(freeIds) && |freeIds| == |old(freeIds)| - 1
    {
      if freeIds == [] {
        return None;
      }
      FreeTaken(hand);
      hide ArmedOnce, Corresponds, Distinct, FreeList, Kinds, HoldsItsMessage;
      var taken := TakeSendEvent(forwarded);
      id := Some(taken);
    }

    /** Fills in the send event: its address, its slice, and the length. */
    method FillSend(id: nat, to: Endpoint, base: nat, len: nat)
      requires Shape() && id < n && len <= MEMORY_PER_PACKET
      requires MEMORY_PER_PACKET * (id + 1) <= base && base + len <= buffer.Length
      modifies events, buffer
      ensures HoldsMessage(id, Message(to, old(buffer[base..base + len])))
      ensures events[id] == old(events[id]).(address := to, iovLen := len)
      ensures forall i :: 0 <= i < n && i != id ==> events[i] == old(events[i])
      ensures forall b :: 0 <= b < buffer.Length && !(MEMORY_PER_PACKET * id <= b < MEMORY_PER_PACKET * (id + 1)) ==>
        buffer[b] == old(buffer[b])
    {
      events[id] := events[id].(address := to);
      forall j | 0 <= j < len {
        buffer[MEMORY_PER_PACKET * id + j] := buffer[base + j];
      }
      events[id] := events[id].(iovLen := len);
    }

    /** Copies the payload into the send's own slice; no other event's slice is touched. */
    method CopyPayload(id: nat, to: Endpoint, base: nat, len: nat, ghost forwarded: seq<Message>, ghost hand: set<nat>)
      requires Shape() && Kinds() && Armed(hand) && Payloads(forwarded, hand)
      requires id in hand && id < Low() && InUse(id)
      requires len <= MEMORY_PER_PACKET && MEMORY_PER_PACKET * (id + 1) <= base && base + len <= buffer.Length
      modifies events, buffer
      ensures HoldsMessage(id, Message(to, old(buffer[base..base + len])))
      ensures Kinds() && Armed(hand) && Payloads(forwarded, hand)
    {
      hide Armed, Corresponds;
      FillSend(id, to, base, len);
      forall i: nat | Live(Low(), freeIds, hand, i)
        ensures HoldsItsMessage(i, forwarded)
      {
        assert old(HoldsItsMessage(i, forwarded));
        OtherSlice(old(buffer[..]), buffer[..], id, i, |forwarded[serial[i]].bytes|);
      }
    }

    /** Queues the send, which now carries message m. */
    method QueueSend(id: nat, ghost m: Message, ghost forwarded: seq<Message>, ghost hand: set<nat>)
      requires Shape() && FreeList() && Kinds() && Armed(hand + {id}) && Payloads(forwarded, hand + {id})
      requires Deliveries(forwarded) && id !in hand && id < Low() && HoldsMessage(id, m)
      modifies this`pending, this`serial, this`carrier
      ensures Armed(hand) && Payloads(forwarded + [m], hand) && Deliveries(forwarded + [m])
      ensures pending == old(pending) + [Sqe(SendClient, id)]
      ensures serial == old(serial)[id := |old(carrier)|] && carrier == old(carrier) + [Some(id)]
    {
      LiveAfterQueue(Low(), freeIds, hand, serial, carrier, id);
      hide ArmedOnce, Corresponds;
      Arm(SendClient, id, hand);
      serial := serial[id := |carrier|];
      carrier := carrier + [Some(id)];
    }

    /** Copies the packet in the peer receive slice to a free event and queues it; false is the
        out-of-events abort. */
    method StartSend(to: Endpoint, len: nat, ghost forwarded: seq<Message>)
      returns (ok: bool, ghost sent: nat)
      requires Shape() && FreeList() && Kinds() && Armed({n - 2}) && Payloads(forwarded, {n - 2})
      requires Deliveries(forwarded) && len <= MEMORY_PER_PACKET
      modifies this`freeIds, this`pending, this`serial, this`carrier, events, buffer
      ensures ok <==> old(freeIds) != []
      ensures !ok ==> freeIds == []
      ensures ok ==> FreeList() && Kinds() && Armed({n - 2})
      ensures ok ==>
        var longer := forwarded +
          [Message(to, old(buffer[MEMORY_PER_PACKET * (n - 2)..MEMORY_PER_PACKET * (n - 2) + len]))];
        Payloads(longer, {n - 2}) && Deliveries(longer)
      ensures ok ==> sent in old(freeIds) && |freeIds| == |old(freeIds)| - 1
      ensures ok ==> pending == old(pending) + [Sqe(SendClient, sent)]
      ensures ok ==> serial == old(serial)[sent := |old(carrier)|] && carrier == old(carrier) + [Some(sent)]
    {
      ghost var m := Message(to, buffer[MEMORY_PER_PACKET * (n - 2)..MEMORY_PER_PACKET * (n - 2) + len]);
      var id := AllocSend(forwarded, {n - 2});
      if id.None? {
        return false, 0;
      }
      sent := id.value;
      CopyPayload(id.value, to, MEMORY_PER_PACKET * (n - 2), len, forwarded, {n - 2} + {id.value});
      QueueSend(id.value, m, forwarded, {n - 2});
      ok := true;
    }

    // --- Receive slots ------------------------------------------------------------------------------------

    predicate IsReceive(r: nat)
    {
      KindAt(r) == ClientRx || KindAt(r) == PeerRx
    }

    method WriteSlice(r: nat, bytes: seq<byte>)
      requires Shape() && r < n && |bytes| <= MEMORY_PER_PACKET
      modifies buffer
      ensures buffer[MEMORY_PER_PACKET * r..MEMORY_PER_PACKET * r + |bytes|] == bytes
      ensures forall b :: 0 <= b < buffer.Length && !(MEMORY_PER_PACKET * r <= b < MEMORY_PER_PACKET * (r + 1)) ==>
        buffer[b] == old(buffer[b])
    {
      forall j | 0 <= j < |bytes| {
        buffer[MEMORY_PER_PACKET * r + j] := bytes[j];
      }
    }

    /** Kernel: a receive completes with `bytes` in its slice; its event is now in hand. */
    method DeliverRx(r: nat, bytes: seq<byte>, from: Endpoint, ghost forwarded: seq<Message>)
      requires Shape() && Kinds() && Armed({}) && Payloads(forwarded, {})
      requires r in submitted && IsReceive(r) && |bytes| <= MEMORY_PER_PACKET
      modifies this`submitted, events, buffer
      ensures Kinds() && Armed({r}) && Payloads(forwarded, {r})
      ensures r < n && events[r].address == from && events[r].iovBase == MEMORY_PER_PACKET * r
      ensures buffer[MEMORY_PER_PACKET * r..MEMORY_PER_PACKET * r + |bytes|] == bytes
      ensures submitted == old(submitted) - {r}
    {
      LiveOnly(Low(), freeIds, {}, freeIds, {r}, serial, carrier);
      hide ArmedOnce, Corresponds;
      TakeCompletion(r);
      WriteSlice(r, bytes);
      events[r] := events[r].(address := from);
      forall i: nat | Live(Low(), freeIds, {r}, i)
        ensures HoldsItsMessage(i, forwarded)
      {
        assert old(HoldsItsMessage(i, forwarded));
        OtherSlice(old(buffer[..]), buffer[..], r, i, |forwarded[serial[i]].bytes|);
      }
    }

    /** Releases the receive event in hand and allocates one of its kind: always the same one, and
        never out of events, because nothing happens between the two. */
    method RearmRx(r: nat, ghost forwarded: seq<Message>)
      requires Shape() && FreeList() && Kinds() && Armed({r}) && Payloads(forwarded, {r}) && IsReceive(r)
      modifies this`freeIds, this`pending, events
      ensures freeIds == old(freeIds)
      ensures FreeList() && Kinds() && Armed({}) && Payloads(forwarded, {})
      ensures pending == old(pending) + [Sqe(OpFor(KindAt(r)), r)]
    {
      LiveOnly(Low(), freeIds, {r}, freeIds, {}, serial, carrier);
      hide ArmedOnce, Corresponds, HoldsItsMessage;
      var kind := events[r].kind;
      ReleaseAndAlloc(r, kind, forwarded);
      assert {r} == {} + {r};
      Arm(OpFor(kind), r, {});
    }

    method ReleaseAndAlloc(r: nat, kind: EventType, ghost forwarded: seq<Message>)
      requires Shape() && FreeList() && r < n && events[r].index == r
      modifies this`freeIds, events
      ensures freeIds == old(freeIds)
      ensures events[r] == RingEvent(kind, r, MEMORY_PER_PACKET * r, MEMORY_PER_PACKET, old(events[r].address))
      ensures forall i :: 0 <= i < n && i != r ==> events[i] == old(events[i])
      ensures forall i: nat :: i < n && i != r && old(HoldsItsMessage(i, forwarded)) ==> HoldsItsMessage(i, forwarded)
    {
      ReleaseEvent(r);
      var id := AllocEvent(kind);
      assert id == Some(r);
    }

    /** What the kernel reads for the send event i at this moment. */
    ghost function MessageIn(i: nat): Message
      requires Shape() && i < n && events[i].iovLen <= MEMORY_PER_PACKET
      reads events, buffer
    {
      Message(events[i].address, buffer[MEMORY_PER_PACKET * i..MEMORY_PER_PACKET * i + events[i].iovLen])
    }

    /** Books the completion of the message carried by the send in hand. */
    method CompleteMessage(id: nat, ghost forwarded: seq<Message>) returns (s: nat)
      requires Shape() && Payloads(forwarded, {}) && Deliveries(forwarded)
      requires id < Low() && id !in freeIds && events[id].iovLen <= MEMORY_PER_PACKET
      modifies this`carrier, this`completed
      ensures Payloads(forwarded, {id}) && Deliveries(forwarded)
      ensures s < |old(carrier)| && old(carrier)[s] == Some(id)
      ensures carrier == old(carrier)[s := None] && completed == old(completed)[s := MessageIn(id)]
      ensures s !in old(completed) && |completed| == |old(completed)| + 1
      ensures id in serial && s == serial[id] && completed.Keys == old(completed.Keys) + {s}
    {
      LiveAfterCompletion(Low(), freeIds, serial, carrier, id);
      assert carrier[serial[id]] == Some(id);
      hide Corresponds;
      s := serial[id];
      assert HoldsItsMessage(id, forwarded);
      completed := completed[s := MessageIn(id)];
      carrier := carrier[s := None];
    }

    /** Puts the send in hand back on the free list. */
    method ReleaseSend(id: nat, ghost forwarded: seq<Message>)
      requires Shape() && FreeList() && Kinds() && Armed({id}) && Payloads(forwarded, {id})
      requires id < Low() && InUse(id)
      modifies this`freeIds
      ensures FreeList() && Kinds() && Armed({}) && Payloads(forwarded, {})
      ensures freeIds == old(freeIds) + [id]
    {
      FreeOne(n, IsMain(), freeIds, pending, submitted, id);
      IndexOfRecord(id);
      LiveAfterFree(Low(), freeIds, id, serial, carrier);
      hide HoldsMessage, RecordOk, ArmedOnce, Corresponds;
      ReleaseEvent(id);
      assert forall i: nat :: i in freeIds <==> i in old(freeIds) || i == id;
    }

    lemma IndexOfRecord(id: nat)
      requires Shape() && Kinds() && InUse(id)
      ensures events[id].index == id
    {}

    /** A send has completed: its message is booked and its event goes back to the free list. */
    method FinishSend(id: nat, ghost forwarded: seq<Message>) returns (s: nat)
      requires Shape() && FreeList() && Kinds() && Armed({}) && Payloads(forwarded, {}) && Deliveries(forwarded)
      requires id in submitted && id < Low()
      modifies this`submitted, this`freeIds, this`carrier, this`completed
      ensures FreeList() && Kinds() && Armed({}) && Payloads(forwarded, {}) && Deliveries(forwarded)
      ensures freeIds == old(freeIds) + [id]
      ensures s < |old(carrier)| && old(carrier)[s] == Some(id) && carrier == old(carrier)[s := None]
      ensures |completed| == |old(completed)| + 1
      ensures id in serial && s == serial[id] && submitted == old(submitted) - {id}
      ensures s !in old(completed) && completed.Keys == old(completed.Keys) + {s}
    {
      hide Armed, Payloads, Deliveries, FreeList;
      TakeCompletion(id);
      s := CompleteMessage(id, forwarded);
      ReleaseSend(id, forwarded);
    }

    // --- Completions ----------------------------------------------------------------------------------------

    /** What the kernel may report: a completion of something submitted, with a result in range. */
    predicate Possible(c: Cqe)
      requires Shape()
      reads this, events, relay
    {
      c.ev in submitted && c.ev < n && INT32_MIN <= c.res < TWO_TO_THE_31 &&
      (IsReceive(c.ev) && c.res >= 0 ==> |c.bytes| == c.res <= MEMORY_PER_PACKET) &&
      (KindAt(c.ev) == PeerTx ==> c.res <= events[c.ev].iovLen) &&
      (KindAt(c.ev) == Timer ==> TickPossible(Some(c.updates), |relay.perThread|, threadIndex))
    }

    /** The datagrams that reach the session table when this completion is handled. */
    function EventsAt(c: Cqe): seq<Event>
    {
      match KindAt(c.ev)
      case PeerRx => Registrations(c.others) + [Peer(c.bytes)]
      case ClientRx => Registrations(c.others) + [Client(Datagram(c.from, c.bytes))]
      case _ => []
    }

    /** The result that this completion books, if it is that of a send. */
    function ResultOf(c: Cqe): seq<int> {
      ResultPart(n, IsMain(), c.ev, c.res)
    }

    /** The message that this completion books as sent. */
    ghost function SerialOf(c: Cqe): seq<nat>
      reads this`serial
    {
      SerialPart(n, IsMain(), serial, c.ev)
    }

    /** The datagram of this completion is for a session. */
    predicate Forwarding(trace: seq<Event>, c: Cqe) {
      KindAt(c.ev) == PeerRx && Lookup(TableAfter(trace + Registrations(c.others)), c.bytes).Some?
    }

    ghost function Now(): Queues
      reads this`pending, this`submitted, this`serial
    {
      Queues(pending, submitted, serial)
    }

    method HandlePeerRx(c: Cqe) returns (outcome: Outcome)
      requires Valid() && Possible(c) && KindAt(c.ev) == PeerRx && c.res >= 0
      modifies this, events, buffer, relay
      ensures (outcome == Running || outcome == OutOfEvents) && |relay.perThread| == old(|relay.perThread|)
      ensures sendResults == old(sendResults) + ResultOf(c) && order == old(order) + old(SerialOf(c))
      ensures relay.trace == old(relay.trace) + EventsAt(c) && relay.forwarded == Relayed(relay.trace)
      ensures outcome == OutOfEvents <==>
        old(freeIds) == [] && Lookup(TableAfter(old(relay.trace) + Registrations(c.others)), c.bytes).Some?
      ensures outcome == OutOfEvents ==> freeIds == []
      ensures outcome == Running ==> Valid()
      ensures outcome == Running ==>
        Moved(n, IsMain(), old(Now()), Now(), c.ev, Forwarding(old(relay.trace), c), old(|carrier|), old(freeIds))
      ensures relay.reports == old(relay.reports)
    {
      hide Booked, Armed, Payloads, Deliveries, TableAfter, Relayed, Conserved, Handed, Counted, Registrations, Lookup;
      var r := c.ev;
      DeliverRx(r, c.bytes, c.from, relay.forwarded);
      var packet := buffer[MEMORY_PER_PACKET * r..MEMORY_PER_PACKET * r + |c.bytes|];
      ghost var forwarded := relay.forwarded;
      var session := HandPeer(packet, c.others);
      outcome := SendAndRearm(r, session, |c.bytes|, forwarded);
    }

    /** Hands a peer packet to the relay, after others have registered clients. */
    method HandPeer(packet: seq<byte>, others: seq<Datagram>) returns (session: Option<Endpoint>)
      requires Accounts()
      modifies relay
      ensures Accounts() && |relay.perThread| == old(|relay.perThread|) && relay.reports == old(relay.reports)
      ensures relay.trace == old(relay.trace) + (Registrations(others) + [Peer(packet)])
      ensures relay.forwarded == Relayed(relay.trace)
      ensures session == Lookup(TableAfter(old(relay.trace) + Registrations(others)), packet)
      ensures relay.forwarded ==
        if session.Some? then old(relay.forwarded) + [Message(session.value, packet)] else old(relay.forwarded)
    {
      hide TableAfter, Relayed, Conserved, Handed, Counted, Registrations, Lookup;
      Regroup(relay.trace, Registrations(others), [Peer(packet)]);
      relay.OthersRegister(others);
      HandedStep(relay.trace, Peer(packet));
      session := relay.OnPeerReceived(threadIndex, packet);
    }

    /** Hands a client packet to the relay, after others have registered clients. */
    method HandClient(from: Endpoint, packet: seq<byte>, others: seq<Datagram>)
      requires Accounts()
      modifies relay
      ensures Accounts() && |relay.perThread| == old(|relay.perThread|) && relay.reports == old(relay.reports)
      ensures relay.trace == old(relay.trace) + (Registrations(others) + [Client(Datagram(from, packet))])
      ensures relay.forwarded == old(relay.forwarded) == Relayed(relay.trace)
    {
      hide TableAfter, Relayed, Conserved, Handed, Counted, Registrations;
      Regroup(relay.trace, Registrations(others), [Client(Datagram(from, packet))]);
      relay.OthersRegister(others);
      HandedStep(relay.trace, Client(Datagram(from, packet)));
      relay.OnClientReceived(threadIndex, from, packet);
    }

    /** What follows a peer receive: a send is queued if there is a session, and the receive again. */
    method SendAndRearm(r: nat, session: Option<Endpoint>, len: nat, ghost forwarded: seq<Message>)
      returns (outcome: Outcome)
      requires Shape() && FreeList() && Kinds() && Armed({r}) && Payloads(forwarded, {r}) && Deliveries(forwarded)
      requires r == n - 2 && len <= MEMORY_PER_PACKET && Finished()
      modifies this`freeIds, this`pending, this`serial, this`carrier, events, buffer
      ensures outcome == if session.Some? && old(freeIds) == [] then OutOfEvents else Running
      ensures outcome == OutOfEvents ==> freeIds == []
      ensures outcome == Running ==> FreeList() && Kinds() && Armed({}) && Finished()
      ensures outcome == Running ==>
        var bytes := old(buffer[MEMORY_PER_PACKET * r..MEMORY_PER_PACKET * r + len]);
        var longer := if session.Some? then forwarded + [Message(session.value, bytes)] else forwarded;
        Payloads(longer, {}) && Deliveries(longer)
      ensures outcome == Running && session.Some? ==> exists id ::
        id in old(freeIds) && serial == old(serial)[id := |old(carrier)|] &&
        pending == old(pending) + [Sqe(SendClient, id)] + [Sqe(RecvPeer, r)]
      ensures outcome == Running && session.None? ==>
        serial == old(serial) && pending == old(pending) + [Sqe(RecvPeer, r)]
    {
      hide Booked, Armed, Payloads, Deliveries, Kinds, FreeList;
      ghost var longer := forwarded;
      if session.Some? {
        longer := forwarded + [Message(session.value, buffer[MEMORY_PER_PACKET * r..MEMORY_PER_PACKET * r + len])];
        var ok, sent := StartSend(session.value, len, forwarded);
        if !ok {
          return OutOfEvents;
        }
        BookForward(order, sendResults, completed.Keys, |old(carrier)|, |old(freeIds)|, Low());
      }
      RearmRx(r, longer);
      outcome := Running;
    }

    /** The same, with the exhausted pool seen from the side of the sends in flight. */
    method HandlePeer(c: Cqe) returns (outcome: Outcome)
      requires Valid() && Possible(c) && KindAt(c.ev) == PeerRx && c.res >= 0
      modifies this, events, buffer, relay
      ensures (outcome == Running || outcome == OutOfEvents) && |relay.perThread| == old(|relay.perThread|)
      ensures sendResults == old(sendResults) + ResultOf(c) && order == old(order) + old(SerialOf(c))
      ensures relay.trace == old(relay.trace) + EventsAt(c) && relay.forwarded == Relayed(relay.trace)
      ensures outcome == OutOfEvents <==>
        |old(InFlight())| == Low() && Lookup(TableAfter(old(relay.trace) + Registrations(c.others)), c.bytes).Some?
      ensures outcome == OutOfEvents ==> |InFlight()| == Low()
      ensures outcome == Running ==> Valid()
      ensures outcome == Running ==>
        Moved(n, IsMain(), old(Now()), Now(), c.ev, Forwarding(old(relay.trace), c), old(|carrier|), old(freeIds))
      ensures relay.reports == old(relay.reports)
    {
      hide Armed, Payloads, Deliveries, Kinds, Accounts, TableAfter, Relayed, Conserved, Registrations, Lookup,
        EventsAt;
      InFlightCount();
      outcome := HandlePeerRx(c);
      if outcome == OutOfEvents {
        EmptyMeansAllInFlight();
      }
    }

    method HandleClientRx(c: Cqe)
      requires Valid() && Possible(c) && KindAt(c.ev) == ClientRx && c.res >= 0
      modifies this, events, buffer, relay
      ensures Valid() && |relay.perThread| == old(|relay.perThread|)
      ensures relay.trace == old(relay.trace) + EventsAt(c) && relay.forwarded == Relayed(relay.trace)
      ensures sendResults == old(sendResults) + ResultOf(c) && order == old(order) + old(SerialOf(c))
      ensures Moved(n, IsMain(), old(Now()), Now(), c.ev, Forwarding(old(relay.trace), c), old(|carrier|), old(freeIds))
      ensures relay.reports == old(relay.reports)
    {
      hide Booked, Armed, Payloads, Deliveries, TableAfter, Relayed, Conserved, Handed, Counted, Registrations;
      var r := c.ev;
      DeliverRx(r, c.bytes, c.from, relay.forwarded);
      HandClient(events[r].address, buffer[MEMORY_PER_PACKET * r..MEMORY_PER_PACKET * r + |c.bytes|], c.others);
      RearmRx(r, relay.forwarded);
    }

    /** Books a completed send with its result, and frees its event. */
    method BookSend(id: nat, res: int, ghost forwarded: seq<Message>)
      requires Shape() && FreeList() && Kinds() && Armed({}) && Payloads(forwarded, {}) && Deliveries(forwarded)
      requires Finished() && id in submitted && id < Low()
      modifies this`submitted, this`freeIds, this`carrier, this`completed, this`order, this`sendResults
      ensures FreeList() && Kinds() && Armed({}) && Payloads(forwarded, {}) && Deliveries(forwarded) && Finished()
      ensures submitted == old(submitted) - {id} && id in serial
      ensures order == old(order) + [serial[id]] && sendResults == old(sendResults) + [res]
    {
      hide Booked, Armed, Payloads, Deliveries, Kinds, FreeList;
      ghost var keys := completed.Keys;
      var s := FinishSend(id, forwarded);
      BookOne(order, sendResults, keys, |carrier|, |freeIds| - 1, Low(), s, res);
      order, sendResults := order + [s], sendResults + [res];
    }

    method HandleTx(c: Cqe)
      requires Valid() && Possible(c) && KindAt(c.ev) == PeerTx
      modifies this, relay`perThread, relay`ledger, relay`peerStarts
      ensures Valid() && |relay.perThread| == old(|relay.perThread|)
      ensures relay.trace == old(relay.trace) + EventsAt(c) && relay.forwarded == Relayed(relay.trace)
      ensures sendResults == old(sendResults) + ResultOf(c) && order == old(order) + old(SerialOf(c))
      ensures Moved(n, IsMain(), old(Now()), Now(), c.ev, Forwarding(old(relay.trace), c), old(|carrier|), old(freeIds))
      ensures relay.reports == old(relay.reports)
    {
      hide Booked, Armed, Payloads, Deliveries, Kinds, TableAfter, Relayed, Conserved, Handed, Counted;
      relay.OnSessionSent(threadIndex, AsUint32(c.res));
      CountedStep(sendResults, c.res);
      BookSend(c.ev, c.res, relay.forwarded);
    }

    method HandleTimer(c: Cqe)
      requires Valid() && Possible(c) && KindAt(c.ev) == Timer
      modifies this`submitted, this`pending, events, relay`perThread, relay`ledger, relay`reported, relay`reports
      ensures Valid() && |relay.perThread| == old(|relay.perThread|)
      ensures relay.trace == old(relay.trace) + EventsAt(c) && relay.forwarded == Relayed(relay.trace)
      ensures sendResults == old(sendResults) + ResultOf(c) && order == old(order) + old(SerialOf(c))
      ensures Moved(n, IsMain(), old(Now()), Now(), c.ev, Forwarding(old(relay.trace), c), old(|carrier|), old(freeIds))
      ensures |c.updates| == old(|relay.perThread|) && Interleavable(c.updates, old(|relay.perThread|))
      ensures var load := LoadSteps(old(relay.perThread), c.updates, |c.updates|);
        relay.reports == old(relay.reports) + [load.total] && relay.perThread == load.counters
    {
      hide Armed, Payloads, Deliveries, TableAfter, Relayed, Conserved, Handed, Counted;
      OthersKeepOwnLedger(relay.ledger, c.updates, |c.updates|, threadIndex);
      var _ := relay.LoadStatistics(c.updates);
      RearmTimer(c.ev, relay.forwarded);
    }

    method RearmTimer(id: nat, ghost forwarded: seq<Message>)
      requires Shape() && Kinds() && Armed({}) && Payloads(forwarded, {}) && id in submitted && KindAt(id) == Timer
      modifies this`submitted, this`pending, events
      ensures Kinds() && Armed({}) && Payloads(forwarded, {})
      ensures submitted == old(submitted) - {id} && pending == old(pending) + [Sqe(Timeout, id)]
    {
      hide ArmedOnce, Corresponds;
      TakeCompletion(id);
      WriteTimeout(id);
      assert {id} == {} + {id};
      Arm(Timeout, id, {});
      forall i: nat | Live(Low(), freeIds, {}, i)
        ensures HoldsItsMessage(i, forwarded)
      {
        assert old(HoldsItsMessage(i, forwarded));
      }
    }

    /** Handles one completion. The worker runs out of events exactly when a datagram is to be
        forwarded while every event below Low already carries a send; re-arming never fails. */
    method HandleCompletion(c: Cqe) returns (outcome: Outcome)
      requires Valid() && Possible(c)
      modifies this, events, buffer, relay
      ensures |relay.perThread| == old(|relay.perThread|)
      ensures outcome == ReceiveFailed <==> IsReceive(c.ev) && c.res < 0
      ensures outcome == ReceiveFailed ==> relay.trace == old(relay.trace)
      ensures outcome == OutOfEvents ==> relay.trace == old(relay.trace) + EventsAt(c)
      ensures outcome == OutOfEvents <==>
        Forwarding(old(relay.trace), c) && c.res >= 0 && |old(InFlight())| == Low()
      ensures outcome == OutOfEvents ==> |InFlight()| == Low()
      ensures outcome == Running ==> Valid() && relay.trace == old(relay.trace) + EventsAt(c)
      ensures outcome != Impossible && sendResults == old(sendResults) + ResultOf(c)
      ensures order == old(order) + old(SerialOf(c))
      ensures relay.forwarded == Relayed(relay.trace)
      ensures outcome == Running ==>
        Moved(n, IsMain(), old(Now()), Now(), c.ev, Forwarding(old(relay.trace), c), old(|carrier|), old(freeIds))
      ensures KindAt(c.ev) == Timer ==> Interleavable(c.updates, old(|relay.perThread|))
      ensures KindAt(c.ev) == Timer ==>
        var load := LoadSteps(old(relay.perThread), c.updates, |c.updates|);
        relay.reports == old(relay.reports) + [load.total] && relay.perThread == load.counters
      ensures KindAt(c.ev) != Timer ==> relay.reports == old(relay.reports)
    {
      assert events[c.ev].kind == KindAt(c.ev);
      hide Valid, KindOf, TableAfter, Relayed, Registrations, Lookup, TickPossible, InFlight, EventsAt, ResultOf,
        LoadSteps, Interleavable, Moved, SerialOf, Forwarding;
      outcome := Running;
      match events[c.ev].kind
      case PeerRx =>
        if c.res < 0 {
          return ReceiveFailed;
        }
        outcome := HandlePeer(c);
      case PeerTx => HandleTx(c);
      case ClientRx =>
        if c.res < 0 {
          return ReceiveFailed;
        }
        HandleClientRx(c);
      case Timer => HandleTimer(c);
      case Invalid => assert false;
    }

    lemma EmptyMeansAllInFlight()
      requires Shape() && freeIds == []
      ensures |InFlight()| == Low()
    {
      BelowSize(Low());
      assert InFlight() == Below(Low());
    }

    // --- Against the reference ------------------------------------------------------------------------------

    ghost function Setup(): Config
      requires n >= 3
      reads relay
    {
      Config(Low(), |relay.perThread|, threadIndex)
    }

    /** The worker as the reference sees it. */
    ghost function RingNow(outcome: Outcome): Ring
      reads this`pending, this`submitted, this`serial, this`order, this`sendResults, relay
    {
      RingOf(n, IsMain(), Now(), outcome, relay.trace, order, sendResults, |relay.reports|)
    }

    function EventFor(task: Task): Option<nat>
      requires Shape()
      reads this`carrier
    {
      EventOf(n, IsMain(), carrier, task)
    }

    function CqeFor(ev: nat, c: Completion): Cqe {
      Cqe(ev, c.res, c.bytes, c.from, c.others, c.updates)
    }

    /** The sends in flight are the messages forwarded and not completed. */
    lemma Outstanding()
      requires Valid()
      ensures |Relayed(relay.trace)| == |order| + |InFlight()| && |carrier| == |Relayed(relay.trace)|
      ensures |order| == |sendResults| == |completed|
    {
      InFlightCount();
      assert completed.Keys == Elements(order);
      DistinctSize(order);
      hide Relayed;
    }

    lemma TaskFacts(task: Task)
      requires Valid()
      ensures task in HeldTasks(n, IsMain(), serial, submitted) <==>
        EventFor(task).Some? && EventFor(task).value in submitted
      ensures EventFor(task).Some? ==> TaskOf(n, IsMain(), serial, EventFor(task).value) == task
    {
      HoldsTask(n, IsMain(), freeIds, Now(), carrier, task);
      if EventFor(task).Some? {
        TaskOfEventOf(n, IsMain(), freeIds, Now(), carrier, task);
      }
    }

    /** A send that the kernel holds has the length of its message. */
    lemma SendLength(s: nat)
      requires Valid() && EventFor(Send(s)).Some? && EventFor(Send(s)).value in submitted
      ensures EventFor(Send(s)).value < n && s < |Relayed(relay.trace)|
      ensures events[EventFor(Send(s)).value].iovLen == |Relayed(relay.trace)[s].bytes|
    {
      var i := EventFor(Send(s)).value;
      assert Live(Low(), freeIds, {}, i);
      assert HoldsItsMessage(i, relay.forwarded);
      hide Relayed;
    }

    /** What the kernel can report is the same here and in the reference. */
    lemma PossibleIffReportable(c: Completion)
      requires Valid()
      ensures Reportable(Setup(), RingNow(Running), c) <==>
        EventFor(c.task).Some? && Possible(CqeFor(EventFor(c.task).value, c))
    {
      TaskFacts(c.task);
      HandlerFacts();
      if EventFor(c.task).Some? && EventFor(c.task).value in submitted {
        var ev := EventFor(c.task).value;
        if c.task.Send? {
          SendLength(c.task.serial);
        }
        SubmittedInRange(ev);
        hide Valid, Relayed, TickPossible, HeldTasks, EventFor, RingNow;
        SameResults(ev, c);
      }
    }

    lemma SubmittedInRange(ev: nat)
      requires Valid() && ev in submitted
      ensures ev < n
    {}

    lemma SameResults(ev: nat, c: Completion)
      requires Shape() && ev in submitted && ev < n && TaskOf(n, IsMain(), serial, ev) == c.task
      requires c.task.Send? ==>
        c.task.serial < |Relayed(relay.trace)| && events[ev].iovLen == |Relayed(relay.trace)[c.task.serial].bytes|
      requires c.task in RingNow(Running).held
      ensures Reportable(Setup(), RingNow(Running), c) <==> Possible(CqeFor(ev, c))
    {
      hide Relayed, TickPossible, HeldTasks;
    }

    /** A completion's event and its task agree on what is handled. */
    lemma SameEvents(ev: nat, c: Completion)
      requires Shape() && TaskOf(n, IsMain(), serial, ev) == c.task
      ensures EventsAt(CqeFor(ev, c)) == EventsOf(c)
      ensures Forwarding(relay.trace, CqeFor(ev, c)) <==> Forwards(relay.trace, c)
      ensures IsReceive(ev) <==> c.task == ClientReceive || c.task == PeerReceive
    {
      hide Lookup, TableAfter, Registrations;
    }

    /** Handles the completion of the operation on event ev. */
    method HandleTask(ev: nat, c: Completion) returns (outcome: Outcome)
      requires Valid() && Possible(CqeFor(ev, c)) && TaskOf(n, IsMain(), serial, ev) == c.task
      modifies this, events, buffer, relay
      ensures |relay.perThread| == old(|relay.perThread|) && relay.forwarded == Relayed(relay.trace)
      ensures outcome ==
        if (c.task == ClientReceive || c.task == PeerReceive) && c.res < 0 then ReceiveFailed
        else if Forwards(old(relay.trace), c) && |Relayed(old(relay.trace))| == |old(order)| + Low() then OutOfEvents
        else Running
      ensures outcome == OutOfEvents ==> |InFlight()| == Low()
      ensures relay.trace == if outcome == ReceiveFailed then old(relay.trace) else old(relay.trace) + EventsOf(c)
      ensures outcome != Running ==> order == old(order) && sendResults == old(sendResults)
      ensures outcome == Running ==> order == old(order + SerialPart(n, IsMain(), serial, ev))
      ensures outcome == Running ==> sendResults == old(sendResults) + ResultPart(n, IsMain(), ev, c.res)
      ensures outcome == Running ==> Valid()
      ensures outcome == Running ==>
        Moved(n, IsMain(), old(Now()), Now(), ev, Forwards(old(relay.trace), c), old(|carrier|), old(freeIds))
      ensures outcome == Running ==> |relay.reports| == old(|relay.reports|) + ReportPart(n, IsMain(), ev)
      ensures outcome != Running ==> relay.reports == old(relay.reports)
    {
      SameEvents(ev, c);
      Outstanding();
      CompletionFacts(ev, c);
      assert ResultOf(CqeFor(ev, c)) == ResultPart(n, IsMain(), ev, c.res);
      assert SerialOf(CqeFor(ev, c)) == SerialPart(n, IsMain(), serial, ev);
      assert ReportPart(n, IsMain(), ev) == if KindAt(CqeFor(ev, c).ev) == Timer then 1 else 0;
      assert IsReceive(ev) ==> KindAt(CqeFor(ev, c).ev) != Timer;
      hide *;
      outcome := HandleCompletion(CqeFor(ev, c));
    }

    /** The same, as the reference does it. */
    method HandleNamed(ev: nat, c: Completion) returns (outcome: Outcome)
      requires Valid() && Possible(CqeFor(ev, c)) && TaskOf(n, IsMain(), serial, ev) == c.task
      requires Reportable(Setup(), RingNow(Running), c)
      modifies this, events, buffer, relay
      ensures |relay.perThread| == old(|relay.perThread|) && relay.forwarded == Relayed(relay.trace)
      ensures outcome == OutOfEvents ==> |InFlight()| == Low()
      ensures Follows(outcome, AfterCompletion(Setup(), old(RingNow(Running)), c))
    {
      ghost var g, before, q, free, forwarded := Setup(), RingNow(Running), Now(), freeIds, carrier;
      Outstanding();
      HandlerFacts();
      CompletionFacts(ev, c);
      hide *;
      outcome := HandleTask(ev, c);
      if outcome == Running {
        MovedAsReference(g, before, c, n, IsMain(), free, q, Now(), forwarded, ev);
        FollowsRunning(AfterCompletion(g, before, c));
      } else {
        StopsAsReference(outcome, g, before, c);
        FollowsStop(outcome, AfterCompletion(g, before, c));
      }
    }

    /** The worker has come as far as r: it stands as r does, and in good order if it still runs. */
    ghost predicate Follows(outcome: Outcome, r: Ring)
      reads this, events, buffer, relay
    {
      outcome == r.outcome && relay.trace == r.trace && order == r.sent && sendResults == r.results &&
      |relay.reports| == r.reports &&
      (outcome == Running || outcome == Impossible ==> Valid() && RingNow(outcome) == r)
    }

    lemma FollowsRunning(r: Ring)
      requires Valid() && r == RingOf(n, IsMain(), Now(), Running, relay.trace, order, sendResults, |relay.reports|)
      ensures Follows(Running, r)
    {
      hide Valid;
    }

    lemma FollowsStop(outcome: Outcome, r: Ring)
      requires outcome == ReceiveFailed || outcome == OutOfEvents
      requires outcome == r.outcome && relay.trace == r.trace && order == r.sent && sendResults == r.results
      requires |relay.reports| == r.reports
      ensures Follows(outcome, r)
    {}

    lemma CompletionFacts(ev: nat, c: Completion)
      requires Valid() && Possible(CqeFor(ev, c)) && TaskOf(n, IsMain(), serial, ev) == c.task
      ensures ev in submitted && CqeFor(ev, c).ev == ev && CqeFor(ev, c).res == c.res
      ensures IsReceive(ev) ==> ResultOf(CqeFor(ev, c)) == [] && SerialOf(CqeFor(ev, c)) == []
      ensures Forwarding(relay.trace, CqeFor(ev, c)) ==> IsReceive(ev) && c.task == PeerReceive
      ensures Forwards(relay.trace, c) ==> IsReceive(ev) && c.task == PeerReceive
      ensures IsReceive(ev) <==> c.task == ClientReceive || c.task == PeerReceive
      ensures sendResults + [] == sendResults && order + [] == order && Setup().sends == Low()
    {
      hide Lookup, TableAfter, Registrations;
    }

    lemma HandlerFacts()
      requires Valid()
      ensures Consistent(n, IsMain(), freeIds, Now(), carrier)
      ensures var r := RingNow(Running);
        r == RingOf(n, IsMain(), Now(), Running, r.trace, r.sent, r.results, r.reports) && r.outcome == Running &&
        r.trace == relay.trace && r.sent == order && r.results == sendResults && r.reports == |relay.reports|
    {}

    lemma ImpossibleFollows(c: Completion)
      requires Valid() && !Reportable(Setup(), RingNow(Running), c)
      ensures Follows(Impossible, AfterCompletion(Setup(), RingNow(Running), c))
    {
      hide Valid, Reportable;
    }

    /** Handles a completion, if it is one that the kernel could report, as the reference does. */
    method HandleOne(c: Completion) returns (outcome: Outcome)
      requires Valid()
      modifies this, events, buffer, relay
      ensures |relay.perThread| == old(|relay.perThread|) && relay.forwarded == Relayed(relay.trace)
      ensures outcome == OutOfEvents ==> |InFlight()| == Low()
      ensures Follows(outcome, AfterCompletion(Setup(), old(RingNow(Running)), c))
    {
      PossibleIffReportable(c);
      TaskFacts(c.task);
      Outstanding();
      var id := EventFor(c.task);
      assert relay.forwarded == Relayed(relay.trace);
      if id.None? || !Possible(CqeFor(id.value, c)) {
        ImpossibleFollows(c);
        return Impossible;
      }
      hide *;
      outcome := HandleNamed(id.value, c);
    }

    /** Handles the i-th completion of a batch that is to end in `end`. */
    method HandleNext(cs: seq<Completion>, i: nat, ghost end: Ring) returns (outcome: Outcome)
      requires Valid() && i < |cs| && AfterBatch(Setup(), RingNow(Running), cs[i..]) == end
      modifies this, events, buffer, relay
      ensures |relay.perThread| == old(|relay.perThread|) && relay.forwarded == Relayed(relay.trace)
      ensures outcome == OutOfEvents ==> |InFlight()| == Low()
      ensures outcome == Running ==> Valid() && AfterBatch(Setup(), RingNow(Running), cs[i + 1..]) == end
      ensures outcome != Running ==> Follows(outcome, end)
    {
      ghost var next := AfterCompletion(Setup(), RingNow(Running), cs[i]);
      HandlerFacts();
      AfterBatchStep(Setup(), RingNow(Running), cs, i);
      hide AfterBatch, AfterCompletion, Valid, RingNow, Relayed, InFlight;
      outcome := HandleOne(cs[i]);
    }

    /** Handles completions, whatever they are and in whatever order, up to one that stops the worker. */
    method HandleBatch(cs: seq<Completion>) returns (outcome: Outcome)
      requires Valid()
      modifies this, events, buffer, relay
      ensures |relay.perThread| == old(|relay.perThread|) && relay.forwarded == Relayed(relay.trace)
      ensures outcome == OutOfEvents ==> |InFlight()| == Low()
      ensures Follows(outcome, AfterBatch(Setup(), old(RingNow(Running)), cs))
    {
      ghost var end := AfterBatch(Setup(), RingNow(Running), cs);
      assert cs[0..] == cs;
      RelayedIsForwarded();
      outcome := Running;
      for i := 0 to |cs|
        invariant Valid() && |relay.perThread| == old(|relay.perThread|) && relay.forwarded == Relayed(relay.trace)
        invariant AfterBatch(Setup(), RingNow(Running), cs[i..]) == end
      {
        hide *;
        outcome := HandleNext(cs, i, end);
        if outcome != Running {
          return;
        }
      }
      hide Valid, RingNow;
      outcome := Running;
      BatchEnds();
    }

    lemma RelayedIsForwarded()
      requires Valid()
      ensures relay.forwarded == Relayed(relay.trace)
    {
      hide Relayed;
    }

    lemma BatchEnds()
      requires Valid()
      ensures AfterBatch(Setup(), RingNow(Running), []) == RingNow(Running)
      ensures Reference(Setup(), RingNow(Running), []) == RingNow(Running) && Follows(Running, RingNow(Running))
    {
      hide Valid;
    }

    // --- The loop -------------------------------------------------------------------------------------------

    /** The kernel takes the first entry of the submission queue. */
    method SubmitOne()
      requires Shape() && Armed({}) && pending != []
      modifies this`pending, this`submitted
      ensures Armed({}) && RingNow(Running) == Submit(old(RingNow(Running)), 1)
      ensures pending == old(pending)[1..]
    {
      var e := pending[0];
      SubmitFirst(n, IsMain(), freeIds, pending, submitted);
      HeldWith(n, IsMain(), serial, submitted, e.ev, e.op);
      hide ArmedOnce, TaskOf, HeldTasks;
      submitted := submitted[e.ev := e.op];
      pending := pending[1..];
      assert RingNow(Running).queued == old(RingNow(Running)).queued[1..];
    }

    /** The kernel takes the first k entries, or all there are. */
    method SubmitAndWait(k: nat)
      requires Shape() && Armed({})
      modifies this`pending, this`submitted
      ensures Armed({}) && RingNow(Running) == Submit(old(RingNow(Running)), k)
      ensures |pending| == if k <= |old(pending)| then |old(pending)| - k else 0
    {
      hide Armed;
      ghost var start := RingNow(Running);
      for i := 0 to k
        invariant Armed({}) && |pending| == if i <= |old(pending)| then |old(pending)| - i else 0
        invariant Submit(start, k) == Submit(RingNow(Running), k - i)
      {
        SubmitStep(RingNow(Running), k - i);
        if pending != [] {
          SubmitOne();
        }
      }
    }

    method SubmitBatch(k: nat)
      requires Valid()
      modifies this`pending, this`submitted
      ensures Valid() && RingNow(Running) == Submit(old(RingNow(Running)), k)
    {
      hide Armed, Payloads, Deliveries, Kinds, FreeList, TableAfter, Relayed, Conserved, Handed, Counted, Booked,
        Submit, RingOf;
      SubmitAndWait(k);
    }

    /** Turn i of the loop, in a run that is to end in `end`. */
    method RunBatch(batches: seq<Batch>, i: nat, ghost end: Ring) returns (outcome: Outcome)
      requires Valid() && i < |batches| && Reference(Setup(), RingNow(Running), batches[i..]) == end
      modifies this, events, buffer, relay
      ensures |relay.perThread| == old(|relay.perThread|) && relay.forwarded == Relayed(relay.trace)
      ensures outcome == OutOfEvents ==> |InFlight()| == Low()
      ensures outcome == Running ==> Valid() && Reference(Setup(), RingNow(Running), batches[i + 1..]) == end
      ensures outcome != Running ==> Follows(outcome, end)
    {
      HandlerFacts();
      ReferenceStep(Setup(), RingNow(Running), batches, i);
      hide Reference, AfterBatch, Submit, Valid, RingNow, Relayed, InFlight;
      SubmitBatch(batches[i].submitted);
      outcome := HandleBatch(batches[i].completions);
    }

    /** The whole run, whatever the kernel reports and in whatever order: the worker stands where the
        reference does. As long as it runs, the pool, the queues and the payloads are in order, and
        the messages handed to sends are exactly those the per-packet relay sends. It stops at the same
        completion as the reference, for the same reason. */
    method Run(batches: seq<Batch>) returns (outcome: Outcome)
      requires Valid()
      modifies this, events, buffer, relay
      ensures Follows(outcome, Reference(Setup(), old(RingNow(Running)), batches))
      ensures outcome == OutOfEvents ==> |InFlight()| == Low()
      ensures |relay.perThread| == old(|relay.perThread|) && relay.forwarded == Relayed(relay.trace)
    {
      ghost var end := Reference(Setup(), RingNow(Running), batches);
      assert batches[0..] == batches;
      RelayedIsForwarded();
      outcome := Running;
      for i := 0 to |batches|
        invariant Valid() && |relay.perThread| == old(|relay.perThread|) && relay.forwarded == Relayed(relay.trace)
        invariant Reference(Setup(), RingNow(Running), batches[i..]) == end
      {
        hide *;
        outcome := RunBatch(batches, i, end);
        if outcome != Running {
          return;
        }
      }
      hide Valid, RingNow;
      outcome := Running;
      BatchEnds();
    }
  }

  /** One worker thread of the program: 16 events, so the main worker gives up with 13 sends in
      flight, any other with 14. */
  method Worker(threadIndex: nat, threads: nat, batches: seq<Batch>) returns (io: ListenContext, outcome: Outcome)
    requires threadIndex < threads
    ensures io.n == NUM_EVENTS && io.threadIndex == threadIndex
    ensures var g := Config(if threadIndex == 0 then 13 else 14, threads, threadIndex);
      io.Follows(outcome, Reference(g, Initial(g), batches))
    ensures outcome == OutOfEvents ==> io.Shape() && |io.InFlight()| == if threadIndex == 0 then 13 else 14
    ensures io.relay.forwarded == Relayed(io.relay.trace)
  {
    io := new ListenContext(threadIndex, NUM_EVENTS, threads);
    io.Start();
    outcome := io.Run(batches);
  }
}
