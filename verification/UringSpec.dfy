/** What a worker of the completion-queue engine does, as the kernel sees it: operations are named by
    what they are for, and there are no events, ids, slices or buffers. */
module UringSpec {
  import opened Wire
  import opened RelaySpec
  import opened Statistics

  const MEMORY_PER_PACKET: nat := 1024
  const TWO_TO_THE_31: nat := 0x8000_0000
  const INT32_MIN: int := -0x8000_0000

  /** An operation: one of the two receives, the statistics timer, or the send of a forwarded message,
      counted from 0. */
  datatype Task = ClientReceive | PeerReceive | Tick | Send(serial: nat)

  /** A completion: of what, with which result, for a receive what arrived from whom; and what other
      threads do just before it is handled. */
  datatype Completion = Completion(task: Task, res: int, bytes: seq<byte>, from: Endpoint,
                                   others: seq<Datagram>, updates: seq<seq<Update>>)

  /** One turn of the loop: how many entries the kernel takes, and what it then reports. */
  datatype Batch = Batch(submitted: nat, completions: seq<Completion>)

  /** Impossible: the script goes on with a completion that the kernel could not report. */
  datatype Outcome = Running | ReceiveFailed | OutOfEvents | Impossible

  /** A worker: the sends it can have in flight, the number of threads, and which of them it is. */
  datatype Config = Config(sends: nat, threads: nat, own: nat)

  /** How a worker stands: what is queued for the kernel, what the kernel holds, which datagrams have
      reached the relay, which messages were sent, in order of completion, with which results, and how
      many totals of the counters have been reported. */
  datatype Ring = Ring(outcome: Outcome, queued: seq<Task>, held: set<Task>, trace: seq<Event>,
                       sent: seq<nat>, results: seq<int>, reports: nat)

  function Initial(g: Config): Ring {
    Ring(Running, if g.own == 0 then [ClientReceive, PeerReceive, Tick] else [ClientReceive, PeerReceive],
      {}, [], [], [], 0)
  }

  /** The kernel takes the first k entries of the queue, or all there are. */
  function Submit(r: Ring, k: nat): Ring
    decreases k
  {
    if k == 0 || r.queued == [] then r
    else Submit(r.(queued := r.queued[1..], held := r.held + {r.queued[0]}), k - 1)
  }

  /** The kernel can report what it holds, in any order, with any 32-bit result within the buffer. */
  predicate Reportable(g: Config, r: Ring, c: Completion) {
    c.task in r.held && INT32_MIN <= c.res < TWO_TO_THE_31 &&
    match c.task
    case Send(s) => s < |Relayed(r.trace)| && c.res <= |Relayed(r.trace)[s].bytes|
    case Tick => TickPossible(Some(c.updates), g.threads, g.own)
    case _ => c.res >= 0 ==> |c.bytes| == c.res <= MEMORY_PER_PACKET
  }

  function EventsOf(c: Completion): seq<Event> {
    match c.task
    case PeerReceive => Registrations(c.others) + [Peer(c.bytes)]
    case ClientReceive => Registrations(c.others) + [Client(Datagram(c.from, c.bytes))]
    case _ => []
  }

  /** The datagram of this completion is for a session. */
  predicate Forwards(trace: seq<Event>, c: Completion) {
    c.task == PeerReceive && Lookup(TableAfter(trace + Registrations(c.others)), c.bytes).Some?
  }

  /** What one completion makes of it. A receive or tick is queued again at once; before that, a
      datagram to forward queues a send, if one more can be in flight. */
  function AfterCompletion(g: Config, r: Ring, c: Completion): Ring {
    if !Reportable(g, r, c) then r.(outcome := Impossible)
    else if (c.task == ClientReceive || c.task == PeerReceive) && c.res < 0 then r.(outcome := ReceiveFailed)
    else
      var trace := r.trace + EventsOf(c);
      var held := r.held - {c.task};
      if c.task.Send? then
        r.(held := held, trace := trace, sent := r.sent + [c.task.serial], results := r.results + [c.res])
      else if c.task == Tick then
        r.(held := held, trace := trace, queued := r.queued + [c.task], reports := r.reports + 1)
      else if !Forwards(r.trace, c) then r.(held := held, trace := trace, queued := r.queued + [c.task])
      else if |Relayed(r.trace)| == |r.sent| + g.sends then r.(outcome := OutOfEvents, trace := trace)
      else r.(held := held, trace := trace, queued := r.queued + [Send(|Relayed(r.trace)|), c.task])
  }

  function AfterBatch(g: Config, r: Ring, completions: seq<Completion>): Ring
    decreases |completions|
  {
    if completions == [] || r.outcome != Running then r
    else AfterBatch(g, AfterCompletion(g, r, completions[0]), completions[1..])
  }

  /** The whole run, up to the completion that stops the worker. */
  function Reference(g: Config, r: Ring, batches: seq<Batch>): Ring
    decreases |batches|
  {
    if batches == [] || r.outcome != Running then r
    else Reference(g, AfterBatch(g, Submit(r, batches[0].submitted), batches[0].completions), batches[1..])
  }

  // --- Nothing is forgotten --------------------------------------------------------------------------------

  /** What a running worker has to wait for: both receives, the main worker's timer, and every message
      forwarded and not completed. */
  predicate Open(g: Config, r: Ring, t: Task) {
    match t
    case Tick => g.own == 0
    case Send(s) => s < |Relayed(r.trace)| && s !in r.sent
    case _ => true
  }

  /** Everything open is queued, or held by the kernel, but not both; it is queued only once; and no
      other task is either. */
  ghost predicate Accounted(g: Config, r: Ring) {
    (forall i, j :: 0 <= i < j < |r.queued| ==> r.queued[i] != r.queued[j]) &&
    (forall i :: 0 <= i < |r.queued| ==> r.queued[i] !in r.held) &&
    (forall t :: Open(g, r, t) <==> t in r.queued || t in r.held) &&
    forall s :: s in r.sent ==> s < |Relayed(r.trace)|
  }

  lemma InitialAccounted(g: Config)
    ensures Accounted(g, Initial(g))
  {}

  lemma SubmitAccounted(g: Config, r: Ring, k: nat)
    requires Accounted(g, r)
    ensures Accounted(g, Submit(r, k)) && Submit(r, k).outcome == r.outcome
    decreases k
  {
    if k == 0 || r.queued == [] {
    } else {
      var next := r.(queued := r.queued[1..], held := r.held + {r.queued[0]});
      assert r.queued == [r.queued[0]] + next.queued;
      forall t
        ensures Open(g, next, t) <==> t in next.queued || t in next.held
      {
        assert Open(g, next, t) <==> Open(g, r, t);
      }
      SubmitAccounted(g, next, k - 1);
    }
  }

  lemma EventsForward(trace: seq<Event>, c: Completion)
    ensures |Relayed(trace + EventsOf(c))| == |Relayed(trace)| + if Forwards(trace, c) then 1 else 0
  {
    match c.task
    case PeerReceive =>
      Regroup(trace, Registrations(c.others), [Peer(c.bytes)]);
      RegistrationsEmitNothing(trace, c.others);
      TraceStep(trace + Registrations(c.others), Peer(c.bytes));
    case ClientReceive =>
      Regroup(trace, Registrations(c.others), [Client(Datagram(c.from, c.bytes))]);
      RegistrationsEmitNothing(trace, c.others);
      TraceStep(trace + Registrations(c.others), Client(Datagram(c.from, c.bytes)));
    case _ =>
      assert trace + [] == trace;
  }

  /** The kernel gives one task back, and others are queued. */
  lemma Requeued(g: Config, r: Ring, next: Ring, task: Task, added: seq<Task>)
    requires Accounted(g, r) && task in r.held
    requires next.held == r.held - {task} && next.queued == r.queued + added
    requires forall i, j :: 0 <= i < j < |added| ==> added[i] != added[j]
    requires forall t :: t in added ==> t == task || !Open(g, r, t)
    requires forall t :: Open(g, next, t) <==> (Open(g, r, t) && t != task) || t in added
    requires forall s :: s in next.sent ==> s < |Relayed(next.trace)|
    ensures Accounted(g, next)
  {
    hide Open, Relayed;
    assert forall t :: t in next.queued <==> t in r.queued || t in added;
    assert forall i :: 0 <= i < |r.queued| ==> r.queued[i] in r.queued;
    assert forall i :: 0 <= i < |added| ==> added[i] in added;
    assert task !in r.queued;
  }

  /** What a completion queues. */
  function Added(r: Ring, c: Completion): seq<Task> {
    if c.task.Send? then [] else if Forwards(r.trace, c) then [Send(|Relayed(r.trace)|), c.task] else [c.task]
  }

  /** What a completion that does not stop the worker closes and opens. */
  lemma OpenAfter(g: Config, r: Ring, c: Completion, t: Task)
    requires Accounted(g, r) && r.outcome == Running && AfterCompletion(g, r, c).outcome == Running
    ensures Open(g, AfterCompletion(g, r, c), t) <==> (Open(g, r, t) && t != c.task) || t in Added(r, c)
  {
    var next := AfterCompletion(g, r, c);
    HeldIsOpen(g, r, c.task);
    AfterFacts(g, r, c);
    hide Relayed, AfterCompletion, Accounted, Forwards;
    if t.Send? {
      assert t.serial in next.sent <==> t.serial in r.sent || t == c.task;
      assert t in Added(r, c) <==> Forwards(r.trace, c) && t.serial == |Relayed(r.trace)|;
    }
  }

  lemma AfterFacts(g: Config, r: Ring, c: Completion)
    requires r.outcome == Running && AfterCompletion(g, r, c).outcome == Running
    ensures var next := AfterCompletion(g, r, c);
      c.task in r.held && (Forwards(r.trace, c) ==> c.task == PeerReceive) &&
      |Relayed(next.trace)| == |Relayed(r.trace)| + (if Forwards(r.trace, c) then 1 else 0) &&
      next.sent == if c.task.Send? then r.sent + [c.task.serial] else r.sent
  {
    EventsForward(r.trace, c);
    hide Relayed, EventsOf, Lookup, TableAfter, TickPossible;
  }

  lemma HeldIsOpen(g: Config, r: Ring, t: Task)
    requires Accounted(g, r)
    ensures t in r.held ==> Open(g, r, t)
    ensures |Relayed(r.trace)| !in r.sent
  {
    hide Relayed, Open;
  }

  /** What a completion that does not stop the worker does to the queue and to what the kernel holds. */
  lemma QueueAfter(g: Config, r: Ring, c: Completion)
    requires r.outcome == Running && AfterCompletion(g, r, c).outcome == Running
    ensures var next := AfterCompletion(g, r, c);
      next.held == r.held - {c.task} && next.queued == r.queued + Added(r, c)
    ensures forall i, j :: 0 <= i < j < |Added(r, c)| ==> Added(r, c)[i] != Added(r, c)[j]
  {
    assert r.queued + [] == r.queued;
    hide Relayed, EventsOf, Lookup, TableAfter, TickPossible;
  }

  lemma CompletionAccounted(g: Config, r: Ring, c: Completion)
    requires Accounted(g, r) && r.outcome == Running && AfterCompletion(g, r, c).outcome == Running
    ensures Accounted(g, AfterCompletion(g, r, c))
  {
    hide Relayed, AfterCompletion, Forwards, Open, Added;
    var next := AfterCompletion(g, r, c);
    forall t
      ensures Open(g, next, t) <==> (Open(g, r, t) && t != c.task) || t in Added(r, c)
    {
      OpenAfter(g, r, c, t);
    }
    QueueAfter(g, r, c);
    AfterFacts(g, r, c);
    HeldIsOpen(g, r, c.task);
    AddedIsNew(g, r, c);
    SentIsForwarded(g, r, c);
    Requeued(g, r, next, c.task, Added(r, c));
  }

  lemma AddedIsNew(g: Config, r: Ring, c: Completion)
    requires Accounted(g, r)
    ensures forall t :: t in Added(r, c) ==> t == c.task || !Open(g, r, t)
  {
    hide Relayed, Forwards, Accounted;
  }

  lemma SentIsForwarded(g: Config, r: Ring, c: Completion)
    requires Accounted(g, r) && r.outcome == Running && AfterCompletion(g, r, c).outcome == Running
    ensures var next := AfterCompletion(g, r, c);
      forall s :: s in next.sent ==> s < |Relayed(next.trace)|
  {
    AfterFacts(g, r, c);
    HeldIsOpen(g, r, c.task);
    assert forall s :: s in r.sent ==> s < |Relayed(r.trace)|;
    hide Relayed, AfterCompletion, Forwards, Accounted;
  }

  lemma {:induction false} BatchAccounted(g: Config, r: Ring, cs: seq<Completion>)
    requires r.outcome == Running && Accounted(g, r)
    ensures AfterBatch(g, r, cs).outcome == Running ==> Accounted(g, AfterBatch(g, r, cs))
    decreases |cs|
  {
    hide AfterCompletion, Accounted;
    if cs == [] || AfterCompletion(g, r, cs[0]).outcome != Running {
    } else {
      CompletionAccounted(g, r, cs[0]);
      BatchAccounted(g, AfterCompletion(g, r, cs[0]), cs[1..]);
    }
  }

  lemma {:induction false} ReferenceAccounted(g: Config, r: Ring, batches: seq<Batch>)
    requires r.outcome == Running && Accounted(g, r)
    ensures Reference(g, r, batches).outcome == Running ==> Accounted(g, Reference(g, r, batches))
    decreases |batches|
  {
    hide AfterBatch, Submit, Accounted;
    if batches == [] {
    } else {
      var ready := Submit(r, batches[0].submitted);
      var next := AfterBatch(g, ready, batches[0].completions);
      SubmitAccounted(g, r, batches[0].submitted);
      BatchAccounted(g, ready, batches[0].completions);
      if next.outcome == Running {
        ReferenceAccounted(g, next, batches[1..]);
      }
    }
  }

  /** In every run, nothing the worker has to wait for is forgotten, and nothing is asked for twice.
      So whenever its queue has been taken, the kernel holds exactly what is open. */
  lemma NothingIsForgotten(g: Config, batches: seq<Batch>)
    ensures var end := Reference(g, Initial(g), batches);
      end.outcome == Running ==>
        Accounted(g, end) && (end.queued == [] ==> forall t :: t in end.held <==> Open(g, end, t))
  {
    InitialAccounted(g);
    ReferenceAccounted(g, Initial(g), batches);
    hide Open, Reference;
  }

  // --- Single completions ------------------------------------------------------------------------------------

  /** A timer that the kernel holds can always expire; then a total is reported, and the timer is queued
      again. */
  lemma TimerGoesOn(g: Config, r: Ring, res: int, from: Endpoint)
    requires r.outcome == Running && Tick in r.held && INT32_MIN <= res < TWO_TO_THE_31
    ensures var c := Completion(Tick, res, [], from, [], seq(g.threads, _ => []));
      AfterCompletion(g, r, c) ==
      r.(held := r.held - {Tick}, queued := r.queued + [Tick], reports := r.reports + 1)
  {
    TickPossibleExactly(seq(g.threads, _ => []), g.threads, g.own);
    assert r.trace + [] == r.trace;
    hide TickPossible;
  }

  /** A client that another thread registers just before a peer datagram is handled gets it. */
  lemma LateRegistration(g: Config, r: Ring, c: Datagram, p: Datagram)
    requires r.outcome == Running && r.trace == [] && r.sent == [] && g.sends > 0 && PeerReceive in r.held
    requires Matching(c, p) && |p.bytes| <= MEMORY_PER_PACKET
    ensures var one := Completion(PeerReceive, |p.bytes|, p.bytes, p.from, [c], []);
      var next := AfterCompletion(g, r, one);
      next.outcome == Running && next.queued == r.queued + [Send(0), PeerReceive] &&
      Relayed(next.trace) == [Message(c.from, p.bytes)]
  {
    var one := Completion(PeerReceive, |p.bytes|, p.bytes, p.from, [c], []);
    OtherThenPeer(c, p);
    EventsForward([], one);
    assert Registrations([c]) == [Other(c)] && [] + [Other(c)] == [Other(c)];
    assert [] + EventsOf(one) == [Other(c), Peer(p.bytes)];
    hide Relayed, TableAfter, GetSessionId, Registrations, Matching, EventsOf;
    assert Forwards([], one);
  }

  lemma OtherThenPeer(c: Datagram, p: Datagram)
    requires Matching(c, p)
    ensures Lookup(TableAfter([Other(c)]), p.bytes) == Some(c.from)
    ensures Relayed([]) == [] && Relayed([Other(c), Peer(p.bytes)]) == [Message(c.from, p.bytes)]
  {
    assert [] + [Other(c)] == [Other(c)] && [Other(c)] + [Peer(p.bytes)] == [Other(c), Peer(p.bytes)];
    TraceStep([], Other(c));
    TraceStep([Other(c)], Peer(p.bytes));
    SameIdIffSamePrefix(c.bytes, p.bytes);
    assert c.bytes[..ID_SIZE] == c.bytes && Relayed([]) == [] && TableAfter([]) == map[];
    hide Relayed, TableAfter, GetSessionId;
  }

  // --- A run that forwards a datagram and completes its send ------------------------------------------------

  function Receives(task: Task, d: Datagram): Completion {
    Completion(task, |d.bytes|, d.bytes, d.from, [], [])
  }

  function Sends(p: Datagram): Completion {
    Completion(Send(0), |p.bytes|, [], p.from, [], [])
  }

  /** A client registers; then a peer datagram arrives; then its send completes. */
  function RoundTrip(c: Datagram, p: Datagram): seq<Batch> {
    [Batch(3, [Receives(ClientReceive, c)]), Batch(3, [Receives(PeerReceive, p)]), Batch(3, [Sends(p)])]
  }

  /** How the worker stands after each of the three turns. */
  function TimerOf(g: Config): set<Task> {
    if g.own == 0 then {Tick} else {}
  }

  function Registered(g: Config, c: Datagram, p: Datagram): Ring {
    Ring(Running, [ClientReceive], {PeerReceive} + TimerOf(g), Seen(c, p, 0), [], [], 0)
  }

  function Forwarded(g: Config, c: Datagram, p: Datagram): Ring {
    Ring(Running, [Send(0), PeerReceive], {ClientReceive} + TimerOf(g), Seen(c, p, 1), [], [], 0)
  }

  function Sent(g: Config, c: Datagram, p: Datagram): Ring {
    Ring(Running, [], {ClientReceive, PeerReceive} + TimerOf(g), Seen(c, p, 1), [0], [|p.bytes|], 0)
  }

  lemma OneCompletion(g: Config, r: Ring, c: Completion)
    requires r.outcome == Running
    ensures AfterBatch(g, r, [c]) == AfterCompletion(g, r, c)
  {
    hide AfterCompletion;
    assert [c][1..] == [];
  }

  lemma {:induction false} SubmitAll(r: Ring, k: nat)
    requires |r.queued| <= k
    ensures Submit(r, k) == r.(queued := [], held := r.held + set t | t in r.queued)
    decreases k
  {
    if r.queued == [] {
      assert (set t | t in r.queued) == {};
    } else {
      var next := r.(queued := r.queued[1..], held := r.held + {r.queued[0]});
      SubmitAll(next, k - 1);
      assert r.queued == [r.queued[0]] + next.queued;
      assert (set t | t in r.queued) == {r.queued[0]} + set t | t in next.queued;
      hide Submit;
      assert next.held + (set t | t in next.queued) == r.held + set t | t in r.queued;
    }
  }

  lemma AfterReceive(g: Config, r: Ring, task: Task, d: Datagram)
    requires r.outcome == Running && task in r.held && (task == ClientReceive || task == PeerReceive)
    requires |d.bytes| <= MEMORY_PER_PACKET
    requires |Relayed(r.trace)| < |r.sent| + g.sends
    ensures var c := Receives(task, d);
      AfterCompletion(g, r, c) ==
      r.(held := r.held - {task}, trace := r.trace + EventsOf(c), queued := r.queued + Added(r, c))
  {
    hide Relayed, Forwards, EventsOf;
  }

  lemma SeenByReceives(c: Datagram, p: Datagram)
    requires Matching(c, p)
    ensures [] + EventsOf(Receives(ClientReceive, c)) == Seen(c, p, 0)
    ensures Seen(c, p, 0) + EventsOf(Receives(PeerReceive, p)) == Seen(c, p, 1)
    ensures !Forwards([], Receives(ClientReceive, c)) && Forwards(Seen(c, p, 0), Receives(PeerReceive, p))
    ensures |Relayed([])| == |Relayed(Seen(c, p, 0))| == 0
  {
    EventsOfReceives(c);
    EventsOfReceives(p);
    EventsForward(Seen(c, p, 0), Receives(PeerReceive, p));
    SeenRelayed(c, p, 0);
    SeenRelayed(c, p, 1);
    assert Relayed([]) == [] && [] + [Client(c)] == [Client(c)];
    hide Relayed, TableAfter, Lookup, EventsOf, Registrations, Matching;
  }

  lemma EventsOfReceives(d: Datagram)
    ensures EventsOf(Receives(ClientReceive, d)) == [Client(d)]
    ensures EventsOf(Receives(PeerReceive, d)) == [Peer(d.bytes)]
  {
    assert Registrations([]) + [Client(d)] == [Client(d)] && Registrations([]) + [Peer(d.bytes)] == [Peer(d.bytes)];
  }

  lemma RegisterTurn(g: Config, c: Datagram, p: Datagram)
    requires g.sends > 0 && Matching(c, p)
    ensures AfterBatch(g, Submit(Initial(g), 3), [Receives(ClientReceive, c)]) == Registered(g, c, p)
  {
    hide AfterBatch, AfterCompletion, Submit, Relayed, EventsOf, Seen, Forwards, Matching, Initial;
    var ready := Submit(Initial(g), 3);
    AllHeld(g);
    OneCompletion(g, ready, Receives(ClientReceive, c));
    SeenByReceives(c, p);
    MatchingLength(c, p);
    AfterReceive(g, ready, ClientReceive, c);
    assert [] + [ClientReceive] == [ClientReceive];
    assert {ClientReceive, PeerReceive} + TimerOf(g) - {ClientReceive} == {PeerReceive} + TimerOf(g);
  }

  lemma AllHeld(g: Config)
    ensures Submit(Initial(g), 3) == Ring(Running, [], {ClientReceive, PeerReceive} + TimerOf(g), [], [], [], 0)
  {
    SubmitAll(Initial(g), 3);
    hide Submit;
    assert {} + (set t | t in Initial(g).queued) == {ClientReceive, PeerReceive} + TimerOf(g);
  }

  lemma MatchingLength(c: Datagram, p: Datagram)
    requires Matching(c, p)
    ensures |c.bytes| <= MEMORY_PER_PACKET
  {}

  lemma ForwardTurn(g: Config, c: Datagram, p: Datagram)
    requires g.sends > 0 && Matching(c, p) && |p.bytes| <= MEMORY_PER_PACKET
    ensures AfterBatch(g, Submit(Registered(g, c, p), 3), [Receives(PeerReceive, p)]) == Forwarded(g, c, p)
  {
    var ready := Submit(Registered(g, c, p), 3);
    SubmitAll(Registered(g, c, p), 3);
    OneCompletion(g, ready, Receives(PeerReceive, p));
    SeenByReceives(c, p);
    AfterReceive(g, ready, PeerReceive, p);
    hide AfterBatch, AfterCompletion, Submit, Relayed, EventsOf, Seen, Forwards;
    assert [] + [Send(0), PeerReceive] == [Send(0), PeerReceive];
  }

  lemma SendTurn(g: Config, c: Datagram, p: Datagram)
    requires Matching(c, p) && |p.bytes| <= MEMORY_PER_PACKET
    ensures AfterBatch(g, Submit(Forwarded(g, c, p), 3), [Sends(p)]) == Sent(g, c, p)
  {
    var start := Forwarded(g, c, p);
    var ready := Submit(start, 3);
    SubmitAll(start, 3);
    OneCompletion(g, ready, Sends(p));
    SeenRelayed(c, p, 0);
    SeenRelayed(c, p, 1);
    ForwardsIt(Seen(c, p, 0), c, p);
    hide AfterBatch, Submit, TableAfter, Relayed, Matching;
    assert ready.trace + EventsOf(Sends(p)) == ready.trace;
    assert [] + [0] == [0] && [] + [|p.bytes|] == [|p.bytes|];
  }

  /** From start-up, the datagram is forwarded and its send completes with its length; the worker goes on,
      with the kernel holding both receives. */
  lemma RoundTripCompletes(g: Config, c: Datagram, p: Datagram)
    requires g.sends > 0 && Matching(c, p) && |p.bytes| <= MEMORY_PER_PACKET
    ensures Reference(g, Initial(g), RoundTrip(c, p)) == Sent(g, c, p)
  {
    var run := RoundTrip(c, p);
    RegisterTurn(g, c, p);
    ForwardTurn(g, c, p);
    SendTurn(g, c, p);
    assert run[1..][1..] == run[2..] && run[2..][1..] == [];
    assert Initial(g).outcome == Running;
    hide AfterBatch, Submit, Initial;
    assert Reference(g, Sent(g, c, p), []) == Sent(g, c, p);
    assert Reference(g, Forwarded(g, c, p), run[2..]) == Sent(g, c, p);
    assert Reference(g, Registered(g, c, p), run[1..]) == Sent(g, c, p);
  }
}
