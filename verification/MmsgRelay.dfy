/** The batched engine: each frame receives a batch of client datagrams, then a batch of peer
    datagrams, and sends what the batch queued. Receive and transmit descriptors point into one
    slab, and a queued message is only a pointer to the slot its datagram was received in. */
module MmsgRelay {
  import opened Wire
  import opened RelaySpec
  import opened Statistics
  import opened RelayLogic

  const K_MEMORY_PER_PACKET: nat := 1024
  const K_MMSG_CAPACITY: nat := 65536
  const INT32_MAX: nat := 0x7fff_ffff

  /** Entry i of a descriptor array: the address, io vector and message header wired together. */
  datatype Descriptor = Descriptor(address: Endpoint, base: nat, len: nat, msgLen: nat)

  /** A received datagram is cut to the slot length. */
  function Delivered(d: Datagram): (r: Datagram)
    ensures |r.bytes| <= K_MEMORY_PER_PACKET && r.bytes <= d.bytes && r.from == d.from
    ensures |r.bytes| == |d.bytes| || |r.bytes| == K_MEMORY_PER_PACKET
  {
    if |d.bytes| <= K_MEMORY_PER_PACKET then d else Datagram(d.from, d.bytes[..K_MEMORY_PER_PACKET])
  }

  /** What poll and recvmmsg report for one socket in one frame. */
  datatype Receive = NotReady | Failed | Ready(arrivals: seq<Arrival>)

  /** What one sendmmsg call does: accept up to n messages, ask for a retry, or fail for good. */
  datatype SendResult = Accepts(n: nat) | Retry | Fails

  /** The environment of one frame. */
  datatype Frame = Frame(client: Receive, peer: Receive, tick: Option<seq<seq<Update>>>, sends: seq<SendResult>)

  /** How far a frame gets: to its end, to an abort, or to a send loop still being told to retry. */
  datatype Outcome = Done | Aborted | Stalled

  // --- Reference: the same datagrams, one at a time ----------------------------------------------

  function ClientEvent(a: Arrival): seq<Event> {
    Registrations(a.others) + [Client(Delivered(a.d))]
  }

  function PeerEvent(a: Arrival): seq<Event> {
    Registrations(a.others) + [Peer(Delivered(a.d).bytes)]
  }

  function AfterClients(trace: seq<Event>, arrivals: seq<Arrival>): seq<Event> {
    AfterArrivals(trace, arrivals, ClientEvent)
  }

  function AfterPeers(trace: seq<Event>, arrivals: seq<Arrival>): seq<Event> {
    AfterArrivals(trace, arrivals, PeerEvent)
  }

  /** One call takes at most as many datagrams as there are slots. */
  function Taken(r: Receive, capacity: nat): seq<Arrival> {
    if r.Ready? then (if |r.arrivals| <= capacity then r.arrivals else r.arrivals[..capacity]) else []
  }

  /** A socket that is ready gives all its datagrams, or the first of them, as many as there are slots. */
  lemma TakenExactly(r: Receive, capacity: nat)
    ensures r.Ready? ==> Taken(r, capacity) <= r.arrivals
    ensures r.Ready? ==> |Taken(r, capacity)| == if |r.arrivals| <= capacity then |r.arrivals| else capacity
    ensures r.Ready? && |r.arrivals| <= capacity ==> Taken(r, capacity) == r.arrivals
    ensures !r.Ready? ==> Taken(r, capacity) == []
  {}

  function AfterFrame(trace: seq<Event>, f: Frame, capacity: nat): seq<Event> {
    AfterPeers(AfterClients(trace, Taken(f.client, capacity)), Taken(f.peer, capacity))
  }

  /** What a frame broken off between its phases has had. */
  lemma FrameParts(trace: seq<Event>, f: Frame, capacity: nat)
    ensures trace <= AfterClients(trace, Taken(f.client, capacity)) <= AfterFrame(trace, f, capacity)
    ensures trace <= AfterFrame(trace, f, capacity)
  {
    var clients, peers := Taken(f.client, capacity), Taken(f.peer, capacity);
    AfterArrivalsPrefix(trace, clients, |clients|, ClientEvent);
    AfterArrivalsPrefix(AfterClients(trace, clients), peers, |peers|, PeerEvent);
    PrefixOfPrefix(trace, AfterClients(trace, clients), AfterFrame(trace, f, capacity));
  }

  function AllEvents(frames: seq<Frame>, capacity: nat): seq<Event> {
    if frames == [] then []
    else AfterFrame(AllEvents(frames[..|frames| - 1], capacity), frames[|frames| - 1], capacity)
  }

  lemma PrefixOfPrefix<A>(a: seq<A>, b: seq<A>, c: seq<A>)
    requires a <= b <= c
    ensures a <= c
  {}

  lemma SameMessages(sent: seq<Message>, a: seq<Message>, b: seq<Message>)
    requires sent + a == sent + b
    ensures a == b
  {
    assert a == (sent + a)[|sent|..] && b == (sent + b)[|sent|..];
  }

  lemma Prefixes<A>(s: seq<A>, i: nat, n: nat)
    requires i + n <= |s|
    ensures s[..i] + s[i..i + n] == s[..i + n]
  {}

  // --- The send loop -----------------------------------------------------------------------------

  /** How many of `remaining` queued messages a script of sendmmsg results sends, and how it ends. */
  function Drain(remaining: nat, script: seq<SendResult>): (r: (nat, Outcome))
    ensures r.0 <= remaining
    ensures r.1 == Done <==> r.0 == remaining
  {
    if remaining == 0 then (0, Done)
    else if script == [] then (0, Stalled)
    else
      match script[0]
      case Accepts(n) =>
        var k := if n <= remaining then n else remaining;
        var r := Drain(remaining - k, script[1..]);
        (k + r.0, r.1)
      case Retry => Drain(remaining, script[1..])
      case Fails => (0, Aborted)
  }

  /** The calls that accept at least one message. */
  function Productive(script: seq<SendResult>): nat {
    if script == [] then 0
    else (if script[0].Accepts? && script[0].n > 0 then 1 else 0) + Productive(script[1..])
  }

  lemma {:induction false} ProductiveConcat(a: seq<SendResult>, b: seq<SendResult>)
    ensures Productive(a + b) == Productive(a) + Productive(b)
  {
    if a == [] {
      assert a + b == b;
    } else {
      ProductiveConcat(a[1..], b);
      assert (a + b)[1..] == a[1..] + b;
    }
  }

  lemma {:induction false} ProductiveCounts(script: seq<SendResult>)
    ensures Productive(script) == |set i | 0 <= i < |script| && script[i].Accepts? && script[i].n > 0|
  {
    var all := set i | 0 <= i < |script| && script[i].Accepts? && script[i].n > 0;
    if script == [] {
      assert all == {};
    } else {
      var last := |script| - 1;
      var most := script[..last];
      var before := set i | 0 <= i < |most| && most[i].Accepts? && most[i].n > 0;
      ProductiveConcat(most, [script[last]]);
      assert script == most + [script[last]] && [script[last]][1..] == [];
      ProductiveCounts(most);
      assert all == if script[last].Accepts? && script[last].n > 0 then before + {last} else before;
    }
  }

  /** All that a script of results would accept, until a hard error. */
  function Offered(script: seq<SendResult>): nat {
    if script == [] || script[0].Fails? then 0
    else (if script[0].Accepts? then script[0].n else 0) + Offered(script[1..])
  }

  /** The loop sends as much as is offered, but no more than is queued; it aborts exactly if a hard
      error comes before everything is sent. */
  lemma {:induction false} DrainExactly(remaining: nat, script: seq<SendResult>)
    ensures Drain(remaining, script).0 == if Offered(script) < remaining then Offered(script) else remaining
    ensures Drain(remaining, script).1 == Aborted <==> Offered(script) < remaining && Fails in script
  {
    if remaining == 0 || script == [] {
    } else {
      assert Fails in script <==> script[0] == Fails || Fails in script[1..];
      match script[0]
      case Accepts(n) =>
        DrainExactly(remaining - (if n <= remaining then n else remaining), script[1..]);
      case Retry =>
        DrainExactly(remaining, script[1..]);
      case Fails =>
    }
  }

  /** However many retries are interspersed, the loop ends with everything sent as soon as there
      have been as many productive calls as messages; only a hard error can prevent it. */
  lemma {:induction false} SendLoopCompletes(remaining: nat, script: seq<SendResult>)
    requires forall i :: 0 <= i < |script| ==> script[i] != Fails
    requires Productive(script) >= remaining
    ensures Drain(remaining, script) == (remaining, Done)
  {
    if remaining == 0 {
    } else {
      assert script[0] != Fails;
      match script[0]
      case Accepts(n) =>
        var k := if n <= remaining then n else remaining;
        SendLoopCompletes(remaining - k, script[1..]);
      case Retry =>
        SendLoopCompletes(remaining, script[1..]);
    }
  }

  // --- Reference: a whole run ---------------------------------------------------------------------

  /** How a run stands: how its last frame ended, which datagrams have reached the relay, and what
      the kernel has accepted, and how many totals of the counters have been reported. */
  datatype Progress = Progress(outcome: Outcome, trace: seq<Event>, accepted: seq<Message>, reports: nat)

  /** The messages that a frame forwards. */
  function FrameMessages(trace: seq<Event>, f: Frame, capacity: nat): (queue: seq<Message>)
    ensures Relayed(AfterFrame(trace, f, capacity)) == Relayed(trace) + queue
  {
    FrameParts(trace, f, capacity);
    RelayedPrefix(Relayed(trace), trace, AfterFrame(trace, f, capacity));
    Relayed(AfterFrame(trace, f, capacity))[|Relayed(trace)|..]
  }

  /** What one frame makes of it, on the datagrams and the kernel's answers alone. */
  function AfterStep(p: Progress, f: Frame, capacity: nat): Progress {
    if f.client.Failed? then p.(outcome := Aborted)
    else if f.peer.Failed? then
      p.(outcome := Aborted, trace := AfterClients(p.trace, Taken(f.client, capacity)))
    else
      var queue := FrameMessages(p.trace, f, capacity);
      var drained := Drain(|queue|, f.sends);
      Progress(drained.1, AfterFrame(p.trace, f, capacity), p.accepted + queue[..drained.0],
        p.reports + if f.tick.Some? then 1 else 0)
  }

  /** The whole run, up to the frame that ends it. */
  function Reference(frames: seq<Frame>, capacity: nat): Progress {
    if frames == [] then Progress(Done, [], [], 0)
    else
      var p := Reference(frames[..|frames| - 1], capacity);
      if p.outcome != Done then p else AfterStep(p, frames[|frames| - 1], capacity)
  }

  lemma ReferenceStep(frames: seq<Frame>, capacity: nat, i: nat)
    requires i < |frames| && Reference(frames[..i], capacity).outcome == Done
    ensures Reference(frames[..i + 1], capacity) == AfterStep(Reference(frames[..i], capacity), frames[i], capacity)
  {
    hide AfterStep;
    assert frames[..i + 1][..i] == frames[..i];
  }

  /** A run that has ended stays as it is. */
  lemma {:induction false} EndIsFinal(frames: seq<Frame>, capacity: nat, i: nat)
    requires i <= |frames| && Reference(frames[..i], capacity).outcome != Done
    ensures Reference(frames, capacity) == Reference(frames[..i], capacity)
    decreases |frames|
  {
    hide AfterStep;
    if i == |frames| {
      assert frames[..i] == frames;
    } else {
      var most := frames[..|frames| - 1];
      assert most[..i] == frames[..i];
      EndIsFinal(most, capacity, i);
    }
  }

  /** One frame accepts a prefix of what it forwards, all of it if it gets to its end. */
  lemma StepAccepts(p: Progress, f: Frame, capacity: nat)
    requires p.outcome == Done && p.accepted == Relayed(p.trace)
    ensures var r := AfterStep(p, f, capacity);
      r.trace <= AfterFrame(p.trace, f, capacity) && r.accepted <= Relayed(AfterFrame(p.trace, f, capacity)) &&
      (r.outcome == Done ==> r.trace == AfterFrame(p.trace, f, capacity) && r.accepted == Relayed(r.trace))
  {
    FrameParts(p.trace, f, capacity);
    var queue := FrameMessages(p.trace, f, capacity);
    hide AfterFrame, AfterClients, Relayed, FrameMessages;
    assert queue[..|queue|] == queue;
  }

  /** However a run ends, the kernel has accepted a prefix of what the per-packet relay sends for the
      datagrams of all its frames; and all of it if every frame got to its end. */
  lemma {:induction false} AcceptsInOrder(frames: seq<Frame>, capacity: nat)
    ensures var p := Reference(frames, capacity);
      p.trace <= AllEvents(frames, capacity) && p.accepted <= Relayed(AllEvents(frames, capacity)) &&
      (p.outcome == Done ==> p.trace == AllEvents(frames, capacity) && p.accepted == Relayed(p.trace))
  {
    if frames == [] {
    } else {
      var most, last := frames[..|frames| - 1], frames[|frames| - 1];
      var p, before, all := Reference(most, capacity), AllEvents(most, capacity), AllEvents(frames, capacity);
      AcceptsInOrder(most, capacity);
      FrameParts(before, last, capacity);
      if p.outcome == Done {
        StepAccepts(p, last, capacity);
      } else {
        PrefixOfPrefix(p.trace, before, all);
        RelayedPrefix(p.accepted, before, all);
      }
    }
  }

  /** Without errors, and with as many productive calls in each frame as it took peer datagrams, the
      kernel accepts everything, whatever retries and partial sends come between. */
  lemma {:induction false} AcceptsEverything(frames: seq<Frame>, capacity: nat)
    requires forall i :: 0 <= i < |frames| ==> !frames[i].client.Failed? && !frames[i].peer.Failed?
    requires forall i, k :: 0 <= i < |frames| && 0 <= k < |frames[i].sends| ==> frames[i].sends[k] != Fails
    requires forall i :: 0 <= i < |frames| && frames[i].peer.Ready? ==>
      Productive(frames[i].sends) >= |frames[i].peer.arrivals| || Productive(frames[i].sends) >= capacity
    ensures var p := Reference(frames, capacity);
      p.outcome == Done && p.trace == AllEvents(frames, capacity) && p.accepted == Relayed(AllEvents(frames, capacity))
  {
    AcceptsInOrder(frames, capacity);
    if frames == [] {
    } else {
      var most, last := frames[..|frames| - 1], frames[|frames| - 1];
      AcceptsEverything(most, capacity);
      TakenExactly(last.peer, capacity);
      assert last == frames[|frames| - 1];
      FrameForwardsAtMost(AllEvents(most, capacity), last, capacity);
      SendLoopCompletes(|FrameMessages(AllEvents(most, capacity), last, capacity)|, last.sends);
    }
  }

  /** Client datagrams forward nothing, peer datagrams at most one message each. */
  lemma FrameForwardsAtMost(trace: seq<Event>, f: Frame, capacity: nat)
    ensures |FrameMessages(trace, f, capacity)| <= |Taken(f.peer, capacity)|
  {
    var clients, peers := Taken(f.client, capacity), Taken(f.peer, capacity);
    ClientsForwardNothing(trace, clients);
    PeersForwardAtMost(AfterClients(trace, clients), peers);
  }

  lemma {:induction false} ClientsForwardNothing(trace: seq<Event>, arrivals: seq<Arrival>)
    ensures Relayed(AfterClients(trace, arrivals)) == Relayed(trace)
  {
    if arrivals == [] {
    } else {
      var most, last := arrivals[..|arrivals| - 1], arrivals[|arrivals| - 1];
      var before := AfterClients(trace, most);
      ClientsForwardNothing(trace, most);
      Regroup(before, Registrations(last.others), [Client(Delivered(last.d))]);
      RegistrationsEmitNothing(before, last.others);
      TraceStep(before + Registrations(last.others), Client(Delivered(last.d)));
    }
  }

  lemma {:induction false} PeersForwardAtMost(trace: seq<Event>, arrivals: seq<Arrival>)
    ensures |Relayed(AfterPeers(trace, arrivals))| <= |Relayed(trace)| + |arrivals|
  {
    if arrivals == [] {
    } else {
      var most, last := arrivals[..|arrivals| - 1], arrivals[|arrivals| - 1];
      var before := AfterPeers(trace, most);
      PeersForwardAtMost(trace, most);
      Regroup(before, Registrations(last.others), [Peer(Delivered(last.d).bytes)]);
      RegistrationsEmitNothing(before, last.others);
      TraceStep(before + Registrations(last.others), Peer(Delivered(last.d).bytes));
    }
  }

  /** A frame in which a client registers and datagrams for it arrive. */
  function OneFrame(c: Datagram, peers: seq<Arrival>, tick: Option<seq<seq<Update>>>, sends: seq<SendResult>): Frame {
    Frame(Ready([Arrival(c, [])]), Ready(peers), tick, sends)
  }

  lemma OneArrival(trace: seq<Event>, d: Datagram)
    requires |d.bytes| <= K_MEMORY_PER_PACKET
    ensures AfterClients(trace, [Arrival(d, [])]) == trace + [Client(d)]
    ensures AfterPeers(trace, [Arrival(d, [])]) == trace + [Peer(d.bytes)]
  {
    var a := Arrival(d, []);
    assert [a][..0] == [] && Delivered(d) == d;
    assert Registrations([]) + [Client(d)] == [Client(d)] && Registrations([]) + [Peer(d.bytes)] == [Peer(d.bytes)];
    assert AfterArrivals(trace, [a], ClientEvent) == AfterArrivals(trace, [], ClientEvent) + ClientEvent(a);
    assert AfterArrivals(trace, [a], PeerEvent) == AfterArrivals(trace, [], PeerEvent) + PeerEvent(a);
  }

  lemma TwoArrivals(trace: seq<Event>, d: Datagram)
    requires |d.bytes| <= K_MEMORY_PER_PACKET
    ensures AfterPeers(trace, [Arrival(d, []), Arrival(d, [])]) == trace + [Peer(d.bytes)] + [Peer(d.bytes)]
  {
    var a := Arrival(d, []);
    assert [a, a][..1] == [a];
    OneArrival(trace, d);
    OneArrival(trace + [Peer(d.bytes)], d);
    assert Delivered(d) == d && Registrations([]) + [Peer(d.bytes)] == [Peer(d.bytes)];
  }

  /** What a frame does to a fresh worker that receives a registration and n datagrams for it. */
  lemma FreshFrame(c: Datagram, p: Datagram, f: Frame, capacity: nat, n: nat)
    requires Matching(c, p) && f.client.Ready? && f.peer.Ready?
    requires AfterFrame([], f, capacity) == Seen(c, p, n)
    ensures var end, d := Reference([f], capacity), Drain(n, f.sends);
      end.outcome == d.1 && end.trace == Seen(c, p, n) && end.reports == (if f.tick.Some? then 1 else 0) &&
      |end.accepted| == d.0 && forall m :: m in end.accepted ==> m == Message(c.from, p.bytes)
  {
    var queue := FrameMessages([], f, capacity);
    SeenRelayed(c, p, n);
    FirstFrame(f, capacity);
    assert Relayed([]) == [] && [] + queue == queue;
    hide Reference, Relayed, Seen, AfterFrame, FrameMessages, Drain, Taken, Matching;
    var k := Drain(n, f.sends).0;
    assert queue == Relayed(Seen(c, p, n)) && [] + queue[..k] == queue[..k];
  }

  lemma FirstFrame(f: Frame, capacity: nat)
    ensures Reference([f], capacity) == AfterStep(Progress(Done, [], [], 0), f, capacity)
  {
    hide AfterStep;
    assert [f][..0] == [];
  }

  /** From start-up, a registration and a datagram for it that arrive in one frame: the datagram is
      accepted by the kernel as it is, for the client, even if the kernel first asks for a retry. */
  lemma OneFrameForwards(c: Datagram, p: Datagram, capacity: nat, tick: Option<seq<seq<Update>>>)
    requires Matching(c, p) && |p.bytes| <= K_MEMORY_PER_PACKET && capacity >= 1
    ensures Reference([OneFrame(c, [Arrival(p, [])], tick, [Retry, Accepts(1)])], capacity) ==
      Progress(Done, Seen(c, p, 1), [Message(c.from, p.bytes)], if tick.Some? then 1 else 0)
  {
    var f := OneFrame(c, [Arrival(p, [])], tick, [Retry, Accepts(1)]);
    OneArrival([], c);
    OneArrival([Client(c)], p);
    assert [] + [Client(c)] == [Client(c)] && Seen(c, p, 1) == Seen(c, p, 0) + [Peer(p.bytes)];
    FewDrains();
    hide Reference, Drain, Seen, AfterClients, AfterPeers;
    FreshFrame(c, p, f, capacity, 1);
    FewCopies(Reference([f], capacity).accepted, Message(c.from, p.bytes));
  }

  lemma FewDrains()
    ensures Drain(1, [Retry, Accepts(1)]) == (1, Done)
    ensures Drain(2, [Accepts(1), Retry, Accepts(1)]) == (2, Done)
    ensures Drain(2, [Accepts(1), Fails]) == (1, Aborted)
  {
    assert [Accepts(1), Retry, Accepts(1)][1..] == [Retry, Accepts(1)] && [Retry, Accepts(1)][1..] == [Accepts(1)];
    assert [Accepts(1)][1..] == [] && [Accepts(1), Fails][1..] == [Fails];
    assert Drain(1, [Accepts(1)]) == (1, Done) && Drain(1, [Fails]) == (0, Aborted);
  }

  lemma FewCopies(messages: seq<Message>, m: Message)
    requires forall x :: x in messages ==> x == m
    ensures |messages| == 1 ==> messages == [m]
    ensures |messages| == 2 ==> messages == [m, m]
  {
    assert forall i :: 0 <= i < |messages| ==> messages[i] in messages;
  }

  /** Two datagrams in one frame, which the kernel accepts one at a time; and one that it fails on. */
  lemma PartialSends(c: Datagram, p: Datagram, capacity: nat)
    requires Matching(c, p) && |p.bytes| <= K_MEMORY_PER_PACKET && capacity >= 2
    ensures var two, m := [Arrival(p, []), Arrival(p, [])], Message(c.from, p.bytes);
      Reference([OneFrame(c, two, None, [Accepts(1), Retry, Accepts(1)])], capacity) ==
        Progress(Done, Seen(c, p, 2), [m, m], 0) &&
      Reference([OneFrame(c, two, None, [Accepts(1), Fails])], capacity) ==
        Progress(Aborted, Seen(c, p, 2), [m], 0)
  {
    var two := [Arrival(p, []), Arrival(p, [])];
    var f, g := OneFrame(c, two, None, [Accepts(1), Retry, Accepts(1)]), OneFrame(c, two, None, [Accepts(1), Fails]);
    TwoSeen(c, p, f, capacity);
    TwoSeen(c, p, g, capacity);
    FewDrains();
    hide Reference, Drain, Seen, AfterFrame;
    FreshFrame(c, p, f, capacity, 2);
    FreshFrame(c, p, g, capacity, 2);
    FewCopies(Reference([f], capacity).accepted, Message(c.from, p.bytes));
    FewCopies(Reference([g], capacity).accepted, Message(c.from, p.bytes));
  }

  lemma TwoSeen(c: Datagram, p: Datagram, f: Frame, capacity: nat)
    requires Matching(c, p) && |p.bytes| <= K_MEMORY_PER_PACKET && capacity >= 2
    requires f == OneFrame(c, [Arrival(p, []), Arrival(p, [])], f.tick, f.sends)
    ensures AfterFrame([], f, capacity) == Seen(c, p, 2)
  {
    OneArrival([], c);
    TwoArrivals([Client(c)], p);
    assert [] + [Client(c)] == [Client(c)];
    assert Seen(c, p, 2) == Seen(c, p, 1) + [Peer(p.bytes)] && Seen(c, p, 1) == Seen(c, p, 0) + [Peer(p.bytes)];
    hide AfterClients, AfterPeers;
  }

  // --- Descriptors and the kernel ------------------------------------------------------------------

  /** Receive slots: entry i owns bytes 1024 i up to 1024 (i + 1) of the slab. So they are disjoint,
      and stay this way for the whole run. */
  ghost predicate SlotsIntact(v: array<Descriptor>)
    reads v
  {
    forall i :: 0 <= i < v.Length ==> v[i].base == K_MEMORY_PER_PACKET * i && v[i].len == K_MEMORY_PER_PACKET
  }

  ghost predicate Holds(slab: array<byte>, e: Descriptor, d: Datagram)
    reads slab
  {
    e.address == d.from && e.msgLen == |d.bytes| &&
    e.base + e.msgLen <= slab.Length && slab[e.base..e.base + e.msgLen] == d.bytes
  }

  method IoVectorsInit(capacity: nat) returns (v: array<Descriptor>)
    requires capacity <= K_MMSG_CAPACITY
    ensures fresh(v) && v.Length == capacity && SlotsIntact(v)
    ensures forall i :: 0 <= i < v.Length ==> v[i].base + v[i].len <= INT32_MAX
  {
    v := new Descriptor[capacity];
    for i := 0 to capacity
      invariant forall j :: 0 <= j < i ==> v[j].base == K_MEMORY_PER_PACKET * j && v[j].len == K_MEMORY_PER_PACKET
    {
      v[i] := Descriptor(Endpoint(0, 0), K_MEMORY_PER_PACKET * i, K_MEMORY_PER_PACKET, 0);
    }
  }

  /** Kernel: fills one slot, cutting the datagram to the slot. */
  method FillSlot(slab: array<byte>, v: array<Descriptor>, i: nat, d: Datagram)
    requires i < v.Length && SlotsIntact(v) && slab.Length == K_MEMORY_PER_PACKET * v.Length
    modifies slab, v
    ensures SlotsIntact(v) && Holds(slab, v[i], Delivered(d))
    ensures forall j :: 0 <= j < v.Length && j != i ==> v[j] == old(v[j])
    ensures forall b :: 0 <= b < slab.Length && !(v[i].base <= b < v[i].base + v[i].len) ==> slab[b] == old(slab[b])
  {
    var bytes := Delivered(d).bytes;
    var base := v[i].base;
    forall j | 0 <= j < |bytes| {
      slab[base + j] := bytes[j];
    }
    v[i] := v[i].(address := d.from, msgLen := |bytes|);
  }

  /** Kernel: recvmmsg into the slots of `v`, as many datagrams as there are slots. */
  method Recvmmsg(slab: array<byte>, v: array<Descriptor>, arrivals: seq<Arrival>)
    requires SlotsIntact(v) && slab.Length == K_MEMORY_PER_PACKET * v.Length && |arrivals| <= v.Length
    modifies slab, v
    ensures SlotsIntact(v)
    ensures forall i :: 0 <= i < |arrivals| ==> Holds(slab, v[i], Delivered(arrivals[i].d))
  {
    for n := 0 to |arrivals|
      invariant SlotsIntact(v)
      invariant forall i :: 0 <= i < n ==> Holds(slab, v[i], Delivered(arrivals[i].d))
    {
      label before:
      FillSlot(slab, v, n, arrivals[n].d);
      forall i | 0 <= i < n
        ensures Holds(slab, v[i], Delivered(arrivals[i].d))
      {
        assert old@before(Holds(slab, v[i], Delivered(arrivals[i].d)));
        assert slab[v[i].base..v[i].base + v[i].msgLen] == old@before(slab[v[i].base..v[i].base + v[i].msgLen]);
      }
    }
  }

  // --- The worker ----------------------------------------------------------------------------------

  class IoWorker {
    const index: nat
    const capacity: nat
    const slab: array<byte>
    const peersRx: array<Descriptor>
    const peersTx: array<Descriptor>
    const clientsRx: array<Descriptor>
    const clientsTx: array<Descriptor>
    const relay: Relay
    var txLength: nat

    ghost var accepted: seq<Message>  // what the kernel has taken from sendmmsg calls, in order

    ghost predicate Valid()
      reads this, relay, peersRx, clientsRx
    {
      slab.Length == K_MEMORY_PER_PACKET * capacity &&
      peersRx.Length == capacity && clientsRx.Length == capacity && clientsTx.Length == capacity &&
      peersRx != clientsTx && clientsRx != clientsTx && peersRx != clientsRx &&
      SlotsIntact(peersRx) && SlotsIntact(clientsRx) &&
      relay.Valid() && index < |relay.perThread| &&
      relay.ledger[index].outgoing == Tally(relay.forwarded) &&
      relay.ledger[index].incoming == Handed(relay.trace) &&
      txLength <= capacity
    }

    /** Between frames: everything forwarded so far has been accepted by the kernel. */
    ghost predicate AtFrameStart()
      reads this, relay, peersRx, clientsRx
    {
      Valid() && accepted == relay.forwarded
    }

    constructor (index: nat, capacity: nat, threads: nat)
      requires index < threads && capacity <= K_MMSG_CAPACITY
      ensures AtFrameStart() && relay.trace == [] && relay.reports == [] && fresh(relay) && |relay.perThread| == threads
      ensures this.index == index && this.capacity == capacity
      ensures fresh(slab) && fresh(peersRx) && fresh(peersTx) && fresh(clientsRx) && fresh(clientsTx)
      ensures peersTx.Length == clientsTx.Length == capacity && SlotsIntact(peersTx) && SlotsIntact(clientsTx)
    {
      this.index := index;
      this.capacity := capacity;
      relay := new Relay(threads);
      slab := new byte[K_MEMORY_PER_PACKET * capacity](_ => 0);
      var v0 := IoVectorsInit(capacity);
      var v1 := IoVectorsInit(capacity);
      var v2 := IoVectorsInit(capacity);
      var v3 := IoVectorsInit(capacity);
      peersRx, peersTx, clientsRx, clientsTx := v0, v1, v2, v3;
      txLength := 0;
      accepted := [];
    }

    /** What the kernel would send for transmit entry j, read from the slab at this moment. */
    ghost function MessageAt(j: nat): (m: Message)
      requires j < clientsTx.Length && clientsTx[j].base + clientsTx[j].len <= slab.Length
      reads clientsTx, slab
    {
      Message(clientsTx[j].address, slab[clientsTx[j].base..clientsTx[j].base + clientsTx[j].len])
    }

    ghost predicate Queued(messages: seq<Message>)
      reads this, clientsTx, slab
    {
      |messages| == txLength <= clientsTx.Length &&
      forall j :: 0 <= j < txLength ==>
        clientsTx[j].base + clientsTx[j].len <= slab.Length && MessageAt(j) == messages[j]
    }

    method BeginFrame()
      modifies this`txLength
      ensures txLength == 0
    {
      txLength := 0;
    }

    method HandleClient(i: nat, a: Arrival)
      requires Valid() && i < capacity && Holds(slab, clientsRx[i], Delivered(a.d))
      modifies relay
      ensures Valid()
      ensures relay.trace == old(relay.trace) + ClientEvent(a)
      ensures relay.forwarded == old(relay.forwarded)
      ensures |relay.perThread| == old(|relay.perThread|) && relay.reports == old(relay.reports)
    {
      hide TableAfter, Relayed, Conserved, Tally, Handed, Registrations;
      var e := clientsRx[i];
      Regroup(relay.trace, Registrations(a.others), [Client(Delivered(a.d))]);
      relay.OthersRegister(a.others);
      HandedStep(relay.trace, Client(Delivered(a.d)));
      relay.OnClientReceived(index, e.address, slab[e.base..e.base + e.msgLen]);
    }

    method RunClientReceiveFrame(arrivals: seq<Arrival>)
      requires Valid() && |arrivals| <= capacity
      modifies slab, clientsRx, relay
      ensures Valid()
      ensures relay.trace == AfterClients(old(relay.trace), arrivals)
      ensures relay.forwarded == old(relay.forwarded)
      ensures |relay.perThread| == old(|relay.perThread|) && relay.reports == old(relay.reports)
    {
      Recvmmsg(slab, clientsRx, arrivals);
      for i := 0 to |arrivals|
        invariant Valid()
        invariant forall k :: 0 <= k < |arrivals| ==> Holds(slab, clientsRx[k], Delivered(arrivals[k].d))
        invariant relay.trace == AfterClients(old(relay.trace), arrivals[..i])
        invariant relay.forwarded == old(relay.forwarded)
        invariant |relay.perThread| == old(|relay.perThread|) && relay.reports == old(relay.reports)
      {
        HandleClient(i, arrivals[i]);
        AfterArrivalsStep(old(relay.trace), arrivals, i, ClientEvent);
      }
      assert arrivals[..|arrivals|] == arrivals;
    }

    /** Queues a pointer to the packet, and reports it as sent at once. */
    method StartSend(to: Endpoint, base: nat, len: nat, ghost queue: seq<Message>)
      requires txLength < clientsTx.Length && relay.Valid() && index < |relay.perThread|
      requires Queued(queue) && base + len <= slab.Length
      modifies this`txLength, clientsTx, relay`perThread, relay`ledger, relay`peerStarts
      ensures txLength == old(txLength) + 1
      ensures Queued(queue + [Message(to, slab[base..base + len])])
      ensures relay.Valid() && |relay.perThread| == old(|relay.perThread|)
      ensures relay.ledger == Book(old(relay.ledger), Update(index, Outgoing(len)))
    {
      hide TableAfter, Relayed, Conserved, Wrap, Count;
      Enqueue(to, base, len, queue);
      relay.OnSessionSent(index, len);
    }

    method Enqueue(to: Endpoint, base: nat, len: nat, ghost queue: seq<Message>)
      requires txLength < clientsTx.Length && Queued(queue) && base + len <= slab.Length
      modifies this`txLength, clientsTx
      ensures txLength == old(txLength) + 1
      ensures Queued(queue + [Message(to, slab[base..base + len])])
    {
      clientsTx[txLength] := clientsTx[txLength].(address := to, base := base, len := len);
      txLength := txLength + 1;
      assert MessageAt(txLength - 1) == Message(to, slab[base..base + len]);
      assert forall j :: 0 <= j < txLength - 1 ==> clientsTx[j] == old(clientsTx[j]) && MessageAt(j) == queue[j];
    }

    /** Handles the datagram in peer slot i: its message, if any, joins the queue as a pointer. */
    method HandlePeer(i: nat, a: Arrival, ghost queue: seq<Message>)
      returns (ghost sent: seq<Message>)
      requires Valid() && i < capacity && txLength <= i && Holds(slab, peersRx[i], Delivered(a.d)) && Queued(queue)
      modifies this`txLength, clientsTx, relay
      ensures Valid() && txLength <= i + 1
      ensures relay.trace == old(relay.trace) + PeerEvent(a)
      ensures Queued(queue + sent)
      ensures relay.forwarded == old(relay.forwarded) + sent
      ensures |relay.perThread| == old(|relay.perThread|) && relay.reports == old(relay.reports)
    {
      hide TableAfter, Relayed, Tally, Handed, Conserved, Registrations, Lookup, GetSessionId;
      var e := peersRx[i];
      ghost var d := Delivered(a.d);
      Regroup(relay.trace, Registrations(a.others), [Peer(d.bytes)]);
      relay.OthersRegister(a.others);
      HandedStep(relay.trace, Peer(d.bytes));
      ghost var forwarded := relay.forwarded;
      var session := relay.OnPeerReceived(index, slab[e.base..e.base + e.msgLen]);
      if session.Some? {
        sent := [Message(session.value, d.bytes)];
        TallyStep(forwarded, Message(session.value, d.bytes));
        StartSend(session.value, e.base, e.msgLen, queue);
      } else {
        sent := [];
        assert queue + sent == queue && forwarded + sent == forwarded;
      }
    }

    /** Receives and handles a batch; afterwards the queue holds pointers to exactly the messages
        forwarded in this frame. No index into the transmit array needs a run-time check. */
    method RunPeerReceiveFrame(arrivals: seq<Arrival>) returns (ghost queue: seq<Message>)
      requires Valid() && |arrivals| <= capacity && txLength == 0
      modifies this`txLength, slab, peersRx, clientsTx, relay
      ensures Valid()
      ensures relay.trace == AfterPeers(old(relay.trace), arrivals)
      ensures relay.forwarded == old(relay.forwarded) + queue && Queued(queue)
      ensures |relay.perThread| == old(|relay.perThread|) && relay.reports == old(relay.reports)
    {
      assert arrivals[..0] == [] && arrivals[..|arrivals|] == arrivals;
      assert AfterPeers(relay.trace, []) == relay.trace;
      hide TableAfter, Relayed, Tally, Handed, Conserved, AfterArrivals, PeerEvent;
      Recvmmsg(slab, peersRx, arrivals);
      queue := [];
      for i := 0 to |arrivals|
        invariant Valid() && txLength <= i
        invariant forall k :: 0 <= k < |arrivals| ==> Holds(slab, peersRx[k], Delivered(arrivals[k].d))
        invariant relay.trace == AfterPeers(old(relay.trace), arrivals[..i])
        invariant relay.forwarded == old(relay.forwarded) + queue && Queued(queue)
        invariant |relay.perThread| == old(|relay.perThread|) && relay.reports == old(relay.reports)
      {
        ghost var sent := HandlePeer(i, arrivals[i], queue);
        Regroup(old(relay.forwarded), queue, sent);
        queue := queue + sent;
        AfterArrivalsStep(old(relay.trace), arrivals, i, PeerEvent);
      }
      assert arrivals[..|arrivals|] == arrivals;
    }

    /** Kernel: takes the `count` messages from transmit entry `offset` on, reading them now. */
    ghost method Sendmmsg(offset: nat, count: nat, messages: seq<Message>)
      requires Queued(messages) && offset + count <= txLength
      modifies this`accepted
      ensures accepted == old(accepted) + messages[offset..offset + count]
    {
      accepted := accepted + seq(count, k requires 0 <= k < count && offset + count <= txLength && Queued(messages)
        reads this, clientsTx, slab => MessageAt(offset + k));
    }

    /** However the kernel splits the queue and whenever it asks to retry, it takes a prefix of the
        queue, in order, once; the whole queue exactly when the loop ends normally. */
    method RunClientSendFrame(script: seq<SendResult>, ghost messages: seq<Message>) returns (outcome: Outcome)
      requires Queued(messages)
      modifies this`accepted
      ensures outcome == Drain(txLength, script).1
      ensures accepted == old(accepted) + messages[..Drain(txLength, script).0]
    {
      var remaining: nat, offset: nat, i: nat := txLength, 0, 0;
      while remaining > 0
        invariant offset + remaining == txLength && i <= |script|
        invariant accepted == old(accepted) + messages[..offset]
        invariant Drain(txLength, script) == (offset + Drain(remaining, script[i..]).0, Drain(remaining, script[i..]).1)
        decreases |script| - i
      {
        if i == |script| {
          return Stalled;
        }
        var result := script[i];
        assert script[i..][1..] == script[i + 1..];
        i := i + 1;
        match result
        case Fails =>
          return Aborted;
        case Retry =>
        case Accepts(n) =>
          var sent := if n <= remaining then n else remaining;
          Sendmmsg(offset, sent, messages);
          Prefixes(messages, offset, sent);
          Regroup(old(accepted), messages[..offset], messages[offset..offset + sent]);
          remaining := remaining - sent;
          offset := offset + sent;
      }
      outcome := Done;
    }

    method StatisticsTick(others: seq<seq<Update>>)
      requires Valid() && TickPossible(Some(others), |relay.perThread|, index)
      modifies relay`perThread, relay`ledger, relay`reported, relay`reports
      ensures Valid() && |relay.perThread| == old(|relay.perThread|) && |others| == |relay.perThread|
      ensures var load := LoadSteps(old(relay.perThread), others, |others|);
        relay.reports == old(relay.reports) + [load.total] && relay.perThread == load.counters
    {
      OthersKeepOwnLedger(relay.ledger, others, |others|, index);
      var _ := relay.LoadStatistics(others);
    }

    method ClientPhase(r: Receive)
      requires Valid() && !r.Failed?
      modifies slab, clientsRx, relay
      ensures Valid()
      ensures relay.trace == AfterClients(old(relay.trace), Taken(r, capacity))
      ensures relay.forwarded == old(relay.forwarded)
      ensures |relay.perThread| == old(|relay.perThread|) && relay.reports == old(relay.reports)
    {
      if r.Ready? {
        RunClientReceiveFrame(Taken(r, capacity));
      }
    }

    method PeerPhase(r: Receive) returns (ghost queue: seq<Message>)
      requires Valid() && !r.Failed? && txLength == 0
      modifies this`txLength, slab, peersRx, clientsTx, relay
      ensures Valid()
      ensures relay.trace == AfterPeers(old(relay.trace), Taken(r, capacity))
      ensures relay.forwarded == old(relay.forwarded) + queue && Queued(queue)
      ensures |relay.perThread| == old(|relay.perThread|) && relay.reports == old(relay.reports)
    {
      queue := [];
      if r.Ready? {
        queue := RunPeerReceiveFrame(Taken(r, capacity));
      }
    }

    /** The receive phases of a frame; false is an abort. Afterwards the queue reads back exactly what
        the frame forwards. */
    method ReceivePhases(f: Frame) returns (ok: bool, ghost queue: seq<Message>)
      requires AtFrameStart() && txLength == 0
      modifies this`txLength, slab, peersRx, clientsRx, clientsTx, relay
      ensures Valid() && |relay.perThread| == old(|relay.perThread|) && relay.reports == old(relay.reports)
      ensures ok <==> !f.client.Failed? && !f.peer.Failed?
      ensures ok ==> relay.trace == AfterFrame(old(relay.trace), f, capacity)
      ensures ok ==> Queued(queue) && relay.forwarded == accepted + queue
      ensures ok ==> queue == FrameMessages(old(relay.trace), f, capacity)
      ensures !ok ==> accepted <= relay.forwarded
      ensures !ok && f.client.Failed? ==> relay.trace == old(relay.trace)
      ensures !ok && !f.client.Failed? ==> relay.trace == AfterClients(old(relay.trace), Taken(f.client, capacity))
    {
      ghost var trace := relay.trace;
      assert relay.forwarded == Relayed(trace);
      hide TableAfter, Relayed, Tally, Handed, Conserved, Lookup, AfterClients, AfterPeers, Taken, FrameMessages;
      ok, queue := false, [];
      if f.client.Failed? {
        return;
      }
      ClientPhase(f.client);
      if f.peer.Failed? {
        return;
      }
      queue := PeerPhase(f.peer);
      ok := true;
      SameMessages(Relayed(trace), queue, FrameMessages(trace, f, capacity));
    }

    /** The rest of a frame: on a tick the counters are drained, then the queue is sent. */
    method TickAndSend(f: Frame, ghost queue: seq<Message>) returns (outcome: Outcome)
      requires Valid() && Queued(queue) && relay.forwarded == accepted + queue
      requires TickPossible(f.tick, |relay.perThread|, index)
      modifies this`accepted, relay`perThread, relay`ledger, relay`reported, relay`reports
      ensures Valid() && |relay.perThread| == old(|relay.perThread|)
      ensures f.tick.Some? ==>
        var load := LoadSteps(old(relay.perThread), f.tick.value, |f.tick.value|);
        relay.reports == old(relay.reports) + [load.total] && relay.perThread == load.counters
      ensures f.tick.None? ==> relay.reports == old(relay.reports) && relay.perThread == old(relay.perThread)
      ensures outcome == Drain(|queue|, f.sends).1
      ensures accepted == old(accepted) + queue[..Drain(|queue|, f.sends).0]
      ensures accepted <= relay.forwarded && (outcome == Done ==> accepted == relay.forwarded)
    {
      hide TableAfter, Relayed, Tally, Handed, Conserved, Drain;
      if f.tick.Some? {
        StatisticsTick(f.tick.value);
      }
      outcome := RunClientSendFrame(f.sends, queue);
      assert queue[..|queue|] == queue;
    }

    /** One frame does exactly what a relay does that handles each of its datagrams at once and then
        sends. The client batch overwrites the slab before any pointer into it is queued, the peer
        batch while none is queued yet, and the queue is drained before the next frame overwrites it. */
    method RunFrame(f: Frame) returns (outcome: Outcome)
      requires AtFrameStart() && TickPossible(f.tick, |relay.perThread|, index)
      modifies this, slab, peersRx, clientsRx, clientsTx, relay
      ensures Valid() && |relay.perThread| == old(|relay.perThread|)
      ensures Progress(outcome, relay.trace, accepted, |relay.reports|) ==
        AfterStep(Progress(Done, old(relay.trace), old(accepted), old(|relay.reports|)), f, capacity)
      ensures accepted <= relay.forwarded && (outcome == Done ==> AtFrameStart())
    {
      hide TableAfter, Relayed, Tally, Handed, Conserved, AfterClients, AfterFrame, Taken, TickPossible,
        FrameMessages, Drain;
      BeginFrame();
      var ok, queue := ReceivePhases(f);
      if !ok {
        return Aborted;
      }
      outcome := TickAndSend(f, queue);
    }

    /** Frame i of a run whose earlier frames are done. */
    method RunNext(frames: seq<Frame>, i: nat) returns (outcome: Outcome)
      requires AtFrameStart() && i < |frames| && TickPossible(frames[i].tick, |relay.perThread|, index)
      requires Progress(Done, relay.trace, accepted, |relay.reports|) == Reference(frames[..i], capacity)
      modifies this, slab, peersRx, clientsRx, clientsTx, relay
      ensures Valid() && |relay.perThread| == old(|relay.perThread|) && accepted <= relay.forwarded
      ensures outcome == Done ==>
        AtFrameStart() && Progress(Done, relay.trace, accepted, |relay.reports|) == Reference(frames[..i + 1], capacity)
      ensures outcome != Done ==>
        Progress(outcome, relay.trace, accepted, |relay.reports|) == Reference(frames, capacity)
    {
      ReferenceStep(frames, capacity, i);
      hide *;
      outcome := RunFrame(frames[i]);
      if outcome != Done {
        EndIsFinal(frames, capacity, i + 1);
      }
    }

    /** The whole run, over any environment: how it ends, which datagrams it handles and what the kernel
        accepts are those of the reference. The outgoing counters, which move when a message is
        queued, agree with the kernel exactly when everything forwarded has been accepted. */
    method Run(frames: seq<Frame>) returns (outcome: Outcome)
      requires AtFrameStart() && relay.trace == [] && relay.reports == []
      requires forall i :: 0 <= i < |frames| ==> TickPossible(frames[i].tick, |relay.perThread|, index)
      modifies this, slab, peersRx, clientsRx, clientsTx, relay
      ensures Valid() && Progress(outcome, relay.trace, accepted, |relay.reports|) == Reference(frames, capacity)
      ensures relay.ledger[index].outgoing == Tally(accepted) <==> accepted == Relayed(relay.trace)
      ensures relay.trace <= AllEvents(frames, capacity) && accepted <= Relayed(AllEvents(frames, capacity))
      ensures outcome == Done ==>
        accepted == Relayed(AllEvents(frames, capacity)) && relay.ledger[index].outgoing == Tally(accepted)
    {
      assert frames[..0] == [] && frames[..|frames|] == frames && accepted == [];
      assert Reference([], capacity) == Progress(Done, [], [], 0);
      AcceptsInOrder(frames, capacity);
      hide *;
      for i := 0 to |frames|
        invariant Valid() && AtFrameStart() && |relay.perThread| == old(|relay.perThread|)
        invariant accepted <= relay.forwarded
        invariant Progress(Done, relay.trace, accepted, |relay.reports|) == Reference(frames[..i], capacity)
      {
        outcome := RunNext(frames, i);
        if outcome != Done {
          CountersAgree();
          return;
        }
      }
      outcome := Done;
      CountersAgree();
    }

    lemma CountersAgree()
      requires Valid() && accepted <= relay.forwarded
      ensures index < |relay.ledger| && relay.forwarded == Relayed(relay.trace)
      ensures relay.ledger[index].outgoing == Tally(accepted) <==> accepted == Relayed(relay.trace)
    {
      TallyPackets(accepted);
      TallyPackets(relay.forwarded);
      hide Relayed, Tally, Conserved;
    }
  }
}
