/** The callback engine: receive buffers are pooled on an intrusive stack and counted by reference,
    one reference per send that still reads the buffer. The same counter also numbers the send
    chunks of a buffer, and the buffer in use is passed between callbacks through `lastAlloc`. */
module LibuvRelay {
  import opened Wire
  import opened RelaySpec
  import opened Statistics
  import opened RelayLogic
  import opened IntrusiveStack

  const MMSG_CHUNKS: nat := 32  // send chunks per buffer where a receive can return several datagrams
  const MMSG_REGIONS: nat := 2  // and 64 KB regions per buffer

  /** A send in preparation or under way: where its bytes lie in the buffer, and the session. */
  datatype Chunk = Chunk(region: nat, len: nat, session: Endpoint)

  /** A buffer: its send chunks, its counter, and its memory, one region per datagram. */
  datatype IoBuf = IoBuf(chunks: seq<Chunk>, refCount: nat, data: seq<seq<byte>>)

  type Buf = Node<IoBuf>

  /** A send known to the library and not yet completed. */
  datatype Request = Request(buf: Buf, chunk: nat)

  /** What the event loop may do next. A burst is one buffer allocation, the data callbacks of the
      datagrams read into it, and a closing callback; send completions only come between bursts.
      A completion is named by the forwarded message, counted from 0, whose send it completes. The
      statistics tick reads and resets the threads' records one by one; this thread may go on in
      between, and other threads may have counted before each read. */
  datatype LoopEvent =
    | ClientBurst(arrivals: seq<Arrival>)
    | PeerBurst(arrivals: seq<Arrival>)
    | SendCompletes(serial: nat)
    | StatisticsRead(thread: nat, updates: seq<Update>)  // the default loop reads a thread's record
    | Fails                                              // a receive or send reported an error

  datatype Outcome = Running | Aborted | NoBufferSpace

  // --- Reference ---------------------------------------------------------------------------------------

  /** An empty datagram never reaches the relay. */
  function ClientEvent(a: Arrival): seq<Event> {
    if a.d.bytes == [] then [] else Registrations(a.others) + [Client(a.d)]
  }

  function PeerEvent(a: Arrival): seq<Event> {
    if a.d.bytes == [] then [] else Registrations(a.others) + [Peer(a.d.bytes)]
  }

  function AfterClients(trace: seq<Event>, arrivals: seq<Arrival>): seq<Event> {
    AfterArrivals(trace, arrivals, ClientEvent)
  }

  function AfterPeers(trace: seq<Event>, arrivals: seq<Arrival>): seq<Event> {
    AfterArrivals(trace, arrivals, PeerEvent)
  }

  lemma ClientEventOf(before: seq<Event>, a: Arrival)
    ensures before + ClientEvent(a) ==
      if |a.d.bytes| == 0 then before
      else before + Registrations(a.others) + [Client(Datagram(a.d.from, a.d.bytes[..|a.d.bytes|]))]
  {
    assert a.d.bytes[..|a.d.bytes|] == a.d.bytes;
  }

  lemma PeerEventOf(before: seq<Event>, a: Arrival)
    ensures before + PeerEvent(a) ==
      if |a.d.bytes| == 0 then before else before + Registrations(a.others) + [Peer(a.d.bytes[..|a.d.bytes|])]
  {
    assert a.d.bytes[..|a.d.bytes|] == a.d.bytes;
  }

  /** Without multi-datagram receives, a burst is one datagram or none. */
  predicate BurstPossible(mmsg: bool, arrivals: seq<Arrival>) {
    mmsg || |arrivals| <= 1
  }

  /** More datagrams of the burst are to be forwarded than a buffer has chunks. */
  predicate Overflows(trace: seq<Event>, arrivals: seq<Arrival>, chunks: nat) {
    |Relayed(AfterPeers(trace, arrivals))| > |Relayed(trace)| + chunks
  }

  /** A thread as its surroundings see it, without buffers: how it stands, which datagrams have
      reached the relay, which forwarded messages have been sent, in order of completion, and how many
      records of the counters have been read. */
  datatype Progress = Progress(outcome: Outcome, trace: seq<Event>, completed: seq<nat>, reports: nat)

  /** A thread: whether a receive can return several datagrams, how many chunks a buffer has, how many
      threads there are, and which of them it is. */
  datatype Config = Config(mmsg: bool, chunks: nat, threads: nat, id: nat)

  /** What one event of the loop makes of it. Only a send under way can complete, and only once. */
  function After(g: Config, p: Progress, e: LoopEvent): Progress {
    match e
    case ClientBurst(arrivals) =>
      if BurstPossible(g.mmsg, arrivals) then p.(trace := AfterClients(p.trace, arrivals)) else p
    case PeerBurst(arrivals) =>
      if !BurstPossible(g.mmsg, arrivals) then p
      else if Overflows(p.trace, arrivals, g.chunks) then p.(outcome := NoBufferSpace)
      else p.(trace := AfterPeers(p.trace, arrivals))
    case SendCompletes(s) =>
      if s < |Relayed(p.trace)| && s !in p.completed then p.(completed := p.completed + [s]) else p
    case StatisticsRead(t, updates) =>
      if ReadPossible(g, t, updates) then p.(reports := p.reports + 1) else p
    case Fails => p.(outcome := Aborted)
  }

  /** Before a record is read, other threads may have counted, in their own records. */
  predicate ReadPossible(g: Config, t: nat, updates: seq<Update>) {
    t < g.threads && forall u :: u in updates ==> u.thread < g.threads && u.thread != g.id
  }

  /** The whole run, up to the event that stops the thread. */
  function Reference(g: Config, p: Progress, events: seq<LoopEvent>): Progress
    decreases |events|
  {
    if events == [] || p.outcome != Running then p
    else Reference(g, After(g, p, events[0]), events[1..])
  }

  /** Each datagram is forwarded at most once. */
  lemma {:induction false} AtMostOneEach(trace: seq<Event>, arrivals: seq<Arrival>)
    ensures |Relayed(AfterPeers(trace, arrivals))| <= |Relayed(trace)| + |arrivals|
  {
    if arrivals == [] {
    } else {
      var most, last := arrivals[..|arrivals| - 1], arrivals[|arrivals| - 1];
      var before := AfterPeers(trace, most);
      AtMostOneEach(trace, most);
      if last.d.bytes == [] {
        assert before + PeerEvent(last) == before;
      } else {
        Regroup(before, Registrations(last.others), [Peer(last.d.bytes)]);
        RegistrationsEmitNothing(before, last.others);
        TraceStep(before + Registrations(last.others), Peer(last.d.bytes));
      }
    }
  }

  /** With no more datagrams in a burst than a buffer has chunks, chunks never run out. */
  lemma {:induction false} NeverOutOfChunks(g: Config, p: Progress, events: seq<LoopEvent>)
    requires p.outcome != NoBufferSpace
    requires forall i :: 0 <= i < |events| && events[i].PeerBurst? ==> |events[i].arrivals| <= g.chunks
    ensures Reference(g, p, events).outcome != NoBufferSpace
    decreases |events|
  {
    if events == [] || p.outcome != Running {
    } else {
      if events[0].PeerBurst? {
        AtMostOneEach(p.trace, events[0].arrivals);
      }
      NeverOutOfChunks(g, After(g, p, events[0]), events[1..]);
    }
  }

  /** A receive that can return several datagrams may return any number of them: all of a client burst
      reach the relay, and all of a peer burst unless the chunks run out. */
  lemma EveryDatagramOfABurst(g: Config, p: Progress, arrivals: seq<Arrival>)
    requires g.mmsg
    ensures After(g, p, ClientBurst(arrivals)) == p.(trace := AfterClients(p.trace, arrivals))
    ensures After(g, p, PeerBurst(arrivals)) ==
      if |Relayed(AfterPeers(p.trace, arrivals))| > |Relayed(p.trace)| + g.chunks then p.(outcome := NoBufferSpace)
      else p.(trace := AfterPeers(p.trace, arrivals))
  {}

  /** A receive that returns one datagram at most has bursts of one, or of none. */
  lemma TheDatagramOfABurst(g: Config, p: Progress, arrivals: seq<Arrival>)
    requires !g.mmsg && g.chunks > 0 && |arrivals| <= 1
    ensures After(g, p, ClientBurst(arrivals)) == p.(trace := AfterClients(p.trace, arrivals))
    ensures After(g, p, PeerBurst(arrivals)) == p.(trace := AfterPeers(p.trace, arrivals))
  {
    AtMostOneEach(p.trace, arrivals);
  }

  /** A burst broken off after arrival i, having forwarded too much, would do so to its end. */
  lemma OverflowIsFinal(trace: seq<Event>, arrivals: seq<Arrival>, i: nat, chunks: nat)
    requires i <= |arrivals| && |Relayed(AfterPeers(trace, arrivals[..i]))| > |Relayed(trace)| + chunks
    ensures Overflows(trace, arrivals, chunks)
  {
    var broken := AfterPeers(trace, arrivals[..i]);
    AfterArrivalsPrefix(trace, arrivals, i, PeerEvent);
    hide Relayed;
    RelayedPrefix(Relayed(broken), broken, AfterPeers(trace, arrivals));
  }

  /** The memory of a buffer after a burst: one region per datagram. */
  function Regions(arrivals: seq<Arrival>): (data: seq<seq<byte>>)
    ensures |data| == |arrivals| && forall i :: 0 <= i < |data| ==> data[i] == arrivals[i].d.bytes
  {
    seq(|arrivals|, i requires 0 <= i < |arrivals| => arrivals[i].d.bytes)
  }

  // --- Counting the sends of a buffer ------------------------------------------------------------------

  ghost function SendsOf(inFlight: set<Request>, b: Buf): set<Request> {
    set r | r in inFlight && r.buf == b
  }

  lemma SendsOfAdded(inFlight: set<Request>, r: Request, b: Buf)
    requires r !in inFlight
    ensures |SendsOf(inFlight + {r}, b)| == |SendsOf(inFlight, b)| + (if r.buf == b then 1 else 0)
  {
    if r.buf == b {
      assert SendsOf(inFlight + {r}, b) == SendsOf(inFlight, b) + {r};
    } else {
      assert SendsOf(inFlight + {r}, b) == SendsOf(inFlight, b);
    }
  }

  lemma SendsOfRemoved(inFlight: set<Request>, r: Request, b: Buf)
    requires r in inFlight
    ensures |SendsOf(inFlight - {r}, b)| == |SendsOf(inFlight, b)| - (if r.buf == b then 1 else 0)
  {
    SendsOfAdded(inFlight - {r}, r, b);
    assert inFlight - {r} + {r} == inFlight;
  }

  lemma NothingReads(inFlight: set<Request>, b: Buf)
    requires |SendsOf(inFlight, b)| == 0
    ensures forall r :: r in inFlight ==> r.buf != b
  {
    forall r | r in inFlight
      ensures r.buf != b
    {
      assert r.buf == b ==> r in SendsOf(inFlight, b);
    }
  }

  /** The message a chunk stands for: what a send of it reads from the buffer now. */
  ghost predicate Reads(v: IoBuf, chunk: nat, m: Message) {
    chunk < |v.chunks| && v.chunks[chunk].session == m.to &&
    v.chunks[chunk].region < |v.data| && v.chunks[chunk].len <= |v.data[v.chunks[chunk].region]| &&
    v.data[v.chunks[chunk].region][..v.chunks[chunk].len] == m.bytes
  }

  /** The pool after a buffer was given back to it, or not. */
  function Returned(back: bool, b: Node?<IoBuf>, pooled: seq<Buf>): seq<Buf>
    requires back ==> b != null
  {
    if back then [b] + pooled else pooled
  }

  /** The pool after its top, if any, was taken. */
  function Rest(pooled: seq<Buf>): seq<Buf> {
    if pooled == [] then [] else pooled[1..]
  }

  // --- Ownership, on a snapshot of the buffers ----------------------------------------------------------

  type Snapshot = map<Buf, IoBuf>

  /** Each buffer has one owner: the pool, with no send reading it; the current burst; or its sends
      in flight, as many as it counts references. During a burst, the buffer's counter is also
      beyond every chunk of it in flight. */
  ghost predicate Owned(values: Snapshot, pooled: seq<Buf>, inFlight: set<Request>, burst: Node?<IoBuf>, chunks: nat) {
    (forall b :: b in pooled ==> b in values && values[b].refCount == 0 && b != burst) &&
    (burst != null ==> burst in values) &&
    (forall b :: b in values ==>
      values[b].refCount == |SendsOf(inFlight, b)| <= chunks && |values[b].chunks| == chunks &&
      (values[b].refCount == 0 ==> b in pooled || b == burst)) &&
    forall r :: r in inFlight ==>
      r.buf in values && r.chunk < chunks && (r.buf == burst ==> r.chunk < values[r.buf].refCount)
  }

  /** Sends in flight and forwarded messages not yet completed correspond one to one, and every
      send in flight still reads exactly its message. */
  ghost predicate Payloads(values: Snapshot, inFlight: set<Request>, serial: map<Request, nat>,
                           carrier: seq<Option<Request>>, forwarded: seq<Message>) {
    |carrier| == |forwarded| &&
    (forall r :: r in inFlight ==>
      r.buf in values && r in serial && serial[r] < |forwarded| && carrier[serial[r]] == Some(r) &&
      Reads(values[r.buf], r.chunk, forwarded[serial[r]])) &&
    forall s :: 0 <= s < |carrier| && carrier[s].Some? ==>
      carrier[s].value in inFlight && carrier[s].value in serial && serial[carrier[s].value] == s
  }

  /** A buffer from the pool becomes the target of a burst. */
  lemma TakePooled(values: Snapshot, pooled: seq<Buf>, inFlight: set<Request>, chunks: nat)
    requires pooled != [] && Owned(values, pooled, inFlight, null, chunks)
    requires forall i, j :: 0 <= i < j < |pooled| ==> pooled[i] != pooled[j]
    ensures pooled[0] in values && values[pooled[0]].refCount == 0
    ensures Owned(values, pooled[1..], inFlight, pooled[0], chunks)
  {
    var b := pooled[0];
    assert b in pooled && pooled == [b] + pooled[1..];
    NothingReads(inFlight, b);
    assert b !in pooled[1..];
  }

  /** A new buffer becomes the target of a burst. */
  lemma TakeNew(values: Snapshot, inFlight: set<Request>, chunks: nat, b: Buf, v: IoBuf)
    requires Owned(values, [], inFlight, null, chunks)
    requires b !in values && v.refCount == 0 && |v.chunks| == chunks
    ensures Owned(values[b := v], [], inFlight, b, chunks)
    ensures forall serial, carrier, forwarded :: Payloads(values, inFlight, serial, carrier, forwarded) ==>
      Payloads(values[b := v], inFlight, serial, carrier, forwarded)
  {
    assert SendsOf(inFlight, b) == {};
  }

  /** Reading datagrams into the buffer of a burst disturbs no send. */
  lemma FillFresh(values: Snapshot, pooled: seq<Buf>, inFlight: set<Request>, burst: Buf, chunks: nat,
                  data: seq<seq<byte>>, serial: map<Request, nat>, carrier: seq<Option<Request>>,
                  forwarded: seq<Message>)
    requires Owned(values, pooled, inFlight, burst, chunks) && Payloads(values, inFlight, serial, carrier, forwarded)
    requires burst in values && values[burst].refCount == 0
    ensures var filled := values[burst := values[burst].(data := data)];
      Owned(filled, pooled, inFlight, burst, chunks) && Payloads(filled, inFlight, serial, carrier, forwarded)
  {
    NothingReads(inFlight, burst);
  }

  /** The chunk numbered by the counter is never one in flight, and taking it keeps all in order. */
  lemma TakeChunk(values: Snapshot, pooled: seq<Buf>, inFlight: set<Request>, burst: Buf, chunks: nat, c: Chunk)
    requires Owned(values, pooled, inFlight, burst, chunks)
    requires burst in values && values[burst].refCount < chunks
    ensures var v := values[burst];
      Request(burst, v.refCount) !in inFlight &&
      Owned(values[burst := v.(chunks := v.chunks[v.refCount := c], refCount := v.refCount + 1)],
        pooled, inFlight + {Request(burst, v.refCount)}, burst, chunks)
  {
    var v := values[burst];
    var r := Request(burst, v.refCount);
    assert r !in inFlight;
    forall b | b in values
      ensures |SendsOf(inFlight + {r}, b)| == |SendsOf(inFlight, b)| + (if b == burst then 1 else 0)
    {
      SendsOfAdded(inFlight, r, b);
    }
  }

  lemma ChunkReads(values: Snapshot, inFlight: set<Request>, burst: Buf, c: Chunk, serial: map<Request, nat>,
                   carrier: seq<Option<Request>>, forwarded: seq<Message>, m: Message)
    requires Payloads(values, inFlight, serial, carrier, forwarded)
    requires burst in values && values[burst].refCount < |values[burst].chunks|
    requires Request(burst, values[burst].refCount) !in inFlight
    requires c.session == m.to && c.region < |values[burst].data| && c.len <= |values[burst].data[c.region]|
    requires values[burst].data[c.region][..c.len] == m.bytes
    ensures var v := values[burst];
      var r := Request(burst, v.refCount);
      Payloads(values[burst := v.(chunks := v.chunks[v.refCount := c], refCount := v.refCount + 1)],
        inFlight + {r}, serial[r := |carrier|], carrier + [Some(r)], forwarded + [m])
  {
  }

  lemma BurstCounts(values: Snapshot, pooled: seq<Buf>, inFlight: set<Request>, burst: Buf, chunks: nat)
    requires Owned(values, pooled, inFlight, burst, chunks)
    ensures burst in values && burst !in pooled
    ensures values[burst].refCount <= |values[burst].chunks| == chunks
  {}

  /** The buffer of a finished burst goes back to the pool if no send took a reference to it. */
  lemma EndBurst(values: Snapshot, pooled: seq<Buf>, inFlight: set<Request>, burst: Buf, chunks: nat)
    requires Owned(values, pooled, inFlight, burst, chunks) && burst in values
    ensures Owned(values, if values[burst].refCount == 0 then [burst] + pooled else pooled, inFlight, null, chunks)
  {}

  /** A send completes: its buffer loses a reference, and with the last one returns to the pool. */
  lemma DropReference(values: Snapshot, pooled: seq<Buf>, inFlight: set<Request>, chunks: nat, r: Request)
    requires Owned(values, pooled, inFlight, null, chunks) && r in inFlight
    ensures r.buf in values && values[r.buf].refCount > 0 && r.buf !in pooled
    ensures var v := values[r.buf].(refCount := values[r.buf].refCount - 1);
      Owned(values[r.buf := v], if v.refCount == 0 then [r.buf] + pooled else pooled, inFlight - {r}, null, chunks)
  {
    forall b | b in values
      ensures |SendsOf(inFlight - {r}, b)| == |SendsOf(inFlight, b)| - (if b == r.buf then 1 else 0)
    {
      SendsOfRemoved(inFlight, r, b);
    }
    assert r in SendsOf(inFlight, r.buf);
  }

  lemma InFlightFacts(values: Snapshot, inFlight: set<Request>, serial: map<Request, nat>,
                      carrier: seq<Option<Request>>, forwarded: seq<Message>, r: Request)
    requires Payloads(values, inFlight, serial, carrier, forwarded) && r in inFlight
    ensures r.buf in values && r in serial && serial[r] < |carrier| == |forwarded| && carrier[serial[r]] == Some(r)
    ensures Reads(values[r.buf], r.chunk, forwarded[serial[r]])
  {}

  lemma DropPayload(values: Snapshot, inFlight: set<Request>, serial: map<Request, nat>, carrier: seq<Option<Request>>,
                    forwarded: seq<Message>, r: Request)
    requires Payloads(values, inFlight, serial, carrier, forwarded) && r in inFlight && values[r.buf].refCount > 0
    ensures Payloads(values[r.buf := values[r.buf].(refCount := values[r.buf].refCount - 1)],
      inFlight - {r}, serial, carrier[serial[r] := None], forwarded)
  {}

  /** A forwarded message is either in flight or was completed, once, with its own bytes. */
  ghost predicate Delivered(carrier: seq<Option<Request>>, order: seq<nat>, delivered: seq<Message>,
                            forwarded: seq<Message>) {
    |carrier| == |forwarded| && |order| == |delivered| &&
    (forall i, j :: 0 <= i < j < |order| ==> order[i] != order[j]) &&
    (forall s :: 0 <= s < |carrier| ==> (carrier[s].None? <==> s in order)) &&
    forall k :: 0 <= k < |order| ==> order[k] < |forwarded| && delivered[k] == forwarded[order[k]]
  }

  lemma DeliverOne(carrier: seq<Option<Request>>, order: seq<nat>, delivered: seq<Message>, forwarded: seq<Message>,
                   s: nat)
    requires Delivered(carrier, order, delivered, forwarded) && s < |carrier| && carrier[s].Some?
    ensures Delivered(carrier[s := None], order + [s], delivered + [forwarded[s]], forwarded)
  {
    assert s !in order;
  }

  lemma ForwardOne(carrier: seq<Option<Request>>, order: seq<nat>, delivered: seq<Message>, forwarded: seq<Message>,
                   r: Request, m: Message)
    requires Delivered(carrier, order, delivered, forwarded)
    ensures Delivered(carrier + [Some(r)], order, delivered, forwarded + [m])
  {
    assert forall k :: 0 <= k < |order| ==> order[k] < |carrier|;
    assert |carrier| !in order;
  }

  // --- One event loop thread -----------------------------------------------------------------------------

  class Thread {
    const id: nat
    const mmsg: bool        // a receive can return several datagrams
    const chunkCount: nat
    const relay: Relay
    const pool: Stack<IoBuf>
    var lastAlloc: Node?<IoBuf>
    var inFlight: set<Request>              // the library's record of sends not completed
    var serial: map<Request, nat>           // which forwarded message each of them carries
    var carrier: seq<Option<Request>>       // and of the send of each forwarded message, None once completed

    ghost var bufs: set<Buf>                // all buffers ever allocated
    ghost var receiving: bool               // a burst is under way, into lastAlloc
    ghost var order: seq<nat>               // forwarded messages in order of completion
    ghost var delivered: seq<Message>       // what was in the buffer when each of them completed

    ghost function Values(): Snapshot
      reads this`bufs, bufs`value
    {
      map b | b in bufs :: b.value
    }

    /** The buffer of the burst under way, if any. */
    ghost function Burst(): Node?<IoBuf>
      reads this`receiving, this`lastAlloc
    {
      if receiving then lastAlloc else null
    }

    /** The pool is a proper stack, every buffer has one owner, every send reads its message. */
    ghost predicate Buffers(forwarded: seq<Message>)
      reads this`lastAlloc, this`inFlight, this`bufs, this`receiving, this`serial, this`carrier, pool, bufs
    {
      (receiving ==> lastAlloc != null) &&
      Owned(Values(), pool.contents, inFlight, Burst(), chunkCount) &&
      Payloads(Values(), inFlight, serial, carrier, forwarded) &&
      Members(pool.contents) <= bufs && pool.Valid()
    }

    ghost predicate Accounts()
      reads this`carrier, this`order, this`delivered, relay
    {
      relay.Valid() && id < |relay.perThread| && relay.ledger[id].outgoing == Tally(delivered) &&
      relay.ledger[id].incoming == Handed(relay.trace) &&
      Delivered(carrier, order, delivered, relay.forwarded)
    }

    ghost predicate Valid()
      reads this, pool, bufs, relay
    {
      chunkCount > 0 && Buffers(relay.forwarded) && Accounts()
    }

    constructor (id: nat, mmsg: bool, chunkCount: nat, threads: nat)
      requires id < threads && chunkCount > 0
      ensures Valid() && !receiving && relay.trace == [] && order == [] && relay.reports == [] && pool.contents == [] &&
        fresh(relay) &&
        fresh(pool) && bufs == {}
      ensures this.id == id && this.mmsg == mmsg && this.chunkCount == chunkCount
      ensures |relay.perThread| == threads
    {
      this.id, this.mmsg, this.chunkCount := id, mmsg, chunkCount;
      relay := new Relay(threads);
      pool := new Stack();
      lastAlloc, inFlight := null, {};
      bufs, receiving := {}, false;
      serial, carrier, order, delivered := map[], [], [], [];
    }

    // --- The pool and the send chunks ------------------------------------------------------------------

    method NewBuf(ghost forwarded: seq<Message>) returns (b: Buf)
      requires Buffers(forwarded) && !receiving && pool.contents == []
      modifies this`bufs
      ensures fresh(b) && bufs == old(bufs) + {b} && b.value.refCount == 0
      ensures pool.Valid() && Owned(Values(), [], inFlight, b, chunkCount)
      ensures Payloads(Values(), inFlight, serial, carrier, forwarded)
    {
      hide Owned, Payloads;
      ghost var values := Values();
      b := new Node(IoBuf(seq(chunkCount, _ => Chunk(0, 0, Endpoint(0, 0))), 0, []));
      TakeNew(values, inFlight, chunkCount, b, b.value);
      bufs := bufs + {b};
      assert Values() == values[b := b.value];
    }

    method PopBuf(ghost forwarded: seq<Message>) returns (b: Buf)
      requires Buffers(forwarded) && !receiving && pool.contents != []
      modifies pool
      ensures b in bufs && b.value.refCount == 0
      ensures b == old(pool.contents)[0] && pool.contents == Rest(old(pool.contents))
      ensures pool.Valid() && Owned(Values(), pool.contents, inFlight, b, chunkCount)
      ensures Payloads(Values(), inFlight, serial, carrier, forwarded)
    {
      hide Owned, Payloads, Chain;
      ChainIsAcyclic(pool.top_, pool.contents);
      TakePooled(Values(), pool.contents, inFlight, chunkCount);
      b := pool.TryPop();
    }

    /** A buffer from the pool, or a new one, becomes the target of a burst. No send reads it. */
    method Alloc(ghost forwarded: seq<Message>)
      requires Buffers(forwarded) && !receiving
      modifies this`lastAlloc, this`bufs, this`receiving, pool, bufs`value
      ensures Buffers(forwarded) && receiving && fresh(bufs - old(bufs)) && old(bufs) <= bufs
      ensures lastAlloc != null && lastAlloc in bufs && lastAlloc.value.refCount == 0
      ensures bufs == old(bufs) + {lastAlloc}
      ensures if old(pool.contents) == [] then fresh(lastAlloc) else lastAlloc == old(pool.contents)[0]
      ensures pool.contents == Rest(old(pool.contents))
    {
      hide Owned, Payloads, Chain;
      pool.TopIsFirst();
      var b: Buf;
      if pool.top_ == null {
        b := NewBuf(forwarded);
      } else {
        b := PopBuf(forwarded);
      }
      ghost var values := Values();
      b.value := b.value.(refCount := 0);
      assert Values() == values;
      lastAlloc := b;
      receiving := true;
    }

    /** Library: the datagrams of a burst are read into the buffer. */
    method Fill(data: seq<seq<byte>>, ghost forwarded: seq<Message>)
      requires Buffers(forwarded) && receiving && lastAlloc in bufs && lastAlloc.value.refCount == 0
      modifies lastAlloc`value
      ensures Buffers(forwarded) && lastAlloc.value == old(lastAlloc.value).(data := data)
    {
      hide Owned, Payloads, Chain;
      ghost var values := Values();
      FillFresh(values, pool.contents, inFlight, lastAlloc, chunkCount, data, serial, carrier, forwarded);
      lastAlloc.value := lastAlloc.value.(data := data);
      assert Values() == values[lastAlloc := lastAlloc.value];
    }

    /** Starts a send of the packet at the head of a region of the buffer in use; false is the abort
        for lack of a free chunk. The chunk taken is never one of a send still in flight. */
    method StartSend(to: Endpoint, region: nat, len: nat, ghost forwarded: seq<Message>, ghost m: Message)
      returns (ok: bool)
      requires Buffers(forwarded) && receiving && lastAlloc in bufs
      requires region < |lastAlloc.value.data| && len <= |lastAlloc.value.data[region]|
      requires m == Message(to, lastAlloc.value.data[region][..len])
      modifies this`inFlight, this`serial, this`carrier, lastAlloc`value
      ensures !ok <==> old(lastAlloc.value.refCount) == chunkCount
      ensures ok ==> Buffers(forwarded + [m])
      ensures ok ==> var r := Request(lastAlloc, old(lastAlloc.value.refCount));
        r !in old(inFlight) && inFlight == old(inFlight) + {r} && carrier == old(carrier) + [Some(r)]
      ensures ok ==> lastAlloc.value.refCount == old(lastAlloc.value.refCount) + 1
      ensures lastAlloc.value.refCount <= chunkCount
      ensures lastAlloc.value.data == old(lastAlloc.value.data)
      ensures !ok ==> carrier == old(carrier) && lastAlloc.value == old(lastAlloc.value)
    {
      hide Owned, Payloads, Chain;
      BurstCounts(Values(), pool.contents, inFlight, lastAlloc, chunkCount);
      var v := lastAlloc.value;
      if v.refCount == |v.chunks| {
        return false;
      }
      ghost var values := Values();
      var c := Chunk(region, len, to);
      var r := Request(lastAlloc, v.refCount);
      TakeChunk(values, pool.contents, inFlight, lastAlloc, chunkCount, c);
      ChunkReads(values, inFlight, lastAlloc, c, serial, carrier, forwarded, m);
      lastAlloc.value := v.(chunks := v.chunks[v.refCount := c], refCount := v.refCount + 1);
      serial := serial[r := |carrier|];
      carrier := carrier + [Some(r)];
      inFlight := inFlight + {r};
      ok := true;
      assert Values() == values[lastAlloc := lastAlloc.value];
    }

    /** Back to the pool, if no send has taken a reference; either way the burst is over. */
    method ReleaseUnlessSent(ghost forwarded: seq<Message>)
      requires Buffers(forwarded) && receiving && lastAlloc in bufs
      modifies this`receiving, pool, lastAlloc`next
      ensures Buffers(forwarded) && !receiving
      ensures pool.contents == Returned(lastAlloc.value.refCount == 0, lastAlloc, old(pool.contents))
    {
      hide Owned, Payloads, Chain;
      EndBurst(Values(), pool.contents, inFlight, lastAlloc, chunkCount);
      BurstCounts(Values(), pool.contents, inFlight, lastAlloc, chunkCount);
      if lastAlloc.value.refCount == 0 {
        pool.Push(lastAlloc);
      }
      receiving := false;
    }

    /** The callback returns without releasing: the burst goes on, or the buffer is left to its sends. */
    ghost method EndBurstInUse(forwarded: seq<Message>, chunk: bool)
      requires Buffers(forwarded) && receiving && lastAlloc in bufs
      requires !chunk ==> lastAlloc.value.refCount > 0
      modifies this`receiving
      ensures Buffers(forwarded) && receiving == chunk
    {
      hide Owned, Payloads, Chain;
      EndBurst(Values(), pool.contents, inFlight, lastAlloc, chunkCount);
      receiving := chunk;
    }

    // --- Callbacks ----------------------------------------------------------------------------------------

    /** The client port's receive callback, for the datagram in `region`; `chunk` tells that more of
        the burst is to come. */
    method OnClientRead(nread: nat, region: nat, src: Endpoint, others: seq<Datagram>, chunk: bool)
      requires Valid() && receiving && lastAlloc in bufs && lastAlloc.value.refCount == 0
      requires nread > 0 ==> region < |lastAlloc.value.data| && nread <= |lastAlloc.value.data[region]|
      modifies this`receiving, pool, lastAlloc`next, relay
      ensures Valid() && receiving == chunk && |relay.perThread| == old(|relay.perThread|) &&
        relay.reports == old(relay.reports)
      ensures nread == 0 ==> relay.trace == old(relay.trace)
      ensures nread > 0 ==>
        relay.trace == old(relay.trace) + Registrations(others) +
          [Client(Datagram(src, lastAlloc.value.data[region][..nread]))]
      ensures pool.contents == Returned(!chunk, lastAlloc, old(pool.contents))
    {
      hide Owned, Payloads, Delivered, TableAfter, Relayed, Conserved, Registrations;
      ghost var values := Values();
      if nread > 0 {
        relay.OthersRegister(others);
        HandedStep(relay.trace, Client(Datagram(src, lastAlloc.value.data[region][..nread])));
        relay.OnClientReceived(id, src, lastAlloc.value.data[region][..nread]);
        assert Values() == values;
      }
      if chunk {
        return;
      }
      ReleaseUnlessSent(relay.forwarded);
    }

    /** The peer port's receive callback; false is the abort for lack of a free chunk. A buffer that
        a send now reads is left alone. */
    method OnPeerRead(nread: nat, region: nat, others: seq<Datagram>, chunk: bool) returns (ok: bool)
      requires Valid() && receiving && lastAlloc in bufs
      requires nread > 0 ==> region < |lastAlloc.value.data| && nread <= |lastAlloc.value.data[region]|
      modifies this`receiving, this`inFlight, this`serial, this`carrier, pool, lastAlloc, relay
      ensures |relay.perThread| == old(|relay.perThread|) && relay.reports == old(relay.reports) && relay.Valid()
      ensures nread == 0 ==> relay.trace == old(relay.trace) && ok
      ensures nread > 0 ==>
        relay.trace == old(relay.trace) + Registrations(others) + [Peer(old(lastAlloc.value.data[region][..nread]))]
      ensures old(|relay.forwarded|) <= |relay.forwarded| <= old(|relay.forwarded|) + 1
      ensures lastAlloc.value.data == old(lastAlloc.value.data)
      ensures !ok ==> old(lastAlloc.value.refCount) == chunkCount && |relay.forwarded| == |old(relay.forwarded)| + 1
      ensures ok ==> Valid() && receiving == chunk && lastAlloc.value.refCount <= chunkCount
      ensures ok ==>
        lastAlloc.value.refCount - old(lastAlloc.value.refCount) == |relay.forwarded| - |old(relay.forwarded)|
      ensures ok ==>
        pool.contents == Returned(!chunk && lastAlloc.value.refCount == 0, lastAlloc, old(pool.contents))
    {
      hide Owned, Payloads, Delivered, TableAfter, Relayed, Conserved, Registrations, Lookup;
      BurstCounts(Values(), pool.contents, inFlight, lastAlloc, chunkCount);
      ok := true;
      var reused := false;
      if nread > 0 {
        ok, reused := HandPeerPacket(nread, region, others);
        if !ok {
          return;
        }
      }
      if reused || chunk {
        EndBurstInUse(relay.forwarded, chunk);
        return;
      }
      ReleaseUnlessSent(relay.forwarded);
    }

    /** Hands a peer packet to the relay, and starts the send it asks for, if any; `ok` is false for
        the abort for lack of a free chunk. */
    method HandPeerPacket(nread: nat, region: nat, others: seq<Datagram>) returns (ok: bool, reused: bool)
      requires Valid() && receiving && lastAlloc in bufs
      requires region < |lastAlloc.value.data| && nread <= |lastAlloc.value.data[region]|
      modifies this`inFlight, this`serial, this`carrier, lastAlloc`value, relay
      ensures |relay.perThread| == old(|relay.perThread|) && relay.reports == old(relay.reports) && relay.Valid()
      ensures relay.trace ==
        old(relay.trace) + Registrations(others) + [Peer(old(lastAlloc.value.data[region][..nread]))]
      ensures |relay.forwarded| == |old(relay.forwarded)| + if reused then 1 else 0
      ensures lastAlloc.value.data == old(lastAlloc.value.data)
      ensures lastAlloc.value.refCount == old(lastAlloc.value.refCount) + if ok && reused then 1 else 0
      ensures ok <==> !(reused && old(lastAlloc.value.refCount) == chunkCount)
      ensures ok ==> Valid() && lastAlloc.value.refCount <= chunkCount
    {
      hide Owned, Payloads, Delivered, TableAfter, Relayed, Conserved, Registrations, Lookup, Handed, Tally;
      BurstCounts(Values(), pool.contents, inFlight, lastAlloc, chunkCount);
      ghost var values, forwarded := Values(), relay.forwarded;
      var packet := lastAlloc.value.data[region][..nread];
      var session := HandPeer(packet, others);
      assert Values() == values;
      ok, reused := true, session.Some?;
      if reused {
        var r := Request(lastAlloc, lastAlloc.value.refCount);
        ForwardOne(carrier, order, delivered, forwarded, r, Message(session.value, packet));
        ok := StartSend(session.value, region, nread, forwarded, Message(session.value, packet));
      }
    }

    /** Hands a peer packet to the relay, after others have registered clients. */
    method HandPeer(packet: seq<byte>, others: seq<Datagram>) returns (session: Option<Endpoint>)
      requires relay.Valid() && id < |relay.perThread| && relay.ledger[id].incoming == Handed(relay.trace)
      modifies relay
      ensures |relay.ledger| == |relay.perThread| == old(|relay.perThread|) && relay.reports == old(relay.reports)
      ensures relay.Valid() && relay.ledger[id].incoming == Handed(relay.trace)
      ensures relay.ledger[id].outgoing == old(relay.ledger[id].outgoing)
      ensures relay.trace == old(relay.trace) + Registrations(others) + [Peer(packet)]
      ensures relay.forwarded ==
        if session.Some? then old(relay.forwarded) + [Message(session.value, packet)] else old(relay.forwarded)
    {
      hide TableAfter, Relayed, Conserved, Registrations, Lookup, Handed;
      relay.OthersRegister(others);
      HandedStep(relay.trace, Peer(packet));
      session := relay.OnPeerReceived(id, packet);
    }

    // --- Bursts and completions -----------------------------------------------------------------------------

    /** Library: allocates a buffer and reads the datagrams of a burst into it, one per region. */
    method BeginBurst(arrivals: seq<Arrival>)
      requires Valid() && !receiving
      modifies this`lastAlloc, this`bufs, this`receiving, pool, bufs`value
      ensures Valid() && receiving && fresh(bufs - old(bufs)) && old(bufs) <= bufs
      ensures lastAlloc in bufs && lastAlloc.value.refCount == 0 && lastAlloc.value.data == Regions(arrivals)
      ensures bufs == old(bufs) + {lastAlloc}
      ensures if old(pool.contents) == [] then fresh(lastAlloc) else lastAlloc == old(pool.contents)[0]
      ensures pool.contents == Rest(old(pool.contents))
    {
      hide Owned, Payloads, Delivered, TableAfter, Relayed, Conserved;
      Alloc(relay.forwarded);
      Fill(Regions(arrivals), relay.forwarded);
    }

    method ReadClient(arrivals: seq<Arrival>, i: nat, ghost before: seq<Event>)
      requires Valid() && receiving && lastAlloc in bufs && lastAlloc.value.refCount == 0
      requires i < |arrivals| && lastAlloc.value.data == Regions(arrivals)
      requires relay.trace == AfterClients(before, arrivals[..i])
      modifies this`receiving, pool, lastAlloc`next, relay
      ensures Valid() && receiving == mmsg && |relay.perThread| == old(|relay.perThread|) &&
        relay.reports == old(relay.reports)
      ensures relay.trace == AfterClients(before, arrivals[..i + 1])
      ensures pool.contents == Returned(!mmsg, lastAlloc, old(pool.contents))
    {
      var a := arrivals[i];
      AfterArrivalsStep(before, arrivals, i, ClientEvent);
      hide Buffers, Accounts, Registrations, TableAfter, Relayed, Conserved, AfterArrivals, ClientEvent;
      ClientEventOf(relay.trace, a);
      OnClientRead(|a.d.bytes|, i, a.d.from, a.others, mmsg);
    }

    /** The data callbacks of a burst on the client port. */
    method ReadClients(arrivals: seq<Arrival>)
      requires Valid() && receiving && lastAlloc in bufs && BurstPossible(mmsg, arrivals)
      requires lastAlloc.value.refCount == 0 && lastAlloc.value.data == Regions(arrivals)
      modifies this`receiving, pool, lastAlloc`next, relay
      ensures Valid() && receiving == (mmsg || arrivals == []) && |relay.perThread| == old(|relay.perThread|) &&
        relay.reports == old(relay.reports)
      ensures relay.trace == AfterClients(old(relay.trace), arrivals)
      ensures pool.contents == Returned(!receiving, lastAlloc, old(pool.contents))
    {
      ghost var before := relay.trace;
      assert arrivals[..0] == [] && arrivals[..|arrivals|] == arrivals && AfterClients(before, []) == before;
      hide Valid, Regions, AfterClients;
      for i := 0 to |arrivals|
        invariant Valid() && |relay.perThread| == old(|relay.perThread|) && relay.reports == old(relay.reports)
        invariant receiving == (mmsg || i == 0)
        invariant relay.trace == AfterClients(before, arrivals[..i])
        invariant pool.contents == Returned(!receiving, lastAlloc, old(pool.contents))
      {
        ReadClient(arrivals, i, before);
      }
    }

    /** A burst on the client port. Its buffer is the one last returned to the pool, and returns there;
        a new one is made only if the pool is empty. */
    method ClientBurst(arrivals: seq<Arrival>)
      requires Valid() && !receiving && BurstPossible(mmsg, arrivals)
      modifies this`lastAlloc, this`bufs, this`receiving, pool, bufs, relay
      ensures Valid() && !receiving && |relay.perThread| == old(|relay.perThread|) &&
        relay.reports == old(relay.reports)
      ensures lastAlloc != null && bufs == old(bufs) + {lastAlloc} && fresh(bufs - old(bufs))
      ensures relay.trace == AfterClients(old(relay.trace), arrivals)
      ensures if old(pool.contents) == [] then fresh(lastAlloc) else lastAlloc == old(pool.contents)[0]
      ensures pool.contents == [lastAlloc] + Rest(old(pool.contents))
    {
      hide Buffers, Accounts, AfterClients, Registrations;
      BeginBurst(arrivals);
      ReadClients(arrivals);
      if mmsg || arrivals == [] {
        OnClientRead(0, 0, Endpoint(0, 0), [], false);
      }
    }

    /** Within a burst on the peer port, after its first i arrivals: as many chunks are taken as
        datagrams were forwarded. `trace` and `pooled` are how things stood when the burst began. */
    ghost predicate PeersRead(arrivals: seq<Arrival>, i: nat, trace: seq<Event>, pooled: seq<Buf>)
      reads this, pool, bufs, relay
    {
      i <= |arrivals| && Valid() && receiving == (mmsg || i == 0) && lastAlloc in bufs &&
      lastAlloc.value.data == Regions(arrivals) && relay.trace == AfterPeers(trace, arrivals[..i]) &&
      lastAlloc.value.refCount == |relay.forwarded| - |Relayed(trace)| <= chunkCount &&
      pool.contents == Returned(!receiving && lastAlloc.value.refCount == 0, lastAlloc, pooled)
    }

    /** The data callback for arrival i of a burst on the peer port. */
    method ReadPeer(arrivals: seq<Arrival>, i: nat, ghost trace: seq<Event>, ghost pooled: seq<Buf>) returns (ok: bool)
      requires PeersRead(arrivals, i, trace, pooled) && i < |arrivals| && receiving
      modifies this`receiving, this`inFlight, this`serial, this`carrier, pool, lastAlloc, relay
      ensures |relay.perThread| == old(|relay.perThread|) && relay.reports == old(relay.reports) && relay.Valid()
      ensures if ok then PeersRead(arrivals, i + 1, trace, pooled) else Overflows(trace, arrivals, chunkCount)
    {
      var a := arrivals[i];
      AfterArrivalsStep(trace, arrivals, i, PeerEvent);
      PeerEventOf(relay.trace, a);
      RelayedIsForwarded();
      hide Buffers, Accounts, Relayed, TableAfter, Conserved, AfterArrivals, PeerEvent, Registrations, Overflows,
        PeersRead;
      ok := OnPeerRead(|a.d.bytes|, i, a.others, mmsg);
      if ok {
        PeersReadNow(arrivals, i + 1, trace, pooled);
      } else {
        OverflowIsFinal(trace, arrivals, i + 1, chunkCount);
      }
    }

    lemma PeersReadNow(arrivals: seq<Arrival>, i: nat, trace: seq<Event>, pooled: seq<Buf>)
      requires 0 < i <= |arrivals| && Valid() && receiving == mmsg && lastAlloc in bufs
      requires lastAlloc.value.data == Regions(arrivals) && relay.trace == AfterPeers(trace, arrivals[..i])
      requires lastAlloc.value.refCount == |relay.forwarded| - |Relayed(trace)| <= chunkCount
      requires pool.contents == Returned(!receiving && lastAlloc.value.refCount == 0, lastAlloc, pooled)
      ensures PeersRead(arrivals, i, trace, pooled)
    {}

    /** The data callbacks of a burst on the peer port; false is the abort for lack of a chunk. */
    method ReadPeers(arrivals: seq<Arrival>, ghost trace: seq<Event>, ghost pooled: seq<Buf>) returns (ok: bool)
      requires PeersRead(arrivals, 0, trace, pooled) && BurstPossible(mmsg, arrivals) && receiving && relay.Valid()
      modifies this`receiving, this`inFlight, this`serial, this`carrier, pool, lastAlloc, relay
      ensures |relay.perThread| == old(|relay.perThread|) && relay.reports == old(relay.reports) && relay.Valid()
      ensures if ok then PeersRead(arrivals, |arrivals|, trace, pooled) else Overflows(trace, arrivals, chunkCount)
    {
      PeersReadInBufs(arrivals, 0, trace, pooled);
      hide PeersRead, Overflows, Relay.Valid;
      for i := 0 to |arrivals|
        invariant PeersRead(arrivals, i, trace, pooled) && relay.Valid() && (receiving <==> mmsg || i == 0)
        invariant |relay.perThread| == old(|relay.perThread|) && relay.reports == old(relay.reports)
      {
        ok := ReadPeer(arrivals, i, trace, pooled);
        if !ok {
          return;
        }
        PeersReadInBufs(arrivals, i + 1, trace, pooled);
      }
      ok := true;
    }

    lemma PeersReadInBufs(arrivals: seq<Arrival>, i: nat, trace: seq<Event>, pooled: seq<Buf>)
      requires PeersRead(arrivals, i, trace, pooled)
      ensures lastAlloc != null && (receiving <==> mmsg || i == 0)
    {}

    /** A burst on the peer port. It gives up exactly when more of its datagrams are to be forwarded
        than a buffer has chunks. Its buffer is the one last returned to the pool, or a new one only
        if the pool is empty, and returns there at once exactly if nothing was forwarded. */
    method PeerBurst(arrivals: seq<Arrival>) returns (outcome: Outcome)
      requires Valid() && !receiving && BurstPossible(mmsg, arrivals)
      modifies this`lastAlloc, this`bufs, this`receiving, this`inFlight, this`serial, this`carrier, pool, bufs, relay
      ensures |relay.perThread| == old(|relay.perThread|) && relay.reports == old(relay.reports) && relay.Valid()
      ensures outcome == if Overflows(old(relay.trace), arrivals, chunkCount) then NoBufferSpace else Running
      ensures lastAlloc != null && bufs == old(bufs) + {lastAlloc} && fresh(bufs - old(bufs))
      ensures if old(pool.contents) == [] then fresh(lastAlloc) else lastAlloc == old(pool.contents)[0]
      ensures outcome == Running ==> Valid() && !receiving
      ensures outcome == Running ==> relay.trace == AfterPeers(old(relay.trace), arrivals)
      ensures outcome == Running ==> lastAlloc.value.refCount == |relay.forwarded| - |old(relay.forwarded)|
      ensures outcome == Running ==>
        pool.contents == Returned(lastAlloc.value.refCount == 0, lastAlloc, Rest(old(pool.contents)))
    {
      ghost var trace := relay.trace;
      assert arrivals[..0] == [] && arrivals[..|arrivals|] == arrivals && AfterPeers(trace, []) == trace;
      RelayedIsForwarded();
      hide Buffers, Accounts, AfterPeers, Registrations, Relayed, TableAfter, Conserved;
      BeginBurst(arrivals);
      var ok := ReadPeers(arrivals, trace, pool.contents);
      if !ok {
        return NoBufferSpace;
      }
      if mmsg || arrivals == [] {
        ok := OnPeerRead(0, 0, [], false);
      }
      outcome := Running;
    }

    /** The buffer half of a completed send: one reference less, and home with the last one. */
    method Unreference(r: Request, ghost forwarded: seq<Message>)
      requires Buffers(forwarded) && !receiving && r in inFlight
      modifies this`inFlight, this`carrier, pool, r.buf
      ensures Buffers(forwarded) && inFlight == old(inFlight) - {r}
      ensures r in serial && serial[r] < |old(carrier)| && carrier == old(carrier)[serial[r] := None]
      ensures pool.contents == Returned(old(r.buf.value.refCount) == 1, r.buf, old(pool.contents))
    {
      hide Owned, Payloads, Chain, SendsOf;
      ghost var values := Values();
      InFlightFacts(values, inFlight, serial, carrier, forwarded, r);
      DropReference(values, pool.contents, inFlight, chunkCount, r);
      DropPayload(values, inFlight, serial, carrier, forwarded, r);
      r.buf.value := r.buf.value.(refCount := r.buf.value.refCount - 1);
      inFlight := inFlight - {r};
      carrier := carrier[serial[r] := None];
      if r.buf.value.refCount == 0 {
        pool.Push(r.buf);
      }
      assert Values() == values[r.buf := r.buf.value];
    }

    /** A send in flight reads its message, and completing it now completes that message once. */
    lemma CompletionFacts(r: Request)
      requires Valid() && r in inFlight
      ensures r.buf in bufs && r in serial && serial[r] < |carrier| == |relay.forwarded| &&
        carrier[serial[r]] == Some(r)
      ensures Reads(r.buf.value, r.chunk, relay.forwarded[serial[r]])
      ensures var s, m := serial[r], relay.forwarded[serial[r]];
        Delivered(carrier[s := None], order + [s], delivered + [m], relay.forwarded)
    {
      hide Owned, Payloads, Delivered;
      InFlightFacts(Values(), inFlight, serial, carrier, relay.forwarded, r);
      DeliverOne(carrier, order, delivered, relay.forwarded, serial[r]);
    }

    /** The accounting half of a completed send of the forwarded message s. */
    method BookSent(len: nat, ghost s: nat, ghost sent: Message)
      requires relay.Valid() && id < |relay.perThread| && relay.ledger[id].outgoing == Tally(delivered)
      requires relay.ledger[id].incoming == Handed(relay.trace)
      requires len == |sent.bytes| && Delivered(carrier, order + [s], delivered + [sent], relay.forwarded)
      modifies this`order, this`delivered, relay`perThread, relay`ledger, relay`peerStarts
      ensures Accounts() && |relay.perThread| == old(|relay.perThread|) && relay.reports == old(relay.reports)
      ensures delivered == old(delivered) + [sent] && order == old(order) + [s]
    {
      hide Delivered, TableAfter, Relayed, Conserved;
      TallyStep(delivered, sent);
      relay.OnSessionSent(id, len);
      order, delivered := order + [s], delivered + [sent];
    }

    /** Library: a send completes, now reading its message for the last time. */
    method OnSendComplete(r: Request) returns (ghost sent: Message)
      requires Valid() && !receiving && r in inFlight
      modifies this`inFlight, this`carrier, this`order, this`delivered, pool, r.buf, relay`perThread, relay`ledger,
        relay`peerStarts
      ensures Valid() && inFlight == old(inFlight) - {r} && |relay.perThread| == old(|relay.perThread|) &&
        relay.reports == old(relay.reports)
      ensures pool.contents == Returned(old(r.buf.value.refCount) == 1, r.buf, old(pool.contents))
      ensures var v := old(r.buf.value);
        r.chunk < |v.chunks| && v.chunks[r.chunk].region < |v.data| &&
        v.chunks[r.chunk].len <= |v.data[v.chunks[r.chunk].region]| &&
        sent == Message(v.chunks[r.chunk].session, v.data[v.chunks[r.chunk].region][..v.chunks[r.chunk].len])
      ensures delivered == old(delivered) + [sent]
      ensures r in serial && order == old(order) + [serial[r]]
    {
      hide Owned, Payloads, Delivered, Tally;
      CompletionFacts(r);
      sent := relay.forwarded[serial[r]];
      var chunk := r.buf.value.chunks[r.chunk];
      Unreference(r, relay.forwarded);
      BookSent(chunk.len, serial[r], sent);
    }

    /** The send of message s is under way exactly if s was forwarded and has not been completed. */
    lemma UnderWay(s: nat)
      requires Valid()
      ensures |carrier| == |Relayed(relay.trace)|
      ensures s < |carrier| && carrier[s].Some? <==> s < |carrier| && s !in order
      ensures s < |carrier| && carrier[s].Some? ==>
        carrier[s].value in inFlight && carrier[s].value.buf in bufs && carrier[s].value in serial &&
        serial[carrier[s].value] == s
    {
      hide Relayed;
    }

    /** No pooled buffer is read by a send, none is pooled twice, and none of them is in a burst. */
    lemma PooledBuffersAreIdle()
      requires Valid()
      ensures forall r :: r in inFlight ==> r.buf !in pool.contents
      ensures forall i, j :: 0 <= i < j < |pool.contents| ==> pool.contents[i] != pool.contents[j]
      ensures receiving ==> lastAlloc !in pool.contents
    {
      ChainIsAcyclic(pool.top_, pool.contents);
      forall r | r in inFlight
        ensures r.buf !in pool.contents
      {
        assert r in SendsOf(inFlight, r.buf);
      }
    }

    /** Library: the send of forwarded message s completes, if it is under way. */
    method CompleteSend(s: nat)
      requires Valid() && !receiving
      modifies this`inFlight, this`carrier, this`order, this`delivered, pool, bufs, relay`perThread, relay`ledger,
        relay`peerStarts
      ensures Valid() && |relay.perThread| == old(|relay.perThread|)
      ensures order ==
        if s < |Relayed(relay.trace)| && s !in old(order) then old(order) + [s] else old(order)
      ensures s < |old(carrier)| && old(carrier)[s].Some? ==>
        var b := old(carrier)[s].value.buf;
        b in bufs && pool.contents == Returned(old(b.value.refCount) == 1, b, old(pool.contents))
    {
      UnderWay(s);
      hide Valid, Relayed;
      if s < |carrier| && carrier[s].Some? {
        ghost var _ := OnSendComplete(carrier[s].value);
      }
    }

    /** Default loop: reads and resets the record of a thread, after others have counted. */
    method ReadRecord(t: nat, updates: seq<Update>)
      requires Valid() && ReadPossible(Setup(), t, updates)
      modifies relay`perThread, relay`ledger, relay`reported, relay`reports
      ensures Valid() && |relay.perThread| == old(|relay.perThread|)
      ensures |relay.reports| == |old(relay.reports)| + 1 && old(relay.reports) <= relay.reports
      ensures Load(relay.reports[|old(relay.reports)|], relay.perThread) ==
        LoadStep(Load(ZERO, old(relay.perThread)), t, updates)
      ensures updates == [] ==> relay.perThread == old(relay.perThread)[t := ZERO]
    {
      hide Owned, Payloads, Delivered, TableAfter, Relayed, Conserved, Tally, Handed, LoadStep, BookAll, Plus, Wrap,
        Total;
      BookAllKeeps(relay.ledger, updates, id);
      var _ := relay.ReadRecord(t, updates);
    }

    ghost function Setup(): Config
      reads relay
    {
      Config(mmsg, chunkCount, |relay.perThread|, id)
    }

    ghost function Now(outcome: Outcome): Progress
      reads this`order, relay
    {
      Progress(outcome, relay.trace, order, |relay.reports|)
    }

    /** Handles one event of the loop: the surroundings see what the reference says. */
    method Handle(e: LoopEvent) returns (outcome: Outcome)
      requires Valid() && !receiving
      modifies this, pool, bufs, relay
      ensures outcome == Running ==> Valid() && !receiving && fresh(bufs - old(bufs))
      ensures var next := After(old(Setup()), old(Now(Running)), e);
        outcome == next.outcome && order == next.completed && |relay.reports| == next.reports &&
        (outcome != NoBufferSpace ==> relay.trace == next.trace)
      ensures |relay.perThread| == old(|relay.perThread|)
      ensures e.StatisticsRead? && ReadPossible(Setup(), e.thread, e.updates) ==>
        old(relay.reports) <= relay.reports && |relay.reports| == |old(relay.reports)| + 1 &&
        Load(relay.reports[|old(relay.reports)|], relay.perThread) ==
          LoadStep(Load(ZERO, old(relay.perThread)), e.thread, e.updates)
      ensures relay.forwarded == Relayed(relay.trace)
    {
      hide Buffers, AfterPeers, AfterClients, Conserved, Tally, Delivered, TableAfter, Relayed, Overflows;
      outcome := Running;
      match e {
        case ClientBurst(arrivals) =>
          if BurstPossible(mmsg, arrivals) {
            ClientBurst(arrivals);
          }
        case PeerBurst(arrivals) =>
          if BurstPossible(mmsg, arrivals) {
            outcome := PeerBurst(arrivals);
          }
        case SendCompletes(s) =>
          CompleteSend(s);
        case StatisticsRead(t, updates) =>
          if ReadPossible(Config(mmsg, chunkCount, |relay.perThread|, id), t, updates) {
            ReadRecord(t, updates);
          }
        case Fails =>
          outcome := Aborted;
      }
    }

    /** The whole run, whatever arrives and whichever send completes when. The surroundings see what
        they would see of a thread without buffers: the same datagrams reach the relay, the same sends
        complete, and the thread stops at the same event. As long as it runs, every buffer has one
        owner, and every send under way still reads exactly its message. */
    method Run(events: seq<LoopEvent>) returns (outcome: Outcome)
      requires Valid() && !receiving
      modifies this, pool, bufs, relay
      ensures var end := Reference(old(Setup()), old(Now(Running)), events);
        outcome == end.outcome && order == end.completed && |relay.reports| == end.reports &&
        (outcome != NoBufferSpace ==> relay.trace == end.trace)
      ensures outcome == Running ==> Valid() && !receiving && Completed()
      ensures relay.forwarded == Relayed(relay.trace)
    {
      assert events[0..] == events;
      assert relay.Valid();
      hide Buffers, Accounts, After, Relayed;
      outcome := Running;
      ghost var g, start := Setup(), Now(Running);
      for i := 0 to |events|
        invariant Valid() && !receiving && outcome == Running
        invariant fresh(bufs - old(bufs)) && relay.forwarded == Relayed(relay.trace)
        invariant Setup() == g && Reference(g, start, events) == Reference(g, Now(Running), events[i..])
      {
        assert events[i..][1..] == events[i + 1..];
        outcome := Handle(events[i]);
        if outcome != Running {
          return;
        }
      }
      CompletedAsForwarded();
    }

    lemma HasChunks()
      requires Valid()
      ensures chunkCount > 0
    {}

    lemma StartsAtNothing()
      requires relay.trace == [] && relay.reports == [] && order == []
      ensures Setup() == Config(mmsg, chunkCount, |relay.perThread|, id)
      ensures Now(Running) == Progress(Running, [], [], 0)
    {}

    lemma RelayedIsForwarded()
      requires Valid()
      ensures relay.forwarded == Relayed(relay.trace)
    {}

    /** What the completed sends read is what was forwarded, each message once. */
    ghost predicate Completed()
      reads this`order, this`delivered, relay
    {
      |delivered| == |order| && (forall i, j :: 0 <= i < j < |order| ==> order[i] != order[j]) &&
      forall k :: 0 <= k < |order| ==>
        order[k] < |Relayed(relay.trace)| && delivered[k] == Relayed(relay.trace)[order[k]]
    }

    lemma CompletedAsForwarded()
      requires Valid()
      ensures Completed() && |delivered| == |order|
      ensures forall i, j :: 0 <= i < j < |order| ==> order[i] != order[j]
      ensures forall k :: 0 <= k < |order| ==>
        order[k] < |Relayed(relay.trace)| && delivered[k] == Relayed(relay.trace)[order[k]]
    {
      hide Relayed;
    }
  }

  /** One thread of the program, with 32 chunks for bursts of several datagrams, or one chunk for bursts
      of one. With at most two datagrams in a burst, as many as a buffer has room for, it never runs
      out of chunks. */
  method EventLoop(id: nat, mmsg: bool, threads: nat, events: seq<LoopEvent>) returns (thread: Thread, outcome: Outcome)
    requires id < threads
    ensures var g := Config(mmsg, if mmsg then MMSG_CHUNKS else 1, threads, id);
      var end := Reference(g, Progress(Running, [], [], 0), events);
      outcome == end.outcome && thread.order == end.completed && |thread.relay.reports| == end.reports &&
      (outcome != NoBufferSpace ==> thread.relay.trace == end.trace)
    ensures outcome == Running ==> thread.Valid() && !thread.receiving && |thread.delivered| == |thread.order|
    ensures outcome == Running ==> forall k :: 0 <= k < |thread.order| ==>
      thread.order[k] < |Relayed(thread.relay.trace)| &&
      thread.delivered[k] == Relayed(thread.relay.trace)[thread.order[k]]
    ensures (forall i :: 0 <= i < |events| && events[i].PeerBurst? ==>
      |events[i].arrivals| <= if mmsg then MMSG_REGIONS else 1) ==> outcome != NoBufferSpace
  {
    var chunks: nat := if mmsg then MMSG_CHUNKS else 1;
    SmallBurstsFit(Config(mmsg, chunks, threads, id), Progress(Running, [], [], 0), events);
    assert chunks >= if mmsg then MMSG_REGIONS else 1;
    thread := new Thread(id, mmsg, chunks, threads);
    thread.StartsAtNothing();
    hide *;
    outcome := thread.Run(events);
    if outcome == Running {
      thread.CompletedAsForwarded();
    }
  }

  lemma SmallBurstsFit(g: Config, p: Progress, events: seq<LoopEvent>)
    requires p.outcome != NoBufferSpace && g.chunks >= if g.mmsg then MMSG_REGIONS else 1
    ensures (forall i :: 0 <= i < |events| && events[i].PeerBurst? ==>
      |events[i].arrivals| <= if g.mmsg then MMSG_REGIONS else 1) ==> Reference(g, p, events).outcome != NoBufferSpace
  {
    hide Reference;
    if forall i :: 0 <= i < |events| && events[i].PeerBurst? ==> |events[i].arrivals| <= g.chunks {
      NeverOutOfChunks(g, p, events);
    }
  }

  // --- A run in which a buffer comes back --------------------------------------------------------------

  function One(d: Datagram): seq<Arrival> {
    [Arrival(d, [])]
  }

  /** A client registers; a peer datagram for it is forwarded; the send completes; another arrives. */
  function RoundTrip(c: Datagram, p: Datagram): seq<LoopEvent> {
    [ClientBurst(One(c)), PeerBurst(One(p)), SendCompletes(0), PeerBurst(One(p))]
  }

  lemma OneArrival(trace: seq<Event>, d: Datagram)
    requires d.bytes != []
    ensures AfterClients(trace, One(d)) == trace + [Client(d)]
    ensures AfterPeers(trace, One(d)) == trace + [Peer(d.bytes)]
  {
    var a := Arrival(d, []);
    assert One(d)[..0] == [];
    assert AfterArrivals(trace, One(d), ClientEvent) == AfterArrivals(trace, [], ClientEvent) + ClientEvent(a);
    assert AfterArrivals(trace, One(d), PeerEvent) == AfterArrivals(trace, [], PeerEvent) + PeerEvent(a);
  }

  /** The next datagram is forwarded, and fits. */
  lemma SeenStep(c: Datagram, p: Datagram, n: nat, chunks: nat)
    requires Matching(c, p) && chunks > 0
    ensures AfterPeers(Seen(c, p, n), One(p)) == Seen(c, p, n + 1)
    ensures !Overflows(Seen(c, p, n), One(p), chunks)
  {
    OneArrival(Seen(c, p, n), p);
    SeenRelayed(c, p, n);
    SeenRelayed(c, p, n + 1);
  }

  lemma SeenFirst(c: Datagram, p: Datagram)
    requires Matching(c, p)
    ensures AfterClients([], One(c)) == Seen(c, p, 0)
  {
    OneArrival([], c);
    assert [] + [Client(c)] == [Client(c)];
  }

  /** The four steps of the round trip. */
  lemma RoundTripSteps(g: Config, c: Datagram, p: Datagram)
    requires g.chunks > 0 && Matching(c, p)
    ensures After(g, Progress(Running, [], [], 0), ClientBurst(One(c))) == Progress(Running, Seen(c, p, 0), [], 0)
    ensures After(g, Progress(Running, Seen(c, p, 0), [], 0), PeerBurst(One(p))) ==
      Progress(Running, Seen(c, p, 1), [], 0)
    ensures After(g, Progress(Running, Seen(c, p, 1), [], 0), SendCompletes(0)) ==
      Progress(Running, Seen(c, p, 1), [0], 0)
    ensures After(g, Progress(Running, Seen(c, p, 1), [0], 0), PeerBurst(One(p))) ==
      Progress(Running, Seen(c, p, 2), [0], 0)
  {
    hide Relayed, AfterArrivals, AfterClients, AfterPeers, Overflows, Seen, Matching;
    SeenFirst(c, p);
    SeenRelayed(c, p, 1);
    CompletesFirst(g, Seen(c, p, 1));
    SeenStep(c, p, 0, g.chunks);
    SeenStep(c, p, 1, g.chunks);
  }

  lemma CompletesFirst(g: Config, trace: seq<Event>)
    requires |Relayed(trace)| > 0
    ensures After(g, Progress(Running, trace, [], 0), SendCompletes(0)) == Progress(Running, trace, [0], 0)
  {
    hide Relayed;
    assert [] + [0] == [0];
  }

  lemma ReferenceStep(g: Config, p: Progress, events: seq<LoopEvent>, i: nat)
    requires p.outcome == Running && i < |events|
    ensures Reference(g, p, events[i..]) ==
      Reference(g, After(g, p, events[i]), events[i + 1..])
  {
    hide After;
    assert events[i..][1..] == events[i + 1..];
  }

  /** The reference completes the send: the run is to the end, with message 0 completed. */
  lemma RoundTripCompletes(g: Config, c: Datagram, p: Datagram)
    requires g.chunks > 0 && Matching(c, p)
    ensures Reference(g, Progress(Running, [], [], 0), RoundTrip(c, p)) == Progress(Running, Seen(c, p, 2), [0], 0)
  {
    hide After, Seen;
    var run := RoundTrip(c, p);
    RoundTripSteps(g, c, p);
    ReferenceStep(g, Progress(Running, [], [], 0), run, 0);
    ReferenceStep(g, Progress(Running, Seen(c, p, 0), [], 0), run, 1);
    ReferenceStep(g, Progress(Running, Seen(c, p, 1), [], 0), run, 2);
    ReferenceStep(g, Progress(Running, Seen(c, p, 1), [0], 0), run, 3);
    assert run[0..] == run && run[4..] == [];
  }

  /** A client registers; one burst brings two datagrams for it; their sends complete, the second first,
      and in between a record of the counters is read. */
  function TwoInOneBurst(c: Datagram, p: Datagram): seq<LoopEvent> {
    [ClientBurst(One(c)), PeerBurst([Arrival(p, []), Arrival(p, [])]),
     SendCompletes(1), StatisticsRead(0, []), SendCompletes(0)]
  }

  lemma TwoSeen(c: Datagram, p: Datagram)
    requires Matching(c, p)
    ensures AfterPeers(Seen(c, p, 0), [Arrival(p, []), Arrival(p, [])]) == Seen(c, p, 2)
  {
    var a := Arrival(p, []);
    assert [a, a][..1] == One(p);
    SeenStep(c, p, 0, 1);
    OneArrival(Seen(c, p, 1), p);
    assert Seen(c, p, 2) == Seen(c, p, 1) + [Peer(p.bytes)];
    assert AfterArrivals(Seen(c, p, 0), [a, a], PeerEvent) ==
      AfterArrivals(Seen(c, p, 0), One(p), PeerEvent) + PeerEvent(a);
    assert Registrations([]) + [Peer(p.bytes)] == [Peer(p.bytes)];
    hide AfterArrivals;
  }

  lemma TwoInOneBurstSteps(g: Config, c: Datagram, p: Datagram)
    requires g.mmsg && g.chunks >= 2 && g.threads > 0 && Matching(c, p)
    ensures After(g, Progress(Running, [], [], 0), ClientBurst(One(c))) == Progress(Running, Seen(c, p, 0), [], 0)
    ensures After(g, Progress(Running, Seen(c, p, 0), [], 0), PeerBurst([Arrival(p, []), Arrival(p, [])])) ==
      Progress(Running, Seen(c, p, 2), [], 0)
    ensures After(g, Progress(Running, Seen(c, p, 2), [], 0), SendCompletes(1)) ==
      Progress(Running, Seen(c, p, 2), [1], 0)
    ensures After(g, Progress(Running, Seen(c, p, 2), [1], 0), StatisticsRead(0, [])) ==
      Progress(Running, Seen(c, p, 2), [1], 1)
    ensures After(g, Progress(Running, Seen(c, p, 2), [1], 1), SendCompletes(0)) ==
      Progress(Running, Seen(c, p, 2), [1, 0], 1)
  {
    hide Relayed, AfterArrivals, AfterClients, AfterPeers, Seen, Matching, TableAfter, GetSessionId;
    SeenFirst(c, p);
    TwoSeen(c, p);
    SeenRelayed(c, p, 0);
    SeenRelayed(c, p, 2);
    EveryDatagramOfABurst(g, Progress(Running, Seen(c, p, 0), [], 0), [Arrival(p, []), Arrival(p, [])]);
    assert [] + [1] == [1] && [1] + [0] == [1, 0];
  }

  /** With several datagrams to a receive, both are forwarded from one buffer, and both sends complete. */
  lemma TwoInOneBurstComplete(g: Config, c: Datagram, p: Datagram)
    requires g.mmsg && g.chunks >= 2 && g.threads > 0 && Matching(c, p)
    ensures Reference(g, Progress(Running, [], [], 0), TwoInOneBurst(c, p)) ==
      Progress(Running, Seen(c, p, 2), [1, 0], 1)
  {
    hide After, Seen;
    var run := TwoInOneBurst(c, p);
    TwoInOneBurstSteps(g, c, p);
    ReferenceStep(g, Progress(Running, [], [], 0), run, 0);
    ReferenceStep(g, Progress(Running, Seen(c, p, 0), [], 0), run, 1);
    ReferenceStep(g, Progress(Running, Seen(c, p, 2), [], 0), run, 2);
    ReferenceStep(g, Progress(Running, Seen(c, p, 2), [1], 0), run, 3);
    ReferenceStep(g, Progress(Running, Seen(c, p, 2), [1], 1), run, 4);
    assert run[0..] == run && run[5..] == [];
  }

  method RegisterFirst(t: Thread, c: Datagram, p: Datagram)
    requires t.Valid() && !t.receiving && t.relay.trace == [] && t.bufs == {} && t.pool.contents == [] && Matching(c, p)
    modifies t, t.pool, t.relay
    ensures t.Valid() && !t.receiving && t.relay.trace == Seen(c, p, 0) && t.order == old(t.order)
    ensures t.lastAlloc != null && t.bufs == {t.lastAlloc} && fresh(t.lastAlloc) && |t.pool.contents| == 1
  {
    SeenFirst(c, p);
    assert BurstPossible(t.mmsg, One(c)) && Rest(t.pool.contents) == [];
    hide *;
    t.ClientBurst(One(c));
  }

  /** The only buffer, back in the pool, takes a datagram, which is forwarded. */
  method BurstInto(t: Thread, b: Buf, arrivals: seq<Arrival>)
    requires t.Valid() && !t.receiving && t.bufs == {b} && |t.pool.contents| == 1
    requires BurstPossible(t.mmsg, arrivals) && !Overflows(t.relay.trace, arrivals, t.chunkCount)
    requires |Relayed(AfterPeers(t.relay.trace, arrivals))| == |Relayed(t.relay.trace)| + 1
    modifies t, t.pool, t.bufs, t.relay
    ensures t.Valid() && !t.receiving && t.relay.trace == AfterPeers(old(t.relay.trace), arrivals)
    ensures t.order == old(t.order)
    ensures t.lastAlloc == b && t.bufs == {b} && t.pool.contents == [] && b.value.refCount == 1
  {
    PooledIs(t, b);
    t.RelayedIsForwarded();
    assert Returned(false, b, []) == [];
    hide *;
    var outcome := t.PeerBurst(arrivals);
    t.RelayedIsForwarded();
  }

  method ForwardFrom(t: Thread, b: Buf, c: Datagram, p: Datagram, n: nat)
    requires t.Valid() && !t.receiving && t.relay.trace == Seen(c, p, n) && t.bufs == {b} && |t.pool.contents| == 1 &&
      Matching(c, p)
    modifies t, t.pool, t.bufs, t.relay
    ensures t.Valid() && !t.receiving && t.relay.trace == Seen(c, p, n + 1) && t.order == old(t.order)
    ensures t.lastAlloc == b && t.bufs == {b} && t.pool.contents == [] && b.value.refCount == 1
  {
    t.HasChunks();
    SeenStep(c, p, n, t.chunkCount);
    SeenRelayed(c, p, n);
    SeenRelayed(c, p, n + 1);
    assert BurstPossible(t.mmsg, One(p));
    hide *;
    BurstInto(t, b, One(p));
  }

  /** The send from the only buffer completes, which puts it back in the pool. */
  method SentFrom(t: Thread, b: Buf)
    requires t.Valid() && !t.receiving && t.bufs == {b} && |Relayed(t.relay.trace)| == 1
    requires t.order == [] && t.pool.contents == [] && b.value.refCount == 1
    modifies t`inFlight, t`carrier, t`order, t`delivered, t.pool, t.bufs, t.relay`perThread, t.relay`ledger,
      t.relay`peerStarts
    ensures t.Valid() && t.order == [0] && |t.pool.contents| == 1
  {
    OnlySend(t, b);
    hide *;
    t.CompleteSend(0);
  }

  method RegisterAndForward(t: Thread, c: Datagram, p: Datagram)
    requires t.Valid() && !t.receiving && t.relay.trace == [] && t.bufs == {} && t.pool.contents == [] && t.order == []
    requires Matching(c, p)
    modifies t, t.pool, t.relay
    ensures t.Valid() && !t.receiving && t.relay.trace == Seen(c, p, 1) && t.order == []
    ensures t.lastAlloc != null && fresh(t.lastAlloc) && t.bufs == {t.lastAlloc}
    ensures t.pool.contents == [] && t.lastAlloc.value.refCount == 1
  {
    hide *;
    RegisterFirst(t, c, p);
    ForwardFrom(t, t.lastAlloc, c, p, 0);
  }

  method SentAndForward(t: Thread, b: Buf, c: Datagram, p: Datagram)
    requires t.Valid() && !t.receiving && t.relay.trace == Seen(c, p, 1) && t.bufs == {b} && Matching(c, p)
    requires t.order == [] && t.pool.contents == [] && b.value.refCount == 1
    modifies t, t.pool, t.bufs, t.relay
    ensures t.Valid() && t.relay.trace == Seen(c, p, 2) && t.order == [0] && t.lastAlloc == b && t.bufs == {b}
  {
    SeenRelayed(c, p, 1);
    hide *;
    SentFrom(t, b);
    ForwardFrom(t, b, c, p, 1);
  }

  lemma PooledIs(t: Thread, b: Buf)
    requires t.Valid() && t.bufs == {b} && |t.pool.contents| == 1
    ensures t.pool.contents[0] == b && Rest(t.pool.contents) == []
  {
    hide Payloads, Relayed;
    assert t.pool.contents[0] in t.pool.contents;
  }

  lemma OnlySend(t: Thread, b: Buf)
    requires t.Valid() && t.bufs == {b} && t.order == [] && |Relayed(t.relay.trace)| == 1
    ensures |t.carrier| == 1 && t.carrier[0].Some? && t.carrier[0].value.buf == b
  {
    hide Relayed;
    t.UnderWay(0);
  }

  /** From start-up, the buffer of a completed send is the one that the next burst is read into. */
  method BufferComesBack(mmsg: bool, c: Datagram, p: Datagram) returns (thread: Thread)
    requires Matching(c, p)
    ensures thread.Valid() && thread.relay.trace == Seen(c, p, 2) && thread.order == [0]
    ensures thread.lastAlloc != null && thread.bufs == {thread.lastAlloc}
  {
    thread := new Thread(0, mmsg, if mmsg then MMSG_CHUNKS else 1, 1);
    hide *;
    RegisterAndForward(thread, c, p);
    SentAndForward(thread, thread.lastAlloc, c, p);
  }
}
