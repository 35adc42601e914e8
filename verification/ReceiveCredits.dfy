/** The receive-credit protocol: a library that keeps the documented contract (each start_receive
    leads to one receive completion, each start_send to one send completion) drives the relay, with
    completions in any order on any thread. */
module ReceiveCredits {
  import opened Wire
  import opened RelaySpec
  import opened RelayLogic
  import opened Statistics

  datatype Completion =
    | ClientReceived(thread: nat, src: Endpoint, packet: seq<byte>)
    | PeerReceived(thread: nat, packet: seq<byte>)
    | Sent(thread: nat, which: nat)

  // --- Reference: the contract on sessions and messages alone --------------------------------------

  /** What has happened so far: the datagrams received, the sends in flight, the sends completed. */
  datatype Progress = Progress(trace: seq<Event>, sends: seq<Message>, sent: multiset<Message>)

  /** A library that keeps the contract holds as many client receives as it began with, and for each
      session either a peer receive or a send; so these are the completions there can be. */
  predicate CanComplete(p: Progress, receives: nat, threads: nat, c: Completion) {
    c.thread < threads &&
    match c
    case ClientReceived(_, _, _) => receives > 0
    case PeerReceived(_, _) => |TableAfter(p.trace)| > |p.sends|
    case Sent(_, which) => which < |p.sends|
  }

  /** The datagram a completion brings to the session table. */
  function EventOf(c: Completion): seq<Event> {
    match c
    case ClientReceived(_, src, packet) => [Client(Datagram(src, packet))]
    case PeerReceived(_, packet) => [Peer(packet)]
    case Sent(_, _) => []
  }

  function AfterOne(p: Progress, c: Completion): Progress {
    match c
    case ClientReceived(_, _, _) => p.(trace := p.trace + EventOf(c))
    case PeerReceived(_, packet) =>
      Progress(p.trace + EventOf(c), p.sends + Emits(TableAfter(p.trace), Peer(packet)), p.sent)
    case Sent(_, which) =>
      if which < |p.sends|
      then Progress(p.trace, p.sends[..which] + p.sends[which + 1..], p.sent + multiset{p.sends[which]})
      else p
  }

  /** A whole script of completions; one that is not outstanding does not happen. */
  function Reference(p: Progress, receives: nat, threads: nat, script: seq<Completion>): Progress
    decreases |script|
  {
    if script == [] then p
    else
      var next := if CanComplete(p, receives, threads, script[0]) then AfterOne(p, script[0]) else p;
      Reference(next, receives, threads, script[1..])
  }

  /** A script can be cut anywhere. */
  lemma {:induction false} ReferenceConcat(p: Progress, receives: nat, threads: nat, a: seq<Completion>,
                                           b: seq<Completion>)
    ensures Reference(p, receives, threads, a + b) ==
      Reference(Reference(p, receives, threads, a), receives, threads, b)
    decreases |a|
  {
    hide AfterOne, CanComplete;
    if a == [] {
      assert a + b == b;
    } else {
      assert (a + b)[1..] == a[1..] + b;
      ReferenceConcat(if CanComplete(p, receives, threads, a[0]) then AfterOne(p, a[0]) else p,
        receives, threads, a[1..], b);
    }
  }

  lemma ReferenceOfOne(p: Progress, receives: nat, threads: nat, c: Completion)
    ensures Reference(p, receives, threads, [c]) == if CanComplete(p, receives, threads, c) then AfterOne(p, c) else p
  {
    hide AfterOne, CanComplete;
    assert [c][1..] == [];
  }

  /** A datagram cannot arrive on the peer port before there is a session. Then a client registers, the
      datagram arrives and is forwarded, a second cannot arrive meanwhile, and the send completes. */
  lemma OneSession(c: Datagram, p: Datagram, receives: nat, threads: nat)
    requires Matching(c, p) && receives > 0 && threads > 0
    ensures Reference(Progress([], [], multiset{}), receives, threads,
      [PeerReceived(0, p.bytes)] + [ClientReceived(0, c.from, c.bytes)] + [PeerReceived(0, p.bytes)] +
      [PeerReceived(0, p.bytes)] + [Completion.Sent(0, 0)]) ==
      Progress(Seen(c, p, 1), [], multiset{Message(c.from, p.bytes)})
  {
    var peer, client, sent := PeerReceived(0, p.bytes), ClientReceived(0, c.from, c.bytes), Completion.Sent(0, 0);
    var m := Message(c.from, p.bytes);
    var p0, p1 := Progress([], [], multiset{}), Progress(Seen(c, p, 0), [], multiset{});
    var p2, p3 := Progress(Seen(c, p, 1), [m], multiset{}), Progress(Seen(c, p, 1), [], multiset{m});
    SessionSteps(c, p, receives, threads);
    ReferenceOfOne(p0, receives, threads, peer);
    ReferenceOfOne(p0, receives, threads, client);
    ReferenceOfOne(p1, receives, threads, peer);
    ReferenceOfOne(p2, receives, threads, peer);
    ReferenceOfOne(p2, receives, threads, sent);
    hide AfterOne, CanComplete, Reference, Seen;
    ReferenceConcat(p0, receives, threads, [peer], [client]);
    ReferenceConcat(p0, receives, threads, [peer] + [client], [peer]);
    ReferenceConcat(p0, receives, threads, [peer] + [client] + [peer], [peer]);
    ReferenceConcat(p0, receives, threads, [peer] + [client] + [peer] + [peer], [sent]);
  }

  lemma SessionSteps(c: Datagram, p: Datagram, receives: nat, threads: nat)
    requires Matching(c, p) && receives > 0 && threads > 0
    ensures var peer, m := PeerReceived(0, p.bytes), Message(c.from, p.bytes);
      var p0, p1 := Progress([], [], multiset{}), Progress(Seen(c, p, 0), [], multiset{});
      var p2 := Progress(Seen(c, p, 1), [m], multiset{});
      !CanComplete(p0, receives, threads, peer) &&
        CanComplete(p0, receives, threads, ClientReceived(0, c.from, c.bytes)) &&
      AfterOne(p0, ClientReceived(0, c.from, c.bytes)) == p1 && CanComplete(p1, receives, threads, peer) &&
      AfterOne(p1, peer) == p2 && !CanComplete(p2, receives, threads, peer) &&
      CanComplete(p2, receives, threads, Completion.Sent(0, 0)) &&
      AfterOne(p2, Completion.Sent(0, 0)) == Progress(Seen(c, p, 1), [], multiset{m})
  {
    var m := Message(c.from, p.bytes);
    SeenRelayed(c, p, 0);
    SeenRelayed(c, p, 1);
    ForwardsIt(Seen(c, p, 0), c, p);
    TraceStep(Seen(c, p, 0), Peer(p.bytes));
    assert TableAfter([]) == map[] && [] + [Client(c)] == [Client(c)] && Datagram(c.from, c.bytes) == c;
    assert Seen(c, p, 1) == Seen(c, p, 0) + [Peer(p.bytes)];
    assert [] + [m] == [m] && [m][..0] + [m][1..] == [];
    hide Relayed, TableAfter, GetSessionId, Matching;
    assert Relayed(Seen(c, p, 0)) + Emits(TableAfter(Seen(c, p, 0)), Peer(p.bytes)) == Relayed(Seen(c, p, 0)) + [m];
    assert Emits(TableAfter(Seen(c, p, 0)), Peer(p.bytes)) == [m];
  }

  class ContractLibrary {
    const relay: Relay
    var clientReceives: nat     // receives outstanding on the client port
    var peerReceives: nat       // receives outstanding on the peer port
    var sends: seq<Message>     // sends in flight

    ghost var sent: multiset<Message>  // sends completed

    /** Peer receives outstanding plus sends in flight are as many as there are sessions; and every
        forwarded message is in flight or was sent, as often as it was forwarded. */
    ghost predicate Valid()
      reads this, relay
    {
      relay.Valid() && peerReceives + |sends| == |relay.sessions| &&
      multiset(relay.forwarded) == multiset(sends) + sent
    }

    /** `receives` client receives are started before the first event. */
    constructor (threads: nat, receives: nat)
      ensures Valid() && fresh(relay) && |relay.perThread| == threads
      ensures clientReceives == receives && relay.trace == []
    {
      relay := new Relay(threads);
      clientReceives, peerReceives, sends := receives, 0, [];
      sent := multiset{};
    }

    /** A completion can only happen if its operation is outstanding. */
    predicate Possible(c: Completion)
      reads this, relay
    {
      c.thread < |relay.perThread| &&
      match c
      case ClientReceived(_, _, _) => clientReceives > 0
      case PeerReceived(_, _) => peerReceives > 0
      case Sent(_, which) => which < |sends|
    }

    ghost function Now(): Progress
      reads this, relay
    {
      Progress(relay.trace, sends, sent)
    }

    method CompleteClient(thread: nat, src: Endpoint, packet: seq<byte>)
      requires Valid() && Possible(ClientReceived(thread, src, packet))
      modifies this`clientReceives, this`peerReceives, relay
      ensures Valid() && relay.trace == old(relay.trace) + [Client(Datagram(src, packet))]
      ensures clientReceives == old(clientReceives) && |relay.perThread| == old(|relay.perThread|)
    {
      hide Relayed, Conserved, TableAfter;
      var clientStarts, peerStarts := relay.clientStarts, relay.peerStarts;
      ghost var sessions := relay.sessions;
      TraceStep(relay.trace, Client(Datagram(src, packet)));
      RegisterGrows(sessions, Datagram(src, packet));
      clientReceives := clientReceives - 1;
      relay.OnClientReceived(thread, src, packet);
      clientReceives := clientReceives + (relay.clientStarts - clientStarts);
      peerReceives := peerReceives + (relay.peerStarts - peerStarts);
    }

    method CompletePeer(thread: nat, packet: seq<byte>)
      requires Valid() && Possible(PeerReceived(thread, packet))
      modifies this`peerReceives, this`sends, relay
      ensures Valid() && Now() == AfterOne(old(Now()), PeerReceived(thread, packet))
      ensures |relay.perThread| == old(|relay.perThread|)
    {
      EmitsAtMostOne(TableAfter(relay.trace), packet);
      assert sends + [] == sends;
      hide Relayed, Conserved, TableAfter, Lookup, Emits;
      var peerStarts := relay.peerStarts;
      peerReceives := peerReceives - 1;
      var session := relay.OnPeerReceived(thread, packet);
      if session.Some? {
        AppendBoth(relay.forwarded, sends, sent, old(relay.forwarded), Message(session.value, packet));
        sends := sends + [Message(session.value, packet)];
      }
      peerReceives := peerReceives + (relay.peerStarts - peerStarts);
    }

    method CompleteSend(thread: nat, which: nat)
      requires Valid() && Possible(Completion.Sent(thread, which))
      modifies this`peerReceives, this`sends, this`sent, relay`perThread, relay`ledger, relay`peerStarts
      ensures Valid() && |relay.perThread| == old(|relay.perThread|)
      ensures Now() == AfterOne(old(Now()), Completion.Sent(thread, which))
    {
      hide Relayed, Conserved, TableAfter;
      var peerStarts := relay.peerStarts;
      var size := |sends[which].bytes|;
      assert sends == sends[..which] + [sends[which]] + sends[which + 1..];
      sent := sent + multiset{sends[which]};
      sends := sends[..which] + sends[which + 1..];
      relay.OnSessionSent(thread, size);
      peerReceives := peerReceives + (relay.peerStarts - peerStarts);
    }

    method Complete(c: Completion)
      requires Valid() && Possible(c)
      modifies this, relay
      ensures Valid() && Now() == AfterOne(old(Now()), c)
      ensures clientReceives == old(clientReceives) && |relay.perThread| == old(|relay.perThread|)
    {
      hide Relayed, Conserved, TableAfter;
      match c
      case ClientReceived(thread, src, packet) => CompleteClient(thread, src, packet);
      case PeerReceived(thread, packet) => CompletePeer(thread, packet);
      case Sent(thread, which) => CompleteSend(thread, which);
    }

    /** The library's credits make a completion possible exactly when the reference says so. */
    lemma PossibleIffOutstanding(c: Completion)
      requires Valid()
      ensures Possible(c) <==> CanComplete(Now(), clientReceives, |relay.perThread|, c)
    {
      hide Relayed, Conserved, TableAfter;
    }

    /** Every script of completions has the effect it has in the reference. Afterwards the credits add
        up: no receive is ever lost or doubled, so with a session registered there is always a peer
        receive or a send still to complete. */
    method Run(script: seq<Completion>)
      requires Valid()
      modifies this, relay
      ensures Now() == Reference(old(Now()), old(clientReceives), old(|relay.perThread|), script)
      ensures peerReceives + |sends| == |TableAfter(relay.trace)|
      ensures multiset(Relayed(relay.trace)) == multiset(sends) + sent
      ensures clientReceives == old(clientReceives)
      ensures TableAfter(relay.trace) != map[] ==> peerReceives > 0 || sends != []
    {
      ghost var start, receives, threads := Now(), clientReceives, |relay.perThread|;
      assert script[0..] == script;
      for i := 0 to |script|
        invariant Valid() && clientReceives == receives && |relay.perThread| == threads
        invariant Reference(start, receives, threads, script) == Reference(Now(), receives, threads, script[i..])
      {
        hide AfterOne, CanComplete, Possible, Relayed, Conserved, TableAfter;
        assert script[i..][1..] == script[i + 1..];
        PossibleIffOutstanding(script[i]);
        if Possible(script[i]) {
          Complete(script[i]);
        }
      }
    }
  }

  lemma AppendBoth(longer: seq<Message>, sends: seq<Message>, sent: multiset<Message>, forwarded: seq<Message>,
                   m: Message)
    requires multiset(forwarded) == multiset(sends) + sent && longer == forwarded + [m]
    ensures multiset(longer) == multiset(sends + [m]) + sent
  {}

  lemma EmitsAtMostOne(t: Table, packet: seq<byte>)
    ensures Emits(t, Peer(packet)) ==
      if Lookup(t, packet).Some? then [Message(Lookup(t, packet).value, packet)] else []
  {
    hide Lookup;
  }

  lemma RegisterGrows(t: Table, d: Datagram)
    ensures |t| <= |Register(t, d)| <= |t| + 1
  {
    if Register(t, d) != t {
      assert Register(t, d).Keys == t.Keys + {GetSessionId(d.bytes)};
    }
  }
}
