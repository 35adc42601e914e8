/** The relay's business logic, shared by all engines: the session table, the hand-off between
    receiving and sending, and the counters. Ghost fields record what has happened, so that every
    engine can be compared with the reference relay. */
module RelayLogic {
  import opened Wire
  import opened RelaySpec
  import opened Statistics

  /** Packets and bytes of the datagrams that this worker handled. */
  function Handed(trace: seq<Event>): Direction {
    if trace == [] then Direction(0, 0)
    else
      var d := Handed(trace[..|trace| - 1]);
      match trace[|trace| - 1]
      case Client(datagram) => Direction(d.packets + 1, d.bytes + |datagram.bytes|)
      case Peer(bytes) => Direction(d.packets + 1, d.bytes + |bytes|)
      case Other(_) => d
  }

  lemma HandedStep(trace: seq<Event>, e: Event)
    ensures Handed(trace + [e]) ==
      match e
      case Client(d) => Direction(Handed(trace).packets + 1, Handed(trace).bytes + |d.bytes|)
      case Peer(bytes) => Direction(Handed(trace).packets + 1, Handed(trace).bytes + |bytes|)
      case Other(_) => Handed(trace)
  {
    assert (trace + [e])[..|trace|] == trace;
  }

  class Relay {
    var sessions: Table
    var perThread: seq<Stats>
    var clientStarts: nat  // calls made so far to the library's client start_receive
    var peerStarts: nat    // and to its peer start_receive

    ghost var trace: seq<Event>       // datagrams that reached the table, in lock order
    ghost var forwarded: seq<Message> // messages handed to a session's start_send
    ghost var ledger: seq<Stats>      // per thread, all traffic ever counted, unbounded
    ghost var reported: Stats         // sum of all totals handed out by aggregations
    ghost var reports: seq<Stats>     // and those totals, one by one

    ghost predicate Valid()
      reads this
    {
      sessions == TableAfter(trace) &&
      forwarded == Relayed(trace) &&
      |ledger| == |perThread| && reported == Total(reports) &&
      Conserved(reported, perThread, ledger)
    }

    constructor (threads: nat)
      ensures Valid() && trace == [] && |perThread| == threads
      ensures sessions == map[] && clientStarts == 0 && peerStarts == 0
      ensures ledger == seq(threads, _ => ZERO) && reported == ZERO && reports == []
      ensures perThread == seq(threads, _ => ZERO)
    {
      sessions := map[];
      perThread := seq(threads, _ => ZERO);
      clientStarts, peerStarts := 0, 0;
      trace, forwarded, reported, reports := [], [], ZERO, [];
      ledger := seq(threads, _ => ZERO);
      new;
      TotalOfZeros(threads);
    }

    method UpdateIoStatistics(t: nat, amount: Stats)
      requires Valid() && t < |perThread|
      modifies this`perThread, this`ledger
      ensures Valid()
      ensures ledger == Book(old(ledger), Update(t, amount))
      ensures perThread == Count(old(perThread), Update(t, amount))
      ensures var before, now := old(perThread[t]), perThread[t];
        now.incoming.packets == (before.incoming.packets + amount.incoming.packets) % TWO_TO_THE_64 &&
        now.incoming.bytes == (before.incoming.bytes + amount.incoming.bytes) % TWO_TO_THE_64 &&
        now.outgoing.packets == (before.outgoing.packets + amount.outgoing.packets) % TWO_TO_THE_64 &&
        now.outgoing.bytes == (before.outgoing.bytes + amount.outgoing.bytes) % TWO_TO_THE_64
      ensures forall i :: 0 <= i < |perThread| && i != t ==> perThread[i] == old(perThread[i])
    {
      hide Conserved, TableAfter, Relayed, Total;
      CountConserves(reported, perThread, ledger, Update(t, amount));
      ledger := Book(ledger, Update(t, amount));
      perThread := perThread[t := Wrap(Plus(perThread[t], amount))];
    }

    method TryRegisterSession(id: SessionId, src: Endpoint) returns (inserted: bool)
      modifies this`sessions
      ensures inserted <==> id !in old(sessions)
      ensures sessions == if inserted then old(sessions)[id := src] else old(sessions)
    {
      inserted := id !in sessions;
      if inserted {
        sessions := sessions[id := src];
      }
    }

    method FindSession(id: SessionId) returns (session: Option<Endpoint>)
      ensures session == if id in sessions then Some(sessions[id]) else None
    {
      if id in sessions {
        session := Some(sessions[id]);
      } else {
        session := None;
      }
    }

    method OnClientReceived(t: nat, src: Endpoint, packet: seq<byte>)
      requires Valid() && t < |perThread|
      modifies this
      ensures Valid()
      ensures trace == old(trace) + [Client(Datagram(src, packet))]
      ensures forwarded == old(forwarded)
      ensures ledger == Book(old(ledger), Update(t, Incoming(|packet|))) && |perThread| == old(|perThread|)
      ensures perThread == Count(old(perThread), Update(t, Incoming(|packet|)))
      ensures ledger[t].incoming.packets == old(ledger[t].incoming.packets) + 1
      ensures ledger[t].incoming.bytes == old(ledger[t].incoming.bytes) + |packet|
      ensures ledger[t].outgoing == old(ledger[t].outgoing)
      ensures forall i :: 0 <= i < |ledger| && i != t ==> ledger[i] == old(ledger[i])
      ensures reported == old(reported) && reports == old(reports)
      ensures clientStarts == old(clientStarts) + 1
      ensures peerStarts - |sessions| == old(peerStarts) - |old(sessions)|
    {
      hide Conserved, TableAfter, Relayed, Wrap;
      UpdateIoStatistics(t, Incoming(|packet|));
      if |packet| == ID_SIZE {
        var id := GetSessionId(packet);
        var inserted := TryRegisterSession(id, src);
        if inserted {
          peerStarts := peerStarts + 1;
        }
      }
      clientStarts := clientStarts + 1;
      TraceStep(trace, Client(Datagram(src, packet)));
      trace := trace + [Client(Datagram(src, packet))];
    }

    /** Returns the session whose start_send is invoked with the packet, or None when there is none
        and the peer receive is restarted instead. */
    method OnPeerReceived(t: nat, packet: seq<byte>) returns (session: Option<Endpoint>)
      requires Valid() && t < |perThread|
      modifies this
      ensures Valid()
      ensures trace == old(trace) + [Peer(packet)]
      ensures session == Lookup(old(sessions), packet) && sessions == old(sessions)
      ensures session.Some? ==> forwarded == old(forwarded) + [Message(session.value, packet)]
      ensures session.None? ==> forwarded == old(forwarded)
      ensures ledger == Book(old(ledger), Update(t, Incoming(|packet|))) && |perThread| == old(|perThread|)
      ensures perThread == Count(old(perThread), Update(t, Incoming(|packet|)))
      ensures ledger[t].incoming.packets == old(ledger[t].incoming.packets) + 1
      ensures ledger[t].incoming.bytes == old(ledger[t].incoming.bytes) + |packet|
      ensures ledger[t].outgoing == old(ledger[t].outgoing)
      ensures forall i :: 0 <= i < |ledger| && i != t ==> ledger[i] == old(ledger[i])
      ensures reported == old(reported) && reports == old(reports)
      ensures clientStarts == old(clientStarts)
      ensures peerStarts == old(peerStarts) + (if session.Some? then 0 else 1)
    {
      hide Conserved, TableAfter, Relayed, Wrap;
      UpdateIoStatistics(t, Incoming(|packet|));
      session := None;
      if |packet| >= ID_SIZE {
        var id := GetSessionId(packet);
        session := FindSession(id);
      }
      if session.None? {
        peerStarts := peerStarts + 1;
      }
      TraceStep(trace, Peer(packet));
      trace := trace + [Peer(packet)];
      forwarded := Relayed(trace);
    }

    method OnSessionSent(t: nat, size: nat)
      requires Valid() && t < |perThread|
      modifies this`perThread, this`ledger, this`peerStarts
      ensures Valid()
      ensures ledger == Book(old(ledger), Update(t, Outgoing(size))) && |perThread| == old(|perThread|)
      ensures perThread == Count(old(perThread), Update(t, Outgoing(size)))
      ensures ledger[t].outgoing.packets == old(ledger[t].outgoing.packets) + 1
      ensures ledger[t].outgoing.bytes == old(ledger[t].outgoing.bytes) + size
      ensures ledger[t].incoming == old(ledger[t].incoming)
      ensures forall i :: 0 <= i < |ledger| && i != t ==> ledger[i] == old(ledger[i])
      ensures peerStarts == old(peerStarts) + 1
    {
      hide Conserved, TableAfter, Relayed, Wrap;
      UpdateIoStatistics(t, Outgoing(size));
      peerStarts := peerStarts + 1;
    }

    /** Environment: another worker registers a client. */
    method OtherRegisters(d: Datagram)
      requires Valid()
      modifies this`sessions, this`trace
      ensures Valid()
      ensures trace == old(trace) + [Other(d)] && Handed(trace) == Handed(old(trace))
    {
      hide Conserved, TableAfter, Relayed, Handed, GetSessionId;
      TraceStep(trace, Other(d));
      HandedStep(trace, Other(d));
      if |d.bytes| == ID_SIZE {
        var _ := TryRegisterSession(GetSessionId(d.bytes), d.from);
      }
      trace := trace + [Other(d)];
    }

    /** Environment: other workers register clients while this one is between two steps. */
    method OthersRegister(others: seq<Datagram>)
      requires Valid()
      modifies this`sessions, this`trace
      ensures Valid()
      ensures trace == old(trace) + Registrations(others) && Handed(trace) == Handed(old(trace))
      decreases |others|
    {
      if others == [] {
        assert trace + Registrations([]) == trace;
      } else {
        hide Conserved, TableAfter, Relayed, Registrations, Handed;
        RegistrationsStep(trace, others);
        OthersRegister(others[..|others| - 1]);
        OtherRegisters(others[|others| - 1]);
      }
    }

    /** The books in numbers: all totals reported and what the counters hold are all traffic ever
        counted, modulo 2^64. */
    lemma CountersAddUp()
      requires Valid()
      ensures var out, held, all := Total(reports), Total(perThread), Total(ledger);
        (out.incoming.packets + held.incoming.packets) % TWO_TO_THE_64 == all.incoming.packets % TWO_TO_THE_64 &&
        (out.incoming.bytes + held.incoming.bytes) % TWO_TO_THE_64 == all.incoming.bytes % TWO_TO_THE_64 &&
        (out.outgoing.packets + held.outgoing.packets) % TWO_TO_THE_64 == all.outgoing.packets % TWO_TO_THE_64 &&
        (out.outgoing.bytes + held.outgoing.bytes) % TWO_TO_THE_64 == all.outgoing.bytes % TWO_TO_THE_64
    {
      hide Congruent, Total, TableAfter, Relayed;
      InNumbers(reported, Total(perThread), Total(ledger));
    }

    /** Aggregates and resets the counters thread by thread. `others[i]` are the updates by running
        threads that land just before thread i is read. Without any, every record is zero afterwards,
        and the total is what they held. */
    method LoadStatistics(others: seq<seq<Update>>) returns (total: Stats)
      requires Valid() && Interleavable(others, |perThread|)
      modifies this`perThread, this`ledger, this`reported, this`reports
      ensures Valid()
      ensures Load(total, perThread) == LoadSteps(old(perThread), others, |others|)
      ensures reported == Plus(old(reported), total) && reports == old(reports) + [total]
      ensures ledger == LedgerAfter(old(ledger), others, |others|)
      ensures (forall i :: 0 <= i < |others| ==> others[i] == []) ==>
        (forall i :: 0 <= i < |perThread| ==> perThread[i] == ZERO) &&
        var held := Total(old(perThread));
        total.incoming.packets == held.incoming.packets % TWO_TO_THE_64 &&
        total.incoming.bytes == held.incoming.bytes % TWO_TO_THE_64 &&
        total.outgoing.packets == held.outgoing.packets % TWO_TO_THE_64 &&
        total.outgoing.bytes == held.outgoing.bytes % TWO_TO_THE_64
    {
      if forall i :: 0 <= i < |others| ==> others[i] == [] {
        QuietLoad(perThread, others, |others|);
        assert perThread[..|others|] == perThread;
      }
      hide *;
      total := Aggregate(others);
    }

    method Aggregate(others: seq<seq<Update>>) returns (total: Stats)
      requires Valid() && Interleavable(others, |perThread|)
      modifies this`perThread, this`ledger, this`reported, this`reports
      ensures Valid()
      ensures Load(total, perThread) == LoadSteps(old(perThread), others, |others|)
      ensures |perThread| == old(|perThread|) == |others|
      ensures reported == Plus(old(reported), total) && reports == old(reports) + [total]
      ensures ledger == LedgerAfter(old(ledger), others, |others|)
    {
      hide Conserved, TableAfter, Relayed, CountAll, BookAll, Total, Plus, Wrap;
      total := ZERO;
      for i := 0 to |perThread|
        invariant |perThread| == |others| == |ledger|
        invariant Load(total, perThread) == LoadSteps(old(perThread), others, i)
        invariant ledger == LedgerAfter(old(ledger), others, i)
        invariant reported == old(reported) && reports == old(reports)
      {
        perThread := CountAll(perThread, others[i]);
        ledger := BookAll(ledger, others[i]);
        var copy := perThread[i];
        perThread := perThread[i := ZERO];
        total := Wrap(Plus(total, copy));
      }
      LoadConserves(reported, old(perThread), old(ledger), others, |others|);
      AddReport(reports, total);
      reported, reports := Plus(reported, total), reports + [total];
    }

    /** One step of an aggregation that runs on another thread: `updates` by running threads land,
        then thread t is read and reset. Between two such steps anything may happen. */
    method ReadRecord(t: nat, updates: seq<Update>) returns (copy: Stats)
      requires Valid() && t < |perThread| && InRange(updates, |perThread|)
      modifies this`perThread, this`ledger, this`reported, this`reports
      ensures Valid() && |perThread| == old(|perThread|)
      ensures Load(Wrap(Plus(ZERO, copy)), perThread) == LoadStep(Load(ZERO, old(perThread)), t, updates)
      ensures reported == Plus(old(reported), Wrap(Plus(ZERO, copy)))
      ensures reports == old(reports) + [Wrap(Plus(ZERO, copy))]
      ensures updates == [] ==>
        copy == old(perThread[t]) && perThread == old(perThread)[t := ZERO]
      ensures ledger == BookAll(old(ledger), updates)
    {
      hide Conserved, TableAfter, Relayed, CountAll, BookAll, Total, Plus, Wrap, LoadStep;
      PlusZero(reported);
      OneRead(perThread, t, updates);
      LoadStepConserves(reported, Load(ZERO, perThread), ledger, t, updates);
      perThread := CountAll(perThread, updates);
      ledger := BookAll(ledger, updates);
      copy := perThread[t];
      perThread := perThread[t := ZERO];
      AddReport(reports, Wrap(Plus(ZERO, copy)));
      reported, reports := Plus(reported, Wrap(Plus(ZERO, copy))), reports + [Wrap(Plus(ZERO, copy))];
    }
  }
}
