/** The reference relay: what should be forwarded, to whom and in which order, as a function of
    the sequence of datagrams the session table has seen. The engines are proved against it. */
module RelaySpec {
  import opened Wire

  type Table = map<SessionId, Endpoint>

  /** A datagram reaching the shared session table, in the order its lock is taken: one that this
      worker handles, or a client datagram handled by another; these may be interleaved in any way. */
  datatype Event = Client(d: Datagram) | Peer(bytes: seq<byte>) | Other(d: Datagram)

  /** Only a client datagram of exactly eight bytes registers, and only an id not yet taken. */
  function Register(t: Table, d: Datagram): Table {
    if |d.bytes| == ID_SIZE && GetSessionId(d.bytes) !in t then t[GetSessionId(d.bytes) := d.from] else t
  }

  function Lookup(t: Table, bytes: seq<byte>): Option<Endpoint> {
    if |bytes| >= ID_SIZE && GetSessionId(bytes) in t then Some(t[GetSessionId(bytes)]) else None
  }

  function TableStep(t: Table, e: Event): Table {
    if e.Peer? then t else Register(t, e.d)
  }

  function TableAfter(trace: seq<Event>): Table {
    if trace == [] then map[]
    else TableStep(TableAfter(trace[..|trace| - 1]), trace[|trace| - 1])
  }

  /** What one event makes a per-packet relay send at once. */
  function Emits(t: Table, e: Event): seq<Message> {
    if e.Peer? && Lookup(t, e.bytes).Some? then [Message(Lookup(t, e.bytes).value, e.bytes)] else []
  }

  /** Everything the per-packet relay sends over a whole run. */
  function Relayed(trace: seq<Event>): seq<Message> {
    if trace == [] then []
    else
      var before := trace[..|trace| - 1];
      Relayed(before) + Emits(TableAfter(before), trace[|trace| - 1])
  }

  lemma TraceStep(trace: seq<Event>, e: Event)
    ensures TableAfter(trace + [e]) == TableStep(TableAfter(trace), e)
    ensures Relayed(trace + [e]) == Relayed(trace) + Emits(TableAfter(trace), e)
  {
    var longer := trace + [e];
    assert longer[..|longer| - 1] == trace;
  }

  /** The registrations other workers make between two steps of this one. */
  function Registrations(others: seq<Datagram>): (events: seq<Event>)
    ensures |events| == |others|
  {
    seq(|others|, i requires 0 <= i < |others| => Other(others[i]))
  }

  lemma RegistrationsStep(trace: seq<Event>, others: seq<Datagram>)
    requires others != []
    ensures trace + Registrations(others) ==
      trace + Registrations(others[..|others| - 1]) + [Other(others[|others| - 1])]
  {
    assert Registrations(others) == Registrations(others[..|others| - 1]) + [Other(others[|others| - 1])];
  }

  /** Registrations on their own forward nothing. */
  lemma {:induction false} RegistrationsEmitNothing(trace: seq<Event>, others: seq<Datagram>)
    ensures Relayed(trace + Registrations(others)) == Relayed(trace)
  {
    if others == [] {
      assert trace + Registrations(others) == trace;
    } else {
      var most := others[..|others| - 1];
      var last := Other(others[|others| - 1]);
      RegistrationsStep(trace, others);
      TraceStep(trace + Registrations(most), last);
      RegistrationsEmitNothing(trace, most);
    }
  }

  /** A datagram taken from a socket, and what other workers register just before it is handled. */
  datatype Arrival = Arrival(d: Datagram, others: seq<Datagram>)

  /** The trace that a batch of arrivals makes of an earlier one, given the events of each arrival. */
  function AfterArrivals(trace: seq<Event>, arrivals: seq<Arrival>, events: Arrival -> seq<Event>): seq<Event> {
    if arrivals == [] then trace
    else AfterArrivals(trace, arrivals[..|arrivals| - 1], events) + events(arrivals[|arrivals| - 1])
  }

  lemma AfterArrivalsStep(trace: seq<Event>, arrivals: seq<Arrival>, i: nat, events: Arrival -> seq<Event>)
    requires i < |arrivals|
    ensures AfterArrivals(trace, arrivals[..i + 1], events) ==
      AfterArrivals(trace, arrivals[..i], events) + events(arrivals[i])
  {
    assert arrivals[..i + 1][..i] == arrivals[..i];
  }

  /** A batch broken off early has had a prefix of its events. */
  lemma {:induction false} AfterArrivalsPrefix(trace: seq<Event>, arrivals: seq<Arrival>, i: nat,
                                               events: Arrival -> seq<Event>)
    requires i <= |arrivals|
    ensures trace <= AfterArrivals(trace, arrivals[..i], events) <= AfterArrivals(trace, arrivals, events)
    ensures trace <= AfterArrivals(trace, arrivals, events)
    decreases |arrivals|
  {
    if arrivals == [] {
    } else {
      var most := arrivals[..|arrivals| - 1];
      if i == |arrivals| {
        assert arrivals[..i] == arrivals;
        AfterArrivalsPrefix(trace, most, |most|, events);
      } else {
        AfterArrivalsPrefix(trace, most, i, events);
        assert most[..i] == arrivals[..i];
      }
    }
  }

  lemma Regroup<A>(a: seq<A>, b: seq<A>, c: seq<A>)
    ensures a + b + c == a + (b + c)
  {}

  lemma {:induction false} RelayedGrows(trace: seq<Event>, later: seq<Event>)
    ensures Relayed(trace) <= Relayed(trace + later)
  {
    if later == [] {
      assert trace + later == trace;
    } else {
      var most := later[..|later| - 1];
      RelayedGrows(trace, most);
      TraceStep(trace + most, later[|later| - 1]);
      assert trace + later == trace + most + [later[|later| - 1]];
      hide Relayed;
    }
  }

  /** Whatever comes later, what has been sent stays sent. */
  lemma RelayedPrefix(sent: seq<Message>, trace: seq<Event>, longer: seq<Event>)
    requires trace <= longer && sent <= Relayed(trace)
    ensures sent <= Relayed(trace) <= Relayed(longer)
    ensures sent <= Relayed(longer)
  {
    hide Relayed;
    RelayedGrows(trace, longer[|trace|..]);
    assert trace + longer[|trace|..] == longer;
  }

  // --- First registration wins ---------------------------------------------------------------

  /** Event `i` is a client datagram that consists of exactly the eight bytes `key`. */
  predicate Claims(trace: seq<Event>, i: nat, key: seq<byte>)
    requires i < |trace|
  {
    !trace[i].Peer? && trace[i].d.bytes == key
  }

  /** Event `i` is the earliest claim of `key` in the trace. */
  ghost predicate FirstClaim(trace: seq<Event>, i: nat, key: seq<byte>) {
    i < |trace| && Claims(trace, i, key) && forall j: nat :: j < i ==> !Claims(trace, j, key)
  }

  /** A session exists exactly for the keys claimed so far, and it belongs to the first claimant. */
  lemma {:induction false} TableHoldsFirstClaims(trace: seq<Event>, key: seq<byte>)
    requires |key| == ID_SIZE
    ensures GetSessionId(key) in TableAfter(trace) <==> exists i: nat :: FirstClaim(trace, i, key)
    ensures forall i: nat :: FirstClaim(trace, i, key) ==>
      GetSessionId(key) in TableAfter(trace) && TableAfter(trace)[GetSessionId(key)] == trace[i].d.from
  {
    if trace == [] {
    } else {
      var n := |trace| - 1;
      var before := trace[..n];
      TableHoldsFirstClaims(before, key);
      forall i: nat | i < n
        ensures FirstClaim(before, i, key) <==> FirstClaim(trace, i, key)
      {
        assert forall j: nat :: j < n ==> (Claims(before, j, key) <==> Claims(trace, j, key));
      }
      if !trace[n].Peer? && |trace[n].d.bytes| == ID_SIZE {
        SameIdIffSamePrefix(trace[n].d.bytes, key);
        assert trace[n].d.bytes[..ID_SIZE] == trace[n].d.bytes && key[..ID_SIZE] == key;
      }
      if Claims(trace, n, key) && GetSessionId(key) !in TableAfter(before) {
        NoFirstClaimNoClaim(before, key);
        assert forall j: nat :: j < n ==> (Claims(before, j, key) <==> Claims(trace, j, key));
        assert FirstClaim(trace, n, key);
      }
      if exists i: nat :: FirstClaim(before, i, key) {
        var i: nat :| FirstClaim(before, i, key);
        assert FirstClaim(trace, i, key) && Claims(trace, i, key);
      }
    }
  }

  lemma {:induction false} NoFirstClaimNoClaim(trace: seq<Event>, key: seq<byte>)
    requires !exists i: nat :: FirstClaim(trace, i, key)
    ensures forall i: nat :: i < |trace| ==> !Claims(trace, i, key)
  {
    var n: nat := 0;
    while n < |trace|
      invariant n <= |trace|
      invariant forall i: nat :: i < n ==> !Claims(trace, i, key)
    {
      assert FirstClaim(trace, n, key) <==> Claims(trace, n, key);
      n := n + 1;
    }
  }

  /** The forwarding rule, stated on the bytes alone: a peer datagram is forwarded to `to` if and
      only if it has at least eight bytes and `to` sent the earliest eight-byte client datagram
      equal to its first eight bytes. */
  lemma ForwardedToFirstClaimant(trace: seq<Event>, bytes: seq<byte>, to: Endpoint)
    ensures Lookup(TableAfter(trace), bytes) == Some(to) <==>
      |bytes| >= ID_SIZE &&
      exists i: nat :: FirstClaim(trace, i, bytes[..ID_SIZE]) && trace[i].d.from == to
  {
    if |bytes| >= ID_SIZE {
      var key := bytes[..ID_SIZE];
      TableHoldsFirstClaims(trace, key);
      SameIdIffSamePrefix(bytes, key);
      assert key[..ID_SIZE] == key;
      if GetSessionId(bytes) in TableAfter(trace) {
        var i: nat :| FirstClaim(trace, i, key);
        assert TableAfter(trace)[GetSessionId(key)] == trace[i].d.from;
      }
    }
  }

  /** Whatever any worker does later, a session stays in the table with the endpoint it began with. */
  lemma {:induction false} SessionsAreForever(trace: seq<Event>, later: seq<Event>, id: SessionId)
    requires id in TableAfter(trace)
    ensures id in TableAfter(trace + later) && TableAfter(trace + later)[id] == TableAfter(trace)[id]
  {
    if later == [] {
      assert trace + later == trace;
    } else {
      var most := later[..|later| - 1];
      assert trace + later == (trace + most) + [later[|later| - 1]];
      TraceStep(trace + most, later[|later| - 1]);
      SessionsAreForever(trace, most, id);
    }
  }

  // --- The output of a whole run --------------------------------------------------------------

  /** The positions of the peer datagrams that are forwarded. */
  function ForwardedAt(trace: seq<Event>): (at: seq<nat>) {
    if trace == [] then []
    else
      var n := |trace| - 1;
      ForwardedAt(trace[..n]) +
      (if trace[n].Peer? && Lookup(TableAfter(trace[..n]), trace[n].bytes).Some? then [n] else [])
  }

  /** Position `k` holds a peer datagram whose first eight bytes were claimed before it. */
  ghost predicate Forwardable(trace: seq<Event>, k: nat) {
    k < |trace| && trace[k].Peer? && |trace[k].bytes| >= ID_SIZE &&
    exists i: nat :: FirstClaim(trace[..k], i, trace[k].bytes[..ID_SIZE])
  }

  /** Message `m` carries the datagram at position `k`, unchanged, to the first claimant of its id. */
  ghost predicate Carries(trace: seq<Event>, k: nat, m: Message) {
    Forwardable(trace, k) && m.bytes == trace[k].bytes &&
    exists i: nat :: FirstClaim(trace[..k], i, trace[k].bytes[..ID_SIZE]) && m.to == trace[i].d.from
  }

  lemma ForwardableIffFound(trace: seq<Event>, k: nat)
    requires k < |trace| && trace[k].Peer?
    ensures Forwardable(trace, k) <==> Lookup(TableAfter(trace[..k]), trace[k].bytes).Some?
    ensures Forwardable(trace, k) ==>
      Carries(trace, k, Message(Lookup(TableAfter(trace[..k]), trace[k].bytes).value, trace[k].bytes))
  {
    var bytes := trace[k].bytes;
    var found := Lookup(TableAfter(trace[..k]), bytes);
    if found.Some? {
      ForwardedToFirstClaimant(trace[..k], bytes, found.value);
      var i: nat :| FirstClaim(trace[..k], i, bytes[..ID_SIZE]) && trace[..k][i].d.from == found.value;
      assert trace[i] == trace[..k][i];
    } else if Forwardable(trace, k) {
      var i: nat :| FirstClaim(trace[..k], i, bytes[..ID_SIZE]);
      ForwardedToFirstClaimant(trace[..k], bytes, trace[..k][i].d.from);
    }
  }

  lemma ForwardableOnLongerTrace(trace: seq<Event>, n: nat, k: nat)
    requires k < n <= |trace|
    ensures Forwardable(trace[..n], k) <==> Forwardable(trace, k)
  {
    assert trace[..n][..k] == trace[..k];
  }

  lemma ForwardableIsPeer(trace: seq<Event>)
    ensures forall k: nat :: Forwardable(trace, k) ==> k < |trace| && trace[k].Peer?
  {}

  lemma CarriesOnLongerTrace(trace: seq<Event>, n: nat, k: nat, m: Message)
    requires k < n <= |trace| && Carries(trace[..n], k, m)
    ensures Carries(trace, k, m)
  {
    assert trace[..n][..k] == trace[..k];
    var i: nat :| FirstClaim(trace[..k], i, trace[k].bytes[..ID_SIZE]) && m.to == trace[..n][i].d.from;
    assert trace[..n][i] == trace[i];
  }

  /** The forwarded positions are the forwardable ones, in order, each once. */
  lemma {:induction false} ForwardedAtExactly(trace: seq<Event>)
    ensures forall a, b :: 0 <= a < b < |ForwardedAt(trace)| ==> ForwardedAt(trace)[a] < ForwardedAt(trace)[b]
    ensures forall k: nat :: k in ForwardedAt(trace) <==> Forwardable(trace, k)
  {
    if trace == [] {
    } else {
      var last := |trace| - 1;
      var before := trace[..last];
      ForwardedAtExactly(before);
      hide Forwardable, Carries, Lookup, TableAfter;
      forall k: nat | k < last
        ensures Forwardable(before, k) <==> Forwardable(trace, k)
      {
        ForwardableOnLongerTrace(trace, last, k);
      }
      ForwardableIsPeer(before);
      ForwardableIsPeer(trace);
      if trace[last].Peer? {
        ForwardableIffFound(trace, last);
      }
      var at := ForwardedAt(before);
      forall a | 0 <= a < |at|
        ensures at[a] < last
      {
        assert at[a] in at;
      }
    }
  }

  lemma {:induction false} RelayedCarries(trace: seq<Event>)
    ensures |Relayed(trace)| == |ForwardedAt(trace)|
    ensures forall n :: 0 <= n < |Relayed(trace)| ==> Carries(trace, ForwardedAt(trace)[n], Relayed(trace)[n])
  {
    if trace == [] {
    } else {
      var last := |trace| - 1;
      var before := trace[..last];
      RelayedCarries(before);
      hide Carries, Forwardable, Lookup, TableAfter;
      if trace[last].Peer? {
        ForwardableIffFound(trace, last);
      }
      forall n | 0 <= n < |Relayed(before)|
        ensures Carries(trace, ForwardedAt(before)[n], Relayed(before)[n])
      {
        CarriesForwardable(before, ForwardedAt(before)[n], Relayed(before)[n]);
        CarriesOnLongerTrace(trace, last, ForwardedAt(before)[n], Relayed(before)[n]);
      }
    }
  }

  lemma CarriesForwardable(trace: seq<Event>, k: nat, m: Message)
    requires Carries(trace, k, m)
    ensures k < |trace|
  {}

  /** A run sends exactly the forwardable datagrams, each once, in order, unchanged, and each to the
      first claimant of the id in its own bytes: nothing is lost, repeated or cross-forwarded. */
  lemma RelayedExactly(trace: seq<Event>)
    ensures |Relayed(trace)| == |ForwardedAt(trace)|
    ensures forall a, b :: 0 <= a < b < |ForwardedAt(trace)| ==> ForwardedAt(trace)[a] < ForwardedAt(trace)[b]
    ensures forall k: nat :: k in ForwardedAt(trace) <==> Forwardable(trace, k)
    ensures forall n :: 0 <= n < |Relayed(trace)| ==> Carries(trace, ForwardedAt(trace)[n], Relayed(trace)[n])
  {
    ForwardedAtExactly(trace);
    RelayedCarries(trace);
  }

  // --- One session in use --------------------------------------------------------------------------

  /** The peer datagram is for the session that the client datagram registers. */
  predicate Matching(c: Datagram, p: Datagram) {
    |c.bytes| == ID_SIZE <= |p.bytes| && p.bytes[..ID_SIZE] == c.bytes
  }

  /** So it is exactly if the registration is the first eight bytes of the peer datagram. */
  lemma MatchingExactly(c: Datagram, p: Datagram)
    ensures Matching(c, p) <==> |c.bytes| == 8 && |p.bytes| >= 8 && forall i :: 0 <= i < 8 ==> c.bytes[i] == p.bytes[i]
  {
    assert |c.bytes| == 8 <= |p.bytes| && (forall i :: 0 <= i < 8 ==> c.bytes[i] == p.bytes[i]) ==>
      p.bytes[..8] == c.bytes;
    if Matching(c, p) {
      assert forall i :: 0 <= i < 8 ==> p.bytes[..8][i] == c.bytes[i];
    }
  }

  /** What the relay has seen after the registration and n peer datagrams. */
  function Seen(c: Datagram, p: Datagram, n: nat): seq<Event> {
    if n == 0 then [Client(c)] else Seen(c, p, n - 1) + [Peer(p.bytes)]
  }

  lemma ForwardsIt(trace: seq<Event>, c: Datagram, p: Datagram)
    requires Matching(c, p) && TableAfter(trace) == map[GetSessionId(c.bytes) := c.from]
    ensures TableAfter(trace + [Peer(p.bytes)]) == TableAfter(trace)
    ensures Relayed(trace + [Peer(p.bytes)]) == Relayed(trace) + [Message(c.from, p.bytes)]
  {
    SameIdIffSamePrefix(c.bytes, p.bytes);
    assert c.bytes[..ID_SIZE] == c.bytes;
    TraceStep(trace, Peer(p.bytes));
    hide TableAfter, Relayed, GetSessionId;
  }

  lemma {:induction false} SeenRelayed(c: Datagram, p: Datagram, n: nat)
    requires Matching(c, p)
    ensures TableAfter(Seen(c, p, n)) == map[GetSessionId(c.bytes) := c.from]
    ensures |Relayed(Seen(c, p, n))| == n
    ensures forall k :: 0 <= k < n ==> Relayed(Seen(c, p, n))[k] == Message(c.from, p.bytes)
  {
    hide TableAfter, Relayed, GetSessionId, Matching;
    if n == 0 {
      RegistersIt(c, p);
    } else {
      SeenRelayed(c, p, n - 1);
      ForwardsIt(Seen(c, p, n - 1), c, p);
    }
  }

  lemma RegistersIt(c: Datagram, p: Datagram)
    requires Matching(c, p)
    ensures TableAfter([Client(c)]) == map[GetSessionId(c.bytes) := c.from] && Relayed([Client(c)]) == []
  {
    TraceStep([], Client(c));
    assert [] + [Client(c)] == [Client(c)];
    assert TableAfter([]) == map[] && Relayed([]) == [];
    hide TableAfter, Relayed, GetSessionId;
  }
}
