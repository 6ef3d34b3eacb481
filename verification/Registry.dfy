/** The relay's table of live connections per peer key. */
module Registry {
  import opened Prelude

  type PeerKey = string
  type ConnId = nat

  type Clients = map<PeerKey, seq<ConnId>>

  /** The key of a client that never authenticated: both halves of the identity empty. */
  const ANONYMOUS: PeerKey := ":"

  function Without(conns: seq<ConnId>, gone: ConnId): seq<ConnId> {
    if conns == [] then []
    else (if conns[0] != gone then [conns[0]] else []) + Without(conns[1..], gone)
  }

  function Registered(clients: Clients, key: PeerKey, c: ConnId): Clients {
    if key !in clients then clients[key := [c]]
    else if c in clients[key] then clients
    else clients[key := clients[key] + [c]]
  }

  function Unregistered(clients: Clients, key: PeerKey, c: ConnId): Clients {
    if key !in clients then clients
    else if Without(clients[key], c) == [] then clients - {key}
    else clients[key := Without(clients[key], c)]
  }

  // ----- runs of authentications and disconnects -----

  /** `arrivals` lists the live authenticated connections, oldest first; `identity` is
      the peer key each one carries now. */
  datatype State = State(clients: Clients, arrivals: seq<ConnId>, identity: map<ConnId, PeerKey>)

  datatype Event = Authenticate(c: ConnId, key: PeerKey) | Disconnect(c: ConnId)

  const IDLE := State(map[], [], map[])

  function Apply(s: State, e: Event): State {
    match e
    case Authenticate(c, key) =>
      State(Registered(s.clients, key, c),
            if c in s.arrivals then s.arrivals else s.arrivals + [c],
            s.identity[c := key])
    case Disconnect(c) =>
      var key := if c in s.identity then s.identity[c] else ANONYMOUS;
      State(Unregistered(s.clients, key, c), Without(s.arrivals, c), s.identity - {c})
  }

  function Run(s: State, events: seq<Event>): State
    decreases |events|
  {
    if events == [] then s else Run(Apply(s, events[0]), events[1..])
  }

  /** The live connections of one peer, in order of authentication. */
  function Live(arrivals: seq<ConnId>, identity: map<ConnId, PeerKey>, key: PeerKey): seq<ConnId>
    decreases |arrivals|
  {
    if arrivals == [] then []
    else
      var n := |arrivals| - 1;
      Live(arrivals[..n], identity, key) + (if Is(identity, arrivals[n], key) then [arrivals[n]] else [])
  }

  predicate Is(identity: map<ConnId, PeerKey>, c: ConnId, key: PeerKey) {
    c in identity && identity[c] == key
  }

  lemma LiveAppend(arrivals: seq<ConnId>, c: ConnId, identity: map<ConnId, PeerKey>, key: PeerKey)
    ensures Live(arrivals + [c], identity, key) == Live(arrivals, identity, key) +
            (if Is(identity, c, key) then [c] else [])
  {
    assert (arrivals + [c])[..|arrivals|] == arrivals;
  }

  lemma {:induction false} LiveMember(arrivals: seq<ConnId>, identity: map<ConnId, PeerKey>, key: PeerKey, c: ConnId)
    ensures c in Live(arrivals, identity, key) <==> c in arrivals && Is(identity, c, key)
    decreases |arrivals|
  {
    if arrivals != [] {
      LiveMember(arrivals[..|arrivals| - 1], identity, key, c);
    }
  }

  lemma {:induction false} WithoutMember(conns: seq<ConnId>, gone: ConnId, c: ConnId)
    ensures c in Without(conns, gone) <==> c in conns && c != gone
  {
    if conns != [] {
      WithoutMember(conns[1..], gone, c);
    }
  }

  ghost predicate Distinct(s: seq<ConnId>) {
    forall i, j :: 0 <= i < j < |s| ==> s[i] != s[j]
  }

  /** The table at a key is exactly the live connections of that key; no entry is empty. */
  ghost predicate Mirrors(s: State, key: PeerKey) {
    var live := Live(s.arrivals, s.identity, key);
    (key in s.clients <==> live != []) && (key in s.clients ==> s.clients[key] == live)
  }

  ghost predicate Exact(s: State) {
    && Distinct(s.arrivals)
    && (forall c :: c in s.arrivals <==> c in s.identity)
    && forall key :: Mirrors(s, key)
  }

  /** A connection authenticates again only under the identity it already has. */
  predicate SameIdentity(s: State, e: Event) {
    e.Authenticate? ==> KeepsIdentity(s.identity, e.c, e.key)
  }

  predicate KeepsIdentity(identity: map<ConnId, PeerKey>, c: ConnId, key: PeerKey) {
    c in identity ==> identity[c] == key
  }

  lemma {:induction false} LiveDistinct(arrivals: seq<ConnId>, identity: map<ConnId, PeerKey>, key: PeerKey)
    requires Distinct(arrivals)
    ensures Distinct(Live(arrivals, identity, key))
    decreases |arrivals|
  {
    if arrivals != [] {
      var n := |arrivals| - 1;
      LiveDistinct(arrivals[..n], identity, key);
      LiveMember(arrivals[..n], identity, key, arrivals[n]);
    }
  }

  lemma {:induction false} LiveSameIdentities(arrivals: seq<ConnId>, i1: map<ConnId, PeerKey>, 
                                              i2: map<ConnId, PeerKey>, key: PeerKey)
    requires forall c :: c in arrivals ==> (c in i1 && i1[c] == key <==> c in i2 && i2[c] == key)
    ensures Live(arrivals, i1, key) == Live(arrivals, i2, key)
    decreases |arrivals|
  {
    if arrivals != [] {
      LiveSameIdentities(arrivals[..|arrivals| - 1], i1, i2, key);
    }
  }

  lemma {:induction false} WithoutAppend(s: seq<ConnId>, t: seq<ConnId>, gone: ConnId)
    ensures Without(s + t, gone) == Without(s, gone) + Without(t, gone)
  {
    if s == [] {
      assert s + t == t;
    } else {
      assert (s + t)[1..] == s[1..] + t;
      WithoutAppend(s[1..], t, gone);
    }
  }

  lemma {:induction false} WithoutNone(s: seq<ConnId>, gone: ConnId)
    requires gone !in s
    ensures Without(s, gone) == s
  {
    if s != [] {
      WithoutNone(s[1..], gone);
    }
  }

  lemma {:induction false} WithoutDistinct(s: seq<ConnId>, gone: ConnId)
    requires Distinct(s)
    ensures Distinct(Without(s, gone))
  {
    if s != [] {
      WithoutDistinct(s[1..], gone);
      WithoutMember(s[1..], gone, s[0]);
    }
  }

  /** Dropping a connection from the arrivals drops it from its peer's list only. */
  lemma {:induction false} LiveWithout(arrivals: seq<ConnId>, identity: map<ConnId, PeerKey>, gone: ConnId,
                                       key: PeerKey)
    ensures Live(Without(arrivals, gone), identity - {gone}, key) == Without(Live(arrivals, identity, key), gone)
    decreases |arrivals|
  {
    if arrivals != [] {
      var n := |arrivals| - 1;
      LiveWithout(arrivals[..n], identity, gone, key);
      assert arrivals == arrivals[..n] + [arrivals[n]];
      LiveWithoutLast(arrivals[..n], arrivals[n], identity, gone, key);
    }
  }

  lemma LiveWithoutLast(first: seq<ConnId>, c: ConnId, identity: map<ConnId, PeerKey>, gone: ConnId, key: PeerKey)
    requires Live(Without(first, gone), identity - {gone}, key) == Without(Live(first, identity, key), gone)
    ensures Live(Without(first + [c], gone), identity - {gone}, key) == Without(Live(first + [c], identity, key), gone)
  {
    WithoutSnoc(first, c, gone);
    LiveSnoc(first, c, identity, key);
    WithoutSnoc(Live(first, identity, key), c, gone);
    if c != gone {
      LiveSnoc(Without(first, gone), c, identity - {gone}, key);
    }
  }

  lemma WithoutSnoc(s: seq<ConnId>, c: ConnId, gone: ConnId)
    ensures Without(s + [c], gone) == if c == gone then Without(s, gone) else Without(s, gone) + [c]
  {
    WithoutAppend(s, [c], gone);
    WithoutOne(c, gone);
  }

  lemma LiveSnoc(arrivals: seq<ConnId>, c: ConnId, identity: map<ConnId, PeerKey>, key: PeerKey)
    ensures Live(arrivals + [c], identity, key) ==
            if Is(identity, c, key) then Live(arrivals, identity, key) + [c] else Live(arrivals, identity, key)
  {
    LiveAppend(arrivals, c, identity, key);
  }

  lemma WithoutOne(c: ConnId, gone: ConnId)
    ensures Without([c], gone) == if c == gone then [] else [c]
  {
  }

  lemma DisconnectKeepsMirror(s: State, c: ConnId, key: PeerKey)
    requires Mirrors(s, key) && forall d :: d in s.arrivals <==> d in s.identity
    ensures Mirrors(Apply(s, Disconnect(c)), key)
  {
    LiveWithout(s.arrivals, s.identity, c, key);
    LiveMember(s.arrivals, s.identity, key, c);
    if !Is(s.identity, c, key) {
      WithoutNone(Live(s.arrivals, s.identity, key), c);
    }
  }

  lemma DisconnectKeepsExact(s: State, c: ConnId)
    requires Exact(s)
    ensures Exact(Apply(s, Disconnect(c)))
  {
    WithoutDistinct(s.arrivals, c);
    forall d
      ensures d in Without(s.arrivals, c) <==> d in s.arrivals && d != c
    {
      WithoutMember(s.arrivals, c, d);
    }
    forall key
      ensures Mirrors(Apply(s, Disconnect(c)), key)
    {
      DisconnectKeepsMirror(s, c, key);
    }
  }

  lemma NewcomerKeepsMirror(s: State, c: ConnId, key: PeerKey, k: PeerKey)
    requires Mirrors(s, k) && c !in s.arrivals && c !in s.identity
    ensures Mirrors(Apply(s, Authenticate(c, key)), k)
  {
    LiveMember(s.arrivals, s.identity, k, c);
    LiveAppend(s.arrivals, c, s.identity[c := key], k);
    LiveSameIdentities(s.arrivals, s.identity, s.identity[c := key], k);
  }

  lemma AuthenticateKeepsExact(s: State, c: ConnId, key: PeerKey)
    requires Exact(s) && SameIdentity(s, Authenticate(c, key))
    ensures Exact(Apply(s, Authenticate(c, key)))
  {
    if c in s.identity {
      KnownAuthenticationIsNoop(s, c, key);
    } else {
      forall k
        ensures Mirrors(Apply(s, Authenticate(c, key)), k)
      {
        assert Mirrors(s, k);
        NewcomerKeepsMirror(s, c, key, k);
      }
    }
  }

  /** An authentication keeps the table exact if and only if the connection is new or
      keeps its identity: otherwise the old key goes on listing it. */
  lemma AuthenticateExactIff(s: State, c: ConnId, key: PeerKey)
    requires Exact(s)
    ensures Exact(Apply(s, Authenticate(c, key))) <==> SameIdentity(s, Authenticate(c, key))
  {
    if SameIdentity(s, Authenticate(c, key)) {
      AuthenticateKeepsExact(s, c, key);
    } else {
      var previous := s.identity[c];
      var s' := Apply(s, Authenticate(c, key));
      assert Mirrors(s, previous);
      LiveMember(s.arrivals, s.identity, previous, c);
      LiveMember(s'.arrivals, s'.identity, previous, c);
      assert c in s'.clients[previous] && c !in Live(s'.arrivals, s'.identity, previous);
      assert !Mirrors(s', previous);
    }
  }

  /** Two authentications of one connection are enough: the table goes on listing it under
      the key it no longer has. */
  lemma SecondIdentityStaysListed(c: ConnId, first: PeerKey, second: PeerKey)
    requires first != second
    ensures var s := Run(IDLE, [Authenticate(c, first), Authenticate(c, second)]);
            && s.clients == map[first := [c], second := [c]]
            && Live(s.arrivals, s.identity, first) == [] && !Exact(s)
  {
    var events := [Authenticate(c, first), Authenticate(c, second)];
    var once := Apply(IDLE, events[0]);
    var s := Apply(once, events[1]);
    assert events[1..][1..] == [];
    assert Run(IDLE, events) == Run(once, events[1..]) == Run(s, []) == s;
    assert forall k :: Mirrors(IDLE, k);
    AuthenticateKeepsExact(IDLE, c, first);
    AuthenticateExactIff(once, c, second);
    LiveAppend([], c, s.identity, first);
    assert s.arrivals == [] + [c];
  }

  /** Authenticating twice changes nothing the second time. */
  lemma AuthenticateIdempotent(s: State, c: ConnId, key: PeerKey)
    requires Exact(s) && SameIdentity(s, Authenticate(c, key))
    ensures var once := Apply(s, Authenticate(c, key)); Apply(once, Authenticate(c, key)) == once
  {
    var once := Apply(s, Authenticate(c, key));
    AuthenticateKeepsExact(s, c, key);
    KnownAuthenticationIsNoop(once, c, key);
  }

  lemma KnownAuthenticationIsNoop(s: State, c: ConnId, key: PeerKey)
    requires Exact(s) && Is(s.identity, c, key)
    ensures Apply(s, Authenticate(c, key)) == s
  {
    assert Mirrors(s, key);
    LiveMember(s.arrivals, s.identity, key, c);
    assert s.identity[c := key] == s.identity;
  }

  ghost predicate OneIdentityEach(s: State, events: seq<Event>)
    decreases |events|
  {
    events == [] || (SameIdentity(s, events[0]) && OneIdentityEach(Apply(s, events[0]), events[1..]))
  }

  lemma {:induction false} RunKeepsExact(s: State, events: seq<Event>)
    requires Exact(s) && OneIdentityEach(s, events)
    ensures Exact(Run(s, events))
    decreases |events|
  {
    if events != [] {
      match events[0] {
        case Authenticate(c, key) => AuthenticateKeepsExact(s, c, key);
        case Disconnect(c) => DisconnectKeepsExact(s, c);
      }
      RunKeepsExact(Apply(s, events[0]), events[1..]);
    }
  }

  /** After any run each key lists exactly its live connections, each once. */
  lemma RegistryIsExact(events: seq<Event>, key: PeerKey)
    requires OneIdentityEach(IDLE, events)
    ensures var s := Run(IDLE, events);
            var live := Live(s.arrivals, s.identity, key);
            (if key in s.clients then s.clients[key] else []) == live && (key in s.clients <==> live != []) &&
              Distinct(live)
  {
    var s := Run(IDLE, events);
    assert forall k :: Mirrors(IDLE, k);
    RunKeepsExact(IDLE, events);
    assert Mirrors(s, key);
    LiveDistinct(s.arrivals, s.identity, key);
  }

  // ----- the filter as the code runs it -----

  /** Compacts the slice in its own backing array and returns the new length. */
  method FilterInPlace(conns: array<ConnId>, gone: ConnId) returns (kept: nat)
    modifies conns
    ensures kept <= conns.Length && conns[..kept] == Without(old(conns[..]), gone)
  {
    kept := 0;
    ghost var before := conns[..];
    for i := 0 to conns.Length
      invariant kept <= i
      invariant conns[..kept] == Without(before[..i], gone)
      invariant forall k :: i <= k < conns.Length ==> conns[k] == before[k]
    {
      assert before[..i + 1] == before[..i] + [before[i]];
      WithoutAppend(before[..i], [before[i]], gone);
      if conns[i] != gone {
        conns[kept] := conns[i];
        kept := kept + 1;
      }
    }
    assert before[..conns.Length] == before;
  }

  // ----- who is connected, read off the events -----

  /** The identity a connection last authenticated under, if it has not gone since. */
  function LastKey(events: seq<Event>, c: ConnId): Option<PeerKey>
    decreases |events|
  {
    if events == [] then None
    else
      match events[|events| - 1]
      case Authenticate(d, key) => if d == c then Some(key) else LastKey(events[..|events| - 1], c)
      case Disconnect(d) => if d == c then None else LastKey(events[..|events| - 1], c)
  }

  lemma {:induction false} RunAppend(s: State, events: seq<Event>, e: Event)
    ensures Run(s, events + [e]) == Apply(Run(s, events), e)
    decreases |events|
  {
    if events == [] {
      assert ([] + [e])[1..] == [];
    } else {
      assert (events + [e])[1..] == events[1..] + [e];
      RunAppend(Apply(s, events[0]), events[1..], e);
    }
  }

  /** In every run a connection is among the live ones exactly if it authenticated and has
      not gone since, and carries the identity it gave last. */
  lemma {:induction false} LiveIsLastKey(events: seq<Event>, c: ConnId)
    ensures var s := Run(IDLE, events);
            && (c in s.arrivals <==> LastKey(events, c).Some?)
            && (c in s.identity <==> LastKey(events, c).Some?)
            && (c in s.identity ==> s.identity[c] == LastKey(events, c).value)
    decreases |events|
  {
    if events != [] {
      var n := |events| - 1;
      var before := Run(IDLE, events[..n]);
      LiveIsLastKey(events[..n], c);
      RunAppend(IDLE, events[..n], events[n]);
      assert events == events[..n] + [events[n]];
      if events[n].Disconnect? {
        WithoutMember(before.arrivals, events[n].c, c);
      }
    }
  }
}
