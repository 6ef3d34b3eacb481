/** The relay's handlers as they update the connection table, the send queues and the
    message rows. */
module RelayServer {
  import opened Prelude
  import Registry
  import opened Offline

  type ConnId = Registry.ConnId
  type Queues = map<ConnId, seq<Frame>>

  /** A message as the relay parses it. */
  datatype Message = Message(id: MsgId, chat: string, recipient: Option<PeerKey>, sentAt: int, raw: Bytes)

  datatype ServerState = ServerState(
    clients: Registry.Clients,
    identity: map<ConnId, PeerKey>,
    queues: Queues,                       // one per open connection
    rows: Table,
    chats: map<string, seq<PeerKey>>)     // members of the chats uploaded so far

  function Pushed(queues: Queues, c: ConnId, f: Frame): Queues {
    if c in queues then queues[c := Sent(queues[c], f)] else queues
  }

  function PushedAll(queues: Queues, conns: seq<ConnId>, f: Frame): Queues
    decreases |conns|
  {
    if conns == [] then queues
    else Pushed(PushedAll(queues, conns[..|conns| - 1], f), conns[|conns| - 1], f)
  }

  function ConnsOf(clients: Registry.Clients, peer: PeerKey): seq<ConnId> {
    if peer in clients then clients[peer] else []
  }

  /** Fan-out to a list of peers, skipping one. */
  function FannedOut(clients: Registry.Clients, queues: Queues, peers: seq<PeerKey>, skip: PeerKey, f: Frame): Queues
    decreases |peers|
  {
    if peers == [] then queues
    else
      var n := |peers| - 1;
      var earlier := FannedOut(clients, queues, peers[..n], skip, f);
      if peers[n] == skip then earlier else PushedAll(earlier, ConnsOf(clients, peers[n]), f)
  }

  function RecipientOf(msg: Message): PeerKey {
    if msg.recipient.Some? then msg.recipient.value else ""
  }

  /** The key a connection is listed under, if it is. */
  function KeyOf(identity: map<ConnId, PeerKey>, c: ConnId): PeerKey {
    if c in identity then identity[c] else Registry.ANONYMOUS
  }

  function Relayed(s: ServerState, sender: PeerKey, msg: Message, f: Frame): ServerState {
    if msg.id == "" then s
    else
      var rows := Stored(s.rows, msg.id, RecipientOf(msg), msg.sentAt, msg.raw);
      var queues :=
        if msg.chat in s.chats then FannedOut(s.clients, s.queues, s.chats[msg.chat], sender, f)
        else if msg.recipient.Some? then PushedAll(s.queues, ConnsOf(s.clients, msg.recipient.value), f)
        else s.queues;
      s.(rows := rows, queues := queues)
  }

  function LoggedIn(s: ServerState, c: ConnId, peer: PeerKey): ServerState
    requires c in s.queues
  {
    var handed := Authenticated(s.rows, peer, s.queues[c]);
    s.(clients := Registry.Registered(s.clients, peer, c),
       identity := s.identity[c := peer],
       rows := handed.rows,
       queues := s.queues[c := handed.queue])
  }

  // ----- who a delivery reaches -----

  lemma {:induction false} PushedAllReaches(queues: Queues, conns: seq<ConnId>, f: Frame, c: ConnId)
    requires Registry.Distinct(conns)
    ensures PushedAll(queues, conns, f).Keys == queues.Keys
    ensures c in queues ==> PushedAll(queues, conns, f)[c] == if c in conns then Sent(queues[c], f) else queues[c]
    decreases |conns|
  {
    if conns != [] {
      var n := |conns| - 1;
      assert conns == conns[..n] + [conns[n]];
      PushedAllReaches(queues, conns[..n], f, c);
    }
  }

  /** In any state a run of the registry can reach, a frame delivered to a peer is
      offered to exactly the peer's live connections, once each, and to nobody else. */
  lemma DeliveryReachesExactlyLive(events: seq<Registry.Event>, queues: Queues, peer: PeerKey, f: Frame, c: ConnId)
    requires Registry.OneIdentityEach(Registry.IDLE, events)
    requires c in queues
    ensures var s := Registry.Run(Registry.IDLE, events);
            var live := c in s.arrivals && Registry.Is(s.identity, c, peer);
            var after := PushedAll(queues, ConnsOf(s.clients, peer), f);
            after.Keys == queues.Keys && after[c] == if live then Sent(queues[c], f) else queues[c]
  {
    var s := Registry.Run(Registry.IDLE, events);
    Registry.RegistryIsExact(events, peer);
    Registry.LiveMember(s.arrivals, s.identity, peer, c);
    PushedAllReaches(queues, ConnsOf(s.clients, peer), f, c);
  }

  // ----- the server object -----

  class Server {
    var clients: Registry.Clients
    var identity: map<ConnId, PeerKey>
    var queues: Queues
    var rows: Table
    var chats: map<string, seq<PeerKey>>

    constructor ()
      ensures State() == ServerState(map[], map[], map[], [], map[])
    {
      clients, identity, queues, rows, chats := map[], map[], map[], [], map[];
    }

    function State(): ServerState
      reads this
    {
      ServerState(clients, identity, queues, rows, chats)
    }

    /** A connection that is gone takes nothing. */
    method Send(c: ConnId, f: Frame)
      modifies this`queues
      ensures queues == Pushed(old(queues), c, f)
    {
      if c !in queues {
        return;
      }
      if |queues[c]| < QUEUE {
        queues := queues[c := queues[c] + [f]];
      } else {
        assert queues[c := queues[c]] == queues;
      }
    }

    method Register(c: ConnId, key: PeerKey)
      modifies this`clients
      ensures clients == Registry.Registered(old(clients), key, c)
    {
      if key !in clients {
        clients := clients[key := [c]];
      }
      var conns := clients[key];
      for i := 0 to |conns|
        invariant forall j :: 0 <= j < i ==> conns[j] != c
      {
        if conns[i] == c {
          assert c in conns;
          return;
        }
      }
      assert c !in conns;
      clients := clients[key := conns + [c]];
    }

    method Unregister(c: ConnId)
      modifies this`clients
      ensures clients == Registry.Unregistered(old(clients), KeyOf(identity, c), c)
    {
      var key := KeyOf(identity, c);
      if key !in clients {
        return;
      }
      var conns := clients[key];
      var slice := new ConnId[|conns|](i requires 0 <= i < |conns| => conns[i]);
      assert slice[..] == conns;
      var kept := Registry.FilterInPlace(slice, c);
      var filtered := slice[..kept];
      if |filtered| == 0 {
        clients := clients - {key};
      } else {
        clients := clients[key := filtered];
      }
    }

    method DeliverTo(peer: PeerKey, f: Frame)
      modifies this`queues
      ensures queues == PushedAll(old(queues), ConnsOf(clients, peer), f)
      ensures queues.Keys == old(queues.Keys)
    {
      if peer !in clients {
        return;
      }
      var conns := clients[peer];
      for i := 0 to |conns|
        invariant queues == PushedAll(old(queues), conns[..i], f)
        invariant queues.Keys == old(queues.Keys)
      {
        assert conns[..i + 1][..i] == conns[..i];
        Send(conns[i], f);
      }
      assert conns[..|conns|] == conns;
    }

    /** INSERT OR IGNORE, found out by a search for the identifier. */
    method StoreMessage(msg: Message)
      modifies this`rows
      ensures rows == Stored(old(rows), msg.id, RecipientOf(msg), msg.sentAt, msg.raw)
    {
      var recipient := "";
      if msg.recipient.Some? {
        recipient := msg.recipient.value;
      }
      for i := 0 to |rows|
        invariant forall j :: 0 <= j < i ==> rows[j].id != msg.id
      {
        if rows[i].id == msg.id {
          return;
        }
      }
      rows := rows + [Row(msg.id, recipient, msg.sentAt, msg.raw, false)];
    }

    method HandleRelay(sender: PeerKey, msg: Message, f: Frame)
      modifies this`queues, this`rows
      ensures State() == Relayed(old(State()), sender, msg, f)
    {
      if msg.id == "" {
        return;
      }
      StoreMessage(msg);
      if msg.chat !in chats {
        if msg.recipient.Some? {
          DeliverTo(msg.recipient.value, f);
        }
        return;
      }
      var members := chats[msg.chat];
      for i := 0 to |members|
        invariant rows == Relayed(old(State()), sender, msg, f).rows
        invariant queues == FannedOut(clients, old(queues), members[..i], sender, f)
        invariant queues.Keys == old(queues.Keys)
      {
        assert members[..i + 1][..i] == members[..i];
        if members[i] != sender {
          DeliverTo(members[i], f);
        }
      }
      assert members[..|members|] == members;
    }

    /** Sends the batch row by row, then marks every identifier it read. */
    method DeliverOffline(c: ConnId, peer: PeerKey)
      requires c in queues
      modifies this`queues, this`rows
      ensures rows == Marked(old(rows), Ids(Batch(old(rows), peer)))
      ensures queues == old(queues)[c := SentAll(old(queues[c]), Payloads(Batch(old(rows), peer)))]
    {
      var batch := Batch(rows, peer);
      var ids: seq<MsgId> := [];
      for i := 0 to |batch|
        invariant ids == Ids(batch[..i]) && rows == old(rows)
        invariant c in queues && queues == old(queues)[c := queues[c]]
        invariant SentAll(queues[c], Payloads(batch[i..])) == SentAll(old(queues[c]), Payloads(batch))
      {
        assert Payloads(batch[i..])[0] == Relay(batch[i].payload) &&
               Payloads(batch[i..])[1..] == Payloads(batch[i + 1..]);
        ids := ids + [batch[i].id];
        Send(c, Relay(batch[i].payload));
      }
      assert batch[..|batch|] == batch;
      rows := Marked(rows, ids);
    }

    method HandleAuth(c: ConnId, peer: PeerKey)
      requires c in queues
      modifies this`clients, this`identity, this`queues, this`rows
      ensures State() == LoggedIn(old(State()), c, peer)
    {
      identity := identity[c := peer];
      Register(c, peer);
      Send(c, AuthOk);
      DeliverOffline(c, peer);
    }
  }
}
