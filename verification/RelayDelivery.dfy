/** What the delivered flag of the relay's rows is worth: which messages authentications
    hand out, lose or repeat, over whole runs. */
module RelayDelivery {
  import opened Prelude
  import Registry
  import opened Offline
  import opened RelayServer
  import opened RelayRuns

  // ----- hand-outs and the delivered flag -----

  /** The identifiers an authentication handed out. */
  function HandedOut(log: seq<Entry>): seq<MsgId> {
    if log == [] then []
    else
      var n := |log| - 1;
      HandedOut(log[..n]) + (if log[n].live then [] else [log[n].id])
  }

  function Books(w: World): Ledger {
    Ledger(w.server.rows, HandedOut(w.log))
  }

  lemma {:induction false} HandedOutAppend(a: seq<Entry>, b: seq<Entry>)
    ensures HandedOut(a + b) == HandedOut(a) + HandedOut(b)
  {
    if b == [] {
      assert a + b == a;
    } else {
      var n := |b| - 1;
      assert (a + b)[..|a| + n] == a + b[..n];
      HandedOutAppend(a, b[..n]);
    }
  }

  lemma {:induction false} LiveIsNotHandedOut(log: seq<Entry>)
    requires forall e <- log :: e.live
    ensures HandedOut(log) == []
  {
    if log != [] {
      assert log[|log| - 1] in log;
      LiveIsNotHandedOut(log[..|log| - 1]);
    }
  }

  lemma {:induction false} HandLogIsHandedOut(c: ConnId, rows: seq<Row>)
    ensures HandedOut(HandLog(c, rows)) == Ids(rows)
    decreases |rows|
  {
    if rows != [] {
      var n := |rows| - 1;
      HandLogIsHandedOut(c, rows[..n]);
      assert HandLog(c, rows)[..n] == HandLog(c, rows[..n]);
      assert Ids(rows) == Ids(rows[..n]) + [rows[n].id];
    }
  }

  /** Each event is, for the books, a store, an authentication or nothing. */
  lemma StepOfBooks(w: World, e: Event)
    ensures var b := Books(Apply(w, e));
            match e
            case Relays(_, msg) =>
              b == if msg.id == "" then Books(w)
                   else Posted(Books(w), Store(msg.id, RecipientOf(msg), msg.sentAt, msg.raw))
            case Authenticates(c, peer) =>
              b == if c in w.server.queues then Posted(Books(w), Authenticate(peer, w.server.queues[c])) else Books(w)
            case _ => b == Books(w)
  {
    match e
    case Relays(sender, msg) =>
      var more := RelayLog(w.server, sender, msg);
      RelayLogEntries(w.server, sender, msg);
      LiveIsNotHandedOut(more);
      HandedOutAppend(w.log, more);
      assert HandedOut(w.log) + [] == HandedOut(w.log);
    case Authenticates(c, peer) =>
      if c in w.server.queues {
        var rows := HandedBatch(w.server, c, peer);
        HandLogIsHandedOut(c, rows);
        HandedOutAppend(w.log, HandLog(c, rows));
      }
    case _ =>
  }

  /** Whether the batch of an authentication finds room behind the acknowledgement. */
  predicate BatchFits(w: World, e: Event) {
    e.Authenticates? && e.c in w.server.queues ==> Fits(Books(w), e.peer, w.server.queues[e.c])
  }

  predicate BatchesFit(w: World, events: seq<Event>)
    decreases |events|
  {
    events == [] || (BatchFits(w, events[0]) && BatchesFit(Apply(w, events[0]), events[1..]))
  }

  /** One event keeps the books straight if and only if no batch overflows its queue; at
      most 55 frames in the queue always leave room. */
  lemma StepKeepsBooksIff(w: World, e: Event)
    requires Conserved(Books(w)) && forall c :: c in w.server.queues ==> |w.server.queues[c]| <= QUEUE
    ensures Conserved(Books(Apply(w, e))) <==> BatchFits(w, e)
    ensures e.Authenticates? && e.c in w.server.queues && |w.server.queues[e.c]| <= 55 ==> BatchFits(w, e)
  {
    StepOfBooks(w, e);
    match e
    case Relays(_, msg) => StoreKeepsConserved(Books(w), msg.id, RecipientOf(msg), msg.sentAt, msg.raw);
    case Authenticates(c, peer) =>
      if c in w.server.queues {
        AuthenticateConservedIff(Books(w), peer, w.server.queues[c]);
      }
    case _ =>
  }

  lemma {:induction false} RunKeepsBooks(w: World, events: seq<Event>)
    requires Historical(w) && Conserved(Books(w)) && BatchesFit(w, events)
    ensures Conserved(Books(Run(w, events)))
    decreases |events|
  {
    if events != [] {
      forall c | c in w.server.queues
        ensures |w.server.queues[c]| <= QUEUE
      {
        assert Recorded(w, c);
      }
      StepKeepsBooksIff(w, events[0]);
      StepKeepsHistory(w, events[0]);
      RunKeepsBooks(Apply(w, events[0]), events[1..]);
    }
  }

  // ----- to whom an authentication hands out -----

  /** The entry is a message of the table, addressed to the peer. */
  ghost predicate OwnMessage(w: World, e: Entry, peer: PeerKey) {
    exists r :: r in w.server.rows && r.id == e.id && r.recipient == peer && e.frame == Relay(r.payload)
  }

  /** Rows stay in the table with what they hold, but for the mark. */
  lemma RowsStay(w: World, e: Event, r: Row) returns (r': Row)
    requires r in w.server.rows
    ensures r' in Apply(w, e).server.rows && r'.(delivered := r.delivered) == r
  {
    var i :| 0 <= i < |w.server.rows| && w.server.rows[i] == r;
    r' := r;
    if e.Authenticates? && e.c in w.server.queues {
      MarkedRows(w.server.rows, Ids(Batch(w.server.rows, e.peer)), i);
      r' := Apply(w, e).server.rows[i];
    }
  }

  lemma OwnMessageStays(w: World, e: Event, entry: Entry, peer: PeerKey)
    requires OwnMessage(w, entry, peer)
    ensures OwnMessage(Apply(w, e), entry, peer)
  {
    var r :| r in w.server.rows && r.id == entry.id && r.recipient == peer && entry.frame == Relay(r.payload);
    var r' := RowsStay(w, e, r);
  }

  lemma {:induction false} OwnMessageStaysOn(w: World, events: seq<Event>, entry: Entry, peer: PeerKey)
    requires OwnMessage(w, entry, peer)
    ensures OwnMessage(Run(w, events), entry, peer)
    decreases |events|
  {
    if events != [] {
      OwnMessageStays(w, events[0], entry, peer);
      OwnMessageStaysOn(Apply(w, events[0]), events[1..], entry, peer);
    }
  }

  /** What one event hands out: entries for the connection that authenticates, each a
      message addressed to the peer it authenticates as and not marked before. */
  lemma StepHandsOutOwn(w: World, e: Event, entry: Entry)
    requires entry in Apply(w, e).log && entry !in w.log && !entry.live
    ensures e.Authenticates? && e.c == entry.c && OwnMessage(w, entry, e.peer)
    ensures var identity := Apply(w, e).server.identity; entry.c in identity && identity[entry.c] == e.peer
  {
    match e
    case Relays(sender, msg) => RelayLogEntries(w.server, sender, msg);
    case Authenticates(c, peer) =>
      var rows := HandedBatch(w.server, c, peer);
      var i :| 0 <= i < |rows| && HandLog(c, rows)[i] == entry;
      assert rows[i] == Batch(w.server.rows, peer)[i];
      BatchIsAddressed(w.server.rows, peer, rows[i]);
      assert rows[i].id == entry.id;
    case _ =>
  }

  /** Somewhere in the run the connection authenticates as the peer. */
  predicate AuthenticatedAs(events: seq<Event>, c: ConnId, peer: PeerKey) {
    Authenticates(c, peer) in events
  }

  /** In every run whatever an authentication handed out to a connection is a stored
      message whose recipient is a peer the connection authenticated as. */
  lemma {:induction false} RunHandsOutOwn(w: World, events: seq<Event>, entry: Entry)
    requires entry in Run(w, events).log && entry !in w.log && !entry.live
    ensures exists peer :: AuthenticatedAs(events, entry.c, peer) && OwnMessage(Run(w, events), entry, peer)
    decreases |events|
  {
    var w1 := Apply(w, events[0]);
    if entry in w1.log {
      StepHandsOutOwn(w, events[0], entry);
      OwnMessageStays(w, events[0], entry, events[0].peer);
      OwnMessageStaysOn(w1, events[1..], entry, events[0].peer);
      assert AuthenticatedAs(events, entry.c, events[0].peer);
    } else {
      RunHandsOutOwn(w1, events[1..], entry);
      var peer :| AuthenticatedAs(events[1..], entry.c, peer) && OwnMessage(Run(w1, events[1..]), entry, peer);
      assert AuthenticatedAs(events, entry.c, peer);
    }
  }

  // ----- whom a relayed message reaches -----

  /** Relaying puts the frame into a queue if and only if the connection has room and is
      listed for somebody the message is addressed to. */
  lemma RelayReachesIff(s: ServerState, sender: PeerKey, msg: Message, c: ConnId)
    requires msg.id != ""
    ensures FramesTo(RelayLog(s, sender, msg), c) != [] <==>
            HasRoom(s.queues, c) && exists peer :: Addressed(s, sender, msg, peer) && c in ConnsOf(s.clients, peer)
  {
    var f := Relay(msg.raw);
    if msg.chat in s.chats {
      var members := s.chats[msg.chat];
      FanReachesIff(s.clients, s.queues, members, sender, f, msg.id, c);
      assert forall peer :: Addressed(s, sender, msg, peer) <==> peer in members && peer != sender;
    } else if msg.recipient.Some? {
      PushReachesIff(s.queues, ConnsOf(s.clients, msg.recipient.value), f, msg.id, c);
      assert Addressed(s, sender, msg, msg.recipient.value);
    }
  }

  lemma OnePushReaches(queues: Queues, earlier: Queues, log: seq<Entry>, d: ConnId, f: Frame, id: MsgId, c: ConnId)
    requires earlier.Keys == queues.Keys && (c in queues ==> earlier[c] == queues[c] + FramesTo(log, c))
    ensures var more := if HasRoom(earlier, d) then [Entry(d, id, f, true)] else [];
            FramesTo(log + more, c) != [] <==> FramesTo(log, c) != [] || (d == c && HasRoom(queues, c))
  {
    var more := if HasRoom(earlier, d) then [Entry(d, id, f, true)] else [];
    FramesToAppend(log, more, c);
    FramesToOne(more, c);
  }

  lemma {:induction false} PushReachesIff(queues: Queues, conns: seq<ConnId>, f: Frame, id: MsgId, c: ConnId)
    ensures FramesTo(PushLog(queues, conns, f, id), c) != [] <==> HasRoom(queues, c) && c in conns
    decreases |conns|
  {
    if conns != [] {
      var n := |conns| - 1;
      PushReachesIff(queues, conns[..n], f, id, c);
      PushLogIsAppended(queues, conns[..n], f, id, c);
      OnePushReaches(queues, PushedAll(queues, conns[..n], f), PushLog(queues, conns[..n], f, id), conns[n], f, id, c);
      InLonger(conns, n, c);
    }
  }

  lemma InLonger(conns: seq<ConnId>, n: nat, c: ConnId)
    requires |conns| == n + 1
    ensures c in conns <==> c in conns[..n] || c == conns[n]
  {
    assert conns == conns[..n] + [conns[n]];
  }

  lemma {:induction false} FanReachesIff(clients: Registry.Clients, queues: Queues, peers: seq<PeerKey>, skip: PeerKey,
                                         f: Frame, id: MsgId, c: ConnId)
    ensures FramesTo(FanLog(clients, queues, peers, skip, f, id), c) != [] <==>
            HasRoom(queues, c) && exists peer :: peer in peers && peer != skip && c in ConnsOf(clients, peer)
    decreases |peers|
  {
    if peers != [] {
      var n := |peers| - 1;
      var earlier, log := FannedOut(clients, queues, peers[..n], skip, f),
        FanLog(clients, queues, peers[..n], skip, f, id);
      assert peers == peers[..n] + [peers[n]];
      FanReachesIff(clients, queues, peers[..n], skip, f, id, c);
      FanLogIsAppended(clients, queues, peers[..n], skip, f, id, c);
      if peers[n] == skip {
        assert FanLog(clients, queues, peers, skip, f, id) == log;
      } else {
        PushReachesIff(earlier, ConnsOf(clients, peers[n]), f, id, c);
        FramesToAppend(log, PushLog(earlier, ConnsOf(clients, peers[n]), f, id), c);
      }
    }
  }

  // ----- delivered, queued, and how often -----

  /** How many frames of a message entered queues. */
  function Copies(log: seq<Entry>, id: MsgId): nat {
    if log == [] then 0
    else Copies(log[..|log| - 1], id) + (if log[|log| - 1].id == id then 1 else 0)
  }

  function HandedCopies(log: seq<Entry>, id: MsgId): nat {
    if log == [] then 0
    else
      var e := log[|log| - 1];
      HandedCopies(log[..|log| - 1], id) + (if e.id == id && !e.live then 1 else 0)
  }

  ghost predicate PushedLive(log: seq<Entry>, id: MsgId) {
    exists e :: e in log && e.id == id && e.live
  }

  lemma {:induction false} CopiesSplit(log: seq<Entry>, id: MsgId)
    ensures HandedCopies(log, id) <= Copies(log, id)
    ensures PushedLive(log, id) <==> HandedCopies(log, id) < Copies(log, id)
  {
    if log != [] {
      var n := |log| - 1;
      CopiesSplit(log[..n], id);
      assert log == log[..n] + [log[n]];
    }
  }

  lemma {:induction false} HandedCopiesAre(log: seq<Entry>, id: MsgId)
    requires NoRepeats(HandedOut(log))
    ensures HandedCopies(log, id) == if id in HandedOut(log) then 1 else 0
  {
    if log != [] {
      var n := |log| - 1;
      var before, after := HandedOut(log[..n]), HandedOut(log);
      assert before <= after;
      HandedCopiesAre(log[..n], id);
      if !log[n].live {
        assert after[|before|] == log[n].id;
      }
    }
  }

  /** What the flag should say: delivered exactly if a frame of the message entered some
      queue, and no more than one did. */
  ghost predicate DeliveredOnce(w: World, r: Row) {
    (r.delivered <==> Copies(w.log, r.id) > 0) && Copies(w.log, r.id) <= 1
  }

  // ----- rows an authentication marks and does not hand out -----

  predicate Holds(rows: seq<Row>, id: MsgId) {
    exists r :: r in rows && r.id == id
  }

  /** The event hands out a batch with the message in it, behind the room there is. */
  predicate Loses(w: World, e: Event, id: MsgId) {
    e.Authenticates? && e.c in w.server.queues &&
    var batch := Batch(w.server.rows, e.peer);
    Holds(batch[Min(|batch|, Room(w.server.queues[e.c]))..], id)
  }

  predicate LostInRun(w: World, events: seq<Event>, id: MsgId)
    decreases |events|
  {
    events != [] && (Loses(w, events[0], id) || LostInRun(Apply(w, events[0]), events[1..], id))
  }

  predicate MarkedDelivered(w: World, id: MsgId) {
    exists r :: r in w.server.rows && r.id == id && r.delivered
  }

  /** A message is marked exactly if it was handed out or lost, and not both. */
  ghost predicate Tracked(w: World, id: MsgId, lost: bool) {
    && UniqueIds(w.server.rows)
    && HandedCopies(w.log, id) + (if lost then 1 else 0) == (if MarkedDelivered(w, id) then 1 else 0)
  }

  lemma {:induction false} HandedCopiesAppend(a: seq<Entry>, b: seq<Entry>, id: MsgId)
    ensures HandedCopies(a + b, id) == HandedCopies(a, id) + HandedCopies(b, id)
  {
    if b == [] {
      assert a + b == a;
    } else {
      var n := |b| - 1;
      assert (a + b)[..|a| + n] == a + b[..n];
      HandedCopiesAppend(a, b[..n], id);
    }
  }

  lemma {:induction false} HandLogCopies(c: ConnId, rows: seq<Row>, id: MsgId)
    requires UniqueIds(rows)
    ensures HandedCopies(HandLog(c, rows), id) == if Holds(rows, id) then 1 else 0
    decreases |rows|
  {
    if rows != [] {
      var n := |rows| - 1;
      HandLogCopies(c, rows[..n], id);
      assert HandLog(c, rows)[..n] == HandLog(c, rows[..n]);
      assert rows == rows[..n] + [rows[n]];
      if rows[n].id == id {
        assert rows[n] in rows;
        assert forall i :: 0 <= i < n ==> rows[..n][i].id != id;
      }
    }
  }

  lemma {:induction false} LiveCopiesNone(log: seq<Entry>, id: MsgId)
    requires forall e <- log :: e.live
    ensures HandedCopies(log, id) == 0
  {
    if log != [] {
      assert log[|log| - 1] in log;
      LiveCopiesNone(log[..|log| - 1], id);
    }
  }

  /** A new row is not marked, and an old one keeps its mark. */
  lemma StoreKeepsMarks(rows: Table, id: MsgId, recipient: PeerKey, sentAt: int, payload: Bytes, r: Row)
    requires r.delivered
    ensures r in Stored(rows, id, recipient, sentAt, payload) <==> r in rows
  {
  }

  lemma RelayKeepsTracked(w: World, sender: PeerKey, msg: Message, id: MsgId, lost: bool)
    requires Tracked(w, id, lost)
    ensures Tracked(Apply(w, Relays(sender, msg)), id, lost)
  {
    var w' := Apply(w, Relays(sender, msg));
    var more := RelayLog(w.server, sender, msg);
    RelayLogEntries(w.server, sender, msg);
    LiveCopiesNone(more, id);
    HandedCopiesAppend(w.log, more, id);
    StoredKeepsUnique(w.server.rows, msg.id, RecipientOf(msg), msg.sentAt, msg.raw);
    forall r: Row | r.delivered
      ensures r in w'.server.rows <==> r in w.server.rows
    {
      StoreKeepsMarks(w.server.rows, msg.id, RecipientOf(msg), msg.sentAt, msg.raw, r);
    }
  }

  /** Marking a batch marks its rows, which were not, and no others. */
  lemma MarksOfBatch(w: World, c: ConnId, peer: PeerKey, id: MsgId)
    requires c in w.server.queues && UniqueIds(w.server.rows)
    ensures var w', batch := Apply(w, Authenticates(c, peer)), Batch(w.server.rows, peer);
            && UniqueIds(w'.server.rows)
            && (MarkedDelivered(w', id) <==> MarkedDelivered(w, id) || Holds(batch, id))
            && !(MarkedDelivered(w, id) && Holds(batch, id))
  {
    var rows, batch := w.server.rows, Batch(w.server.rows, peer);
    var ids := Ids(batch);
    var w' := Apply(w, Authenticates(c, peer));
    MarkedKeepsUnique(rows, ids);
    HoldsIsListed(batch, id);
    if Holds(batch, id) {
      var i :| 0 <= i < |batch| && batch[i].id == id;
      BatchRow(rows, peer, i);
      var k :| 0 <= k < |rows| && rows[k] == batch[i];
      MarkedRows(rows, ids, k);
      assert w'.server.rows[k] in w'.server.rows;
      assert forall j :: 0 <= j < |rows| && rows[j].id == id ==> j == k;
    } else {
      MarksElsewhere(rows, ids, id);
    }
  }

  lemma HoldsIsListed(rows: seq<Row>, id: MsgId)
    ensures Holds(rows, id) <==> id in Ids(rows)
  {
    if Holds(rows, id) {
      var i :| 0 <= i < |rows| && rows[i].id == id;
      assert Ids(rows)[i] == id;
    }
  }

  /** Rows of identifiers not listed keep their marks. */
  lemma MarksElsewhere(rows: Table, ids: seq<MsgId>, id: MsgId)
    requires id !in ids
    ensures (exists r :: r in Marked(rows, ids) && r.id == id && r.delivered) <==>
            exists r :: r in rows && r.id == id && r.delivered
  {
    if r :| r in Marked(rows, ids) && r.id == id && r.delivered {
      var i :| 0 <= i < |rows| && Marked(rows, ids)[i] == r;
      MarkedRows(rows, ids, i);
      assert rows[i] in rows;
    }
    if r :| r in rows && r.id == id && r.delivered {
      var i :| 0 <= i < |rows| && rows[i] == r;
      MarkedRows(rows, ids, i);
      assert Marked(rows, ids)[i] in Marked(rows, ids);
    }
  }

  lemma HoldsSplit(rows: seq<Row>, m: nat, id: MsgId)
    requires m <= |rows| && UniqueIds(rows)
    ensures Holds(rows, id) <==> Holds(rows[..m], id) || Holds(rows[m..], id)
    ensures !(Holds(rows[..m], id) && Holds(rows[m..], id))
  {
    assert rows == rows[..m] + rows[m..];
  }

  lemma AuthKeepsTracked(w: World, c: ConnId, peer: PeerKey, id: MsgId, lost: bool)
    requires Tracked(w, id, lost) && c in w.server.queues
    ensures Tracked(Apply(w, Authenticates(c, peer)), id, lost || Loses(w, Authenticates(c, peer), id))
  {
    var batch := Batch(w.server.rows, peer);
    var m := Min(|batch|, Room(w.server.queues[c]));
    BacklogUnique(w.server.rows, peer);
    MarksOfBatch(w, c, peer, id);
    HoldsSplit(batch, m, id);
    HandLogCopies(c, batch[..m], id);
    HandedCopiesAppend(w.log, HandLog(c, batch[..m]), id);
  }

  lemma StepKeepsTracked(w: World, e: Event, id: MsgId, lost: bool)
    requires Tracked(w, id, lost)
    ensures Tracked(Apply(w, e), id, lost || Loses(w, e, id))
  {
    match e
    case Relays(sender, msg) => RelayKeepsTracked(w, sender, msg, id, lost);
    case Authenticates(c, peer) => if c in w.server.queues { AuthKeepsTracked(w, c, peer, id, lost); }
    case _ =>
  }

  /** In every run: a message is marked exactly if one authentication handed it out or one
      lost it at the end of its batch, and only one of the two happens, once. */
  lemma {:induction false} RunKeepsTracked(w: World, events: seq<Event>, id: MsgId, lost: bool)
    requires Tracked(w, id, lost)
    ensures Tracked(Run(w, events), id, lost || LostInRun(w, events, id))
    decreases |events|
  {
    if events != [] {
      StepKeepsTracked(w, events[0], id, lost);
      RunKeepsTracked(Apply(w, events[0]), events[1..], id, lost || Loses(w, events[0], id));
    }
  }

  // ----- straight books, exactly -----

  lemma ConservedIsTracked(w: World, id: MsgId)
    requires Conserved(Books(w))
    ensures Tracked(w, id, false)
  {
    HandedCopiesAre(w.log, id);
    if id in HandedOut(w.log) {
      var r :| r in w.server.rows && r.id == id;
      assert MarkedDelivered(w, id);
    }
  }

  lemma {:induction false} NotHandedOut(log: seq<Entry>, id: MsgId)
    requires HandedCopies(log, id) == 0
    ensures id !in HandedOut(log)
  {
    if log != [] {
      NotHandedOut(log[..|log| - 1], id);
    }
  }

  /** A batch that does not fit loses a message. */
  lemma {:induction false} MisfitLoses(w: World, events: seq<Event>) returns (id: MsgId)
    requires !BatchesFit(w, events)
    ensures LostInRun(w, events, id)
    decreases |events|
  {
    if BatchFits(w, events[0]) {
      id := MisfitLoses(Apply(w, events[0]), events[1..]);
    } else {
      var batch := Batch(w.server.rows, events[0].peer);
      var m := Room(w.server.queues[events[0].c]);
      id := batch[m].id;
      assert batch[m..][0] in batch[m..];
      assert Holds(batch[m..], id);
    }
  }

  /** Over a run the books stay straight if and only if every batch found room: a row
      marked and not handed out stays so. */
  lemma RunKeepsBooksIff(w: World, events: seq<Event>)
    requires Historical(w) && Conserved(Books(w))
    ensures Conserved(Books(Run(w, events))) <==> BatchesFit(w, events)
  {
    if BatchesFit(w, events) {
      RunKeepsBooks(w, events);
    } else {
      var id := MisfitLoses(w, events);
      ConservedIsTracked(w, id);
      RunKeepsTracked(w, events, id, false);
      var w' := Run(w, events);
      NotHandedOut(w'.log, id);
      assert MarkedDelivered(w', id);
    }
  }

  // ----- what the flag of a row says -----

  /** In every run a row is marked exactly if one authentication handed it out or lost it,
      and marking and queueing agree if and only if it was pushed live exactly as often as
      it was lost: never, unless a batch lost it. */
  lemma DeliveredOnceIffPushed(events: seq<Event>, r: Row)
    requires r in Run(IDLE, events).server.rows
    ensures var w, lost := Run(IDLE, events), LostInRun(IDLE, events, r.id);
            && HandedCopies(w.log, r.id) == (if r.delivered && !lost then 1 else 0)
            && (lost ==> r.delivered)
            && (DeliveredOnce(w, r) <==> Copies(w.log, r.id) - HandedCopies(w.log, r.id) == if lost then 1 else 0)
            && (!lost ==> (DeliveredOnce(w, r) <==> !PushedLive(w.log, r.id)))
  {
    var w := Run(IDLE, events);
    RunKeepsTracked(IDLE, events, r.id, false);
    OneRowEach(w.server.rows, r);
    CopiesSplit(w.log, r.id);
  }

  lemma OneRowEach(rows: Table, r: Row)
    requires UniqueIds(rows) && r in rows
    ensures (exists q :: q in rows && q.id == r.id && q.delivered) <==> r.delivered
  {
    if q :| q in rows && q.id == r.id && q.delivered {
      var i :| 0 <= i < |rows| && rows[i] == q;
      var j :| 0 <= j < |rows| && rows[j] == r;
      assert i == j;
    }
  }

  // ----- when a message is pushed live -----

  /** A connection the message is offered to at the moment it is relayed, with room. */
  ghost predicate MeetsLive(s: ServerState, sender: PeerKey, msg: Message) {
    exists peer, c :: Addressed(s, sender, msg, peer) && c in ConnsOf(s.clients, peer) && HasRoom(s.queues, c)
  }

  /** The members of the chat but the sender or, for a chat the relay does not know, the
      recipient. */
  predicate Addressed(s: ServerState, sender: PeerKey, msg: Message, peer: PeerKey) {
    if msg.chat in s.chats then peer in s.chats[msg.chat] && peer != sender else msg.recipient == Some(peer)
  }

  lemma {:induction false} PushLogEmptyIff(queues: Queues, conns: seq<ConnId>, f: Frame, id: MsgId)
    ensures PushLog(queues, conns, f, id) == [] <==> forall c :: c in conns ==> !HasRoom(queues, c)
    ensures PushLog(queues, conns, f, id) == [] ==> PushedAll(queues, conns, f) == queues
    decreases |conns|
  {
    if conns != [] {
      var n := |conns| - 1;
      assert conns == conns[..n] + [conns[n]];
      PushLogEmptyIff(queues, conns[..n], f, id);
    }
  }

  lemma {:induction false} FanLogEmptyIff(clients: Registry.Clients, queues: Queues, peers: seq<PeerKey>,
                                          skip: PeerKey, f: Frame, id: MsgId)
    ensures FanLog(clients, queues, peers, skip, f, id) == [] <==>
            forall peer, c :: peer in peers && peer != skip && c in ConnsOf(clients, peer) ==> !HasRoom(queues, c)
    ensures FanLog(clients, queues, peers, skip, f, id) == [] ==> FannedOut(clients, queues, peers, skip, f) == queues
    decreases |peers|
  {
    if peers != [] {
      var n := |peers| - 1;
      assert peers == peers[..n] + [peers[n]];
      FanLogEmptyIff(clients, queues, peers[..n], skip, f, id);
      if peers[n] != skip && FanLog(clients, queues, peers[..n], skip, f, id) == [] {
        PushLogEmptyIff(queues, ConnsOf(clients, peers[n]), f, id);
      }
    }
  }

  lemma RelayLogEmptyIff(s: ServerState, sender: PeerKey, msg: Message)
    requires msg.id != ""
    ensures RelayLog(s, sender, msg) == [] <==> !MeetsLive(s, sender, msg)
  {
    var f := Relay(msg.raw);
    if msg.chat in s.chats {
      FanLogEmptyIff(s.clients, s.queues, s.chats[msg.chat], sender, f, msg.id);
    } else if msg.recipient.Some? {
      PushLogEmptyIff(s.queues, ConnsOf(s.clients, msg.recipient.value), f, msg.id);
    }
  }

  /** Whether some event of the run relays the message while such a connection is there. */
  ghost predicate RelayedToLive(w: World, events: seq<Event>, id: MsgId)
    decreases |events|
  {
    events != [] &&
    ((events[0].Relays? && events[0].msg.id == id && MeetsLive(w.server, events[0].sender, events[0].msg)) ||
     RelayedToLive(Apply(w, events[0]), events[1..], id))
  }

  lemma StepPushesLiveIff(w: World, e: Event, id: MsgId)
    requires id != ""
    ensures PushedLive(Apply(w, e).log, id) <==>
            PushedLive(w.log, id) || (e.Relays? && e.msg.id == id && MeetsLive(w.server, e.sender, e.msg))
  {
    var log' := Apply(w, e).log;
    var more := log'[|w.log|..];
    assert log' == w.log + more;
    match e
    case Relays(sender, msg) =>
      assert more == RelayLog(w.server, sender, msg);
      RelayLogEntries(w.server, sender, msg);
      if msg.id != "" { RelayLogEmptyIff(w.server, sender, msg); }
      if more != [] { assert more[0] in log'; }
    case _ =>
  }

  lemma {:induction false} RunPushesLiveIff(w: World, events: seq<Event>, id: MsgId)
    requires id != ""
    ensures PushedLive(Run(w, events).log, id) <==> PushedLive(w.log, id) || RelayedToLive(w, events, id)
    decreases |events|
  {
    if events != [] {
      StepPushesLiveIff(w, events[0], id);
      RunPushesLiveIff(Apply(w, events[0]), events[1..], id);
    }
  }

  // ----- rows have identifiers -----

  ghost predicate Named(w: World) {
    forall r <- w.server.rows :: r.id != ""
  }

  lemma {:induction false} RunKeepsNamed(w: World, events: seq<Event>)
    requires Named(w)
    ensures Named(Run(w, events))
    decreases |events|
  {
    if events != [] {
      RunKeepsNamed(Apply(w, events[0]), events[1..]);
    }
  }

  /** The exact condition, over any run, for every row no batch lost: its delivered flag
      and the queues agree, and the message is handed out at most once, if and only if it
      was never relayed while somebody it is addressed to had a live connection with room.
      When every batch fits, that is every row. */
  lemma DeliveryIsExactIff(events: seq<Event>, r: Row)
    requires r in Run(IDLE, events).server.rows
    ensures !LostInRun(IDLE, events, r.id) ==>
              (DeliveredOnce(Run(IDLE, events), r) <==> !RelayedToLive(IDLE, events, r.id))
    ensures BatchesFit(IDLE, events) ==> !LostInRun(IDLE, events, r.id)
  {
    RunKeepsNamed(IDLE, events);
    DeliveredOnceIffPushed(events, r);
    RunPushesLiveIff(IDLE, events, r.id);
    if BatchesFit(IDLE, events) {
      FittingLosesNothing(IDLE, events, r.id);
    }
  }

  lemma {:induction false} FittingLosesNothing(w: World, events: seq<Event>, id: MsgId)
    requires BatchesFit(w, events)
    ensures !LostInRun(w, events, id)
    decreases |events|
  {
    if events != [] {
      FittingLosesNothing(Apply(w, events[0]), events[1..], id);
    }
  }

  // ----- the guard of the push -----

  /** Every listed connection is open and carries the identity it is listed under. */
  ghost predicate Linked(s: ServerState) {
    forall p :: p in s.clients ==>
      s.clients[p] != [] && forall c :: c in s.clients[p] ==> c in s.queues && c in s.identity && s.identity[c] == p
  }

  predicate IdentityStays(w: World, e: Event) {
    e.Authenticates? ==> Registry.KeepsIdentity(w.server.identity, e.c, e.peer)
  }

  predicate IdentitiesStay(w: World, events: seq<Event>)
    decreases |events|
  {
    events == [] || (IdentityStays(w, events[0]) && IdentitiesStay(Apply(w, events[0]), events[1..]))
  }

  lemma DropKeepsLinked(s: ServerState, c: ConnId)
    requires Linked(s)
    ensures Linked(Dropped(s, c))
  {
    var key := KeyOf(s.identity, c);
    var s' := Dropped(s, c);
    forall p | p in s'.clients
      ensures s'.clients[p] != [] && forall d :: d in s'.clients[p] ==>
              d in s'.queues && d in s'.identity && s'.identity[d] == p
    {
      forall d | d in s'.clients[p]
        ensures d in s.clients[p] && d != c
      {
        if p == key { Registry.WithoutMember(s.clients[p], c, d); }
      }
    }
  }

  lemma StepKeepsLinked(w: World, e: Event)
    requires Linked(w.server) && IdentityStays(w, e)
    ensures Linked(Apply(w, e).server)
  {
    match e
    case Relays(sender, msg) =>
      RelayAppendsItsLog(w.server, sender, msg, 0);
    case Disconnects(c) => DropKeepsLinked(w.server, c);
    case _ =>
  }

  lemma {:induction false} RunKeepsLinked(w: World, events: seq<Event>)
    requires Linked(w.server) && IdentitiesStay(w, events)
    ensures Linked(Run(w, events).server)
    decreases |events|
  {
    if events != [] {
      StepKeepsLinked(w, events[0]);
      RunKeepsLinked(Apply(w, events[0]), events[1..]);
    }
  }

  /** For a direct message to somebody whose queues are not full the condition is the test
      the delivery makes: whether the recipient is in the table of connections. */
  lemma DirectMeetsLiveIffListed(events: seq<Event>, sender: PeerKey, msg: Message, peer: PeerKey)
    requires IdentitiesStay(IDLE, events)
    requires msg.recipient == Some(peer) && msg.chat !in Run(IDLE, events).server.chats
    requires var s := Run(IDLE, events).server;
             forall c :: c in ConnsOf(s.clients, peer) && c in s.queues ==> |s.queues[c]| < QUEUE
    ensures var s := Run(IDLE, events).server;
            MeetsLive(s, sender, msg) <==> peer in s.clients
  {
    var s := Run(IDLE, events).server;
    RunKeepsLinked(IDLE, events);
    if peer in s.clients {
      assert s.clients[peer][0] in ConnsOf(s.clients, peer);
      assert Addressed(s, sender, msg, peer) && HasRoom(s.queues, s.clients[peer][0]);
    }
  }

  // ----- the live case -----

  /** Connect and authenticate, get a message live, authenticate again. */
  function ComesTwice(c: ConnId, peer: PeerKey, sender: PeerKey, msg: Message): seq<Event> {
    [Connect(c), Authenticates(c, peer), Relays(sender, msg), Authenticates(c, peer)]
  }

  lemma EmptyTableAuth(w: World, c: ConnId, peer: PeerKey)
    requires w.server.queues == map[c := []] && w.server.rows == [] && w.log == []
    ensures var w' := Apply(w, Authenticates(c, peer));
            && w'.server == w.server.(clients := Registry.Registered(w.server.clients, peer, c),
                                      identity := w.server.identity[c := peer], queues := map[c := [AuthOk]])
            && w'.log == [] && w'.written == w.written
  {
    assert Batch([], peer) == [] && Payloads([]) == [] && Marked([], []) == [];
    assert Authenticated([], peer, []) == Handed([], [AuthOk]);
    assert w.server.queues[c := [AuthOk]] == map[c := [AuthOk]];
    assert HandedBatch(w.server, c, peer) == [];
  }

  lemma OneRowAuth(w: World, c: ConnId, peer: PeerKey, r: Row)
    requires c in w.server.queues && |w.server.queues[c]| < 55 && w.server.rows == [r] && Waiting(r, peer)
    ensures var w' := Apply(w, Authenticates(c, peer));
            && w'.server.rows == [r.(delivered := true)]
            && w'.server.queues == w.server.queues[c := w.server.queues[c] + [AuthOk, Relay(r.payload)]]
            && w'.log == w.log + [Entry(c, r.id, Relay(r.payload), false)]
  {
    assert Backlog([r][..0], peer) == [] && Backlog([r], peer) == [r];
    assert Batch([r], peer) == [r];
    MarkedWereQueuedIff([r], peer, w.server.queues[c]);
    assert Payloads([r]) == [Relay(r.payload)] && Ids([r]) == [r.id];
    var q := w.server.queues[c];
    assert q + [AuthOk] + [Relay(r.payload)] == q + [AuthOk, Relay(r.payload)];
    assert Authenticated([r], peer, q).queue == q + [AuthOk, Relay(r.payload)];
    assert HandedBatch(w.server, c, peer) == [r];
  }

  /** A message relayed to a listening recipient is in the queue and not marked; at the
      recipient's next authentication it is queued a second time, and only then marked. */
  lemma LiveMessageComesTwice(c: ConnId, peer: PeerKey, sender: PeerKey, msg: Message)
    requires msg.id != "" && msg.recipient == Some(peer)
    ensures var events := ComesTwice(c, peer, sender, msg);
            var r := Row(msg.id, peer, msg.sentAt, msg.raw, false);
            var w3, w4 := Run(IDLE, events[..3]), Run(IDLE, events);
            && c in w3.server.queues && c in w4.server.queues
            && w3.server.rows == [r] && w3.server.queues[c] == [AuthOk, Relay(msg.raw)] && !DeliveredOnce(w3, r)
            && w4.server.rows == [r.(delivered := true)]
            && w4.server.queues[c] == [AuthOk, Relay(msg.raw), AuthOk, Relay(msg.raw)]
            && Copies(w4.log, msg.id) == 2
  {
    var events := ComesTwice(c, peer, sender, msg);
    var w1 := Apply(IDLE, events[0]);
    var w2 := Apply(w1, events[1]);
    EmptyTableAuth(w1, c, peer);
    var w3 := Apply(w2, events[2]);
    RelayedToOne(w2, c, peer, sender, msg);
    var w4 := Apply(w3, events[3]);
    OneRowAuth(w3, c, peer, w3.server.rows[0]);
    FourEvents(events, w1, w2, w3, w4);
    assert w3.log[..0] == [] && w4.log[..1] == w3.log;
    assert Copies(w3.log, msg.id) == 1;
  }

  lemma RelayedToOne(w: World, c: ConnId, peer: PeerKey, sender: PeerKey, msg: Message)
    requires msg.id != "" && msg.recipient == Some(peer)
    requires w.server.clients == map[peer := [c]] && w.server.queues == map[c := [AuthOk]]
    requires w.server.rows == [] && w.server.chats == map[] && w.log == []
    ensures var w' := Apply(w, Relays(sender, msg));
            && w'.server.rows == [Row(msg.id, peer, msg.sentAt, msg.raw, false)]
            && w'.server.queues == map[c := [AuthOk, Relay(msg.raw)]]
            && w'.log == [Entry(c, msg.id, Relay(msg.raw), true)]
  {
    var f := Relay(msg.raw);
    assert [c][..0] == [];
    assert PushedAll(w.server.queues, [c][..0], f) == w.server.queues;
    assert PushedAll(w.server.queues, [c], f) == Pushed(w.server.queues, c, f);
    assert Sent([AuthOk], f) == [AuthOk, f];
    assert w.server.queues[c := [AuthOk, f]] == map[c := [AuthOk, f]];
    assert PushLog(w.server.queues, [c], f, msg.id) == [Entry(c, msg.id, f, true)];
  }

  lemma FourEvents(events: seq<Event>, w1: World, w2: World, w3: World, w4: World)
    requires |events| == 4 && w1 == Apply(IDLE, events[0]) && w2 == Apply(w1, events[1])
    requires w3 == Apply(w2, events[2]) && w4 == Apply(w3, events[3])
    ensures Run(IDLE, events[..3]) == w3 && Run(IDLE, events) == w4
  {
    assert Run(IDLE, events) == Run(w1, events[1..]);
    assert events[1..][1..] == events[2..] && events[2..][1..] == events[3..] && events[3..][1..] == [];
    assert Run(w1, events[1..]) == Run(w2, events[2..]) == Run(w3, events[3..]) == Run(w4, []);
    var three := events[..3];
    assert Run(IDLE, three) == Run(w1, three[1..]);
    assert three[1..][1..] == [events[2]] && [events[2]][1..] == [];
    assert Run(w1, three[1..]) == Run(w2, [events[2]]) == Run(w3, []);
  }

  // ----- the overflow -----

  lemma {:induction false} RunAppend(w: World, a: seq<Event>, b: seq<Event>)
    ensures Run(w, a + b) == Run(Run(w, a), b)
    decreases |a|
  {
    if a == [] {
      assert a + b == b;
    } else {
      assert (a + b)[1..] == a[1..] + b;
      RunAppend(Apply(w, a[0]), a[1..], b);
    }
  }

  function Answers(c: ConnId, n: nat): seq<Event> {
    seq(n, i => Answer(c, 0))
  }

  /** Answers that nobody drains fill a queue. */
  lemma {:induction false} AnswersFill(w: World, c: ConnId, n: nat)
    requires c in w.server.queues && |w.server.queues[c]| + n <= QUEUE
    ensures var w', q := Run(w, Answers(c, n)), seq(n, i => Control(0));
            w' == w.(server := w.server.(queues := w.server.queues[c := w.server.queues[c] + q]))
    decreases n
  {
    var queue := w.server.queues[c];
    if n == 0 {
      assert queue + seq(0, i => Control(0)) == queue;
      assert w.server.queues[c := queue] == w.server.queues;
    } else {
      var w1 := Apply(w, Answer(c, 0));
      assert Answers(c, n)[1..] == Answers(c, n - 1);
      AnswersFill(w1, c, n - 1);
      var more := seq(n - 1, i => Control(0));
      assert queue + [Control(0)] + more == queue + seq(n, i => Control(0));
    }
  }

  /** A slow connection, a full queue, a message for its user, and a second authentication. */
  function Overflow(c: ConnId, peer: PeerKey, sender: PeerKey, msg: Message): seq<Event> {
    [Connect(c), Authenticates(c, peer)] + Answers(c, 255) + [Relays(sender, msg), Authenticates(c, peer)]
  }

  lemma FullQueueDropsPush(w: World, c: ConnId, peer: PeerKey, sender: PeerKey, msg: Message)
    requires msg.id != "" && msg.recipient == Some(peer)
    requires w.server.clients == map[peer := [c]] && c in w.server.queues && |w.server.queues[c]| == 256
    requires w.server.rows == [] && w.server.chats == map[]
    ensures var w' := Apply(w, Relays(sender, msg));
            w' == w.(server := w.server.(rows := [Row(msg.id, peer, msg.sentAt, msg.raw, false)]))
  {
    PushLogEmptyIff(w.server.queues, [c], Relay(msg.raw), msg.id);
    assert w.log + [] == w.log;
  }

  lemma FullQueueLosesRow(w: World, c: ConnId, peer: PeerKey, r: Row)
    requires c in w.server.queues && |w.server.queues[c]| == 256
    requires w.server.rows == [r] && Waiting(r, peer)
    ensures var w' := Apply(w, Authenticates(c, peer));
            && w'.server.rows == [r.(delivered := true)] && w'.log == w.log
            && !BatchFits(w, Authenticates(c, peer)) && Loses(w, Authenticates(c, peer), r.id)
  {
    assert Backlog([r][..0], peer) == [] && Backlog([r], peer) == [r];
    assert Batch([r], peer) == [r] && Ids([r]) == [r.id];
    assert HandedBatch(w.server, c, peer) == [];
    assert w.log + [] == w.log;
    assert [r][0..] == [r];
  }

  /** The overflow is within reach: the message is marked delivered, and no queue ever
      held it. */
  lemma OverflowLosesMessage(c: ConnId, peer: PeerKey, sender: PeerKey, msg: Message)
    requires msg.id != "" && msg.recipient == Some(peer)
    ensures var w, r := Run(IDLE, Overflow(c, peer, sender, msg)), Row(msg.id, peer, msg.sentAt, msg.raw, true);
            && w.server.rows == [r] && w.log == []
            && !DeliveredOnce(w, r) && !Conserved(Books(w)) && !BatchesFit(IDLE, Overflow(c, peer, sender, msg))
  {
    var first, last := [Connect(c), Authenticates(c, peer)], [Relays(sender, msg), Authenticates(c, peer)];
    var w1 := Apply(IDLE, first[0]);
    var w2 := Apply(w1, first[1]);
    EmptyTableAuth(w1, c, peer);
    TwoEvents(IDLE, first);
    RunAppend(IDLE, first, Answers(c, 255));
    AnswersFill(w2, c, 255);
    var full := Run(w2, Answers(c, 255));
    RunAppend(IDLE, first + Answers(c, 255), last);
    FullQueueDropsPush(full, c, peer, sender, msg);
    var stored := Apply(full, last[0]);
    TwoEvents(full, last);
    FullQueueLosesRow(stored, c, peer, stored.server.rows[0]);
    var w := Run(IDLE, Overflow(c, peer, sender, msg));
    assert w.server.rows[0] in w.server.rows && w.server.rows[0].delivered;
    RunKeepsBooksIff(IDLE, Overflow(c, peer, sender, msg));
  }

  lemma TwoEvents(w: World, events: seq<Event>)
    requires |events| == 2
    ensures Run(w, events) == Apply(Apply(w, events[0]), events[1])
  {
    var w1 := Apply(w, events[0]);
    assert events[1..][1..] == [] && events[1..][0] == events[1];
    assert Run(w, events) == Run(w1, events[1..]) == Run(Apply(w1, events[1]), []);
  }
}
