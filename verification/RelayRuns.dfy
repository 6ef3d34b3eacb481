/** Whole runs of the relay: connections come and go, messages are pushed to live
    connections and stored, authentications hand out the backlog, writers drain the
    queues. A log records every message frame that entered a queue. */
module RelayRuns {
  import opened Prelude
  import Registry
  import opened Offline
  import opened RelayServer

  /** A message frame that entered the queue of a connection: pushed while the message was
      relayed, or handed out by an authentication. */
  datatype Entry = Entry(c: ConnId, id: MsgId, frame: Frame, live: bool)

  /** `written` is what the writer of each connection has taken out of its queue. */
  datatype World = World(server: ServerState, written: map<ConnId, seq<Frame>>, log: seq<Entry>)

  const IDLE := World(ServerState(map[], map[], map[], [], map[]), map[], [])

  datatype Event =
    | Connect(c: ConnId)
    | Authenticates(c: ConnId, peer: PeerKey)
    | Relays(sender: PeerKey, msg: Message)
    | Drain(c: ConnId)                            // the writer takes one frame
    | Answer(c: ConnId, code: nat)                // an error, a sync response, a handshake
    | UploadChat(chat: string, members: seq<PeerKey>)
    | Disconnects(c: ConnId)

  // ----- what each step logs -----

  predicate HasRoom(queues: Queues, c: ConnId) {
    c in queues && |queues[c]| < QUEUE
  }

  function PushLog(queues: Queues, conns: seq<ConnId>, f: Frame, id: MsgId): seq<Entry>
    decreases |conns|
  {
    if conns == [] then []
    else
      var n := |conns| - 1;
      PushLog(queues, conns[..n], f, id) +
      (if HasRoom(PushedAll(queues, conns[..n], f), conns[n]) then [Entry(conns[n], id, f, true)] else [])
  }

  function FanLog(clients: Registry.Clients, queues: Queues, peers: seq<PeerKey>, skip: PeerKey, f: Frame,
                  id: MsgId): seq<Entry>
    decreases |peers|
  {
    if peers == [] then []
    else
      var n := |peers| - 1;
      FanLog(clients, queues, peers[..n], skip, f, id) +
      (if peers[n] == skip then []
       else PushLog(FannedOut(clients, queues, peers[..n], skip, f), ConnsOf(clients, peers[n]), f, id))
  }

  function RelayLog(s: ServerState, sender: PeerKey, msg: Message): seq<Entry> {
    var f := Relay(msg.raw);
    if msg.id == "" then []
    else if msg.chat in s.chats then FanLog(s.clients, s.queues, s.chats[msg.chat], sender, f, msg.id)
    else if msg.recipient.Some? then PushLog(s.queues, ConnsOf(s.clients, msg.recipient.value), f, msg.id)
    else []
  }

  /** The part of the batch that found room behind the acknowledgement. */
  function HandedBatch(s: ServerState, c: ConnId, peer: PeerKey): seq<Row>
    requires c in s.queues
  {
    var batch := Batch(s.rows, peer);
    batch[..Min(|batch|, Room(s.queues[c]))]
  }

  function HandLog(c: ConnId, rows: seq<Row>): seq<Entry> {
    seq(|rows|, i requires 0 <= i < |rows| => Entry(c, rows[i].id, Relay(rows[i].payload), false))
  }

  // ----- steps -----

  function Dropped(s: ServerState, c: ConnId): ServerState {
    s.(clients := Registry.Unregistered(s.clients, KeyOf(s.identity, c), c),
       identity := s.identity - {c},
       queues := s.queues - {c})
  }

  /** One event; one that is not possible does nothing. Connection identifiers are new. */
  function Apply(w: World, e: Event): World {
    var s := w.server;
    match e
    case Connect(c) =>
      if c in w.written then w
      else w.(server := s.(queues := s.queues[c := []]), written := w.written[c := []])
    case Authenticates(c, peer) =>
      if c !in s.queues then w
      else w.(server := LoggedIn(s, c, peer), log := w.log + HandLog(c, HandedBatch(s, c, peer)))
    case Relays(sender, msg) =>
      w.(server := Relayed(s, sender, msg, Relay(msg.raw)), log := w.log + RelayLog(s, sender, msg))
    case Drain(c) =>
      if c !in s.queues || s.queues[c] == [] || c !in w.written then w
      else w.(server := s.(queues := s.queues[c := s.queues[c][1..]]),
              written := w.written[c := w.written[c] + [s.queues[c][0]]])
    case Answer(c, code) => w.(server := s.(queues := Pushed(s.queues, c, Control(code))))
    case UploadChat(chat, members) => w.(server := s.(chats := s.chats[chat := members]))
    case Disconnects(c) => w.(server := Dropped(s, c))
  }

  function Run(w: World, events: seq<Event>): World
    decreases |events|
  {
    if events == [] then w else Run(Apply(w, events[0]), events[1..])
  }

  // ----- the log is the history of the queues -----

  function FramesTo(log: seq<Entry>, c: ConnId): seq<Frame> {
    if log == [] then []
    else
      var n := |log| - 1;
      FramesTo(log[..n], c) + (if log[n].c == c then [log[n].frame] else [])
  }

  /** The message frames among those of a queue. */
  function Messages(frames: seq<Frame>): seq<Frame> {
    if frames == [] then []
    else
      var n := |frames| - 1;
      Messages(frames[..n]) + (if frames[n].Relay? then [frames[n]] else [])
  }

  lemma {:induction false} FramesToAppend(a: seq<Entry>, b: seq<Entry>, c: ConnId)
    ensures FramesTo(a + b, c) == FramesTo(a, c) + FramesTo(b, c)
  {
    if b == [] {
      assert a + b == a;
    } else {
      var n := |b| - 1;
      assert (a + b)[..|a| + n] == a + b[..n];
      FramesToAppend(a, b[..n], c);
    }
  }

  lemma {:induction false} MessagesAppend(a: seq<Frame>, b: seq<Frame>)
    ensures Messages(a + b) == Messages(a) + Messages(b)
  {
    if b == [] {
      assert a + b == a;
    } else {
      var n := |b| - 1;
      assert (a + b)[..|a| + n] == a + b[..n];
      MessagesAppend(a, b[..n]);
    }
  }

  lemma PushIsAppended(queues: Queues, d: ConnId, f: Frame, id: MsgId, c: ConnId)
    ensures var more := if HasRoom(queues, d) then [Entry(d, id, f, true)] else [];
            && Pushed(queues, d, f).Keys == queues.Keys
            && (c in queues ==> Pushed(queues, d, f)[c] == queues[c] + FramesTo(more, c))
            && (c !in queues ==> FramesTo(more, c) == [])
  {
    FramesToOne(if HasRoom(queues, d) then [Entry(d, id, f, true)] else [], c);
  }

  lemma {:induction false} PushLogIsAppended(queues: Queues, conns: seq<ConnId>, f: Frame, id: MsgId, c: ConnId)
    ensures PushedAll(queues, conns, f).Keys == queues.Keys
    ensures c in queues ==> PushedAll(queues, conns, f)[c] == queues[c] + FramesTo(PushLog(queues, conns, f, id), c)
    ensures c !in queues ==> FramesTo(PushLog(queues, conns, f, id), c) == []
    decreases |conns|
  {
    if conns != [] {
      var n := |conns| - 1;
      var earlier, log := PushedAll(queues, conns[..n], f), PushLog(queues, conns[..n], f, id);
      var more := if HasRoom(earlier, conns[n]) then [Entry(conns[n], id, f, true)] else [];
      PushLogIsAppended(queues, conns[..n], f, id, c);
      PushIsAppended(earlier, conns[n], f, id, c);
      FramesToAppend(log, more, c);
      if c in queues {
        Associative(queues[c], FramesTo(log, c), FramesTo(more, c));
      }
    }
  }

  lemma FramesToOne(log: seq<Entry>, c: ConnId)
    requires |log| <= 1
    ensures FramesTo(log, c) == if log != [] && log[0].c == c then [log[0].frame] else []
  {
  }

  lemma PushesAfter(queues: Queues, earlier: Queues, log: seq<Entry>, conns: seq<ConnId>, f: Frame, id: MsgId,
                    c: ConnId)
    requires earlier.Keys == queues.Keys
    requires c in queues ==> earlier[c] == queues[c] + FramesTo(log, c)
    requires c !in queues ==> FramesTo(log, c) == []
    ensures var more := log + PushLog(earlier, conns, f, id);
            && PushedAll(earlier, conns, f).Keys == queues.Keys
            && (c in queues ==> PushedAll(earlier, conns, f)[c] == queues[c] + FramesTo(more, c))
            && (c !in queues ==> FramesTo(more, c) == [])
  {
    PushLogIsAppended(earlier, conns, f, id, c);
    FramesToAppend(log, PushLog(earlier, conns, f, id), c);
    if c in queues {
      Associative(queues[c], FramesTo(log, c), FramesTo(PushLog(earlier, conns, f, id), c));
    }
  }

  lemma Associative(a: seq<Frame>, b: seq<Frame>, c: seq<Frame>)
    ensures (a + b) + c == a + (b + c)
  {
  }

  lemma {:induction false} FanLogIsAppended(clients: Registry.Clients, queues: Queues, peers: seq<PeerKey>,
                                            skip: PeerKey, f: Frame, id: MsgId, c: ConnId)
    ensures FannedOut(clients, queues, peers, skip, f).Keys == queues.Keys
    ensures c in queues ==>
              FannedOut(clients, queues, peers, skip, f)[c] == queues[c] +
                FramesTo(FanLog(clients, queues, peers, skip, f, id), c)
    ensures c !in queues ==> FramesTo(FanLog(clients, queues, peers, skip, f, id), c) == []
    decreases |peers|
  {
    if peers != [] {
      var n := |peers| - 1;
      FanLogIsAppended(clients, queues, peers[..n], skip, f, id, c);
      if peers[n] != skip {
        PushesAfter(queues, FannedOut(clients, queues, peers[..n], skip, f),
                    FanLog(clients, queues, peers[..n], skip, f, id),
                    ConnsOf(clients, peers[n]), f, id, c);
      } else {
        var same := FanLog(clients, queues, peers[..n], skip, f, id);
        assert same + [] == same;
      }
    }
  }

  /** Everything a connection's queue ever held is what its writer took and what waits;
      its messages are those the log says, in order. */
  ghost predicate Recorded(w: World, c: ConnId) {
    && (c in w.server.queues ==>
          && c in w.written && |w.server.queues[c]| <= QUEUE
          && Messages(w.written[c]) + Messages(w.server.queues[c]) == FramesTo(w.log, c))
    && (c !in w.written ==> FramesTo(w.log, c) == [])
  }

  ghost predicate Historical(w: World) {
    forall c :: Recorded(w, c)
  }

  /** Relaying appends to each queue exactly the frames it logs for it. */
  lemma RelayAppendsItsLog(s: ServerState, sender: PeerKey, msg: Message, c: ConnId)
    ensures var s', more := Relayed(s, sender, msg, Relay(msg.raw)), FramesTo(RelayLog(s, sender, msg), c);
            && s'.queues.Keys == s.queues.Keys
            && (c in s.queues ==> s'.queues[c] == s.queues[c] + more)
            && (c !in s.queues ==> more == [])
  {
    var f := Relay(msg.raw);
    if msg.id != "" && msg.chat in s.chats {
      FanLogIsAppended(s.clients, s.queues, s.chats[msg.chat], sender, f, msg.id, c);
    } else if msg.id != "" && msg.recipient.Some? {
      PushLogIsAppended(s.queues, ConnsOf(s.clients, msg.recipient.value), f, msg.id, c);
    }
  }

  lemma RelayIsRecorded(w: World, sender: PeerKey, msg: Message, c: ConnId)
    requires Recorded(w, c)
    ensures Recorded(Apply(w, Relays(sender, msg)), c)
  {
    var s := w.server;
    var more := RelayLog(s, sender, msg);
    FramesToAppend(w.log, more, c);
    RelayAppendsItsLog(s, sender, msg, c);
    if c in s.queues {
      RelayLogMessages(s, sender, msg, c);
      MessagesAppend(s.queues[c], FramesTo(more, c));
      RelayedQueueBounded(s, sender, msg, c);
    }
  }

  lemma {:induction false} CopiesAreMessages(log: seq<Entry>, c: ConnId)
    requires forall e <- log :: e.frame.Relay?
    ensures Messages(FramesTo(log, c)) == FramesTo(log, c)
  {
    if log != [] {
      var n := |log| - 1;
      assert log[n] in log;
      CopiesAreMessages(log[..n], c);
      MessagesAppend(FramesTo(log[..n], c), if log[n].c == c then [log[n].frame] else []);
    }
  }

  lemma {:induction false} PushLogEntries(queues: Queues, conns: seq<ConnId>, f: Frame, id: MsgId)
    ensures forall e <- PushLog(queues, conns, f, id) :: e.frame == f && e.id == id && e.live
    decreases |conns|
  {
    if conns != [] {
      PushLogEntries(queues, conns[..|conns| - 1], f, id);
    }
  }

  lemma {:induction false} FanLogEntries(clients: Registry.Clients, queues: Queues, peers: seq<PeerKey>, skip: PeerKey,
                                         f: Frame, id: MsgId)
    ensures forall e <- FanLog(clients, queues, peers, skip, f, id) :: e.frame == f && e.id == id && e.live
    decreases |peers|
  {
    if peers != [] {
      var n := |peers| - 1;
      FanLogEntries(clients, queues, peers[..n], skip, f, id);
      PushLogEntries(FannedOut(clients, queues, peers[..n], skip, f), ConnsOf(clients, peers[n]), f, id);
    }
  }

  lemma RelayLogEntries(s: ServerState, sender: PeerKey, msg: Message)
    ensures forall e <- RelayLog(s, sender, msg) :: e.frame == Relay(msg.raw) && e.id == msg.id && e.id != "" && e.live
  {
    var f := Relay(msg.raw);
    if msg.chat in s.chats {
      FanLogEntries(s.clients, s.queues, s.chats[msg.chat], sender, f, msg.id);
    } else if msg.recipient.Some? {
      PushLogEntries(s.queues, ConnsOf(s.clients, msg.recipient.value), f, msg.id);
    }
  }

  lemma RelayLogMessages(s: ServerState, sender: PeerKey, msg: Message, c: ConnId)
    ensures Messages(FramesTo(RelayLog(s, sender, msg), c)) == FramesTo(RelayLog(s, sender, msg), c)
  {
    RelayLogEntries(s, sender, msg);
    CopiesAreMessages(RelayLog(s, sender, msg), c);
  }

  lemma {:induction false} PushedAllBounded(queues: Queues, conns: seq<ConnId>, f: Frame, c: ConnId)
    requires c in queues && |queues[c]| <= QUEUE
    ensures c in PushedAll(queues, conns, f) && |PushedAll(queues, conns, f)[c]| <= QUEUE
    decreases |conns|
  {
    if conns != [] {
      PushedAllBounded(queues, conns[..|conns| - 1], f, c);
    }
  }

  lemma {:induction false} FannedOutBounded(clients: Registry.Clients, queues: Queues, peers: seq<PeerKey>,
                                            skip: PeerKey, f: Frame, c: ConnId)
    requires c in queues && |queues[c]| <= QUEUE
    ensures c in FannedOut(clients, queues, peers, skip, f) && |FannedOut(clients, queues, peers, skip, f)[c]| <= QUEUE
    decreases |peers|
  {
    if peers != [] {
      var n := |peers| - 1;
      FannedOutBounded(clients, queues, peers[..n], skip, f, c);
      PushedAllBounded(FannedOut(clients, queues, peers[..n], skip, f), ConnsOf(clients, peers[n]), f, c);
    }
  }

  lemma RelayedQueueBounded(s: ServerState, sender: PeerKey, msg: Message, c: ConnId)
    requires c in s.queues && |s.queues[c]| <= QUEUE
    ensures var s' := Relayed(s, sender, msg, Relay(msg.raw)); c in s'.queues && |s'.queues[c]| <= QUEUE
  {
    var f := Relay(msg.raw);
    if msg.chat in s.chats {
      FannedOutBounded(s.clients, s.queues, s.chats[msg.chat], sender, f, c);
    } else if msg.recipient.Some? {
      PushedAllBounded(s.queues, ConnsOf(s.clients, msg.recipient.value), f, c);
    }
  }

  /** The frames an authentication appends are the acknowledgement and the logged rows. */
  lemma HandLogIsAppended(s: ServerState, c: ConnId, peer: PeerKey)
    requires c in s.queues && |s.queues[c]| <= QUEUE
    ensures LoggedIn(s, c, peer).queues[c] ==
            Sent(s.queues[c], AuthOk) + FramesTo(HandLog(c, HandedBatch(s, c, peer)), c)
    ensures |LoggedIn(s, c, peer).queues[c]| <= QUEUE
  {
    var acked, batch := Sent(s.queues[c], AuthOk), Batch(s.rows, peer);
    SentAllIsPrefix(acked, Payloads(batch));
    HandLogFrames(c, HandedBatch(s, c, peer));
    var m := Min(|batch|, Room(s.queues[c]));
    assert Payloads(batch)[..m] == Payloads(batch[..m]);
  }

  lemma {:induction false} HandLogFrames(c: ConnId, rows: seq<Row>)
    ensures FramesTo(HandLog(c, rows), c) == Payloads(rows)
    ensures forall d :: d != c ==> FramesTo(HandLog(c, rows), d) == []
    decreases |rows|
  {
    if rows != [] {
      var n := |rows| - 1;
      HandLogFrames(c, rows[..n]);
      assert HandLog(c, rows)[..n] == HandLog(c, rows[..n]);
      assert Payloads(rows) == Payloads(rows[..n]) + [Relay(rows[n].payload)];
    }
  }

  lemma OwnAuthIsRecorded(w: World, c: ConnId, peer: PeerKey)
    requires Recorded(w, c) && c in w.server.queues
    ensures Recorded(Apply(w, Authenticates(c, peer)), c)
  {
    var s := w.server;
    var more := HandLog(c, HandedBatch(s, c, peer));
    HandLogIsAppended(s, c, peer);
    QueueIsRecorded(w.written[c], s.queues[c], w.log, more, c);
  }

  /** Appending an acknowledgement and logged messages, queue and log stay in step. */
  lemma QueueIsRecorded(written: seq<Frame>, queue: seq<Frame>, log: seq<Entry>, more: seq<Entry>, c: ConnId)
    requires Messages(written) + Messages(queue) == FramesTo(log, c)
    requires forall e <- more :: e.frame.Relay?
    ensures Messages(written) + Messages(Sent(queue, AuthOk) + FramesTo(more, c)) == FramesTo(log + more, c)
  {
    var acked, frames := Sent(queue, AuthOk), FramesTo(more, c);
    FramesToAppend(log, more, c);
    MessagesAppend(acked, frames);
    AckIsNoMessage(queue, AuthOk);
    CopiesAreMessages(more, c);
    Associative(Messages(written), Messages(queue), frames);
  }

  lemma OtherAuthIsRecorded(w: World, c: ConnId, peer: PeerKey, d: ConnId)
    requires Recorded(w, d) && c in w.server.queues && d != c
    ensures Recorded(Apply(w, Authenticates(c, peer)), d)
  {
    FramesToAppend(w.log, HandLog(c, HandedBatch(w.server, c, peer)), d);
    HandLogFrames(c, HandedBatch(w.server, c, peer));
  }

  lemma AckIsNoMessage(queue: seq<Frame>, f: Frame)
    requires !f.Relay?
    ensures Messages(Sent(queue, f)) == Messages(queue)
  {
    if |queue| < QUEUE {
      assert (queue + [f])[..|queue|] == queue;
    }
  }

  lemma AuthIsRecorded(w: World, c: ConnId, peer: PeerKey, d: ConnId)
    requires Recorded(w, d)
    ensures Recorded(Apply(w, Authenticates(c, peer)), d)
  {
    if c in w.server.queues {
      if d == c { OwnAuthIsRecorded(w, c, peer); } else { OtherAuthIsRecorded(w, c, peer, d); }
    }
  }

  lemma DrainIsRecorded(w: World, c: ConnId)
    requires Recorded(w, c) && c in w.server.queues && w.server.queues[c] != []
    ensures Recorded(Apply(w, Drain(c)), c)
  {
    var q := w.server.queues[c];
    assert q == [q[0]] + q[1..];
    MessagesAppend([q[0]], q[1..]);
    MessagesAppend(w.written[c], [q[0]]);
  }

  lemma StepKeepsHistory(w: World, e: Event)
    requires Historical(w)
    ensures Historical(Apply(w, e))
  {
    forall d
      ensures Recorded(Apply(w, e), d)
    {
      assert Recorded(w, d);
      match e
      case Relays(sender, msg) => RelayIsRecorded(w, sender, msg, d);
      case Authenticates(c, peer) => AuthIsRecorded(w, c, peer, d);
      case Drain(c) => if d == c && c in w.server.queues && w.server.queues[c] != [] { DrainIsRecorded(w, c); }
      case Answer(c, code) => if d == c && c in w.server.queues { AckIsNoMessage(w.server.queues[c], Control(code)); }
      case _ =>
    }
  }

  /** In every run the log is the truth about the queues: what each writer took and what
      still waits are, as far as messages go, exactly the entries logged for it. */
  lemma {:induction false} RunKeepsHistory(w: World, events: seq<Event>)
    requires Historical(w)
    ensures Historical(Run(w, events))
    decreases |events|
  {
    if events != [] {
      StepKeepsHistory(w, events[0]);
      RunKeepsHistory(Apply(w, events[0]), events[1..]);
    }
  }

  // ----- the chats -----

  /** The members last uploaded for a chat, behind what was known before. */
  function LastUpload(known: Option<seq<PeerKey>>, events: seq<Event>, chat: string): Option<seq<PeerKey>>
    decreases |events|
  {
    if events == [] then known
    else
      var e := events[|events| - 1];
      if e.UploadChat? && e.chat == chat then Some(e.members) else LastUpload(known, events[..|events| - 1], chat)
  }

  function MembersOf(s: ServerState, chat: string): Option<seq<PeerKey>> {
    if chat in s.chats then Some(s.chats[chat]) else None
  }

  lemma StepUploads(w: World, e: Event, chat: string)
    ensures MembersOf(Apply(w, e).server, chat) ==
            if e.UploadChat? && e.chat == chat then Some(e.members) else MembersOf(w.server, chat)
  {
  }

  /** Fan-out goes by the latest upload of the chat, whatever happened since. */
  lemma {:induction false} LastUploadHolds(w: World, events: seq<Event>, chat: string)
    ensures MembersOf(Run(w, events).server, chat) == LastUpload(MembersOf(w.server, chat), events, chat)
    decreases |events|
  {
    if events != [] {
      StepUploads(w, events[0], chat);
      LastUploadHolds(Apply(w, events[0]), events[1..], chat);
      UploadsOfCons(MembersOf(w.server, chat), events[0], events[1..], chat);
      assert events == [events[0]] + events[1..];
    }
  }

  lemma {:induction false} UploadsOfCons(known: Option<seq<PeerKey>>, e: Event, rest: seq<Event>, chat: string)
    ensures LastUpload(known, [e] + rest, chat) ==
            LastUpload(if e.UploadChat? && e.chat == chat then Some(e.members) else known, rest, chat)
    decreases |rest|
  {
    var n := |rest|;
    var all := [e] + rest;
    if n == 0 {
      assert all[..0] == [];
    } else {
      assert all[..n] == [e] + rest[..n - 1];
      UploadsOfCons(known, e, rest[..n - 1], chat);
    }
  }

  // ----- writers and connections that are gone -----

  function Draining(c: ConnId, n: nat): seq<Event> {
    if n == 0 then [] else [Drain(c)] + Draining(c, n - 1)
  }

  /** A writer puts on its connection what waits in the queue, oldest first. */
  lemma {:induction false} DrainingWritesQueue(w: World, c: ConnId, n: nat)
    requires c in w.server.queues && c in w.written && n <= |w.server.queues[c]|
    ensures var queue := w.server.queues[c];
            Run(w, Draining(c, n)) ==
            w.(server := w.server.(queues := w.server.queues[c := queue[n..]]),
               written := w.written[c := w.written[c] + queue[..n]])
    decreases n
  {
    var queue := w.server.queues[c];
    if n == 0 {
      assert queue[0..] == queue && w.written[c] + queue[..0] == w.written[c];
      assert w.server.queues[c := queue] == w.server.queues && w.written[c := w.written[c]] == w.written;
    } else {
      var w1 := Apply(w, Drain(c));
      assert Draining(c, n)[1..] == Draining(c, n - 1);
      DrainingWritesQueue(w1, c, n - 1);
      assert queue[1..][n - 1..] == queue[n..];
      assert w.written[c] + [queue[0]] + queue[1..][..n - 1] == w.written[c] + queue[..n];
    }
  }

  /** A disconnect closes the queue and forgets the identity; the other connections, the
      rows and the log stay. */
  lemma DisconnectForgets(w: World, c: ConnId)
    ensures var s, w' := w.server, Apply(w, Disconnects(c));
            && w'.server.queues == s.queues - {c} && w'.server.identity == s.identity - {c}
            && w'.server.rows == s.rows && w'.log == w.log && w'.written == w.written
            && var key := KeyOf(s.identity, c);
               && (key in w'.server.clients ==> c !in w'.server.clients[key])
               && (forall k :: k != key ==> (k in w'.server.clients <==> k in s.clients))
               && (forall k :: k != key && k in s.clients ==> w'.server.clients[k] == s.clients[k])
  {
    var key := KeyOf(w.server.identity, c);
    if key in w.server.clients {
      Registry.WithoutMember(w.server.clients[key], c, c);
    }
  }

  lemma StepKeepsGone(w: World, e: Event, c: ConnId)
    requires c in w.written && c !in w.server.queues
    ensures var w' := Apply(w, e);
            && c in w'.written && c !in w'.server.queues && w'.written[c] == w.written[c]
            && FramesTo(w'.log, c) == FramesTo(w.log, c)
  {
    match e
    case Relays(sender, msg) =>
      RelayAppendsItsLog(w.server, sender, msg, c);
      FramesToAppend(w.log, RelayLog(w.server, sender, msg), c);
    case Authenticates(d, peer) =>
      if d in w.server.queues {
        FramesToAppend(w.log, HandLog(d, HandedBatch(w.server, d, peer)), c);
        HandLogFrames(d, HandedBatch(w.server, d, peer));
      }
    case _ =>
  }

  /** A connection that is gone stays gone: nothing is queued for it, logged for it or
      written to it any more. */
  lemma {:induction false} GoneForGood(w: World, events: seq<Event>, c: ConnId)
    requires c in w.written && c !in w.server.queues
    ensures var w' := Run(w, events);
            && c in w'.written && c !in w'.server.queues && w'.written[c] == w.written[c]
            && FramesTo(w'.log, c) == FramesTo(w.log, c)
    decreases |events|
  {
    if events != [] {
      StepKeepsGone(w, events[0], c);
      GoneForGood(Apply(w, events[0]), events[1..], c);
    }
  }
}
