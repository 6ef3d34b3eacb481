/** The event bus under interleaving: publishers under the read lock, subscribers and
    unsubscribers under the write lock, and the close that happens after the unlock. */
module EventBus {
  import opened Prelude

  type SubId = string
  type EventType = string
  type ChanId = nat

  const CAPACITY := 256

  datatype Event = Event(kind: EventType, data: nat)

  /** One non-blocking send: the event, how many were buffered when it was tried, and the
      call of Publish that tried it. */
  datatype Attempt = Attempt(event: Event, buffered: nat, publish: nat)

  datatype Channel = Channel(
    kinds: set<EventType>,       // empty: every event
    buffer: seq<Event>,
    received: seq<Event>,        // what the subscriber took out so far
    attempts: seq<Attempt>,
    closed: bool)

  /** Somebody in the middle of Publish: the channels of the table not visited yet. */
  datatype Publisher = Publisher(event: Event, left: set<ChanId>, number: nat)

  datatype Bus = Bus(
    subs: map<SubId, ChanId>,
    channels: map<ChanId, Channel>,
    publishers: map<nat, Publisher>,   // holding the read lock
    closers: map<nat, ChanId>,         // between the unlock of Unsubscribe and its close
    next: ChanId,
    published: nat,                    // calls of Publish so far
    panics: nat)                       // closes of closed and sends on closed channels

  const NEW_BUS := Bus(map[], map[], map[], map[], 0, 0, 0)

  predicate Wants(ch: Channel, e: Event) {
    ch.kinds == {} || e.kind in ch.kinds
  }

  /** The select with a default: buffered if there is room, dropped otherwise. */
  function Tried(ch: Channel, e: Event, publish: nat): Channel {
    ch.(buffer := if |ch.buffer| < CAPACITY then ch.buffer + [e] else ch.buffer,
        attempts := ch.attempts + [Attempt(e, |ch.buffer|, publish)])
  }

  function NewChannel(kinds: set<EventType>): Channel {
    Channel(kinds, [], [], [], false)
  }

  datatype Action =
    | StartPublish(t: nat, e: Event)       // take the read lock
    | Visit(t: nat, ch: ChanId)            // the next entry of the map iteration
    | EndPublish(t: nat)                   // release the read lock
    | Subscribe(id: SubId, kinds: set<EventType>)
    | Unsubscribe(t: nat, id: SubId)       // the locked part
    | CloseNow(t: nat)                     // the close after the unlock
    | Receive(ch: ChanId)

  /** The write lock is free when nobody holds the read lock. */
  predicate Writable(b: Bus) {
    b.publishers == map[]
  }

  function Closed(b: Bus, c: ChanId): Bus {
    if c in b.channels && !b.channels[c].closed
    then b.(channels := b.channels[c := b.channels[c].(closed := true)])
    else b.(panics := b.panics + 1)
  }

  function Visited(b: Bus, t: nat, c: ChanId): Bus
    requires t in b.publishers
  {
    var p := b.publishers[t];
    var b1 := b.(publishers := b.publishers[t := p.(left := p.left - {c})]);
    if c !in b.channels then b1
    else
      var ch := b.channels[c];
      if !Wants(ch, p.event) then b1
      else if ch.closed then b1.(panics := b.panics + 1)
      else b1.(channels := b.channels[c := Tried(ch, p.event, p.number)])
  }

  function Subscribed(b: Bus, id: SubId, kinds: set<EventType>): Bus {
    var b1 := if id in b.subs then Closed(b, b.subs[id]) else b;
    b1.(subs := b.subs[id := b.next], channels := b1.channels[b.next := NewChannel(kinds)], next := b.next + 1)
  }

  /** One atomic step; one that is not possible does nothing. */
  function Step(b: Bus, a: Action): Bus {
    match a
    case StartPublish(t, e) =>
      if t in b.publishers then b
      else b.(publishers := b.publishers[t := Publisher(e, b.subs.Values, b.published)], published := b.published + 1)
    case Visit(t, c) =>
      if t in b.publishers && c in b.publishers[t].left then Visited(b, t, c) else b
    case EndPublish(t) =>
      if t in b.publishers && b.publishers[t].left == {} then b.(publishers := b.publishers - {t}) else b
    case Subscribe(id, kinds) =>
      if Writable(b) then Subscribed(b, id, kinds) else b
    case Unsubscribe(t, id) =>
      if Writable(b) && t !in b.closers && id in b.subs
      then b.(subs := b.subs - {id}, closers := b.closers[t := b.subs[id]]) else b
    case CloseNow(t) =>
      if t in b.closers then Closed(b, b.closers[t]).(closers := b.closers - {t}) else b
    case Receive(c) =>
      if c in b.channels && b.channels[c].buffer != []
      then
        var ch := b.channels[c];
        b.(channels := b.channels[c := ch.(buffer := ch.buffer[1..], received := ch.received + [ch.buffer[0]])])
      else b
  }

  function Run(b: Bus, actions: seq<Action>): Bus
    decreases |actions|
  {
    if actions == [] then b else Run(Step(b, actions[0]), actions[1..])
  }

  // ----- safety -----

  predicate Open(b: Bus, c: ChanId) {
    c in b.channels && !b.channels[c].closed
  }

  /** The channels of the table and of the pending closes are open and all different:
      none is closed early or owned twice. */
  ghost predicate Owned(b: Bus) {
    TableOwns(b) && ClosersOwn(b) && forall c :: c in b.channels ==> c < b.next
  }

  ghost predicate TableOwns(b: Bus) {
    && (forall id :: id in b.subs ==> Open(b, b.subs[id]) && b.subs[id] < b.next)
    && (forall id, id' :: id in b.subs && id' in b.subs && id != id' ==> b.subs[id] != b.subs[id'])
  }

  ghost predicate ClosersOwn(b: Bus) {
    && (forall t :: t in b.closers ==> Open(b, b.closers[t]) && b.closers[t] < b.next)
    && (forall t, t' :: t in b.closers && t' in b.closers && t != t' ==> b.closers[t] != b.closers[t'])
    && (forall t, id :: t in b.closers && id in b.subs ==> b.closers[t] != b.subs[id])
  }

  ghost predicate HasOwner(b: Bus, c: ChanId) {
    (exists id :: id in b.subs && b.subs[id] == c) || (exists t :: t in b.closers && b.closers[t] == c)
  }

  /** No open channel is forgotten: somebody will still close it. */
  ghost predicate NoneForgotten(b: Bus) {
    forall c :: Open(b, c) ==> HasOwner(b, c)
  }

  /** A publisher only has channels of the current table before it. */
  ghost predicate Publishing(b: Bus) {
    forall t :: t in b.publishers ==> b.publishers[t].left <= b.subs.Values
  }

  ghost predicate Safe(b: Bus) {
    Owned(b) && NoneForgotten(b) && Publishing(b) && b.panics == 0
  }

  lemma SubscribeKeepsTable(b: Bus, id: SubId, kinds: set<EventType>)
    requires Owned(b)
    ensures TableOwns(Subscribed(b, id, kinds)) && Subscribed(b, id, kinds).panics == b.panics
  {
  }

  lemma SubscribeKeepsClosers(b: Bus, id: SubId, kinds: set<EventType>)
    requires Owned(b)
    ensures ClosersOwn(Subscribed(b, id, kinds))
  {
  }

  lemma SubscribeKeepsOwned(b: Bus, id: SubId, kinds: set<EventType>)
    requires Owned(b)
    ensures Owned(Subscribed(b, id, kinds)) && Subscribed(b, id, kinds).panics == b.panics
  {
    SubscribeKeepsTable(b, id, kinds);
    SubscribeKeepsClosers(b, id, kinds);
  }

  lemma SubscribeKeepsOwners(b: Bus, id: SubId, kinds: set<EventType>)
    requires Safe(b)
    ensures NoneForgotten(Subscribed(b, id, kinds))
  {
    var b' := Subscribed(b, id, kinds);
    forall c | Open(b', c)
      ensures HasOwner(b', c)
    {
      if c == b.next {
        assert b'.subs[id] == c;
      } else {
        assert Open(b, c);
        KeepsOwner(b, b', c);
      }
    }
  }

  /** An owner that still has the channel is an owner still. */
  lemma KeepsOwner(b: Bus, b': Bus, c: ChanId)
    requires HasOwner(b, c)
    requires forall id :: id in b.subs && b.subs[id] == c ==> id in b'.subs && b'.subs[id] == c
    requires forall t :: t in b.closers && b.closers[t] == c ==> t in b'.closers && b'.closers[t] == c
    ensures HasOwner(b', c)
  {
    if id :| id in b.subs && b.subs[id] == c {
      assert b'.subs[id] == c;
    } else {
      var t :| t in b.closers && b.closers[t] == c;
      assert b'.closers[t] == c;
    }
  }

  lemma SubscribeKeepsSafe(b: Bus, id: SubId, kinds: set<EventType>)
    requires Safe(b) && Writable(b)
    ensures Safe(Subscribed(b, id, kinds))
  {
    SubscribeKeepsOwned(b, id, kinds);
    SubscribeKeepsOwners(b, id, kinds);
  }

  lemma CloseKeepsOwned(b: Bus, t: nat)
    requires Safe(b) && t in b.closers
    ensures Owned(Step(b, CloseNow(t))) && Step(b, CloseNow(t)).panics == 0
  {
  }

  lemma CloseKeepsSafe(b: Bus, t: nat)
    requires Safe(b) && t in b.closers
    ensures Safe(Step(b, CloseNow(t)))
  {
    CloseKeepsOwned(b, t);
    var b' := Step(b, CloseNow(t));
    forall c | Open(b', c)
      ensures HasOwner(b', c)
    {
      assert Open(b, c);
      KeepsOwner(b, b', c);
    }
  }

  /** `b'` has the channels of `b`, open or closed as they were, with the same owners. */
  ghost predicate SameOwnership(b: Bus, b': Bus) {
    && b'.subs == b.subs && b'.closers == b.closers && b'.next == b.next && b'.channels.Keys == b.channels.Keys
    && forall c :: c in b.channels ==> b'.channels[c].closed == b.channels[c].closed
  }

  lemma SameOwnershipKeepsOwned(b: Bus, b': Bus)
    requires Owned(b) && SameOwnership(b, b')
    ensures Owned(b')
  {
  }

  lemma SameOwners(b: Bus, b': Bus)
    requires NoneForgotten(b) && SameOwnership(b, b')
    ensures NoneForgotten(b')
  {
    forall c | Open(b', c)
      ensures HasOwner(b', c)
    {
      assert Open(b, c);
      KeepsOwner(b, b', c);
    }
  }

  lemma EntryIsOpen(b: Bus, c: ChanId)
    requires Owned(b) && c in b.subs.Values
    ensures Open(b, c)
  {
    var id :| id in b.subs && b.subs[id] == c;
  }

  lemma VisitKeepsSafe(b: Bus, t: nat, c: ChanId)
    requires Safe(b) && t in b.publishers && c in b.publishers[t].left
    ensures Safe(Visited(b, t, c))
  {
    assert c in b.subs.Values;
    EntryIsOpen(b, c);
    SameOwnershipKeepsOwned(b, Visited(b, t, c));
    SameOwners(b, Visited(b, t, c));
  }

  lemma UnsubscribeKeepsOwned(b: Bus, t: nat, id: SubId)
    requires Safe(b)
    ensures Owned(Step(b, Unsubscribe(t, id))) && Publishing(Step(b, Unsubscribe(t, id)))
  {
  }

  lemma UnsubscribeKeepsSafe(b: Bus, t: nat, id: SubId)
    requires Safe(b)
    ensures Safe(Step(b, Unsubscribe(t, id)))
  {
    UnsubscribeKeepsOwned(b, t, id);
    var b' := Step(b, Unsubscribe(t, id));
    if b' != b {
      forall c | Open(b', c)
        ensures HasOwner(b', c)
      {
        assert Open(b, c);
        if c == b.subs[id] { assert b'.closers[t] == c; } else { KeepsOwner(b, b', c); }
      }
    }
  }

  lemma ReceiveKeepsSafe(b: Bus, c: ChanId)
    requires Safe(b)
    ensures Safe(Step(b, Receive(c)))
  {
    SameOwnershipKeepsOwned(b, Step(b, Receive(c)));
    SameOwners(b, Step(b, Receive(c)));
  }

  lemma StepKeepsSafe(b: Bus, a: Action)
    requires Safe(b)
    ensures Safe(Step(b, a))
  {
    match a
    case StartPublish(t, e) => SameOwners(b, Step(b, a));
    case Visit(t, c) => if t in b.publishers && c in b.publishers[t].left { VisitKeepsSafe(b, t, c); }
    case EndPublish(t) => SameOwners(b, Step(b, a));
    case Subscribe(id, kinds) => if Writable(b) { SubscribeKeepsSafe(b, id, kinds); }
    case Unsubscribe(t, id) => UnsubscribeKeepsSafe(b, t, id);
    case CloseNow(t) => if t in b.closers { CloseKeepsSafe(b, t); }
    case Receive(c) => ReceiveKeepsSafe(b, c);
  }

  /** In no interleaving is a channel closed twice or a closed channel sent to. */
  lemma {:induction false} BusNeverPanics(b: Bus, actions: seq<Action>)
    requires Safe(b)
    ensures Safe(Run(b, actions))
    decreases |actions|
  {
    if actions != [] {
      StepKeepsSafe(b, actions[0]);
      BusNeverPanics(Step(b, actions[0]), actions[1..]);
    }
  }

  // ----- delivery -----

  /** The events of the attempts that found room. */
  function Taken(attempts: seq<Attempt>): seq<Event> {
    if attempts == [] then []
    else
      var n := |attempts| - 1;
      Taken(attempts[..n]) + (if attempts[n].buffered < CAPACITY then [attempts[n].event] else [])
  }

  /** What the subscriber has and what waits for it are the attempts in order, minus those
      made with a full buffer; only events it asked for were attempted. */
  ghost predicate Complete(ch: Channel) {
    && ch.received + ch.buffer == Taken(ch.attempts)
    && |ch.buffer| <= CAPACITY
    && forall i :: 0 <= i < |ch.attempts| ==> Wants(ch, ch.attempts[i].event) && ch.attempts[i].buffered <= CAPACITY
  }

  ghost predicate AllComplete(b: Bus) {
    forall c :: c in b.channels ==> Complete(b.channels[c])
  }

  lemma TriedKeepsComplete(ch: Channel, e: Event, publish: nat)
    requires Complete(ch) && Wants(ch, e)
    ensures Complete(Tried(ch, e, publish))
  {
    var attempts := ch.attempts + [Attempt(e, |ch.buffer|, publish)];
    assert attempts[..|ch.attempts|] == ch.attempts;
    assert ch.received + (ch.buffer + [e]) == (ch.received + ch.buffer) + [e];
  }

  lemma ReceivedKeepsComplete(ch: Channel)
    requires Complete(ch) && ch.buffer != []
    ensures Complete(ch.(buffer := ch.buffer[1..], received := ch.received + [ch.buffer[0]]))
  {
    assert ch.received + [ch.buffer[0]] + ch.buffer[1..] == ch.received + ch.buffer;
  }

  lemma VisitKeepsComplete(b: Bus, t: nat, c: ChanId)
    requires AllComplete(b) && t in b.publishers
    ensures AllComplete(Visited(b, t, c))
  {
    if c in b.channels && Wants(b.channels[c], b.publishers[t].event) {
      TriedKeepsComplete(b.channels[c], b.publishers[t].event, b.publishers[t].number);
    }
  }

  lemma ReceiveKeepsComplete(b: Bus, c: ChanId)
    requires AllComplete(b)
    ensures AllComplete(Step(b, Receive(c)))
  {
    if c in b.channels && b.channels[c].buffer != [] {
      ReceivedKeepsComplete(b.channels[c]);
    }
  }

  lemma CloseKeepsComplete(b: Bus, c: ChanId)
    requires AllComplete(b)
    ensures AllComplete(Closed(b, c))
  {
  }

  lemma SubscribeKeepsComplete(b: Bus, id: SubId, kinds: set<EventType>)
    requires AllComplete(b)
    ensures AllComplete(Subscribed(b, id, kinds))
  {
    if id in b.subs {
      CloseKeepsComplete(b, b.subs[id]);
    }
  }

  lemma StepKeepsComplete(b: Bus, a: Action)
    requires AllComplete(b)
    ensures AllComplete(Step(b, a))
  {
    match a
    case Visit(t, c) => if t in b.publishers { VisitKeepsComplete(b, t, c); }
    case Receive(c) => ReceiveKeepsComplete(b, c);
    case Subscribe(id, kinds) => SubscribeKeepsComplete(b, id, kinds);
    case CloseNow(t) => if t in b.closers { CloseKeepsComplete(b, b.closers[t]); }
    case _ =>
  }

  lemma {:induction false} RunKeepsComplete(b: Bus, actions: seq<Action>)
    requires AllComplete(b)
    ensures AllComplete(Run(b, actions))
    decreases |actions|
  {
    if actions != [] {
      StepKeepsComplete(b, actions[0]);
      RunKeepsComplete(Step(b, actions[0]), actions[1..]);
    }
  }

  /** A publisher waits for nobody: on its own steps alone it gets to the end and releases
      the lock, whatever it has visited so far. */
  lemma {:induction false} PublisherCanFinish(b: Bus, t: nat) returns (actions: seq<Action>)
    requires t in b.publishers
    ensures forall a <- actions :: a == EndPublish(t) || (a.Visit? && a.t == t)
    ensures Run(b, actions).publishers == b.publishers - {t}
    decreases |b.publishers[t].left|
  {
    var left := b.publishers[t].left;
    if left == {} {
      actions := [EndPublish(t)];
      assert Run(b, actions) == Run(Step(b, EndPublish(t)), []);
    } else {
      var c :| c in left;
      var b1 := Step(b, Visit(t, c));
      assert b1.publishers[t].left == left - {c};
      var rest := PublisherCanFinish(b1, t);
      actions := [Visit(t, c)] + rest;
      assert actions[1..] == rest;
      assert b1.publishers - {t} == b.publishers - {t};
    }
  }

  function Reading(c: ChanId, n: nat): seq<Action> {
    if n == 0 then [] else [Receive(c)] + Reading(c, n - 1)
  }

  lemma HeadThenRest(received: seq<Event>, buffer: seq<Event>, n: nat)
    requires 0 < n <= |buffer|
    ensures received + [buffer[0]] + buffer[1..][..n - 1] == received + buffer[..n]
  {
  }

  /** A subscriber that keeps reading takes out what waits for it, oldest first. */
  lemma {:induction false} ReadingTakesOldest(b: Bus, c: ChanId, n: nat)
    requires c in b.channels && n <= |b.channels[c].buffer|
    ensures var ch := b.channels[c];
            Run(b, Reading(c, n)) == b.(channels := b.channels[c :=
              ch.(buffer := ch.buffer[n..], received := ch.received + ch.buffer[..n])])
    decreases n
  {
    var ch := b.channels[c];
    if n == 0 {
      assert ch.buffer[0..] == ch.buffer && ch.received + ch.buffer[..0] == ch.received;
      assert b.channels[c := ch] == b.channels;
    } else {
      ReadingTakesOldest(Step(b, Receive(c)), c, n - 1);
      assert Reading(c, n)[1..] == Reading(c, n - 1);
      assert ch.buffer[1..][n - 1..] == ch.buffer[n..];
      HeadThenRest(ch.received, ch.buffer, n);
    }
  }

  /** How many of the attempts a call of Publish made. */
  function Made(attempts: seq<Attempt>, publish: nat): nat {
    if attempts == [] then 0
    else
      var n := |attempts| - 1;
      Made(attempts[..n], publish) + (if attempts[n].publish == publish then 1 else 0)
  }

  lemma MadeOneMore(attempts: seq<Attempt>, a: Attempt, publish: nat)
    ensures Made(attempts + [a], publish) == Made(attempts, publish) + (if a.publish == publish then 1 else 0)
  {
    assert (attempts + [a])[..|attempts|] == attempts;
  }

  lemma {:induction false} MadeByNobody(attempts: seq<Attempt>, publish: nat)
    requires forall i :: 0 <= i < |attempts| ==> attempts[i].publish != publish
    ensures Made(attempts, publish) == 0
  {
    if attempts != [] {
      MadeByNobody(attempts[..|attempts| - 1], publish);
    }
  }

  /** What a call of Publish has done at a channel: nothing while it has it before it;
      afterwards one attempt with its own event if the channel wants it, else none. */
  ghost predicate Accounted(ch: Channel, p: Publisher, c: ChanId) {
    && Made(ch.attempts, p.number) == (if c !in p.left && Wants(ch, p.event) then 1 else 0)
    && forall i :: 0 <= i < |ch.attempts| && ch.attempts[i].publish == p.number ==> ch.attempts[i].event == p.event
  }

  /** Every publisher is accounted for at every channel of the table. */
  ghost predicate Reached(b: Bus) {
    && Numbered(b)
    && (forall t, id :: t in b.publishers && id in b.subs && b.subs[id] in b.channels ==>
          Accounted(b.channels[b.subs[id]], b.publishers[t], b.subs[id]))
  }

  /** Calls of Publish have different numbers, all below the next one. */
  ghost predicate Numbered(b: Bus) {
    && (forall t :: t in b.publishers ==> b.publishers[t].number < b.published)
    && (forall t, u :: t in b.publishers && u in b.publishers && t != u ==>
        b.publishers[t].number != b.publishers[u].number)
    && (forall c :: c in b.channels ==> Earlier(b.channels[c], b.published))
  }

  ghost predicate Earlier(ch: Channel, published: nat) {
    forall i :: 0 <= i < |ch.attempts| ==> ch.attempts[i].publish < published
  }

  lemma TriedIsAccounted(ch: Channel, p: Publisher, c: ChanId)
    requires Accounted(ch, p, c) && c in p.left && Wants(ch, p.event)
    ensures Accounted(Tried(ch, p.event, p.number), p.(left := p.left - {c}), c)
  {
    MadeOneMore(ch.attempts, Attempt(p.event, |ch.buffer|, p.number), p.number);
  }

  /** An attempt of one call does not count for another. */
  lemma TriedByAnother(ch: Channel, p: Publisher, q: Publisher, c: ChanId)
    requires Accounted(ch, q, c) && p.number != q.number
    ensures Accounted(Tried(ch, p.event, p.number), q, c)
  {
    MadeOneMore(ch.attempts, Attempt(p.event, |ch.buffer|, p.number), q.number);
  }

  lemma VisitKeepsNumbered(b: Bus, t: nat, c: ChanId)
    requires Numbered(b) && t in b.publishers
    ensures Numbered(Visited(b, t, c))
  {
  }

  lemma VisitKeepsReached(b: Bus, t: nat, c: ChanId)
    requires Safe(b) && Reached(b) && t in b.publishers && c in b.publishers[t].left
    ensures Reached(Visited(b, t, c))
  {
    var b', p := Visited(b, t, c), b.publishers[t];
    VisitKeepsNumbered(b, t, c);
    forall u, id | u in b'.publishers && id in b'.subs && b'.subs[id] in b'.channels
      ensures Accounted(b'.channels[b'.subs[id]], b'.publishers[u], b'.subs[id])
    {
      var d := b.subs[id];
      assert Accounted(b.channels[d], b.publishers[u], d);
      if d == c && Wants(b.channels[c], p.event) {
        assert Open(b, d);
        if u == t {
          TriedIsAccounted(b.channels[c], p, c);
        } else {
          TriedByAnother(b.channels[c], p, b.publishers[u], c);
        }
      }
    }
  }

  lemma StartKeepsReached(b: Bus, t: nat, e: Event)
    requires Safe(b) && Reached(b)
    ensures Reached(Step(b, StartPublish(t, e)))
  {
    var b' := Step(b, StartPublish(t, e));
    if t !in b.publishers {
      forall u, id | u in b'.publishers && id in b'.subs && b'.subs[id] in b'.channels
        ensures Accounted(b'.channels[b'.subs[id]], b'.publishers[u], b'.subs[id])
      {
        if u == t {
          assert Earlier(b.channels[b.subs[id]], b.published);
          MadeByNobody(b.channels[b.subs[id]].attempts, b.published);
          assert b.subs[id] in b.subs.Values;
        }
      }
    }
  }

  /** Closing and receiving leave the attempts alone. */
  lemma SameAttemptsKeepReached(b: Bus, b': Bus)
    requires Reached(b)
    requires b'.publishers == b.publishers && b'.subs == b.subs && b'.published == b.published
    requires b'.channels.Keys == b.channels.Keys
    requires forall c :: c in b.channels ==>
               b'.channels[c].attempts == b.channels[c].attempts && b'.channels[c].kinds == b.channels[c].kinds
    ensures Reached(b')
  {
    forall t, id | t in b'.publishers && id in b'.subs && b'.subs[id] in b'.channels
      ensures Accounted(b'.channels[b'.subs[id]], b'.publishers[t], b'.subs[id])
    {
      assert Accounted(b.channels[b.subs[id]], b.publishers[t], b.subs[id]);
    }
  }

  /** Nobody publishes while the table grows. */
  lemma SubscribeKeepsReached(b: Bus, id: SubId, kinds: set<EventType>)
    requires Reached(b) && Writable(b)
    ensures Reached(Subscribed(b, id, kinds))
  {
  }

  lemma FewerKeepReached(b: Bus, b': Bus)
    requires Reached(b) && b'.channels == b.channels && b'.published == b.published
    requires forall t :: t in b'.publishers ==> t in b.publishers && b'.publishers[t] == b.publishers[t]
    requires forall id :: id in b'.subs ==> id in b.subs && b'.subs[id] == b.subs[id]
    ensures Reached(b')
  {
  }

  lemma EndKeepsReached(b: Bus, t: nat)
    requires Reached(b)
    ensures Reached(Step(b, EndPublish(t)))
  {
    FewerKeepReached(b, Step(b, EndPublish(t)));
  }

  lemma UnsubscribeKeepsReached(b: Bus, t: nat, id: SubId)
    requires Reached(b)
    ensures Reached(Step(b, Unsubscribe(t, id)))
  {
    FewerKeepReached(b, Step(b, Unsubscribe(t, id)));
  }

  lemma CloseKeepsReached(b: Bus, t: nat)
    requires Reached(b)
    ensures Reached(Step(b, CloseNow(t)))
  {
    SameAttemptsKeepReached(b, Step(b, CloseNow(t)));
  }

  lemma ReceiveKeepsReached(b: Bus, c: ChanId)
    requires Reached(b)
    ensures Reached(Step(b, Receive(c)))
  {
    SameAttemptsKeepReached(b, Step(b, Receive(c)));
  }

  lemma StepKeepsReached(b: Bus, a: Action)
    requires Safe(b) && Reached(b)
    ensures Reached(Step(b, a))
  {
    match a
    case StartPublish(t, e) => StartKeepsReached(b, t, e);
    case EndPublish(t) => EndKeepsReached(b, t);
    case Unsubscribe(t, id) => UnsubscribeKeepsReached(b, t, id);
    case Visit(t, c) => if t in b.publishers && c in b.publishers[t].left { VisitKeepsReached(b, t, c); }
    case CloseNow(t) => CloseKeepsReached(b, t);
    case Receive(c) => ReceiveKeepsReached(b, c);
    case Subscribe(id, kinds) => if Writable(b) { SubscribeKeepsReached(b, id, kinds); }
  }

  lemma {:induction false} RunKeepsReached(b: Bus, actions: seq<Action>)
    requires Safe(b) && Reached(b)
    ensures Safe(Run(b, actions)) && Reached(Run(b, actions))
    decreases |actions|
  {
    if actions != [] {
      StepKeepsSafe(b, actions[0]);
      StepKeepsReached(b, actions[0]);
      RunKeepsReached(Step(b, actions[0]), actions[1..]);
    }
  }

  // ----- what a subscriber asked for -----

  /** The types the Subscribe action that opened channel `c` named, if there is one. */
  function AskedIn(b: Bus, actions: seq<Action>, c: ChanId): Option<set<EventType>>
    decreases |actions|
  {
    if actions == [] then None
    else if actions[0].Subscribe? && Writable(b) && b.next == c then Some(actions[0].kinds)
    else AskedIn(Step(b, actions[0]), actions[1..], c)
  }

  lemma StepKeepsKinds(b: Bus, a: Action, c: ChanId)
    requires c in b.channels && c < b.next
    ensures c in Step(b, a).channels && Step(b, a).channels[c].kinds == b.channels[c].kinds
  {
  }

  /** Only a Subscribe opens a channel, the next one, with the types it names. */
  lemma StepOpensAsked(b: Bus, a: Action, c: ChanId)
    requires c !in b.channels && forall d :: d in b.channels ==> d < b.next
    ensures c in Step(b, a).channels <==> a.Subscribe? && Writable(b) && b.next == c
    ensures c in Step(b, a).channels ==> Step(b, a).channels[c].kinds == a.kinds
  {
  }

  /** A channel has, for good, the types its Subscribe action named. */
  lemma {:induction false} RunKeepsKinds(b: Bus, actions: seq<Action>, c: ChanId)
    requires Safe(b) && c in Run(b, actions).channels
    ensures c in b.channels ==> Run(b, actions).channels[c].kinds == b.channels[c].kinds
    ensures c !in b.channels ==> AskedIn(b, actions, c) == Some(Run(b, actions).channels[c].kinds)
    decreases |actions|
  {
    if actions != [] {
      if c in b.channels {
        StepKeepsKinds(b, actions[0], c);
      } else {
        StepOpensAsked(b, actions[0], c);
      }
      StepKeepsSafe(b, actions[0]);
      RunKeepsKinds(Step(b, actions[0]), actions[1..], c);
    }
  }

  /** What a subscriber gets, from the action that subscribed it: with types named, only
      events of those types are ever tried on its channel, and so received; and a
      publisher about to finish has tried its event there exactly once if no types were
      named or its type is among them, and otherwise not at all. */
  lemma SubscribersGetWhatTheyAsked(actions: seq<Action>, c: ChanId)
    requires c in Run(NEW_BUS, actions).channels
    ensures var b, asked := Run(NEW_BUS, actions), AskedIn(NEW_BUS, actions, c);
            && asked.Some?
            && (forall a <- b.channels[c].attempts :: asked.value == {} || a.event.kind in asked.value)
            && (forall e <- b.channels[c].received + b.channels[c].buffer :: asked.value == {} || e.kind in asked.value)
            && (forall t, id :: t in b.publishers && b.publishers[t].left == {} && id in b.subs && b.subs[id] == c ==>
                  Made(b.channels[c].attempts, b.publishers[t].number) ==
                    if asked.value == {} || b.publishers[t].event.kind in asked.value then 1 else 0)
  {
    var b := Run(NEW_BUS, actions);
    RunKeepsKinds(NEW_BUS, actions, c);
    RunKeepsComplete(NEW_BUS, actions);
    EveryRunIsSafeAndComplete(actions);
    assert Complete(b.channels[c]);
    TakenWereTried(b.channels[c].attempts);
  }

  lemma {:induction false} TakenWereTried(attempts: seq<Attempt>)
    ensures forall e <- Taken(attempts) :: exists a <- attempts :: a.event == e
  {
    if attempts != [] {
      var n := |attempts| - 1;
      TakenWereTried(attempts[..n]);
      forall e <- Taken(attempts)
        ensures exists a <- attempts :: a.event == e
      {
        if e in Taken(attempts[..n]) {
          var a :| a in attempts[..n] && a.event == e;
          assert a in attempts;
        } else {
          assert attempts[n] in attempts && attempts[n].event == e;
        }
      }
    }
  }

  /** A call of Publish returns only when it has no channel before it any more. */
  lemma ReturnsOnlyWhenDone(b: Bus, a: Action, t: nat)
    requires t in b.publishers && t !in Step(b, a).publishers
    ensures a == EndPublish(t) && b.publishers[t].left == {}
  {
  }

  /** And it starts with all the channels of the table before it. */
  lemma StartsWithTheTable(b: Bus, t: nat, e: Event)
    requires t !in b.publishers
    ensures Step(b, StartPublish(t, e)).publishers == b.publishers[t := Publisher(e, b.subs.Values, b.published)]
  {
  }

  // ----- unsubscribing -----

  /** The locked part takes out the entry, and no other; the close that follows ends that
      channel, and no other. */
  lemma UnsubscribeRemoves(b: Bus, t: nat, id: SubId)
    requires Safe(b) && Writable(b) && t !in b.closers && id in b.subs
    ensures var b1 := Step(b, Unsubscribe(t, id));
            var b2 := Step(b1, CloseNow(t));
            && b1.subs == b.subs - {id} && b1.channels == b.channels
            && b2.subs == b1.subs && b2.channels == b.channels[b.subs[id] := b.channels[b.subs[id]].(closed := true)]
            && b2.panics == b.panics && b2.closers == b.closers
  {
    assert (b.closers[t := b.subs[id]]) - {t} == b.closers;
  }

  /** Every run of a new bus: no panic, and no open channel without its owner; each
      subscriber has its events in order but those tried with a full buffer; and a
      publisher about to finish has itself tried every current subscriber that wants its
      event, once, and no other. */
  lemma EveryRunIsSafeAndComplete(actions: seq<Action>)
    ensures var b := Run(NEW_BUS, actions);
            && b.panics == 0
            && (forall c :: Open(b, c) <==> HasOwner(b, c))
            && AllComplete(b)
            && forall t, id :: t in b.publishers && b.publishers[t].left == {} && id in b.subs ==>
                 && b.subs[id] in b.channels
                 && Made(b.channels[b.subs[id]].attempts, b.publishers[t].number) ==
                      if Wants(b.channels[b.subs[id]], b.publishers[t].event) then 1 else 0
  {
    RunKeepsComplete(NEW_BUS, actions);
    RunKeepsReached(NEW_BUS, actions);
    var b := Run(NEW_BUS, actions);
    forall t, id | t in b.publishers && b.publishers[t].left == {} && id in b.subs
      ensures b.subs[id] in b.channels && Accounted(b.channels[b.subs[id]], b.publishers[t], b.subs[id])
    {
      assert Open(b, b.subs[id]);
    }
  }

  // ----- the bus object, for callers nobody interrupts -----

  class BusObject {
    var subs: map<SubId, ChanId>
    var channels: map<ChanId, Channel>
    var next: ChanId
    var published: nat

    constructor ()
      ensures State() == NEW_BUS
    {
      subs, channels, next, published := map[], map[], 0, 0;
    }

    function State(): Bus
      reads this
    {
      Bus(subs, channels, map[], map[], next, published, 0)
    }

    /** Closing a closed channel would panic. */
    method Close(c: ChanId)
      requires Open(State(), c)
      modifies this`channels
      ensures channels == old(channels)[c := old(channels)[c].(closed := true)]
    {
      channels := channels[c := channels[c].(closed := true)];
    }

    method SubscribeTo(id: SubId, kinds: set<EventType>) returns (c: ChanId)
      requires Safe(State())
      modifies this
      ensures Safe(State()) && State() == Step(old(State()), Subscribe(id, kinds))
      ensures id in subs && c == subs[id] && Open(State(), c) && c !in old(channels)
      ensures channels[c] == Channel(kinds, [], [], [], false)
    {
      ghost var before := State();
      SubscribeKeepsSafe(before, id, kinds);
      if id in subs {
        assert subs[id] in before.subs.Values;
        EntryIsOpen(before, subs[id]);
        Close(subs[id]);
      }
      c := next;
      channels := channels[c := NewChannel(kinds)];
      subs := subs[id := c];
      next := next + 1;
      assert State() == Subscribed(before, id, kinds);
    }

    method UnsubscribeFrom(id: SubId)
      requires Safe(State())
      modifies this
      ensures State() == Step(Step(old(State()), Unsubscribe(0, id)), CloseNow(0))
    {
      if id in subs {
        var c := subs[id];
        subs := subs - {id};
        assert map[0 := c] - {0} == map[];
        Close(c);
      }
    }

    /** Every current subscriber that wants the event is tried once, in whatever order
        the map yields them; sending on a closed channel would panic. */
    method Publish(e: Event)
      requires Owned(State())
      modifies this`channels, this`published
      ensures published == old(published) + 1
      ensures PublishedTo(old(channels), channels, subs.Values, e, old(published))
    {
      var left := subs.Values;
      ghost var before := State();
      while left != {}
        invariant left <= subs.Values && published == before.published
        invariant PublishedTo(before.channels, channels, subs.Values - left, e, published)
        decreases left
      {
        var c :| c in left;
        EntryIsOpen(before, c);
        OneMorePublished(before.channels, channels, subs.Values - left, e, published, c);
        if Wants(channels[c], e) {
          channels := channels[c := Tried(channels[c], e, published)];
        }
        assert subs.Values - (left - {c}) == subs.Values - left + {c};
        left := left - {c};
      }
      assert subs.Values - {} == subs.Values;
      published := published + 1;
    }
  }

  /** `now` is `before` after one attempt at each of the visited channels that wants the
      event, and at no other. */
  ghost predicate PublishedTo(before: map<ChanId, Channel>, now: map<ChanId, Channel>, visited: set<ChanId>, e: Event,
                              publish: nat)
  {
    && now.Keys == before.Keys
    && forall c :: c in before ==>
         now[c] == if c in visited && (before[c].kinds == {} || e.kind in before[c].kinds) then
           Tried(before[c], e, publish) else before[c]
  }

  lemma OneMorePublished(before: map<ChanId, Channel>, now: map<ChanId, Channel>, visited: set<ChanId>, e: Event,
                         publish: nat, c: ChanId)
    requires PublishedTo(before, now, visited, e, publish) && c in before && c !in visited
    ensures now[c] == before[c]
    ensures var next := if Wants(now[c], e) then now[c := Tried(now[c], e, publish)] else now;
            PublishedTo(before, next, visited + {c}, e, publish)
  {
  }
}
