/** Store-and-forward on the relay: the message table, the 200-row batches a peer gets
    on authentication, and the 256-slot queue they go into. */
module Offline {
  import opened Prelude

  type PeerKey = string
  type MsgId = string

  const BATCH := 200
  const QUEUE := 256

  datatype Row = Row(id: MsgId, recipient: PeerKey, sentAt: int, payload: Bytes, delivered: bool)

  /** The table in insertion order. */
  type Table = seq<Row>

  datatype Frame = AuthOk | Relay(payload: Bytes) | Control(code: nat)

  // ----- the table -----

  predicate Has(rows: Table, id: MsgId) {
    exists r :: r in rows && r.id == id
  }

  /** INSERT OR IGNORE: the identifier is the primary key and the first row wins. */
  function Stored(rows: Table, id: MsgId, recipient: PeerKey, sentAt: int, payload: Bytes): Table {
    if Has(rows, id) then rows else rows + [Row(id, recipient, sentAt, payload, false)]
  }

  ghost predicate UniqueIds(rows: Table) {
    forall i, j :: 0 <= i < j < |rows| ==> rows[i].id != rows[j].id
  }

  /** Into its place by time, behind the rows of the same time. */
  function Inserted(sorted: seq<Row>, r: Row): seq<Row> {
    if sorted == [] then [r]
    else
      var n := |sorted| - 1;
      if sorted[n].sentAt <= r.sentAt then sorted + [r]
      else Inserted(sorted[..n], r) + [sorted[n]]
  }

  predicate Waiting(r: Row, peer: PeerKey) {
    r.recipient == peer && !r.delivered
  }

  /** The undelivered rows of a peer ordered by time, ties in insertion order. */
  function Backlog(rows: Table, peer: PeerKey): seq<Row> {
    if rows == [] then []
    else
      var n := |rows| - 1;
      var earlier := Backlog(rows[..n], peer);
      if Waiting(rows[n], peer) then Inserted(earlier, rows[n]) else earlier
  }

  /** What the query returns: the first 200. */
  function Batch(rows: Table, peer: PeerKey): seq<Row> {
    var backlog := Backlog(rows, peer);
    backlog[..Min(BATCH, |backlog|)]
  }

  function Ids(rows: seq<Row>): seq<MsgId> {
    seq(|rows|, i requires 0 <= i < |rows| => rows[i].id)
  }

  function Payloads(rows: seq<Row>): seq<Frame> {
    seq(|rows|, i requires 0 <= i < |rows| => Relay(rows[i].payload))
  }

  /** UPDATE ... SET delivered = 1 for every identifier listed. */
  function Marked(rows: Table, ids: seq<MsgId>): Table {
    seq(|rows|, i requires 0 <= i < |rows| => if rows[i].id in ids then rows[i].(delivered := true) else rows[i])
  }

  // ----- the queue -----

  function Sent(queue: seq<Frame>, f: Frame): seq<Frame> {
    if |queue| < QUEUE then queue + [f] else queue
  }

  function SentAll(queue: seq<Frame>, frames: seq<Frame>): seq<Frame>
    decreases |frames|
  {
    if frames == [] then queue else SentAll(Sent(queue, frames[0]), frames[1..])
  }

  /** Sends that find the queue full are dropped, and nothing else happens to it. */
  lemma {:induction false} SentAllIsPrefix(queue: seq<Frame>, frames: seq<Frame>)
    requires |queue| <= QUEUE
    ensures SentAll(queue, frames) == queue + frames[..Min(|frames|, QUEUE - |queue|)]
    decreases |frames|
  {
    if frames != [] {
      SentAllIsPrefix(Sent(queue, frames[0]), frames[1..]);
      if |queue| < QUEUE {
        var m := Min(|frames|, QUEUE - |queue|);
        assert [frames[0]] + frames[1..][..m - 1] == frames[..m];
        assert queue + [frames[0]] + frames[1..][..m - 1] == queue + ([frames[0]] + frames[1..][..m - 1]);
      }
    }
  }

  // ----- one authentication -----

  datatype Handed = Handed(rows: Table, queue: seq<Frame>)

  /** The acknowledgement, then the batch, then the whole batch is marked. */
  function Authenticated(rows: Table, peer: PeerKey, queue: seq<Frame>): Handed {
    var batch := Batch(rows, peer);
    Handed(Marked(rows, Ids(batch)), SentAll(Sent(queue, AuthOk), Payloads(batch)))
  }

  /** Everything marked really entered the queue if and only if the batch fits behind
      what is there: 55 frames, the acknowledgement and 200 rows make 256. */
  lemma MarkedWereQueuedIff(rows: Table, peer: PeerKey, queue: seq<Frame>)
    requires |queue| <= QUEUE
    ensures var acked, batch := Sent(queue, AuthOk), Batch(rows, peer);
            Authenticated(rows, peer, queue).queue == acked + Payloads(batch) <==> |acked| + |batch| <= QUEUE
    ensures |queue| <= 55 ==>
              Authenticated(rows, peer, queue).queue == queue + [AuthOk] + Payloads(Batch(rows, peer))
  {
    SentAllIsPrefix(Sent(queue, AuthOk), Payloads(Batch(rows, peer)));
  }

  // ----- what the backlog is -----

  ghost predicate Sorted(s: seq<Row>) {
    forall i, j :: 0 <= i < j < |s| ==> s[i].sentAt <= s[j].sentAt
  }

  lemma {:induction false} InsertedContents(sorted: seq<Row>, r: Row)
    ensures multiset(Inserted(sorted, r)) == multiset(sorted) + multiset{r}
  {
    if sorted != [] {
      var n := |sorted| - 1;
      assert sorted == sorted[..n] + [sorted[n]];
      if sorted[n].sentAt > r.sentAt {
        InsertedContents(sorted[..n], r);
      }
    }
  }

  lemma {:induction false} InsertedSorted(sorted: seq<Row>, r: Row)
    requires Sorted(sorted)
    ensures Sorted(Inserted(sorted, r))
  {
    if sorted != [] {
      var n := |sorted| - 1;
      if sorted[n].sentAt > r.sentAt {
        var first := Inserted(sorted[..n], r);
        InsertedSorted(sorted[..n], r);
        forall i | 0 <= i < |first|
          ensures first[i].sentAt <= sorted[n].sentAt
        {
          InsertedMember(sorted[..n], r, first[i]);
        }
      }
    }
  }

  lemma {:induction false} InsertedMember(sorted: seq<Row>, r: Row, x: Row)
    ensures x in Inserted(sorted, r) <==> x in sorted || x == r
  {
    if sorted != [] {
      var n := |sorted| - 1;
      assert sorted == sorted[..n] + [sorted[n]];
      if sorted[n].sentAt > r.sentAt {
        InsertedMember(sorted[..n], r, x);
      }
    }
  }

  /** A permutation of the waiting rows, in time order. */
  lemma {:induction false} BacklogIsSortedWaiting(rows: Table, peer: PeerKey)
    ensures Sorted(Backlog(rows, peer))
    ensures multiset(Backlog(rows, peer)) == multiset(WaitingRows(rows, peer))
  {
    if rows != [] {
      var n := |rows| - 1;
      BacklogIsSortedWaiting(rows[..n], peer);
      InsertedContents(Backlog(rows[..n], peer), rows[n]);
      InsertedSorted(Backlog(rows[..n], peer), rows[n]);
    }
  }

  /** The rows addressed to a peer and not marked, in table order. */
  function WaitingRows(rows: Table, peer: PeerKey): seq<Row> {
    if rows == [] then []
    else
      var n := |rows| - 1;
      WaitingRows(rows[..n], peer) + (if rows[n].recipient == peer && !rows[n].delivered then [rows[n]] else [])
  }

  lemma {:induction false} BacklogMembers(rows: Table, peer: PeerKey, r: Row)
    ensures r in Backlog(rows, peer) <==> r in rows && Waiting(r, peer)
  {
    if rows != [] {
      var n := |rows| - 1;
      BacklogMembers(rows[..n], peer, r);
      InsertedMember(Backlog(rows[..n], peer), rows[n], r);
    }
  }

  /** A peer's batch holds rows addressed to that peer and not marked yet, and no others. */
  lemma BatchIsAddressed(rows: Table, peer: PeerKey, r: Row)
    requires r in Batch(rows, peer)
    ensures r in rows && r.recipient == peer && !r.delivered
  {
    BacklogMembers(rows, peer, r);
  }

  /** If there are at most 200 such rows the batch holds all of them. */
  lemma BatchIsWhole(rows: Table, peer: PeerKey, r: Row)
    requires |WaitingRows(rows, peer)| <= 200
    requires r in rows && r.recipient == peer && !r.delivered
    ensures r in Batch(rows, peer)
  {
    BacklogIsSortedWaiting(rows, peer);
    assert |multiset(Backlog(rows, peer))| == |multiset(WaitingRows(rows, peer))|;
    BacklogMembers(rows, peer, r);
    assert Batch(rows, peer) == Backlog(rows, peer);
  }

  /** An authentication marks rows of its own peer only, and changes nothing but the mark. */
  lemma AuthenticationTouchesOwnRows(rows: Table, peer: PeerKey, queue: seq<Frame>, i: nat)
    requires UniqueIds(rows) && i < |rows|
    ensures var rows' := Authenticated(rows, peer, queue).rows;
            && |rows'| == |rows|
            && (rows'[i] == rows[i] ||
                (rows[i].recipient == peer && !rows[i].delivered && rows'[i] == rows[i].(delivered := true)))
  {
    var batch := Batch(rows, peer);
    MarkedRows(rows, Ids(batch), i);
    if rows[i].id in Ids(batch) {
      var k :| 0 <= k < |batch| && Ids(batch)[k] == rows[i].id;
      assert batch[k] in batch;
      BatchIsAddressed(rows, peer, batch[k]);
      var j :| 0 <= j < |rows| && rows[j] == batch[k];
      assert i == j;
    }
  }

  // ----- marking a prefix leaves the rest -----

  function Unlisted(s: seq<Row>, ids: seq<MsgId>): seq<Row> {
    if s == [] then []
    else
      var n := |s| - 1;
      Unlisted(s[..n], ids) + (if s[n].id in ids then [] else [s[n]])
  }

  lemma {:induction false} UnlistedInserted(sorted: seq<Row>, r: Row, ids: seq<MsgId>)
    requires Sorted(sorted)
    ensures Unlisted(Inserted(sorted, r), ids) ==
            if r.id in ids then Unlisted(sorted, ids) else Inserted(Unlisted(sorted, ids), r)
    decreases |sorted|
  {
    var n := |sorted| - 1;
    if sorted == [] || sorted[n].sentAt <= r.sentAt {
      UnlistedSnoc(sorted, r, ids);
      UnlistedBound(sorted, ids, r.sentAt);
      assert sorted == [] ==> sorted + [r] == [r];
    } else {
      assert sorted == sorted[..n] + [sorted[n]];
      UnlistedInserted(sorted[..n], r, ids);
      UnlistedInsertedEarlier(sorted[..n], sorted[n], r, ids);
    }
  }

  /** What holds of an insertion keeps holding under a later last row. */
  lemma UnlistedInsertedEarlier(first: seq<Row>, last: Row, r: Row, ids: seq<MsgId>)
    requires last.sentAt > r.sentAt
    requires Unlisted(Inserted(first, r), ids) ==
             if r.id in ids then Unlisted(first, ids) else Inserted(Unlisted(first, ids), r)
    ensures Unlisted(Inserted(first + [last], r), ids) ==
            if r.id in ids then Unlisted(first + [last], ids) else Inserted(Unlisted(first + [last], ids), r)
  {
    InsertedSnoc(first, last, r);
    UnlistedSnoc(first, last, ids);
    UnlistedSnoc(Inserted(first, r), last, ids);
    InsertedSnoc(Unlisted(first, ids), last, r);
  }

  lemma UnlistedSnoc(s: seq<Row>, r: Row, ids: seq<MsgId>)
    ensures Unlisted(s + [r], ids) == Unlisted(s, ids) + (if r.id in ids then [] else [r])
    ensures r.id in ids ==> Unlisted(s + [r], ids) == Unlisted(s, ids)
  {
    assert (s + [r])[..|s|] == s;
  }

  lemma InsertedSnoc(s: seq<Row>, last: Row, r: Row)
    requires last.sentAt > r.sentAt
    ensures Inserted(s + [last], r) == Inserted(s, r) + [last]
  {
    assert (s + [last])[..|s|] == s;
  }

  /** Nothing later than the bound survives if nothing later was there. */
  lemma {:induction false} UnlistedBound(s: seq<Row>, ids: seq<MsgId>, bound: int)
    requires forall i :: 0 <= i < |s| ==> s[i].sentAt <= bound
    ensures forall i :: 0 <= i < |Unlisted(s, ids)| ==> Unlisted(s, ids)[i].sentAt <= bound
  {
    if s != [] {
      UnlistedBound(s[..|s| - 1], ids, bound);
    }
  }

  /** Marking rows takes exactly the listed ones out of the backlog. */
  lemma {:induction false} BacklogOfMarked(rows: Table, peer: PeerKey, ids: seq<MsgId>)
    ensures Backlog(Marked(rows, ids), peer) == Unlisted(Backlog(rows, peer), ids)
  {
    if rows != [] {
      var n := |rows| - 1;
      BacklogOfMarked(rows[..n], peer, ids);
      assert Marked(rows, ids)[..n] == Marked(rows[..n], ids);
      BacklogIsSortedWaiting(rows[..n], peer);
      if Waiting(rows[n], peer) {
        UnlistedInserted(Backlog(rows[..n], peer), rows[n], ids);
      }
    }
  }

  lemma {:induction false} UnlistedAppend(s: seq<Row>, t: seq<Row>, ids: seq<MsgId>)
    ensures Unlisted(s + t, ids) == Unlisted(s, ids) + Unlisted(t, ids)
  {
    if t == [] {
      assert s + t == s;
    } else {
      var n := |t| - 1;
      assert (s + t)[..|s| + n] == s + t[..n];
      UnlistedAppend(s, t[..n], ids);
    }
  }

  lemma {:induction false} UnlistedAll(s: seq<Row>, ids: seq<MsgId>)
    requires forall i :: 0 <= i < |s| ==> s[i].id in ids
    ensures Unlisted(s, ids) == []
  {
    if s != [] {
      UnlistedAll(s[..|s| - 1], ids);
    }
  }

  lemma {:induction false} UnlistedNone(s: seq<Row>, ids: seq<MsgId>)
    requires forall i :: 0 <= i < |s| ==> s[i].id !in ids
    ensures Unlisted(s, ids) == s
  {
    if s != [] {
      UnlistedNone(s[..|s| - 1], ids);
    }
  }

  // ----- identifiers stay unique -----

  lemma MarkedKeepsUnique(rows: Table, ids: seq<MsgId>)
    requires UniqueIds(rows)
    ensures UniqueIds(Marked(rows, ids))
  {
    assert forall i :: 0 <= i < |rows| ==> Marked(rows, ids)[i].id == rows[i].id;
  }

  lemma StoredKeepsUnique(rows: Table, id: MsgId, recipient: PeerKey, sentAt: int, payload: Bytes)
    requires UniqueIds(rows)
    ensures UniqueIds(Stored(rows, id, recipient, sentAt, payload))
    ensures Has(Stored(rows, id, recipient, sentAt, payload), id)
  {
    var rows' := Stored(rows, id, recipient, sentAt, payload);
    if !Has(rows, id) {
      assert rows'[|rows|] in rows';
      forall i | 0 <= i < |rows|
        ensures rows[i].id != id
      {
        assert rows[i] in rows;
      }
    }
  }

  /** Relaying a message again, whatever it says this time, changes nothing. */
  lemma StoredOnce(rows: Table, id: MsgId, r1: PeerKey, t1: int, p1: Bytes, r2: PeerKey, t2: int, p2: Bytes)
    ensures Stored(Stored(rows, id, r1, t1, p1), id, r2, t2, p2) == Stored(rows, id, r1, t1, p1)
  {
    var once := Stored(rows, id, r1, t1, p1);
    if !Has(rows, id) {
      assert once[|rows|] in once;
    }
  }

  lemma {:induction false} InsertedKeepsUnique(sorted: seq<Row>, r: Row)
    requires UniqueIds(sorted) && forall i :: 0 <= i < |sorted| ==> sorted[i].id != r.id
    ensures UniqueIds(Inserted(sorted, r))
  {
    if sorted != [] {
      var n := |sorted| - 1;
      if sorted[n].sentAt > r.sentAt {
        var first := Inserted(sorted[..n], r);
        InsertedKeepsUnique(sorted[..n], r);
        forall i | 0 <= i < |first|
          ensures first[i].id != sorted[n].id
        {
          InsertedMember(sorted[..n], r, first[i]);
        }
      }
    }
  }

  lemma {:induction false} BacklogUnique(rows: Table, peer: PeerKey)
    requires UniqueIds(rows)
    ensures UniqueIds(Backlog(rows, peer))
  {
    if rows != [] {
      var n := |rows| - 1;
      var earlier := Backlog(rows[..n], peer);
      BacklogUnique(rows[..n], peer);
      if Waiting(rows[n], peer) {
        forall i | 0 <= i < |earlier|
          ensures earlier[i].id != rows[n].id
        {
          BacklogMembers(rows[..n], peer, earlier[i]);
        }
        InsertedKeepsUnique(earlier, rows[n]);
      }
    }
  }

  lemma UnlistedJoin(a: seq<Row>, b: seq<Row>, ids: seq<MsgId>)
    requires forall i :: 0 <= i < |a| ==> a[i].id in ids
    requires forall i :: 0 <= i < |b| ==> b[i].id !in ids
    ensures Unlisted(a + b, ids) == b
  {
    UnlistedAll(a, ids);
    UnlistedNone(b, ids);
    UnlistedAppend(a, b, ids);
  }

  lemma AllListed(a: seq<Row>)
    ensures forall i :: 0 <= i < |a| ==> a[i].id in Ids(a)
  {
    forall i | 0 <= i < |a|
      ensures a[i].id in Ids(a)
    {
      assert Ids(a)[i] == a[i].id;
    }
  }

  lemma NoneListed(a: seq<Row>, b: seq<Row>, i: nat)
    requires UniqueIds(a + b) && i < |b|
    ensures b[i].id !in Ids(a)
  {
    assert (a + b)[|a| + i] == b[i];
    assert forall j :: 0 <= j < |a| ==> Ids(a)[j] == (a + b)[j].id;
  }

  /** Taking out a prefix by its identifiers leaves the rest. */
  lemma PrefixUnlisted(a: seq<Row>, b: seq<Row>)
    requires UniqueIds(a + b)
    ensures Unlisted(a + b, Ids(a)) == b
  {
    AllListed(a);
    forall i | 0 <= i < |b|
      ensures b[i].id !in Ids(a)
    {
      NoneListed(a, b, i);
    }
    UnlistedJoin(a, b, Ids(a));
  }

  /** One authentication takes the first 200 of the backlog and nothing else. */
  lemma BacklogAfterAuthentication(rows: Table, peer: PeerKey)
    requires UniqueIds(rows)
    ensures var backlog := Backlog(rows, peer);
            Backlog(Marked(rows, Ids(Batch(rows, peer))), peer) == backlog[Min(BATCH, |backlog|)..]
  {
    var backlog, batch := Backlog(rows, peer), Batch(rows, peer);
    var rest := backlog[|batch|..];
    assert batch + rest == backlog;
    BacklogOfMarked(rows, peer, Ids(batch));
    BacklogUnique(rows, peer);
    PrefixUnlisted(batch, rest);
  }

  // ----- several authentications in a row -----

  /** The rows after `k` authentications, and everything the batches contained. */
  function Rounds(rows: Table, peer: PeerKey, k: nat): (Table, seq<Row>)
    decreases k
  {
    if k == 0 then (rows, [])
    else
      var batch := Batch(rows, peer);
      var (rows', more) := Rounds(Marked(rows, Ids(batch)), peer, k - 1);
      (rows', batch + more)
  }

  /** 200 rows for each authentication. */
  function UpTo(k: nat): nat {
    200 * k
  }

  lemma TakeTwice(s: seq<Row>, a: nat, b: nat)
    requires a + b <= |s|
    ensures s[..a] + s[a..][..b] == s[..a + b]
    ensures s[a..][b..] == s[a + b..]
  {
  }

  /** Taking 200 and then 200 for each further round is taking 200 for each round. */
  lemma TakeRound(s: seq<Row>, k: nat)
    requires k > 0
    ensures var first := Min(BATCH, |s|);
            var more := Min(|s| - first, UpTo(k - 1));
            && s[..first] + s[first..][..more] == s[..Min(|s|, UpTo(k))]
            && s[first..][more..] == s[Min(|s|, UpTo(k))..]
  {
    var first := Min(BATCH, |s|);
    TakeTwice(s, first, Min(|s| - first, UpTo(k - 1)));
  }

  /** With a backlog of n, k authentications hand out exactly the first min(n, 200 k), in
      time order and each once, and leave the rest. */
  lemma RoundsDrainInOrder(rows: Table, peer: PeerKey, k: nat)
    requires UniqueIds(rows)
    ensures var backlog := Backlog(rows, peer);
            var m := Min(|backlog|, UpTo(k));
            && Rounds(rows, peer, k).1 == backlog[..m]
            && Backlog(Rounds(rows, peer, k).0, peer) == backlog[m..]
            && UniqueIds(backlog) && Sorted(backlog)
  {
    BacklogUnique(rows, peer);
    BacklogIsSortedWaiting(rows, peer);
    RoundsTakePrefix(rows, peer, k, Backlog(rows, peer));
  }

  lemma {:induction false} RoundsTakePrefix(rows: Table, peer: PeerKey, k: nat, backlog: seq<Row>)
    requires UniqueIds(rows) && backlog == Backlog(rows, peer)
    ensures Rounds(rows, peer, k).1 == backlog[..Min(|backlog|, UpTo(k))]
    ensures Backlog(Rounds(rows, peer, k).0, peer) == backlog[Min(|backlog|, UpTo(k))..]
    decreases k
  {
    if k > 0 {
      var rows1 := Marked(rows, Ids(Batch(rows, peer)));
      MarkedKeepsUnique(rows, Ids(Batch(rows, peer)));
      BacklogAfterAuthentication(rows, peer);
      RoundsTakePrefix(rows1, peer, k - 1, backlog[Min(BATCH, |backlog|)..]);
      OneMoreTaken(rows, peer, k, backlog);
    }
  }

  lemma OneMoreTaken(rows: Table, peer: PeerKey, k: nat, backlog: seq<Row>)
    requires k > 0 && backlog == Backlog(rows, peer)
    requires var rest := backlog[Min(BATCH, |backlog|)..];
             var after := Rounds(Marked(rows, Ids(Batch(rows, peer))), peer, k - 1);
             var more := Min(|rest|, UpTo(k - 1));
             after.1 == rest[..more] && Backlog(after.0, peer) == rest[more..]
    ensures Rounds(rows, peer, k).1 == backlog[..Min(|backlog|, UpTo(k))]
    ensures Backlog(Rounds(rows, peer, k).0, peer) == backlog[Min(|backlog|, UpTo(k))..]
  {
    RoundsStep(rows, peer, k);
    TakeRound(backlog, k);
  }

  lemma RoundsStep(rows: Table, peer: PeerKey, k: nat)
    requires k > 0
    ensures Rounds(rows, peer, k).1 == Batch(rows, peer) + Rounds(Marked(rows, Ids(Batch(rows, peer))), peer, k - 1).1
    ensures Rounds(rows, peer, k).0 == Rounds(Marked(rows, Ids(Batch(rows, peer))), peer, k - 1).0
  {
  }

  /** The message frames that successive authentications append, behind their
      acknowledgements, to whatever queues they find. */
  function Appended(rows: Table, peer: PeerKey, queues: seq<seq<Frame>>): seq<Frame>
    decreases |queues|
  {
    if queues == [] then []
    else BehindAck(rows, peer, queues[0]) + Appended(Authenticated(rows, peer, queues[0]).rows, peer, queues[1..])
  }

  function BehindAck(rows: Table, peer: PeerKey, queue: seq<Frame>): seq<Frame> {
    var acked, after := Sent(queue, AuthOk), Authenticated(rows, peer, queue).queue;
    if |acked| <= |after| then after[|acked|..] else []
  }

  lemma BehindAckIsBatch(rows: Table, peer: PeerKey, queue: seq<Frame>)
    requires |queue| <= 55
    ensures BehindAck(rows, peer, queue) == Payloads(Batch(rows, peer))
  {
    MarkedWereQueuedIff(rows, peer, queue);
    assert Sent(queue, AuthOk) == queue + [AuthOk];
  }

  /** And the queues get exactly those rows, in that order, when each has at most 55 other
      frames in it. */
  lemma RoundsReachQueuesInOrder(rows: Table, peer: PeerKey, queues: seq<seq<Frame>>)
    requires UniqueIds(rows)
    requires forall i :: 0 <= i < |queues| ==> |queues[i]| <= 55
    ensures var backlog := Backlog(rows, peer);
            Appended(rows, peer, queues) == Payloads(backlog[..Min(|backlog|, UpTo(|queues|))])
  {
    RoundsDrainInOrder(rows, peer, |queues|);
    AppendedIsRounds(rows, peer, queues, |queues|);
  }

  lemma AppendedStep(rows: Table, peer: PeerKey, queues: seq<seq<Frame>>)
    requires queues != [] && |queues[0]| <= 55
    ensures Appended(rows, peer, queues) ==
            Payloads(Batch(rows, peer)) + Appended(Marked(rows, Ids(Batch(rows, peer))), peer, queues[1..])
  {
    BehindAckIsBatch(rows, peer, queues[0]);
  }

  lemma {:induction false} AppendedIsRounds(rows: Table, peer: PeerKey, queues: seq<seq<Frame>>, k: nat)
    requires k == |queues| && forall i :: 0 <= i < |queues| ==> |queues[i]| <= 55
    ensures Appended(rows, peer, queues) == Payloads(Rounds(rows, peer, k).1)
    decreases k
  {
    if k == 0 {
      assert Rounds(rows, peer, k).1 == [];
    } else {
      var rows1 := Marked(rows, Ids(Batch(rows, peer)));
      AppendedIsRounds(rows1, peer, queues[1..], k - 1);
      OneMoreRound(rows, peer, queues, k, Rounds(rows1, peer, k - 1).1);
    }
  }

  lemma OneMoreRound(rows: Table, peer: PeerKey, queues: seq<seq<Frame>>, k: nat, more: seq<Row>)
    requires k > 0 && queues != [] && |queues[0]| <= 55
    requires var rows1 := Marked(rows, Ids(Batch(rows, peer)));
             more == Rounds(rows1, peer, k - 1).1 && Appended(rows1, peer, queues[1..]) == Payloads(more)
    ensures Appended(rows, peer, queues) == Payloads(Rounds(rows, peer, k).1)
  {
    AppendedStep(rows, peer, queues);
    RoundsStep(rows, peer, k);
    PayloadsAppend(Batch(rows, peer), more);
  }

  lemma PayloadsAppend(a: seq<Row>, b: seq<Row>)
    ensures Payloads(a + b) == Payloads(a) + Payloads(b)
  {
  }

  // ----- the books of what authentications hand out -----

  /** The table, and the identifiers whose frames an authentication put into a queue,
      oldest first. Frames pushed to live connections are not part of these books. */
  datatype Ledger = Ledger(rows: Table, handedOut: seq<MsgId>)

  datatype LedgerEvent =
    | Store(id: MsgId, recipient: PeerKey, sentAt: int, payload: Bytes)
    | Authenticate(peer: PeerKey, queue: seq<Frame>)

  /** How much of the batch finds room behind the acknowledgement. */
  function Room(queue: seq<Frame>): nat {
    var acked := Sent(queue, AuthOk);
    if |acked| <= QUEUE then QUEUE - |acked| else 0
  }

  function Posted(s: Ledger, e: LedgerEvent): Ledger {
    match e
    case Store(id, recipient, sentAt, payload) => s.(rows := Stored(s.rows, id, recipient, sentAt, payload))
    case Authenticate(peer, queue) =>
      var batch := Batch(s.rows, peer);
      Ledger(Authenticated(s.rows, peer, queue).rows, s.handedOut + Ids(batch[..Min(|batch|, Room(queue))]))
  }

  function PostedAll(s: Ledger, events: seq<LedgerEvent>): Ledger
    decreases |events|
  {
    if events == [] then s else PostedAll(Posted(s, events[0]), events[1..])
  }

  /** The log is what the queue shows: the frames appended are those of the logged rows. */
  lemma HandedOutIsWhatTheQueueGot(s: Ledger, peer: PeerKey, queue: seq<Frame>)
    requires |queue| <= QUEUE
    ensures var batch := Batch(s.rows, peer);
            var m := Min(|batch|, Room(queue));
            && Authenticated(s.rows, peer, queue).queue == Sent(queue, AuthOk) + Payloads(batch[..m])
            && Posted(s, Authenticate(peer, queue)).handedOut == s.handedOut + Ids(batch[..m])
  {
    var batch := Batch(s.rows, peer);
    var m := Min(|batch|, Room(queue));
    SentAllIsPrefix(Sent(queue, AuthOk), Payloads(batch));
    assert Payloads(batch)[..m] == Payloads(batch[..m]);
  }

  ghost predicate NoRepeats(ids: seq<MsgId>) {
    forall i, j :: 0 <= i < j < |ids| ==> ids[i] != ids[j]
  }

  /** A row is delivered exactly if an authentication put its frame into a queue, and no
      two authentications did. */
  ghost predicate Conserved(s: Ledger) {
    && UniqueIds(s.rows)
    && NoRepeats(s.handedOut)
    && (forall r :: r in s.rows ==> (r.delivered <==> r.id in s.handedOut))
    && (forall id :: id in s.handedOut ==> Has(s.rows, id))
  }

  predicate Fits(s: Ledger, peer: PeerKey, queue: seq<Frame>) {
    |Batch(s.rows, peer)| <= Room(queue)
  }

  lemma StoreKeepsConserved(s: Ledger, id: MsgId, recipient: PeerKey, sentAt: int, payload: Bytes)
    requires Conserved(s)
    ensures Conserved(Posted(s, Store(id, recipient, sentAt, payload)))
  {
    StoredKeepsUnique(s.rows, id, recipient, sentAt, payload);
    var rows' := Stored(s.rows, id, recipient, sentAt, payload);
    assert s.rows <= rows';
    forall x | Has(s.rows, x)
      ensures Has(rows', x)
    {
      var r :| r in s.rows && r.id == x;
      assert r in rows';
    }
  }

  lemma MarkedRows(rows: Table, ids: seq<MsgId>, i: nat)
    requires i < |rows|
    ensures Marked(rows, ids)[i] == rows[i].(delivered := rows[i].delivered || rows[i].id in ids)
  {
  }

  /** What a batch consists of. */
  lemma BatchRow(rows: Table, peer: PeerKey, i: nat)
    requires i < |Batch(rows, peer)|
    ensures Batch(rows, peer)[i] in rows && Waiting(Batch(rows, peer)[i], peer)
  {
    BacklogMembers(rows, peer, Backlog(rows, peer)[i]);
  }

  lemma FittingKeepsConserved(s: Ledger, peer: PeerKey, queue: seq<Frame>)
    requires Conserved(s) && Fits(s, peer, queue)
    ensures Conserved(Posted(s, Authenticate(peer, queue)))
  {
    var s' := Posted(s, Authenticate(peer, queue));
    var batch := Batch(s.rows, peer);
    var ids := Ids(batch);
    assert batch[..|batch|] == batch;
    MarkedKeepsUnique(s.rows, ids);
    BacklogUnique(s.rows, peer);
    forall i | 0 <= i < |ids|
      ensures ids[i] !in s.handedOut && Has(s.rows, ids[i])
    {
      BatchRow(s.rows, peer, i);
    }
    forall r | r in s'.rows
      ensures r.delivered <==> r.id in s'.handedOut
    {
      var i :| 0 <= i < |s.rows| && s'.rows[i] == r;
      MarkedRows(s.rows, ids, i);
      assert s.rows[i] in s.rows;
    }
    forall id | id in s'.handedOut
      ensures Has(s'.rows, id)
    {
      var r :| r in s.rows && r.id == id;
      var i :| 0 <= i < |s.rows| && s.rows[i] == r;
      assert s'.rows[i] in s'.rows;
    }
  }

  /** The books stay straight exactly when the batch finds room. */
  lemma AuthenticateConservedIff(s: Ledger, peer: PeerKey, queue: seq<Frame>)
    requires Conserved(s) && |queue| <= QUEUE
    ensures Conserved(Posted(s, Authenticate(peer, queue))) <==> Fits(s, peer, queue)
    ensures |queue| <= 55 ==> Fits(s, peer, queue)
  {
    if Fits(s, peer, queue) {
      FittingKeepsConserved(s, peer, queue);
    } else {
      var s' := Posted(s, Authenticate(peer, queue));
      var batch := Batch(s.rows, peer);
      var m := Room(queue);
      BatchRow(s.rows, peer, m);
      BacklogUnique(s.rows, peer);
      assert Ids(batch)[m] == batch[m].id;
      var i :| 0 <= i < |s.rows| && s.rows[i] == batch[m];
      assert s'.rows[i] in s'.rows && s'.rows[i].delivered;
      assert batch[m].id !in Ids(batch[..m]);
    }
  }

  /** In every run of these steps whose connections have at most 55 other frames queued,
      what authentications mark is what they hand out, and they hand nothing out twice. */
  lemma {:induction false} RunConserves(s: Ledger, events: seq<LedgerEvent>)
    requires Conserved(s)
    requires forall i :: 0 <= i < |events| && events[i].Authenticate? ==> |events[i].queue| <= 55
    ensures Conserved(PostedAll(s, events))
    decreases |events|
  {
    if events != [] {
      match events[0] {
        case Store(id, recipient, sentAt, payload) => StoreKeepsConserved(s, id, recipient, sentAt, payload);
        case Authenticate(peer, queue) =>
          assert |events[0].queue| <= 55;
          AuthenticateConservedIff(s, peer, queue);
      }
      RunConserves(Posted(s, events[0]), events[1..]);
    }
  }
}
