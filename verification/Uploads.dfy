/** The upload worker: its loop, and the worker interleaved with callers and readers. */
module Uploads {
  import opened Decimals
  import opened Prelude
  import opened Transfers

  const CHUNK := 65536

  /** Where chunk `k` starts. */
  function Offset(k: nat): nat {
    65536 * k
  }

  // ----- chunk keys -----

  function ChunkKey(msgId: string, offset: nat): string {
    msgId + "-chunk-" + Decimal(offset)
  }

  lemma ChunkKeyInjective(msgId: string, m: nat, n: nat)
    requires ChunkKey(msgId, m) == ChunkKey(msgId, n)
    ensures m == n
  {
    var prefix := msgId + "-chunk-";
    assert ChunkKey(msgId, m)[|prefix|..] == Decimal(m);
    assert ChunkKey(msgId, n)[|prefix|..] == Decimal(n);
    DecimalValue(m);
    DecimalValue(n);
  }

  // ----- chunks and the store they end up in -----

  /** One SaveMedia call: the chunk and the offset its key is made of. */
  datatype Save = Save(offset: nat, chunk: Bytes)

  function SaveAt(data: Bytes, k: nat): Save {
    Save(Offset(k), data[Min(Offset(k), |data|)..Min(Offset(k + 1), |data|)])
  }

  /** The first n saves of the 64 KiB split of `data`. */
  function Split(data: Bytes, n: nat): (saves: seq<Save>)
    ensures |saves| == n
  {
    if n == 0 then [] else Split(data, n - 1) + [SaveAt(data, n - 1)]
  }

  lemma {:induction false} SplitAt(data: Bytes, n: nat, k: nat)
    requires k < n
    ensures Split(data, n)[k] == SaveAt(data, k)
    decreases n
  {
    if k < n - 1 {
      SplitAt(data, n - 1, k);
    }
  }

  lemma SplitDistinct(data: Bytes, n: nat)
    ensures forall j, k :: 0 <= j < k < n ==> Split(data, n)[j].offset != Split(data, n)[k].offset
  {
    forall j, k | 0 <= j < k < n
      ensures Split(data, n)[j].offset != Split(data, n)[k].offset
    {
      SplitAt(data, n, j);
      SplitAt(data, n, k);
    }
  }

  function ChunksNeeded(length: nat): nat {
    (length + CHUNK - 1) / CHUNK
  }

  /** The media store after a sequence of saves on top of `base`. */
  function Written(base: map<string, Bytes>, msgId: string, saves: seq<Save>): map<string, Bytes> {
    if saves == [] then base
    else
      var last := saves[|saves| - 1];
      Written(base, msgId, saves[..|saves| - 1])[ChunkKey(msgId, last.offset) := last.chunk]
  }

  /** Saves under distinct offsets are all found again, and nothing else changed. */
  lemma {:induction false} WrittenHolds(base: map<string, Bytes>, msgId: string, saves: seq<Save>, key: string)
    requires forall j, k :: 0 <= j < k < |saves| ==> saves[j].offset != saves[k].offset
    ensures forall k :: 0 <= k < |saves| && key == ChunkKey(msgId, saves[k].offset) ==>
              key in Written(base, msgId, saves) && Written(base, msgId, saves)[key] == saves[k].chunk
    ensures (forall k :: 0 <= k < |saves| ==> key != ChunkKey(msgId, saves[k].offset)) ==>
              (key in Written(base, msgId, saves) <==> key in base) &&
              (key in base ==> Written(base, msgId, saves)[key] == base[key])
    decreases |saves|
  {
    if saves != [] {
      var n := |saves| - 1;
      WrittenHolds(base, msgId, saves[..n], key);
      var earlier, whole := Written(base, msgId, saves[..n]), Written(base, msgId, saves);
      if key == ChunkKey(msgId, saves[n].offset) {
        forall k | 0 <= k < n
          ensures key != ChunkKey(msgId, saves[k].offset)
        {
          if key == ChunkKey(msgId, saves[k].offset) {
            ChunkKeyInjective(msgId, saves[k].offset, saves[n].offset);
          }
        }
      } else {
        assert key in whole <==> key in earlier;
      }
    }
  }

  /** Reading the store back by offset. */
  function Joined(store: map<string, Bytes>, msgId: string, n: nat): Bytes {
    if n == 0 then []
    else
      var key := ChunkKey(msgId, Offset(n - 1));
      Joined(store, msgId, n - 1) + (if key in store then store[key] else [])
  }

  /** The key of each chunk of the split finds that chunk. */
  ghost predicate HoldsChunks(store: map<string, Bytes>, msgId: string, data: Bytes, n: nat) {
    forall k: nat :: k < n ==> HoldsChunk(store, msgId, data, k)
  }

  ghost predicate HoldsChunk(store: map<string, Bytes>, msgId: string, data: Bytes, k: nat) {
    var key := ChunkKey(msgId, Offset(k));
    key in store && store[key] == SaveAt(data, k).chunk
  }

  lemma WrittenHoldsChunks(base: map<string, Bytes>, msgId: string, data: Bytes, n: nat)
    ensures HoldsChunks(Written(base, msgId, Split(data, n)), msgId, data, n)
  {
    SplitDistinct(data, n);
    forall k: nat | k < n
      ensures HoldsChunk(Written(base, msgId, Split(data, n)), msgId, data, k)
    {
      SplitAt(data, n, k);
      WrittenHolds(base, msgId, Split(data, n), ChunkKey(msgId, Offset(k)));
    }
  }

  /** The stored chunks concatenate to the part of the data they cover. */
  lemma {:induction false} JoinedIsPrefix(store: map<string, Bytes>, msgId: string, data: Bytes, n: nat)
    requires HoldsChunks(store, msgId, data, n)
    ensures Joined(store, msgId, n) == data[..Min(Offset(n), |data|)]
  {
    if n > 0 {
      JoinedIsPrefix(store, msgId, data, n - 1);
      assert HoldsChunk(store, msgId, data, n - 1);
      var from, to := Min(Offset(n - 1), |data|), Min(Offset(n), |data|);
      assert data[..from] + data[from..to] == data[..to];
    }
  }

  /** After the last chunk the store holds exactly the data, in ceil(|data| / 64 KiB) pieces. */
  lemma WholeUpload(base: map<string, Bytes>, msgId: string, data: Bytes, n: nat)
    requires n > 0 ==> Offset(n - 1) < |data|
    requires Min(Offset(n), |data|) == |data|
    ensures n == ChunksNeeded(|data|)
    ensures Joined(Written(base, msgId, Split(data, n)), msgId, n) == data
  {
    WrittenHoldsChunks(base, msgId, data, n);
    JoinedIsPrefix(Written(base, msgId, Split(data, n)), msgId, data, n);
    assert data[..|data|] == data;
  }

  lemma WrittenNext(base: map<string, Bytes>, msgId: string, data: Bytes, n: nat, offset: nat, end: nat)
    requires offset == Offset(n) < |data| && end == Min(offset + CHUNK, |data|)
    ensures Written(base, msgId, Split(data, n + 1)) ==
            Written(base, msgId, Split(data, n))[ChunkKey(msgId, offset) := data[offset..end]]
  {
    assert Split(data, n + 1)[..n] == Split(data, n);
  }

  lemma ChunksNeededBounds(length: nat, n: nat)
    ensures n < ChunksNeeded(length) <==> Offset(n) < length
  {
  }

  // ----- the loop, for any sequence of things the worker may observe -----

  datatype Wake = WokenByResume | WokenByCancel | WokenByExpiry

  /** What one turn of the loop meets: the first select, the state read under the lock,
      the select of the pause, and the outcome of the save. */
  datatype Turn = Turn(cancel: bool, expired: bool, paused: bool, wake: Wake, saves: bool)

  predicate Stops(t: Turn) {
    t.cancel || t.expired || (t.paused && !t.wake.WokenByResume?) || !t.saves
  }

  /** The first n turns let the loop go on. */
  predicate NoneStops(turns: nat -> Turn, n: nat) {
    n == 0 || (!Stops(turns(n - 1)) && NoneStops(turns, n - 1))
  }

  function StopStatus(t: Turn): Status {
    if t.cancel || t.expired || (t.paused && !t.wake.WokenByResume?) then Cancelled else Failed
  }

  /** Cuts the next chunk, saves it under its offset, and says how far that gets. */
  method SaveNextChunk(msgId: string, data: Bytes, ghost base: map<string, Bytes>, store: map<string, Bytes>,
                       uploaded: nat, ghost n: nat)
    returns (store': map<string, Bytes>, uploaded': nat)
    requires uploaded == Offset(n) < |data|
    requires store == Written(base, msgId, Split(data, n))
    ensures store' == Written(base, msgId, Split(data, n + 1))
    ensures uploaded' == Min(Offset(n + 1), |data|)
  {
    var end := uploaded + CHUNK;
    if end > |data| {
      end := |data|;
    }
    var chunk := data[uploaded..end];
    WrittenNext(base, msgId, data, n, uploaded, end);
    store' := store[ChunkKey(msgId, uploaded) := chunk];
    uploaded' := uploaded + |chunk|;
  }

  /** The loop stores one chunk a turn until a turn stops it or the data runs out. */
  method RunUpload(msgId: string, data: Bytes, base: map<string, Bytes>, turns: nat -> Turn)
    returns (store: map<string, Bytes>, done: nat, chunks: nat, outcome: Status)
    ensures chunks <= ChunksNeeded(|data|)
    ensures done == Min(Offset(chunks), |data|) && store == Written(base, msgId, Split(data, chunks))
    ensures NoneStops(turns, chunks)
    ensures outcome.Completed? <==> done == |data|
    ensures chunks < ChunksNeeded(|data|) ==> Stops(turns(chunks)) && outcome == StopStatus(turns(chunks))
  {
    var total := |data|;
    var uploaded := 0;
    store, done, chunks := base, 0, 0;
    while uploaded < total
      invariant uploaded == done == Min(Offset(chunks), total)
      invariant chunks <= ChunksNeeded(total)
      invariant store == Written(base, msgId, Split(data, chunks))
      invariant NoneStops(turns, chunks)
      decreases total - uploaded
    {
      ChunksNeededBounds(total, chunks);
      var turn := turns(chunks);
      if turn.cancel || turn.expired {
        return store, done, chunks, Cancelled;
      }
      if turn.paused {
        if !turn.wake.WokenByResume? {
          return store, done, chunks, Cancelled;
        }
      }
      if !turn.saves {
        return store, done, chunks, Failed;
      }
      store, uploaded := SaveNextChunk(msgId, data, base, store, uploaded, chunks);
      done := uploaded;
      chunks := chunks + 1;
    }
    ChunksNeededBounds(total, chunks);
    return store, done, chunks, Completed;
  }

  // ----- the worker as interleaved atomic steps -----

  datatype Pc =
    | Starting                  // before the state becomes active
    | Guard                     // the loop test
    | CheckCancel               // the select with a default
    | CheckPause                // the locked read of the state
    | Waiting                   // the select of the pause
    | Waking                    // resumed, about to write the active state
    | Storing
    | Counting                  // stored, about to publish the new `done`
    | Finishing(status: Status)
    | Removing                  // finished, still listed
    | Gone

  datatype Upload = Upload(
    ctl: Control,
    meter: Meter,
    data: Bytes,
    pc: Pc,
    uploaded: nat,
    saves: seq<Save>,           // chunks stored so far
    finishes: nat)              // calls of finish so far

  /** What the environment decides at a worker step: which ready case a select takes,
      or whether a save succeeds. */
  datatype Pick = TakeResume | TakeCancel | TakeExpiry | SaveFails

  datatype Event = Work(pick: Pick) | Calls(call: Call) | Reads(read: Read)

  function NewUpload(data: Bytes): Upload {
    Upload(NEW_CONTROL, NewMeter(|data|), data, Starting, 0, [], 0)
  }

  function WorkStep(u: Upload, pick: Pick): Upload {
    match u.pc
    case Starting => u.(ctl := u.ctl.(status := Active), pc := Guard)
    case Guard => u.(pc := if u.uploaded < |u.data| then CheckCancel else Finishing(Completed))
    case CheckCancel =>
      if u.ctl.cancelToken && pick.TakeCancel? then u.(ctl := u.ctl.(cancelToken := false), pc := Finishing(Cancelled))
      else if u.ctl.expired && pick.TakeExpiry? then u.(pc := Finishing(Cancelled))
      else if !u.ctl.cancelToken && !u.ctl.expired then u.(pc := CheckPause)
      else u                                              // a ready case not picked this time
    case CheckPause => u.(pc := if u.ctl.status.Paused? then Waiting else Storing)
    case Waiting =>
      if u.ctl.resumeToken && pick.TakeResume? then u.(ctl := u.ctl.(resumeToken := false), pc := Waking)
      else if u.ctl.cancelToken && pick.TakeCancel? then
        u.(ctl := u.ctl.(cancelToken := false), pc := Finishing(Cancelled))
      else if u.ctl.expired && pick.TakeExpiry? then u.(pc := Finishing(Cancelled))
      else u                                              // blocked
    case Waking => u.(ctl := u.ctl.(status := Active), pc := Storing)
    case Storing =>
      if pick.SaveFails? then u.(pc := Finishing(Failed))
      else
        var end := Min(u.uploaded + CHUNK, |u.data|);
        if u.uploaded <= end
        then u.(saves := u.saves + [Save(u.uploaded, u.data[u.uploaded..end])], uploaded := end, pc := Counting)
        else u
    case Counting => u.(meter := u.meter.(done := u.uploaded), pc := Guard)
    case Finishing(status) => u.(ctl := u.ctl.(status := status), finishes := u.finishes + 1, pc := Removing)
    case Removing => u.(ctl := u.ctl.(listed := false), pc := Gone)
    case Gone => u
  }

  function Step(u: Upload, e: Event): Upload {
    match e
    case Work(pick) => WorkStep(u, pick)
    case Calls(call) => u.(ctl := CallStep(u.ctl, call))
    case Reads(read) => u.(meter := ReadStep(u.meter, u.ctl.status, read))
  }

  function Run(u: Upload, events: seq<Event>): Upload
    decreases |events|
  {
    if events == [] then u else Run(Step(u, events[0]), events[1..])
  }

  // ----- the invariant -----

  /** The stored chunks are the 64 KiB split of data[..uploaded]. */
  ghost predicate Partitioned(u: Upload) {
    && (|u.saves| > 0 ==> Offset(|u.saves| - 1) < |u.data|)
    && u.uploaded == Min(Offset(|u.saves|), |u.data|)
    && u.saves == Split(u.data, |u.saves|)
  }

  /** The published `done` lags by at most the chunk just stored. */
  ghost predicate Counted(u: Upload) {
    && u.meter.done <= u.uploaded <= |u.data| == u.meter.total
    && (!u.pc.Counting? ==> u.meter.done == u.uploaded)
    && (u.pc.CheckCancel? || u.pc.CheckPause? || u.pc.Waiting? || u.pc.Waking? || u.pc.Storing? ==>
        u.uploaded < |u.data|)
  }

  /** Somebody who changed a paused state has not sent the token yet. */
  ghost predicate TokenOnTheWay(ctl: Control) {
    exists id :: id in ctl.callers && Wakes(ctl.callers[id])
  }

  predicate Wakes(caller: Caller) {
    caller == Sending(Resume) || caller == Sending(Cancel)
  }

  /** A worker in the pause can be woken: the state is still Paused, a token is there,
      or one is on the way. */
  ghost predicate Wakeable(ctl: Control) {
    ctl.status.Paused? || ctl.resumeToken || ctl.cancelToken || TokenOnTheWay(ctl)
  }

  ghost predicate FinishedOnce(u: Upload) {
    && u.finishes == (if u.pc.Removing? || u.pc.Gone? then 1 else 0)
    && (u.pc.Finishing? ==> Finished(u.pc.status) && (u.pc.status.Completed? ==> u.uploaded == |u.data|))
    && (u.pc.Removing? || u.pc.Gone? ==> Finished(u.ctl.status))
    && (u.ctl.status.Completed? ==> (u.pc.Removing? || u.pc.Gone?) && u.uploaded == |u.data|)
    && (u.ctl.listed <==> !u.pc.Gone?)
    && (u.pc.Starting? ==> !u.ctl.status.Paused? && !u.ctl.status.Active?)
  }

  /** Nobody has seen Completed before the worker wrote it. */
  ghost predicate NotSeenYet(u: Upload) {
    !u.pc.Removing? && !u.pc.Gone? ==> forall id :: id in u.meter.readers ==> !u.meter.readers[id].status.Completed?
  }

  ghost predicate Inv(u: Upload) {
    Partitioned(u) && Counted(u) && (u.pc.Waiting? ==> Wakeable(u.ctl)) && FinishedOnce(u)
    && Consistent(u.meter) && Settled(u.meter, u.ctl.status) && NotSeenYet(u)
  }

  lemma WakerStays(ctl: Control, e: Call, id: nat)
    requires id in ctl.callers && Wakes(ctl.callers[id])
    ensures var ctl' := CallStep(ctl, e);
            if e == SendToken(id) then ctl'.resumeToken || ctl'.cancelToken
            else id in ctl'.callers && Wakes(ctl'.callers[id])
  {
  }

  lemma LeavingPauseWakes(ctl: Control, e: Call)
    requires ctl.status.Paused?
    ensures CallStep(ctl, e).status.Paused? || TokenOnTheWay(CallStep(ctl, e))
  {
    if !CallStep(ctl, e).status.Paused? {
      assert e.Press?;
      assert e.id in CallStep(ctl, e).callers;
    }
  }

  lemma CallKeepsWakeable(ctl: Control, e: Call)
    requires Wakeable(ctl)
    ensures Wakeable(CallStep(ctl, e))
  {
    if ctl.status.Paused? {
      LeavingPauseWakes(ctl, e);
    } else if TokenOnTheWay(ctl) {
      var id :| id in ctl.callers && Wakes(ctl.callers[id]);
      WakerStays(ctl, e, id);
    } else {
      CallFrame(ctl, e);
    }
  }

  lemma WorkKeepsPartitioned(u: Upload, pick: Pick)
    requires Partitioned(u) && Counted(u)
    ensures Partitioned(WorkStep(u, pick))
  {
    if u.pc.Storing? && !pick.SaveFails? {
      assert u.uploaded == Offset(|u.saves|);
      assert WorkStep(u, pick).saves == Split(u.data, |u.saves| + 1);
    }
  }

  /** The worker's `done` only grows; the rest of the meter is none of its business. */
  lemma WorkKeepsCounted(u: Upload, pick: Pick)
    requires Counted(u)
    ensures var u' := WorkStep(u, pick);
            && Counted(u') && u'.data == u.data
            && u.meter.done <= u'.meter.done && u'.meter == u.meter.(done := u'.meter.done)
  {
  }

  lemma WorkKeepsFinishedOnce(u: Upload, pick: Pick)
    requires Counted(u) && FinishedOnce(u)
    ensures FinishedOnce(WorkStep(u, pick))
  {
  }

  lemma StepKeepsInv(u: Upload, e: Event)
    requires Inv(u)
    ensures Inv(Step(u, e)) && Step(u, e).data == u.data && u.meter.done <= Step(u, e).meter.done
  {
    match e
    case Work(pick) =>
      WorkKeepsPartitioned(u, pick);
      WorkKeepsFinishedOnce(u, pick);
      WorkKeepsCounted(u, pick);
      assert WorkStep(u, pick).pc.Waiting? ==> WorkStep(u, pick).ctl == u.ctl;
    case Calls(call) =>
      CallFrame(u.ctl, call);
      if u.pc.Waiting? {
        CallKeepsWakeable(u.ctl, call);
      }
    case Reads(read) =>
      ReadKeepsConsistent(u.meter, u.ctl.status, read);
      ReadKeepsSettled(u.meter, u.ctl.status, read);
  }

  lemma {:induction false} RunKeepsInv(u: Upload, events: seq<Event>)
    requires Inv(u)
    ensures Inv(Run(u, events)) && Run(u, events).data == u.data && u.meter.done <= Run(u, events).meter.done
    decreases |events|
  {
    if events != [] {
      StepKeepsInv(u, events[0]);
      RunKeepsInv(Step(u, events[0]), events[1..]);
    }
  }

  // ----- what every run of an upload guarantees -----

  /** A paused worker never sleeps through its wake-up call. */
  lemma NoLostWakeUp(data: Bytes, events: seq<Event>)
    ensures var u := Run(NewUpload(data), events);
            u.pc.Waiting? ==>
              u.ctl.status.Paused? || u.ctl.resumeToken || u.ctl.cancelToken || TokenOnTheWay(u.ctl)
  {
    RunKeepsInv(NewUpload(data), events);
  }

  /** No progress snapshot shows more done than total, and one that shows Completed
      shows all of it done. */
  lemma UploadSnapshotsConsistent(data: Bytes, events: seq<Event>)
    ensures var m := Run(NewUpload(data), events).meter;
            forall i :: 0 <= i < |m.snapshots| ==>
              && m.snapshots[i].done <= m.snapshots[i].total
              && (m.snapshots[i].status.Completed? ==> m.snapshots[i].done == m.snapshots[i].total)
  {
    RunKeepsInv(NewUpload(data), events);
  }

  /** At any moment the store holds the uploaded prefix, whatever it held before; a
      completed transfer holds all of it, in ceil(total / 64 KiB) chunks; finish was
      called at most once. */
  lemma StoredIsUploaded(msgId: string, data: Bytes, base: map<string, Bytes>, events: seq<Event>)
    ensures var u := Run(NewUpload(data), events);
            var store := Written(base, msgId, u.saves);
            && u.uploaded <= |data| && Joined(store, msgId, |u.saves|) == data[..u.uploaded]
            && u.finishes <= 1 && (u.finishes == 1 <==> u.pc.Removing? || u.pc.Gone?)
            && (u.ctl.status.Completed? ==>
                  && |u.saves| == ChunksNeeded(|data|)
                  && Joined(store, msgId, |u.saves|) == data)
  {
    var u := Run(NewUpload(data), events);
    RunKeepsInv(NewUpload(data), events);
    WrittenHoldsChunks(base, msgId, data, |u.saves|);
    JoinedIsPrefix(Written(base, msgId, u.saves), msgId, data, |u.saves|);
    if u.ctl.status.Completed? {
      WholeUpload(base, msgId, data, |u.saves|);
    }
  }

  // ----- bounded cancel -----

  /** The worker can still store this many chunks before it looks at the channel again. */
  function Slack(u: Upload): nat {
    if u.pc.CheckPause? || u.pc.Waiting? || u.pc.Waking? || u.pc.Storing? then 1 else 0
  }

  /** The token is in the channel, or the worker is already ending. */
  predicate Doomed(u: Upload) {
    u.ctl.cancelToken || u.pc.Finishing? || u.pc.Removing? || u.pc.Gone?
  }

  lemma DoomedStep(u: Upload, e: Event)
    requires Doomed(u)
    ensures var u' := Step(u, e);
            Doomed(u') && |u'.saves| + Slack(u') <= |u.saves| + Slack(u)
  {
    if e.Calls? {
      CallFrame(u.ctl, e.call);
    }
  }

  lemma {:induction false} DoomedRun(u: Upload, events: seq<Event>)
    requires Doomed(u)
    ensures Doomed(Run(u, events)) && |Run(u, events).saves| <= |u.saves| + Slack(u)
    decreases |events|
  {
    if events != [] {
      DoomedStep(u, events[0]);
      DoomedRun(Step(u, events[0]), events[1..]);
    }
  }

  /** The worker has no step left to make. */
  ghost predicate AtRest(u: Upload) {
    forall pick :: WorkStep(u, pick) == u
  }

  /** A doomed worker only comes to rest by finishing. */
  lemma DoomedRestsFinished(u: Upload)
    requires Inv(u) && Doomed(u)
    ensures AtRest(u) <==> u.pc.Gone?
    ensures AtRest(u) ==> u.finishes == 1 && Finished(u.ctl.status)
  {
    StuckOnlyInPause(u);
  }

  /** Whatever happened before and happens after a Cancel places its token: at most one
      more chunk is stored; finish is called at most once, and exactly once by the time
      the worker is at rest, which takes a bounded number of steps and cannot be in the
      pause; and the transfer is Completed only with everything uploaded. */
  lemma BoundedCancel(data: Bytes, before: seq<Event>, id: nat, after: seq<Event>)
    requires var u := Run(NewUpload(data), before);
             id in u.ctl.callers && u.ctl.callers[id] == Sending(Cancel)
    ensures var u := Run(NewUpload(data), before);
            var u' := Run(Step(u, Calls(SendToken(id))), after);
            && |u'.saves| <= |u.saves| + 1 && u'.finishes <= 1
            && (AtRest(u') ==> u'.pc.Gone? && u'.finishes == 1)
            && WorkDone(Step(u, Calls(SendToken(id))), after) <= Measure(u)
            && (u'.ctl.status.Completed? ==> u'.uploaded == |data|)
  {
    var u := Run(NewUpload(data), before);
    var placed := Step(u, Calls(SendToken(id)));
    RunKeepsInv(NewUpload(data), before);
    StepKeepsInv(u, Calls(SendToken(id)));
    RunKeepsInv(placed, after);
    DoomedRun(placed, after);
    WorkIsBounded(placed, after);
    DoomedRestsFinished(Run(placed, after));
  }

  // ----- pause -----

  predicate PressFree(events: seq<Event>) {
    forall i :: 0 <= i < |events| ==> !(events[i].Calls? && events[i].call.Press?)
  }

  /** A resume token is there, or its sender is about to send it. */
  ghost predicate ResumeComing(ctl: Control) {
    ctl.resumeToken || exists id :: id in ctl.callers && ctl.callers[id] == Sending(Resume)
  }

  /** The worker can get to the select of the pause, if the transfer stays paused. */
  predicate ReachesPause(u: Upload) {
    var free := !u.ctl.cancelToken && !u.ctl.expired;
    match u.pc
    case Waiting => true
    case CheckPause => true
    case CheckCancel => free
    case Guard => u.uploaded < |u.data| && free
    case Counting => u.uploaded < |u.data| && free
    case Storing => u.uploaded + CHUNK < |u.data| && free
    case _ => false
  }

  /** When a pause can come undone by itself: the worker is past the select and about to
      write the active state, or it can get there and find a resume token, be it a stale
      one of an earlier Resume. */
  ghost predicate Undoable(u: Upload) {
    u.pc.Waking? || (ResumeComing(u.ctl) && ReachesPause(u))
  }

  ghost predicate Quiet(u: Upload) {
    || (u.ctl.status.Paused? && !Undoable(u) && !u.pc.Starting?)
    || u.pc.Finishing? || u.pc.Removing? || u.pc.Gone?
  }

  function InFlight(u: Upload): nat {
    if u.pc.Storing? then 1 else 0
  }

  lemma CallKeepsQuiet(ctl: Control, call: Call)
    requires !call.Press?
    ensures var ctl' := CallStep(ctl, call);
            && ctl'.status == ctl.status && (ResumeComing(ctl') ==> ResumeComing(ctl))
            && (ctl.cancelToken ==> ctl'.cancelToken) && (ctl.expired ==> ctl'.expired)
  {
  }

  lemma WorkKeepsQuiet(u: Upload, pick: Pick)
    requires Quiet(u)
    ensures var u' := WorkStep(u, pick);
            && Quiet(u') && |u'.saves| + InFlight(u') <= |u.saves| + InFlight(u)
  {
  }

  lemma QuietStep(u: Upload, e: Event)
    requires Quiet(u) && !(e.Calls? && e.call.Press?)
    ensures var u' := Step(u, e);
            && Quiet(u') && |u'.saves| + InFlight(u') <= |u.saves| + InFlight(u)
  {
    match e
    case Work(pick) => WorkKeepsQuiet(u, pick);
    case Calls(call) => CallKeepsQuiet(u.ctl, call);
    case Reads(_) =>
  }

  /** Until somebody presses another button a paused transfer that cannot come undone
      stores nothing, but for the chunk that was past the pause check already. */
  lemma {:induction false} PauseHolds(u: Upload, events: seq<Event>)
    requires Quiet(u) && PressFree(events)
    ensures |Run(u, events).saves| <= |u.saves| + InFlight(u)
    decreases |events|
  {
    if events != [] {
      QuietStep(u, events[0]);
      PauseHolds(Step(u, events[0]), events[1..]);
    }
  }

  /** How often a run takes the worker out of the pause, and how many resume tokens callers
      send in it. */
  function WakeUps(u: Upload, events: seq<Event>): nat
    decreases |events|
  {
    if events == [] then 0
    else (if WakesUp(u, events[0]) then 1 else 0) + WakeUps(Step(u, events[0]), events[1..])
  }

  predicate WakesUp(u: Upload, e: Event) {
    u.pc.Waiting? && Step(u, e).pc.Waking?
  }

  function ResumesSent(u: Upload, events: seq<Event>): nat
    decreases |events|
  {
    if events == [] then 0
    else (if SendsResume(u.ctl, events[0]) then 1 else 0) + ResumesSent(Step(u, events[0]), events[1..])
  }

  predicate SendsResume(ctl: Control, e: Event) {
    e.Calls? && e.call.SendToken? && e.call.id in ctl.callers && ctl.callers[e.call.id] == Sending(Resume)
  }

  function ResumeTokens(ctl: Control): nat {
    if ctl.resumeToken then 1 else 0
  }

  lemma TokenForWakeUp(u: Upload, e: Event)
    ensures var u' := Step(u, e);
            && ResumeTokens(u'.ctl) <= ResumeTokens(u.ctl) + (if SendsResume(u.ctl, e) then 1 else 0)
            && (WakesUp(u, e) ==> u.ctl.resumeToken && !u'.ctl.resumeToken)
  {
  }

  /** Each resume token ends one pause at most. */
  lemma {:induction false} WakesAreSent(u: Upload, events: seq<Event>)
    ensures WakeUps(u, events) + ResumeTokens(Run(u, events).ctl) <= ResumesSent(u, events) + ResumeTokens(u.ctl)
    decreases |events|
  {
    if events != [] {
      TokenForWakeUp(u, events[0]);
      WakesAreSent(Step(u, events[0]), events[1..]);
    }
  }

  /** Some continuation without a press stores `k` chunks in all. */
  ghost predicate CanStore(u: Upload, k: nat) {
    exists events: seq<Event> :: PressFree(events) && |Run(u, events).saves| >= k
  }

  lemma CanStoreNow(u: Upload, k: nat)
    requires |u.saves| >= k
    ensures CanStore(u, k)
  {
    assert PressFree([]) && Run(u, []) == u;
  }

  lemma CanStoreAfter(u: Upload, e: Event, k: nat)
    requires CanStore(Step(u, e), k) && !(e.Calls? && e.call.Press?)
    ensures CanStore(u, k)
  {
    var rest: seq<Event> :| PressFree(rest) && |Run(Step(u, e), rest).saves| >= k;
    var events := [e] + rest;
    assert events[1..] == rest;
    assert Run(u, events) == Run(Step(u, e), rest);
    assert PressFree(events);
  }

  /** Some continuation without a press shows the transfer active. */
  ghost predicate CanShowActive(u: Upload) {
    exists events: seq<Event> :: PressFree(events) && Run(u, events).ctl.status.Active?
  }

  lemma {:induction false} QuietNeverActive(u: Upload, events: seq<Event>)
    requires Inv(u) && Quiet(u) && !u.ctl.status.Active? && PressFree(events)
    ensures !Run(u, events).ctl.status.Active?
    decreases |events|
  {
    if events != [] {
      QuietStep(u, events[0]);
      StepKeepsInv(u, events[0]);
      QuietStepNotActive(u, events[0]);
      QuietNeverActive(Step(u, events[0]), events[1..]);
    }
  }

  lemma QuietStepNotActive(u: Upload, e: Event)
    requires Inv(u) && Quiet(u) && !u.ctl.status.Active? && !(e.Calls? && e.call.Press?)
    ensures !Step(u, e).ctl.status.Active?
  {
    match e
    case Work(_) =>
    case Calls(call) => CallKeepsQuiet(u.ctl, call);
    case Reads(_) =>
  }

  lemma ShowsActiveAfter(u: Upload, e: Event)
    requires CanShowActive(Step(u, e)) && !(e.Calls? && e.call.Press?)
    ensures CanShowActive(u)
  {
    var rest: seq<Event> :| PressFree(rest) && Run(Step(u, e), rest).ctl.status.Active?;
    var events := [e] + rest;
    assert events[1..] == rest;
    assert Run(u, events) == Run(Step(u, e), rest);
    assert PressFree(events);
  }

  /** Both at once: storing in the end, and showing active on the way. */
  lemma UndoneAfter(u: Upload, e: Event, k: nat)
    requires CanStore(Step(u, e), k) && CanShowActive(Step(u, e)) && !(e.Calls? && e.call.Press?)
    ensures CanStore(u, k) && CanShowActive(u)
  {
    CanStoreAfter(u, e, k);
    ShowsActiveAfter(u, e);
  }

  lemma WakingStores(u: Upload)
    requires u.pc.Waking? && u.uploaded < |u.data|
    ensures CanStore(u, |u.saves| + 1) && CanShowActive(u)
  {
    var active := WorkStep(u, TakeResume);
    CanStoreNow(WorkStep(active, TakeResume), |u.saves| + 1);
    CanStoreAfter(active, Work(TakeResume), |u.saves| + 1);
    assert PressFree([]) && Run(active, []) == active;
    UndoneAfter(u, Work(TakeResume), |u.saves| + 1);
  }

  lemma TokenWakes(u: Upload)
    requires u.ctl.status.Paused? && u.ctl.resumeToken && u.uploaded < |u.data|
    requires u.pc.Waiting? || u.pc.CheckPause?
    ensures CanStore(u, |u.saves| + 1) && CanShowActive(u)
  {
    var waiting := if u.pc.Waiting? then u else WorkStep(u, TakeResume);
    WakingStores(WorkStep(waiting, TakeResume));
    UndoneAfter(waiting, Work(TakeResume), |u.saves| + 1);
    if u.pc.CheckPause? {
      UndoneAfter(u, Work(TakeResume), |u.saves| + 1);
    }
  }

  lemma TokenWakesEarlier(u: Upload)
    requires u.ctl.status.Paused? && u.ctl.resumeToken && u.uploaded < |u.data|
    requires !u.ctl.cancelToken && !u.ctl.expired
    requires u.pc.CheckCancel? || u.pc.Guard? || u.pc.Counting?
    ensures CanStore(u, |u.saves| + 1) && CanShowActive(u)
    decreases Rank(u.pc)
  {
    var next := WorkStep(u, TakeResume);
    if u.pc.CheckCancel? {
      TokenWakes(next);
    } else {
      TokenWakesEarlier(next);
    }
    UndoneAfter(u, Work(TakeResume), |u.saves| + 1);
  }

  lemma TokenUndoesPause(u: Upload)
    requires Counted(u) && u.ctl.status.Paused? && u.ctl.resumeToken && ReachesPause(u)
    ensures CanStore(u, |u.saves| + 1 + InFlight(u)) && CanShowActive(u)
  {
    if u.pc.Storing? {
      TokenWakesEarlier(WorkStep(u, TakeResume));
      UndoneAfter(u, Work(TakeResume), |u.saves| + 2);
    } else if u.pc.Waiting? || u.pc.CheckPause? {
      TokenWakes(u);
    } else {
      TokenWakesEarlier(u);
    }
  }

  /** Exactly when a pause can come undone: without any press more than the chunk in
      flight can be stored if and only if a resume token, sent or on the way, can meet
      the worker at the pause, or the worker is already leaving an earlier one. */
  lemma PauseUndoneIff(u: Upload)
    requires Inv(u) && u.ctl.status.Paused?
    ensures CanStore(u, |u.saves| + 1 + InFlight(u)) <==> Undoable(u)
    ensures CanShowActive(u) <==> Undoable(u)
  {
    if u.pc.Waking? {
      WakingStores(u);
    } else if Undoable(u) {
      if u.ctl.resumeToken {
        TokenUndoesPause(u);
      } else {
        var id :| id in u.ctl.callers && u.ctl.callers[id] == Sending(Resume);
        TokenUndoesPause(Step(u, Calls(SendToken(id))));
        UndoneAfter(u, Calls(SendToken(id)), |u.saves| + 1 + InFlight(u));
      }
    } else {
      forall events: seq<Event> | PressFree(events)
        ensures |Run(u, events).saves| <= |u.saves| + InFlight(u)
        ensures !Run(u, events).ctl.status.Active?
      {
        PauseHolds(u, events);
        QuietNeverActive(u, events);
      }
    }
  }

  lemma {:induction false} RunAppend(u: Upload, a: seq<Event>, b: seq<Event>)
    ensures Run(u, a + b) == Run(Run(u, a), b)
    decreases |a|
  {
    if a == [] {
      assert a + b == b;
    } else {
      assert (a + b)[1..] == a[1..] + b;
      RunAppend(Step(u, a[0]), a[1..], b);
    }
  }

  /** A call that nobody interrupts. */
  function WholeCall(id: nat, b: Button): seq<Event> {
    [Calls(Lookup(id, b)), Calls(Press(id)), Calls(SendToken(id))]
  }

  lemma RunWholeCall(u: Upload, id: nat, b: Button)
    requires id !in u.ctl.callers && u.ctl.listed && Enabled(b, u.ctl.status)
    ensures Run(u, WholeCall(id, b)) == u.(ctl := WithToken(u.ctl.(status := Target(b)), b))
  {
    var events := WholeCall(id, b);
    CalledAlone(u.ctl, id, b);
    var u1 := Step(u, events[0]);
    var u2 := Step(u1, events[1]);
    assert events[1..][1..] == [events[2]] && events[1..][1..][1..] == [];
    assert Run(u, events) == Run(u1, events[1..]) == Run(u2, [events[2]]) == Step(u2, events[2]);
  }

  /** Pause, Resume while the worker is busy, and Pause again. */
  function StaleToken(): seq<Event> {
    [Work(TakeResume)] + WholeCall(0, Pause) + WholeCall(0, Resume) + WholeCall(0, Pause)
  }

  /** The failure is within reach: the token of the Resume nobody waited for ends the
      second pause, although nobody presses anything any more. */
  lemma StaleTokenEndsPause(data: Bytes)
    requires data != []
    ensures var u := Run(NewUpload(data), StaleToken());
            && u.ctl.status.Paused? && u.ctl.callers == map[] && u.saves == []
            && Undoable(u) && CanStore(u, 1) && CanShowActive(u)
  {
    var started := Step(NewUpload(data), Work(TakeResume));
    var first, second := WholeCall(0, Pause), WholeCall(0, Resume);
    assert [Work(TakeResume)][1..] == [] && Run(NewUpload(data), [Work(TakeResume)]) == Run(started, []) == started;
    RunAppend(NewUpload(data), [Work(TakeResume)], first);
    RunWholeCall(started, 0, Pause);
    var paused := Run(started, first);
    RunAppend(NewUpload(data), [Work(TakeResume)] + first, second);
    RunWholeCall(paused, 0, Resume);
    var resumed := Run(paused, second);
    RunAppend(NewUpload(data), [Work(TakeResume)] + first + second, first);
    RunWholeCall(resumed, 0, Pause);
    var u := Run(resumed, first);
    assert u == Run(NewUpload(data), StaleToken());
    RunKeepsInv(NewUpload(data), StaleToken());
    PauseUndoneIff(u);
  }

  // ----- termination -----

  function Rank(pc: Pc): nat {
    match pc
    case Starting => 10
    case Counting => 9
    case Guard => 8
    case CheckCancel => 7
    case CheckPause => 6
    case Waiting => 5
    case Waking => 4
    case Storing => 3
    case Finishing(_) => 2
    case Removing => 1
    case Gone => 0
  }

  function Measure(u: Upload): int {
    11 * (|u.data| - u.uploaded) + Rank(u.pc)
  }

  /** Every worker step that does anything brings the end nearer. */
  lemma WorkDescends(u: Upload, pick: Pick)
    requires Counted(u)
    ensures WorkStep(u, pick) == u || Measure(WorkStep(u, pick)) < Measure(u)
  {
  }

  function WorkDone(u: Upload, events: seq<Event>): nat
    decreases |events|
  {
    if events == [] then 0
    else (if events[0].Work? && Step(u, events[0]) != u then 1 else 0) + WorkDone(Step(u, events[0]), events[1..])
  }

  /** No run makes the worker move more often than its measure allows, however often it
      is paused and resumed. */
  lemma {:induction false} WorkIsBounded(u: Upload, events: seq<Event>)
    requires Inv(u)
    ensures WorkDone(u, events) <= Measure(u) - Measure(Run(u, events)) <= Measure(u)
    decreases |events|
  {
    if events != [] {
      StepKeepsInv(u, events[0]);
      if events[0].Work? {
        WorkDescends(u, events[0].pick);
      }
      WorkIsBounded(Step(u, events[0]), events[1..]);
    }
  }

  /** The worker is stuck only when it is gone, or paused with no token and a live context. */
  lemma StuckOnlyInPause(u: Upload)
    requires Inv(u)
    ensures (forall pick :: WorkStep(u, pick) == u) <==>
            u.pc.Gone? || (u.pc.Waiting? && !u.ctl.resumeToken && !u.ctl.cancelToken && !u.ctl.expired)
  {
    if u.pc.CheckCancel? || u.pc.Waiting? {
      var pick := if u.ctl.cancelToken then TakeCancel else if u.ctl.expired then TakeExpiry else TakeResume;
      assert WorkStep(u, pick).pc == u.pc <==>
             u.pc.Waiting? && !u.ctl.resumeToken && !u.ctl.cancelToken && !u.ctl.expired;
    } else if !u.pc.Gone? {
      assert WorkStep(u, TakeCancel).pc != u.pc;
    }
  }

  // ----- how the worker ends -----

  /** Why the worker leaves its loop: the loop test found everything stored, a save
      failed, or a select took a cancel token or the end of the context. */
  datatype Exit = AllStored | SaveFailed | TokenTaken | ContextEnded

  /** The exit an event is, read off what the worker meets and not off what it does. */
  function ExitAt(u: Upload, e: Event): Option<Exit> {
    if !e.Work? then None
    else if u.pc.Guard? && u.uploaded >= |u.data| then Some(AllStored)
    else if u.pc.Storing? && e.pick.SaveFails? then Some(SaveFailed)
    else if (u.pc.CheckCancel? || u.pc.Waiting?) && u.ctl.cancelToken && e.pick.TakeCancel? then Some(TokenTaken)
    else if (u.pc.CheckCancel? || u.pc.Waiting?) && u.ctl.expired && e.pick.TakeExpiry? then Some(ContextEnded)
    else None
  }

  /** The first exit of a run, if there is one. */
  function ExitOf(u: Upload, events: seq<Event>): Option<Exit>
    decreases |events|
  {
    if events == [] then None
    else if ExitAt(u, events[0]).Some? then ExitAt(u, events[0])
    else ExitOf(Step(u, events[0]), events[1..])
  }

  predicate Ending(u: Upload) {
    u.pc.Finishing? || u.pc.Removing? || u.pc.Gone?
  }

  /** The status a transfer is to end with. */
  ghost predicate EndsAs(u: Upload, exit: Option<Exit>) {
    match exit
    case None => !Ending(u)
    case Some(x) =>
      && Ending(u)
      && (x.AllStored? ==> u.uploaded == |u.data|)
      && var status := if u.pc.Finishing? then u.pc.status else u.ctl.status;
         match x
         case AllStored => status == Completed
         case SaveFailed => status == Failed
         case TokenTaken => status == Cancelled
         case ContextEnded => status == Cancelled
  }

  lemma WorkEndsAs(u: Upload, pick: Pick, exit: Option<Exit>)
    requires Inv(u) && EndsAs(u, exit)
    ensures EndsAs(WorkStep(u, pick), if exit.Some? then exit else ExitAt(u, Work(pick)))
  {
  }

  lemma StepEndsAs(u: Upload, e: Event, exit: Option<Exit>)
    requires Inv(u) && EndsAs(u, exit)
    ensures EndsAs(Step(u, e), if exit.Some? then exit else ExitAt(u, e))
  {
    match e
    case Work(pick) => WorkEndsAs(u, pick, exit);
    case Calls(call) => CallFrame(u.ctl, call);
    case Reads(_) =>
  }

  lemma {:induction false} RunEndsAs(u: Upload, events: seq<Event>, exit: Option<Exit>)
    requires Inv(u) && EndsAs(u, exit)
    ensures EndsAs(Run(u, events), if exit.Some? then exit else ExitOf(u, events))
    decreases |events|
  {
    if events != [] {
      StepKeepsInv(u, events[0]);
      StepEndsAs(u, events[0], exit);
      RunEndsAs(Step(u, events[0]), events[1..], if exit.Some? then exit else ExitAt(u, events[0]));
    }
  }

  /** After the exit there is no other. */
  lemma {:induction false} NoSecondExit(u: Upload, events: seq<Event>)
    requires Ending(u)
    ensures ExitOf(u, events) == None
    decreases |events|
  {
    if events != [] {
      NoSecondExit(Step(u, events[0]), events[1..]);
    }
  }

  /** In every run: a transfer that has left its worker is Completed exactly if the loop
      test found everything stored, Failed exactly if a save failed, and Cancelled exactly
      if a select took a token or the end of the context; and the worker has left exactly
      if one of these happened. */
  lemma FinalStatusIff(data: Bytes, events: seq<Event>)
    ensures var u, exit := Run(NewUpload(data), events), ExitOf(NewUpload(data), events);
            && (Ending(u) <==> exit.Some?)
            && (u.pc.Removing? || u.pc.Gone? ==>
                  && (u.ctl.status == Completed <==> exit == Some(AllStored))
                  && (u.ctl.status == Failed <==> exit == Some(SaveFailed))
                  && (u.ctl.status == Cancelled <==> exit == Some(TokenTaken) || exit == Some(ContextEnded)))
            && (exit == Some(AllStored) ==> u.uploaded == |data|)
  {
    RunEndsAs(NewUpload(data), events, None);
    RunKeepsInv(NewUpload(data), events);
  }

  /** The end of the context reaches a worker in the pause: it can leave, Cancelled. */
  lemma ContextEndsPause(u: Upload)
    requires Inv(u) && u.pc.Waiting?
    ensures var u' := Run(u, [Calls(Expire), Work(TakeExpiry), Work(TakeExpiry)]);
            u'.pc.Removing? && u'.ctl.status == Cancelled
  {
    var u1 := Step(u, Calls(Expire));
    var u2 := Step(u1, Work(TakeExpiry));
    var events := [Calls(Expire), Work(TakeExpiry), Work(TakeExpiry)];
    assert events[1..][1..] == [Work(TakeExpiry)] && [Work(TakeExpiry)][1..] == [];
    assert Run(u, events) == Run(u1, events[1..]) == Run(u2, [Work(TakeExpiry)]);
    assert Run(u2, [Work(TakeExpiry)]) == Run(Step(u2, Work(TakeExpiry)), []);
  }

  /** The worker alone, with every save working. */
  predicate Undisturbed(events: seq<Event>) {
    forall i :: 0 <= i < |events| ==> events[i].Work? && !events[i].pick.SaveFails?
  }

  /** What such a worker shows: pending before it starts, active while it works, and
      completed when it is done. */
  ghost predicate Alone(u: Upload) {
    && u.ctl.callers == map[] && !u.ctl.cancelToken && !u.ctl.expired
    && match u.pc
       case Starting => u.ctl.status == Pending
       case Waiting => false
       case Waking => false
       case Finishing(status) => status == Completed && u.ctl.status == Active
       case Removing => u.ctl.status == Completed
       case Gone => u.ctl.status == Completed
       case _ => u.ctl.status == Active
  }

  lemma {:induction false} StaysAlone(u: Upload, events: seq<Event>)
    requires Alone(u) && Undisturbed(events)
    ensures Alone(Run(u, events))
    decreases |events|
  {
    if events != [] {
      assert events[0].Work? && !events[0].pick.SaveFails?;
      StaysAlone(Step(u, events[0]), events[1..]);
    }
  }

  /** Left alone an upload shows itself active until it is completed, and comes to rest
      only with everything stored, its state Completed, and off the list. */
  lemma UndisturbedUploadCompletes(data: Bytes, events: seq<Event>)
    requires Undisturbed(events)
    ensures var u := Run(NewUpload(data), events);
            && Alone(u)
            && (AtRest(u) ==> u.ctl.status == Completed && u.uploaded == |data| && !u.ctl.listed)
  {
    var u := Run(NewUpload(data), events);
    StaysAlone(NewUpload(data), events);
    RunKeepsInv(NewUpload(data), events);
    StuckOnlyInPause(u);
  }

  /** Buttons and reports go to the upload's own control and meter: pressed or read without
      interruption they do what the button and the report do, and leave the worker be. */
  lemma ButtonsAndReports(u: Upload, id: nat, b: Button)
    requires id !in u.meter.readers
    ensures Step(Step(Step(u, Calls(Lookup(id, b))), Calls(Press(id))), Calls(SendToken(id))) ==
            u.(ctl := Called(u.ctl, id, b))
    ensures Step(Step(Step(u, Reads(ReadState(id))), Reads(ReadDone(id))), Reads(ReadTotal(id))) ==
            u.(meter := u.meter.(snapshots :=
              u.meter.snapshots + [Snapshot(u.ctl.status, u.meter.done, u.meter.total)]))
  {
    ReadAlone(u.meter, u.ctl.status, id);
  }
}
