/** Media transfers: the state shared by one worker, any number of callers of Pause,
    Resume and Cancel, and any number of readers of the progress. */
module Transfers {

  datatype Status = Pending | Active | Paused | Completed | Failed | Cancelled

  predicate Finished(s: Status) {
    s.Completed? || s.Failed? || s.Cancelled?
  }

  datatype Button = Pause | Resume | Cancel

  /** A caller that looked the transfer up, and one that has written the state but not
      yet sent its token. */
  datatype Caller = Found(b: Button) | Sending(b: Button)

  /** A progress reader after the locked read of the state, and after loading `done`. */
  datatype Reader = SawState(status: Status) | SawDone(status: Status, done: nat)

  datatype Snapshot = Snapshot(status: Status, done: nat, total: nat)

  /** What callers and the worker use to control the transfer. */
  datatype Control = Control(
    status: Status,
    pauseToken: bool,       // the three channels of capacity one
    resumeToken: bool,
    cancelToken: bool,
    listed: bool,           // still in the manager's table
    expired: bool,          // the context is done
    callers: map<nat, Caller>)

  /** What the worker publishes and readers load. */
  datatype Meter = Meter(
    done: nat,
    total: nat,
    readers: map<nat, Reader>,
    snapshots: seq<Snapshot>)

  const NEW_CONTROL := Control(Pending, false, false, false, true, false, map[])

  function NewMeter(total: nat): Meter {
    Meter(0, total, map[], [])
  }

  // ----- callers -----

  predicate Enabled(b: Button, s: Status) {
    match b
    case Pause => s.Active?
    case Resume => s.Paused?
    case Cancel => !Finished(s)
  }

  function Target(b: Button): Status {
    match b
    case Pause => Paused
    case Resume => Active
    case Cancel => Cancelled
  }

  /** The locked section: refuse, or write the new state. */
  function Pressed(ctl: Control, id: nat, b: Button): Control {
    if Enabled(b, ctl.status)
    then ctl.(status := Target(b), callers := ctl.callers[id := Sending(b)])
    else ctl.(callers := ctl.callers - {id})
  }

  /** The non-blocking send: a full channel swallows the token. */
  function WithToken(ctl: Control, b: Button): Control {
    match b
    case Pause => ctl.(pauseToken := true)
    case Resume => ctl.(resumeToken := true)
    case Cancel => ctl.(cancelToken := true)
  }

  datatype Call = Lookup(id: nat, b: Button) | Press(id: nat) | SendToken(id: nat) | Expire

  /** One atomic step of a caller, or the context ending. A step that is not possible
      does nothing. */
  function CallStep(ctl: Control, e: Call): Control {
    match e
    case Lookup(id, b) =>
      if id !in ctl.callers && ctl.listed then ctl.(callers := ctl.callers[id := Found(b)]) else ctl
    case Press(id) =>
      if id in ctl.callers && ctl.callers[id].Found? then Pressed(ctl, id, ctl.callers[id].b) else ctl
    case SendToken(id) =>
      if id in ctl.callers && ctl.callers[id].Sending?
      then WithToken(ctl.(callers := ctl.callers - {id}), ctl.callers[id].b) else ctl
    case Expire => ctl.(expired := true)
  }

  /** A call that nobody interrupts: look up, press, send the token. */
  ghost function Called(ctl: Control, id: nat, b: Button): Control {
    CallStep(CallStep(CallStep(ctl, Lookup(id, b)), Press(id)), SendToken(id))
  }

  /** Its net effect, with the caller gone again. */
  lemma CalledAlone(ctl: Control, id: nat, b: Button)
    requires id !in ctl.callers && ctl.listed
    ensures Called(ctl, id, b) == if Enabled(b, ctl.status) then WithToken(ctl.(status := Target(b)), b) else ctl
  {
    var found := CallStep(ctl, Lookup(id, b));
    assert found.callers - {id} == ctl.callers;
    var pressed := CallStep(found, Press(id));
    assert pressed.callers - {id} == ctl.callers;
  }

  /** Button by button, with the caller gone again: Cancel is refused in the three
      finished states, Pause needs Active and Resume needs Paused; a refused call changes
      nothing, and the others write the new state and place their own token. */
  lemma ButtonsDo(ctl: Control, id: nat)
    requires id !in ctl.callers && ctl.listed
    ensures Called(ctl, id, Cancel) ==
            if ctl.status == Completed || ctl.status == Failed || ctl.status == Cancelled then ctl
            else ctl.(status := Cancelled, cancelToken := true)
    ensures Called(ctl, id, Pause) ==
            if ctl.status == Active then ctl.(status := Paused, pauseToken := true) else ctl
    ensures Called(ctl, id, Resume) ==
            if ctl.status == Paused then ctl.(status := Active, resumeToken := true) else ctl
  {
    CalledAlone(ctl, id, Cancel);
    CalledAlone(ctl, id, Pause);
    CalledAlone(ctl, id, Resume);
  }

  /** Nothing happens to a transfer that is no longer listed. */
  lemma UnlistedIsNotFound(ctl: Control, id: nat, b: Button)
    requires id !in ctl.callers && !ctl.listed
    ensures Called(ctl, id, b) == ctl
  {
  }

  /** Callers never end a transfer for good, nor take a token back. */
  lemma CallFrame(ctl: Control, e: Call)
    ensures var ctl' := CallStep(ctl, e);
            && ctl'.listed == ctl.listed
            && (Finished(ctl.status) ==> ctl'.status == ctl.status)
            && (ctl'.status.Completed? ==> ctl.status.Completed?)
            && (ctl'.status.Paused? || ctl'.status.Active? ==> ctl.status.Paused? || ctl.status.Active?)
            && (ctl.cancelToken ==> ctl'.cancelToken) && (ctl.resumeToken ==> ctl'.resumeToken)
  {
  }

  // ----- readers -----

  datatype Read = ReadState(id: nat) | ReadDone(id: nat) | ReadTotal(id: nat)

  /** The three loads of a progress report, in the order the code makes them. */
  function ReadStep(m: Meter, status: Status, e: Read): Meter {
    match e
    case ReadState(id) =>
      if id !in m.readers then m.(readers := m.readers[id := SawState(status)]) else m
    case ReadDone(id) =>
      if id in m.readers && m.readers[id].SawState?
      then m.(readers := m.readers[id := SawDone(m.readers[id].status, m.done)]) else m
    case ReadTotal(id) =>
      if id in m.readers && m.readers[id].SawDone?
      then m.(readers := m.readers - {id},
              snapshots := m.snapshots + [Snapshot(m.readers[id].status, m.readers[id].done, m.total)])
      else m
  }

  /** A report that nobody interrupts tells the state and both numbers as they are. */
  lemma ReadAlone(m: Meter, status: Status, id: nat)
    requires id !in m.readers
    ensures ReadStep(ReadStep(ReadStep(m, status, ReadState(id)), status, ReadDone(id)), status, ReadTotal(id)) ==
            m.(snapshots := m.snapshots + [Snapshot(status, m.done, m.total)])
  {
    assert m.readers[id := SawDone(status, m.done)] - {id} == m.readers;
  }

  /** Nobody has seen, or is about to see, more done than total. */
  ghost predicate Consistent(m: Meter) {
    && m.done <= m.total
    && (forall id :: id in m.readers && m.readers[id].SawDone? ==> m.readers[id].done <= m.total)
    && (forall i :: 0 <= i < |m.snapshots| ==> m.snapshots[i].done <= m.snapshots[i].total)
  }

  /** Whoever saw the state Completed finds everything done. */
  ghost predicate Settled(m: Meter, status: Status) {
    && (status.Completed? ==> m.done == m.total)
    && (forall id :: id in m.readers && m.readers[id].status.Completed? ==>
          m.done == m.total && (m.readers[id].SawDone? ==> m.readers[id].done == m.total))
    && (forall i :: 0 <= i < |m.snapshots| && m.snapshots[i].status.Completed? ==>
        m.snapshots[i].done == m.snapshots[i].total)
  }

  lemma ReadKeepsConsistent(m: Meter, status: Status, e: Read)
    requires Consistent(m)
    ensures Consistent(ReadStep(m, status, e))
    ensures ReadStep(m, status, e).done == m.done && ReadStep(m, status, e).total == m.total
  {
  }

  lemma ReadKeepsSettled(m: Meter, status: Status, e: Read)
    requires Settled(m, status)
    ensures Settled(ReadStep(m, status, e), status)
  {
  }

  // ----- the transfer object, for callers running alone -----

  class Transfer {
    var status: Status
    var pauseToken: bool
    var resumeToken: bool
    var cancelToken: bool

    constructor ()
      ensures Is(NEW_CONTROL)
    {
      status := Pending;
      pauseToken, resumeToken, cancelToken := false, false, false;
    }

    /** The fields are those of `ctl`. */
    predicate Is(ctl: Control)
      reads this
    {
      && status == ctl.status
      && pauseToken == ctl.pauseToken && resumeToken == ctl.resumeToken && cancelToken == ctl.cancelToken
    }

    method CancelTransfer(ghost ctl: Control, ghost id: nat) returns (ok: bool)
      requires Is(ctl) && id !in ctl.callers && ctl.listed
      modifies this
      ensures ok == Enabled(Cancel, ctl.status)
      ensures Is(Called(ctl, id, Cancel))
    {
      CalledAlone(ctl, id, Cancel);
      if status.Completed? || status.Failed? || status.Cancelled? {
        return false;
      }
      status := Cancelled;
      if !cancelToken {
        cancelToken := true;
      }
      return true;
    }

    method PauseTransfer(ghost ctl: Control, ghost id: nat) returns (ok: bool)
      requires Is(ctl) && id !in ctl.callers && ctl.listed
      modifies this
      ensures ok == Enabled(Pause, ctl.status)
      ensures Is(Called(ctl, id, Pause))
    {
      CalledAlone(ctl, id, Pause);
      if !status.Active? {
        return false;
      }
      status := Paused;
      if !pauseToken {
        pauseToken := true;
      }
      return true;
    }

    method ResumeTransfer(ghost ctl: Control, ghost id: nat) returns (ok: bool)
      requires Is(ctl) && id !in ctl.callers && ctl.listed
      modifies this
      ensures ok == Enabled(Resume, ctl.status)
      ensures Is(Called(ctl, id, Resume))
    {
      CalledAlone(ctl, id, Resume);
      if !status.Paused? {
        return false;
      }
      status := Active;
      if !resumeToken {
        resumeToken := true;
      }
      return true;
    }
  }
}
