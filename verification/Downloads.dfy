/** The download worker: two stores to the meter that readers may interleave with. */
module Downloads {
  import opened Prelude
  import opened Transfers

  datatype Pc =
    | Starting
    | Looking                       // in the local cache
    | Asking                        // the server
    | Sizing(length: nat)           // data found, `total` not stored yet
    | Filling(length: nat)          // `total` stored, `done` not yet
    | Finishing(status: Status)
    | Removing
    | Gone

  datatype Download = Download(ctl: Control, meter: Meter, pc: Pc, finishes: nat)

  /** The length of what a lookup returns; None for an error. */
  datatype Event = Work(found: Option<nat>) | Calls(call: Call) | Reads(read: Read)

  const NEW_DOWNLOAD := Download(NEW_CONTROL, NewMeter(0), Starting, 0)

  predicate Usable(found: Option<nat>) {
    found.Some? && found.value > 0
  }

  function WorkStep(d: Download, found: Option<nat>): Download {
    match d.pc
    case Starting => d.(ctl := d.ctl.(status := Active), pc := Looking)
    case Looking => d.(pc := if Usable(found) then Sizing(found.value) else Asking)
    case Asking => d.(pc := if Usable(found) then Sizing(found.value) else Finishing(Failed))
    case Sizing(n) => d.(meter := d.meter.(total := n), pc := Filling(n))
    case Filling(n) => d.(meter := d.meter.(done := n), pc := Finishing(Completed))
    case Finishing(status) => d.(ctl := d.ctl.(status := status), finishes := d.finishes + 1, pc := Removing)
    case Removing => d.(ctl := d.ctl.(listed := false), pc := Gone)
    case Gone => d
  }

  function Step(d: Download, e: Event): Download {
    match e
    case Work(found) => WorkStep(d, found)
    case Calls(call) => d.(ctl := CallStep(d.ctl, call))
    case Reads(read) => d.(meter := ReadStep(d.meter, d.ctl.status, read))
  }

  function Run(d: Download, events: seq<Event>): Download
    decreases |events|
  {
    if events == [] then d else Run(Step(d, events[0]), events[1..])
  }

  predicate Ended(d: Download) {
    d.pc.Removing? || d.pc.Gone?
  }

  /** `total` is set before `done`, each once, and Completed comes after both. */
  ghost predicate Staged(d: Download) {
    && (d.pc.Starting? || d.pc.Looking? || d.pc.Asking? || d.pc.Sizing? ==> d.meter.total == d.meter.done == 0)
    && (d.pc.Sizing? ==> d.pc.length > 0)
    && (d.pc.Filling? ==> d.meter.total == d.pc.length > 0 && d.meter.done == 0)
    && (d.pc.Finishing? ==>
          && Finished(d.pc.status) && d.meter.done == d.meter.total
          && (d.pc.status.Completed? <==> d.meter.total > 0))
    && (Ended(d) ==>
          && Finished(d.ctl.status) && d.meter.done == d.meter.total
          && (d.ctl.status.Completed? <==> d.meter.total > 0))
    && (!Ended(d) ==>
          && !d.ctl.status.Completed?
          && forall id :: id in d.meter.readers ==> !d.meter.readers[id].status.Completed?)
    && d.finishes == (if Ended(d) then 1 else 0)
    && (d.ctl.listed <==> !d.pc.Gone?)
  }

  ghost predicate Inv(d: Download) {
    Staged(d) && Consistent(d.meter) && Settled(d.meter, d.ctl.status)
  }

  lemma StepKeepsInv(d: Download, e: Event)
    requires Inv(d)
    ensures Inv(Step(d, e))
  {
    match e
    case Work(_) =>
    case Calls(call) => CallFrame(d.ctl, call);
    case Reads(read) =>
      ReadKeepsConsistent(d.meter, d.ctl.status, read);
      ReadKeepsSettled(d.meter, d.ctl.status, read);
  }

  lemma {:induction false} RunKeepsInv(d: Download, events: seq<Event>)
    requires Inv(d)
    ensures Inv(Run(d, events))
    decreases |events|
  {
    if events != [] {
      StepKeepsInv(d, events[0]);
      RunKeepsInv(Step(d, events[0]), events[1..]);
    }
  }

  /** In every interleaving: no snapshot shows more done than total, a Completed one shows
      all of it, the transfer finishes at most once and Completed only with data. */
  lemma DownloadSnapshotsConsistent(events: seq<Event>)
    ensures var d := Run(NEW_DOWNLOAD, events);
            && (forall i :: 0 <= i < |d.meter.snapshots| ==>
                  && d.meter.snapshots[i].done <= d.meter.snapshots[i].total
                  && (d.meter.snapshots[i].status.Completed? ==>
                      d.meter.snapshots[i].done == d.meter.snapshots[i].total))
            && d.finishes <= 1
            && (d.ctl.status.Completed? ==> d.meter.done == d.meter.total > 0)
  {
    RunKeepsInv(NEW_DOWNLOAD, events);
  }

  // ----- how the worker ends -----

  /** What the worker has found so far: a lookup that returned data, in the cache or else
      from the server; or a server that returned none. */
  datatype Finding = NotYet | Data(length: nat) | NoData

  /** The finding of an event, read off what the lookup returns. */
  function FindingAt(d: Download, e: Event): Finding {
    if e.Work? && (d.pc.Looking? || d.pc.Asking?) && e.found.Some? && e.found.value > 0 then Data(e.found.value)
    else if e.Work? && d.pc.Asking? then NoData
    else NotYet
  }

  function FindingOf(d: Download, events: seq<Event>): Finding
    decreases |events|
  {
    if events == [] then NotYet
    else if !FindingAt(d, events[0]).NotYet? then FindingAt(d, events[0])
    else FindingOf(Step(d, events[0]), events[1..])
  }

  ghost predicate EndsAs(d: Download, result: Finding) {
    var status := if d.pc.Finishing? then d.pc.status else d.ctl.status;
    match result
    case NotYet => d.pc.Starting? || d.pc.Looking? || d.pc.Asking?
    case Data(n) =>
      && n > 0
      && (d.pc == Sizing(n) || d.pc == Filling(n) ||
          ((d.pc.Finishing? || Ended(d)) && status == Completed && d.meter.total == d.meter.done == n))
    case NoData => (d.pc.Finishing? || Ended(d)) && status == Failed
  }

  lemma StepEndsAs(d: Download, e: Event, result: Finding)
    requires Inv(d) && EndsAs(d, result)
    ensures EndsAs(Step(d, e), if result.NotYet? then FindingAt(d, e) else result)
  {
    match e
    case Work(_) =>
    case Calls(call) => CallFrame(d.ctl, call);
    case Reads(_) =>
  }

  lemma {:induction false} RunEndsAs(d: Download, events: seq<Event>, result: Finding)
    requires Inv(d) && EndsAs(d, result)
    ensures EndsAs(Run(d, events), if result.NotYet? then FindingOf(d, events) else result)
    decreases |events|
  {
    if events != [] {
      StepKeepsInv(d, events[0]);
      StepEndsAs(d, events[0], result);
      RunEndsAs(Step(d, events[0]), events[1..], if result.NotYet? then FindingAt(d, events[0]) else result);
    }
  }

  /** In every run: a transfer that has left its worker is Completed exactly if a lookup
      returned data, all of it done, and Failed exactly if neither did. */
  lemma FinalStatusIff(events: seq<Event>)
    ensures var d, result := Run(NEW_DOWNLOAD, events), FindingOf(NEW_DOWNLOAD, events);
            Ended(d) ==>
              && (d.ctl.status == Completed <==> result.Data?)
              && (d.ctl.status == Failed <==> result.NoData?)
              && (result.Data? ==> d.meter.done == d.meter.total == result.length)
  {
    RunEndsAs(NEW_DOWNLOAD, events, NotYet);
  }

  // ----- why the order of the loads matters -----

  /** A reader that loads `total` before `done` can report more done than total. */
  lemma ReversedLoadsBreak(n: nat)
    requires n > 0
    ensures var found := Run(NEW_DOWNLOAD, [Work(None), Work(Some(n))]);
            var filled := Run(found, [Work(None), Work(None)]);
            found.meter.total < filled.meter.done
  {
    var d1 := Step(NEW_DOWNLOAD, Work(None));
    var d2 := Step(d1, Work(Some(n)));
    var d3 := Step(d2, Work(None));
    var d4 := Step(d3, Work(None));
    assert [Work(None), Work(Some(n))][1..] == [Work(Some(n))] && [Work(Some(n))][1..] == [];
    assert Run(NEW_DOWNLOAD, [Work(None), Work(Some(n))]) == Run(d1, [Work(Some(n))]) == Run(d2, []) == d2;
    var rest: seq<Event> := [Work(None), Work(None)];
    assert rest[1..] == [Work(None)] && rest[1..][1..] == [];
    assert Run(d2, rest) == Run(d3, rest[1..]) == Run(d4, []) == d4;
  }

  /** Buttons and reports go to the download's own control and meter: pressed or read without
      interruption they do what the button and the report do, and leave the worker be. */
  lemma ButtonsAndReports(d: Download, id: nat, b: Button)
    requires id !in d.meter.readers
    ensures Step(Step(Step(d, Calls(Lookup(id, b))), Calls(Press(id))), Calls(SendToken(id))) ==
            d.(ctl := Called(d.ctl, id, b))
    ensures Step(Step(Step(d, Reads(ReadState(id))), Reads(ReadDone(id))), Reads(ReadTotal(id))) ==
            d.(meter := d.meter.(snapshots :=
              d.meter.snapshots + [Snapshot(d.ctl.status, d.meter.done, d.meter.total)]))
  {
    ReadAlone(d.meter, d.ctl.status, id);
  }
}
