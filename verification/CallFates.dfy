/** What becomes of every call session: it can still be ended, it was ended once, or it
    was let go, and exactly by which steps. */
module CallFates {
  import opened Calls

  ghost predicate Listed(m: Manager, ref: Ref) {
    exists id :: id in m.table && m.table[id] == ref
  }

  /** Some handler is bound to publish the session or to close and announce it. */
  ghost predicate Held(m: Manager, ref: Ref) {
    exists t :: t in m.handlers && Owner(m.handlers[t]) && m.handlers[t].ref == ref
  }

  predicate Over(s: Session) {
    s.closes == 1 && s.ends == 1
  }

  /** The sessions a step lets go without closing them: that of an offer whose description
      fails, and that of a table entry a second session of the same name replaces. */
  function LetGo(m: Manager, a: Action): set<Ref> {
    match a
    case Initiate(id) => Entry(m, id)
    case Go(t, ok) =>
      if t !in m.handlers || m.handlers[t].ref !in m.sessions then {}
      else if m.handlers[t].Publishing? then Entry(m, m.handlers[t].id)
      else if m.handlers[t].Describing? && m.handlers[t].publish.Some? && !ok then {m.handlers[t].ref}
      else {}
    case _ => {}
  }

  function Entry(m: Manager, id: CallId): set<Ref> {
    if id in m.table then {m.table[id]} else {}
  }

  function AllLetGo(m: Manager, actions: seq<Action>): set<Ref>
    decreases |actions|
  {
    if actions == [] then {} else LetGo(m, actions[0]) + AllLetGo(Step(m, actions[0]), actions[1..])
  }

  ghost predicate HasFate(m: Manager, ref: Ref, gone: bool)
    requires ref in m.sessions
  {
    if gone then !Listed(m, ref) && !Held(m, ref) && Untouched(m, ref)
    else Listed(m, ref) || Held(m, ref) || Over(m.sessions[ref])
  }

  // ----- holders from one state to the next -----

  /** Whoever has the session keeps it. */
  lemma StaysPlaced(m: Manager, m': Manager, ref: Ref)
    requires Listed(m, ref) || Held(m, ref)
    requires forall id :: id in m.table && m.table[id] == ref ==> id in m'.table && m'.table[id] == ref
    requires forall t :: t in m.handlers && Owner(m.handlers[t]) && m.handlers[t].ref == ref ==>
               t in m'.handlers && Owner(m'.handlers[t]) && m'.handlers[t].ref == ref
    ensures Listed(m', ref) || Held(m', ref)
  {
    if id :| id in m.table && m.table[id] == ref {
      assert m'.table[id] == ref;
    } else {
      var t :| t in m.handlers && Owner(m.handlers[t]) && m.handlers[t].ref == ref;
      assert Owner(m'.handlers[t]) && m'.handlers[t].ref == ref;
    }
  }

  /** Nobody takes hold of a session nobody had. */
  lemma StaysUnplaced(m: Manager, m': Manager, ref: Ref)
    requires !Listed(m, ref) && !Held(m, ref)
    requires forall id :: id in m'.table && m'.table[id] == ref ==> id in m.table && m.table[id] == ref
    requires forall t :: t in m'.handlers && Owner(m'.handlers[t]) && m'.handlers[t].ref == ref ==>
               t in m.handlers && Owner(m.handlers[t]) && m.handlers[t].ref == ref
    ensures !Listed(m', ref) && !Held(m', ref)
  {
  }

  /** A session both untouched and its holders the same keeps its fate. */
  lemma SameHoldersSameFate(m: Manager, m': Manager, ref: Ref, gone: bool)
    requires ref in m.sessions && ref in m'.sessions && HasFate(m, ref, gone)
    requires m'.sessions[ref].closes == m.sessions[ref].closes && m'.sessions[ref].ends == m.sessions[ref].ends
    requires forall id :: id in m'.table && m'.table[id] == ref <==> id in m.table && m.table[id] == ref
    requires forall t :: t in m'.handlers && Owner(m'.handlers[t]) && m'.handlers[t].ref == ref <==>
                         t in m.handlers && Owner(m.handlers[t]) && m.handlers[t].ref == ref
    ensures HasFate(m', ref, gone)
  {
    if gone {
      StaysUnplaced(m, m', ref);
    } else if Listed(m, ref) || Held(m, ref) {
      StaysPlaced(m, m', ref);
    }
  }

  // ----- one step -----

  lemma InitiateFate(m: Manager, id: CallId, ref: Ref, gone: bool)
    requires TornDownOnce(m) && ref in m.sessions && HasFate(m, ref, gone)
    ensures HasFate(Step(m, Initiate(id)), ref, gone || ref in LetGo(m, Initiate(id)))
  {
    var m' := Step(m, Initiate(id));
    if id !in m.table || m.table[id] != ref {
      SameHoldersSameFate(m, m', ref, gone);
    }
  }

  lemma OfferFate(m: Manager, t: nat, id: CallId, ref: Ref, gone: bool)
    requires TornDownOnce(m) && ref in m.sessions && HasFate(m, ref, gone)
    ensures HasFate(Step(m, Offer(t, id)), ref, gone)
  {
    SameHoldersSameFate(m, Step(m, Offer(t, id)), ref, gone);
  }

  /** Answers and candidates find a session, but own none. */
  lemma VisitorFate(m: Manager, a: Action, ref: Ref, gone: bool)
    requires ref in m.sessions && HasFate(m, ref, gone) && (a.Answer? || a.Trickle?)
    ensures HasFate(Step(m, a), ref, gone)
  {
    SameHoldersSameFate(m, Step(m, a), ref, gone);
  }

  lemma HangUpFate(m: Manager, t: nat, id: CallId, ref: Ref, gone: bool)
    requires TornDownOnce(m) && ref in m.sessions && HasFate(m, ref, gone)
    ensures HasFate(Step(m, HangUp(t, id)), ref, gone)
  {
    var m' := Step(m, HangUp(t, id));
    if t !in m.handlers && id in m.table && m.table[id] == ref {
      assert m.table[id] == ref && Listed(m, ref);
      assert Owner(m'.handlers[t]) && m'.handlers[t].ref == ref;
    } else {
      SameHoldersSameFate(m, m', ref, gone);
    }
  }

  /** A handler's step that neither publishes nor ends an ownership leaves all fates alone. */
  lemma TrafficFate(m: Manager, t: nat, ok: bool, ref: Ref, gone: bool)
    requires TornDownOnce(m) && ref in m.sessions && HasFate(m, ref, gone)
    requires t in m.handlers && m.handlers[t].ref in m.sessions
    requires var h := m.handlers[t];
             h.Flushing? || h.Adding? || (h.Describing? && (ok || h.publish.None?)) || (h.Closing? && h.ref != ref)
    ensures HasFate(Step(m, Go(t, ok)), ref, gone)
  {
    SameHoldersSameFate(m, Step(m, Go(t, ok)), ref, gone);
  }

  lemma FailedOfferFate(m: Manager, t: nat, ref: Ref, gone: bool)
    requires TornDownOnce(m) && ref in m.sessions && HasFate(m, ref, gone)
    requires t in m.handlers && m.handlers[t].Describing? && m.handlers[t].publish.Some?
    ensures HasFate(Step(m, Go(t, false)), ref, gone || ref == m.handlers[t].ref)
  {
    var m' := Step(m, Go(t, false));
    if ref == m.handlers[t].ref {
      assert Held(m, ref);
      assert Progress(m, m.handlers[t]);
      assert forall u :: u in m'.handlers && Owner(m'.handlers[u]) ==> m'.handlers[u].ref != ref;
    } else {
      SameHoldersSameFate(m, m', ref, gone);
    }
  }

  lemma PublishFate(m: Manager, t: nat, ok: bool, ref: Ref, gone: bool)
    requires TornDownOnce(m) && ref in m.sessions && HasFate(m, ref, gone)
    requires t in m.handlers && m.handlers[t].Publishing?
    ensures HasFate(Step(m, Go(t, ok)), ref, gone || ref in Entry(m, m.handlers[t].id))
  {
    var h, m' := m.handlers[t], Step(m, Go(t, ok));
    assert m'.table == m.table[h.id := h.ref] && m'.handlers == m.handlers[t := Flushing(h.ref)] &&
           m'.sessions == m.sessions;
    if ref == h.ref {
      assert Held(m, ref);
      assert m'.table[h.id] == ref;
      assert ref !in Entry(m, h.id);
    } else if h.id in m.table && m.table[h.id] == ref {
      assert Untouched(m, ref);
      assert forall id :: id in m'.table ==> m'.table[id] != ref;
      assert forall u :: u in m'.handlers && Owner(m'.handlers[u]) ==> m'.handlers[u].ref != ref;
    } else {
      SameHoldersSameFate(m, m', ref, gone);
    }
  }

  lemma TeardownFate(m: Manager, t: nat, ok: bool, ref: Ref, gone: bool)
    requires TornDownOnce(m) && ref in m.sessions && HasFate(m, ref, gone)
    requires t in m.handlers && TearsDown(m.handlers[t])
    ensures HasFate(Step(m, Go(t, ok)), ref, gone)
  {
    var h, m' := m.handlers[t], Step(m, Go(t, ok));
    if h.ref != ref {
      SameHoldersSameFate(m, m', ref, gone);
    } else {
      assert Held(m, ref);
      assert Progress(m, h);
      if h.Closing? {
        assert Owner(m'.handlers[t]) && m'.handlers[t].ref == ref;
      }
    }
  }

  lemma StepFate(m: Manager, a: Action, ref: Ref, gone: bool)
    requires TornDownOnce(m) && ref in m.sessions && HasFate(m, ref, gone)
    ensures ref in Step(m, a).sessions && HasFate(Step(m, a), ref, gone || ref in LetGo(m, a))
  {
    match a
    case Initiate(id) => InitiateFate(m, id, ref, gone);
    case Offer(t, id) => OfferFate(m, t, id, ref, gone);
    case Answer(_, _) => VisitorFate(m, a, ref, gone);
    case Trickle(_, _, _) => VisitorFate(m, a, ref, gone);
    case HangUp(t, id) => HangUpFate(m, t, id, ref, gone);
    case Go(t, ok) =>
      if t in m.handlers && m.handlers[t].ref in m.sessions {
        var h := m.handlers[t];
        if TearsDown(h) { TeardownFate(m, t, ok, ref, gone); }
        else if h.Publishing? { PublishFate(m, t, ok, ref, gone); }
        else if h.Describing? && h.publish.Some? && !ok { FailedOfferFate(m, t, ref, gone); }
        else { TrafficFate(m, t, ok, ref, gone); }
      }
  }

  /** A new session starts in the table or with its offer. */
  lemma NewcomerFate(m: Manager, a: Action, ref: Ref)
    requires TornDownOnce(m) && ref !in m.sessions && ref in Step(m, a).sessions
    ensures HasFate(Step(m, a), ref, false) && ref !in LetGo(m, a)
  {
    var m' := Step(m, a);
    assert ref == m.next;
    if a.Initiate? {
      assert m'.table[a.id] == ref;
    } else {
      assert a.Offer?;
      assert Owner(m'.handlers[a.t]) && m'.handlers[a.t].ref == ref;
    }
  }

  // ----- whole runs -----

  ghost predicate Fates(m: Manager, gone: set<Ref>) {
    gone <= m.sessions.Keys && forall ref :: ref in m.sessions ==> HasFate(m, ref, ref in gone)
  }

  lemma StepKeepsFates(m: Manager, a: Action, gone: set<Ref>)
    requires TornDownOnce(m) && Fates(m, gone)
    ensures Fates(Step(m, a), gone + LetGo(m, a))
  {
    var m' := Step(m, a);
    forall ref | ref in m'.sessions
      ensures HasFate(m', ref, ref in gone + LetGo(m, a))
    {
      if ref in m.sessions {
        StepFate(m, a, ref, ref in gone);
      } else {
        NewcomerFate(m, a, ref);
      }
    }
    forall ref | ref in m.sessions
      ensures ref in m'.sessions
    {
      StepFate(m, a, ref, ref in gone);
    }
  }

  lemma {:induction false} RunKeepsFates(m: Manager, actions: seq<Action>, gone: set<Ref>)
    requires TornDownOnce(m) && Fates(m, gone)
    ensures Fates(Run(m, actions), gone + AllLetGo(m, actions))
    decreases |actions|
  {
    if actions == [] {
      assert gone + {} == gone;
    } else {
      var first, rest := LetGo(m, actions[0]), AllLetGo(Step(m, actions[0]), actions[1..]);
      StepKeepsTeardown(m, actions[0]);
      StepKeepsFates(m, actions[0], gone);
      RunKeepsFates(Step(m, actions[0]), actions[1..], gone + first);
      assert gone + first + rest == gone + (first + rest);
    }
  }

  /** In every interleaving each session is in exactly one of three situations: in the
      table or with a handler that owns it; closed once and announced once; or let go, which
      happens exactly when its offer failed or its entry was replaced, and never closed. */
  lemma EverySessionHasItsFate(actions: seq<Action>, ref: Ref)
    requires ref in Run(NEW_MANAGER, actions).sessions
    ensures var m, gone := Run(NEW_MANAGER, actions), ref in AllLetGo(NEW_MANAGER, actions);
            var s := m.sessions[ref];
            && (gone ==> s.closes == 0 && s.ends == 0 && !Listed(m, ref) && !Held(m, ref))
            && (!gone ==> (Listed(m, ref) || Held(m, ref) <==> !Over(s)))
            && (Over(s) <==> !gone && !Listed(m, ref) && !Held(m, ref))
  {
    var m := Run(NEW_MANAGER, actions);
    TeardownHappensOnce(NEW_MANAGER, actions);
    RunKeepsFates(NEW_MANAGER, actions, {});
    assert {} + AllLetGo(NEW_MANAGER, actions) == AllLetGo(NEW_MANAGER, actions);
    if Listed(m, ref) || Held(m, ref) {
      PlacedIsNotOver(m, ref);
    }
  }

  lemma PlacedIsNotOver(m: Manager, ref: Ref)
    requires TornDownOnce(m) && ref in m.sessions && (Listed(m, ref) || Held(m, ref))
    ensures !Over(m.sessions[ref])
  {
    if t :| t in m.handlers && Owner(m.handlers[t]) && m.handlers[t].ref == ref {
      assert Progress(m, m.handlers[t]);
    }
  }

  /** Hanging up takes the session out of the table at once, and its handler's two further
      steps close and announce it, whatever handlers of other sessions do not touch. */
  lemma HangUpEndsSession(m: Manager, t: nat, id: CallId, ok: bool, ok2: bool)
    requires TornDownOnce(m) && t !in m.handlers && id in m.table
    ensures var ref := m.table[id];
            var m1 := Step(m, HangUp(t, id));
            var m3 := Step(Step(m1, Go(t, ok)), Go(t, ok2));
            && id !in m1.table && !Over(m.sessions[ref])
            && ref in m3.sessions && Over(m3.sessions[ref]) && !Listed(m3, ref) && m3.handlers == m.handlers
  {
    var ref := m.table[id];
    assert Untouched(m, ref);
    var m1 := Step(m, HangUp(t, id));
    var m3 := Step(Step(m1, Go(t, ok)), Go(t, ok2));
    assert m3.table == m.table - {id};
    assert m3.handlers == m.handlers;
  }

  // ----- both ways of letting go are reached -----

  lemma {:induction false} RunAppend(m: Manager, a: seq<Action>, b: seq<Action>)
    ensures Run(m, a + b) == Run(Run(m, a), b)
    ensures AllLetGo(m, a + b) == AllLetGo(m, a) + AllLetGo(Run(m, a), b)
    decreases |a|
  {
    if a == [] {
      assert a + b == b;
    } else {
      assert (a + b)[1..] == a[1..] + b;
      RunAppend(Step(m, a[0]), a[1..], b);
    }
  }

  lemma OneAction(m: Manager, a: Action)
    ensures Run(m, [a]) == Step(m, a) && AllLetGo(m, [a]) == LetGo(m, a)
  {
    assert [a][1..] == [];
  }

  /** An offer whose description cannot be set leaves its session unclosed. */
  lemma FailedOfferIsLetGo(id: CallId)
    ensures var actions := [Offer(0, id), Go(0, false)];
            0 in Run(NEW_MANAGER, actions).sessions && 0 in AllLetGo(NEW_MANAGER, actions)
  {
    var m1 := Step(NEW_MANAGER, Offer(0, id));
    OneAction(NEW_MANAGER, Offer(0, id));
    OneAction(m1, Go(0, false));
    RunAppend(NEW_MANAGER, [Offer(0, id)], [Go(0, false)]);
    assert [Offer(0, id)] + [Go(0, false)] == [Offer(0, id), Go(0, false)];
  }

  /** The steps of an offer up to its entry in the table. */
  function Offered(t: nat, id: CallId): seq<Action> {
    [Offer(t, id)] + [Go(t, true)] + [Go(t, true)]
  }

  lemma OfferedRuns(m: Manager, t: nat, id: CallId)
    requires t !in m.handlers && m.next !in m.sessions
    ensures var m' := Run(m, Offered(t, id));
            && m'.table == m.table[id := m.next] && m'.next == m.next + 1
            && m'.handlers == m.handlers[t := Flushing(m.next)]
            && m'.sessions == m.sessions[m.next := NEW_SESSION.(described := true)]
            && AllLetGo(m, Offered(t, id)) == Entry(m, id)
  {
    var m1 := Step(m, Offer(t, id));
    var m2 := Step(m1, Go(t, true));
    OneAction(m, Offer(t, id));
    OneAction(m1, Go(t, true));
    OneAction(m2, Go(t, true));
    RunAppend(m, [Offer(t, id)], [Go(t, true)]);
    RunAppend(m, [Offer(t, id)] + [Go(t, true)], [Go(t, true)]);
  }

  /** A second offer of the same name replaces the first session, which nobody can end. */
  lemma SecondOfferLetsGo(id: CallId)
    ensures var actions := Offered(0, id) + Offered(1, id);
            0 in Run(NEW_MANAGER, actions).sessions && 0 in AllLetGo(NEW_MANAGER, actions)
  {
    OfferedRuns(NEW_MANAGER, 0, id);
    var first := Run(NEW_MANAGER, Offered(0, id));
    OfferedRuns(first, 1, id);
    RunAppend(NEW_MANAGER, Offered(0, id), Offered(1, id));
  }
}
