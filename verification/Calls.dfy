/** Call signalling: candidates buffered until the remote description is set, sessions
    published and torn down by concurrent handlers. */
module Calls {
  import opened Prelude

  type CallId = string
  type Ref = nat          // a session object
  type Candidate = string

  /** One session object and its peer connection. */
  datatype Session = Session(
    pending: seq<Candidate>,
    answered: bool,              // offerAnswerDone
    described: bool,             // the remote description is set
    applied: seq<Candidate>,     // handed to the peer connection, in order
    accepted: seq<Candidate>,    // candidates taken for this session, in order of arrival
    early: bool,                 // a candidate was applied before the description
    closes: nat,
    ends: nat)                   // end events published

  const NEW_SESSION := Session([], false, false, [], [], false, 0, 0)

  /** A signal handler in the middle of its work. */
  datatype Handler =
    | Describing(ref: Ref, publish: Option<CallId>)   // about to set the remote description
    | Publishing(ref: Ref, id: CallId)                // an offer: about to enter the table
    | Flushing(ref: Ref)                              // about to take the session lock and flush
    | Adding(ref: Ref, c: Candidate)                  // a candidate that found its session
    | Closing(ref: Ref)                               // removed from the table, not closed yet
    | Announcing(ref: Ref)                            // closed, end event not published yet

  datatype Manager = Manager(table: map<CallId, Ref>, sessions: map<Ref, Session>, handlers: map<nat, Handler>,
                             next: Ref)

  const NEW_MANAGER := Manager(map[], map[], map[], 0)

  datatype Action =
    | Initiate(id: CallId)                       // the caller's own session, published without a remote side
    | Offer(t: nat, id: CallId)                  // a new session object, not in the table yet
    | Answer(t: nat, id: CallId)
    | Trickle(t: nat, id: CallId, c: Candidate)
    | HangUp(t: nat, id: CallId)                 // HangUp, Decline or an incoming Bye
    | Go(t: nat, ok: bool)                       // the handler's next atomic step

  /** The locked section that ends an offer or an answer. */
  function Flushed(s: Session): Session {
    s.(applied := s.applied + s.pending,
       early := s.early || (s.pending != [] && !s.described),
       pending := [],
       answered := true)
  }

  /** The locked section of a candidate. */
  function Added(s: Session, c: Candidate): Session {
    if !s.answered then s.(pending := s.pending + [c], accepted := s.accepted + [c])
    else s.(applied := s.applied + [c], accepted := s.accepted + [c], early := s.early || !s.described)
  }

  function Put(m: Manager, ref: Ref, s: Session): Manager {
    m.(sessions := m.sessions[ref := s])
  }

  function Begin(m: Manager, t: nat, h: Handler): Manager {
    m.(handlers := m.handlers[t := h])
  }

  function End(m: Manager, t: nat): Manager {
    m.(handlers := m.handlers - {t})
  }

  function Advance(m: Manager, t: nat, h: Handler, ok: bool): Manager
    requires h.ref in m.sessions
  {
    var s := m.sessions[h.ref];
    match h
    case Describing(ref, publish) =>
      if !ok then End(m, t)
      else
        var next := if publish.Some? then Publishing(ref, publish.value) else Flushing(ref);
        Begin(Put(m, ref, s.(described := true)), t, next)
    case Publishing(ref, id) => Begin(m.(table := m.table[id := ref]), t, Flushing(ref))
    case Flushing(ref) => End(Put(m, ref, Flushed(s)), t)
    case Adding(ref, c) => End(Put(m, ref, Added(s, c)), t)
    case Closing(ref) => Begin(Put(m, ref, s.(closes := s.closes + 1)), t, Announcing(ref))
    case Announcing(ref) => End(Put(m, ref, s.(ends := s.ends + 1)), t)
  }

  /** One atomic step; one that is not possible does nothing. */
  function Step(m: Manager, a: Action): Manager {
    match a
    case Initiate(id) =>
      m.(table := m.table[id := m.next], sessions := m.sessions[m.next := NEW_SESSION], next := m.next + 1)
    case Offer(t, id) =>
      if t in m.handlers then m
      else Begin(m.(sessions := m.sessions[m.next := NEW_SESSION], next := m.next + 1), t, Describing(m.next, Some(id)))
    case Answer(t, id) =>
      if t in m.handlers || id !in m.table then m else Begin(m, t, Describing(m.table[id], None))
    case Trickle(t, id, c) =>
      if t in m.handlers || id !in m.table then m else Begin(m, t, Adding(m.table[id], c))
    case HangUp(t, id) =>
      if t in m.handlers || id !in m.table then m
      else Begin(m.(table := m.table - {id}), t, Closing(m.table[id]))
    case Go(t, ok) =>
      if t in m.handlers && m.handlers[t].ref in m.sessions then Advance(m, t, m.handlers[t], ok) else m
  }

  function Run(m: Manager, actions: seq<Action>): Manager
    decreases |actions|
  {
    if actions == [] then m else Run(Step(m, actions[0]), actions[1..])
  }

  // ----- candidates -----

  /** Nothing lost, reordered or applied too soon, and an empty buffer once answered. */
  ghost predicate Orderly(s: Session) {
    && s.applied + s.pending == s.accepted
    && (s.answered ==> s.pending == [] && s.described)
    && (s.applied != [] ==> s.described)
    && !s.early
  }

  ghost predicate AllOrderly(m: Manager) {
    && (forall ref :: ref in m.sessions ==> ref < m.next && Orderly(m.sessions[ref]))
    && (forall id :: id in m.table ==> m.table[id] in m.sessions)
    && (forall t :: t in m.handlers ==> m.handlers[t].ref in m.sessions)
    && (forall t :: t in m.handlers && (m.handlers[t].Publishing? || m.handlers[t].Flushing?) ==>
          m.sessions[m.handlers[t].ref].described)
  }

  lemma FlushedOrderly(s: Session)
    requires Orderly(s) && s.described
    ensures Orderly(Flushed(s)) && Flushed(s).accepted == s.accepted
  {
  }

  lemma AddedOrderly(s: Session, c: Candidate)
    requires Orderly(s)
    ensures Orderly(Added(s, c)) && Added(s, c).accepted == s.accepted + [c]
  {
    if s.answered {
      assert s.applied + [c] + [] == s.accepted + [c];
    } else {
      assert s.applied + (s.pending + [c]) == s.accepted + [c];
    }
  }

  lemma AdvanceKeepsOrderly(m: Manager, t: nat, ok: bool)
    requires AllOrderly(m) && t in m.handlers
    ensures AllOrderly(Advance(m, t, m.handlers[t], ok))
  {
    var h := m.handlers[t];
    var s := m.sessions[h.ref];
    match h
    case Flushing(_) => FlushedOrderly(s);
    case Adding(_, c) => AddedOrderly(s, c);
    case _ =>
  }

  lemma StepKeepsOrderly(m: Manager, a: Action)
    requires AllOrderly(m)
    ensures AllOrderly(Step(m, a))
  {
    if a.Go? {
      if a.t in m.handlers {
        AdvanceKeepsOrderly(m, a.t, a.ok);
      }
    }
  }

  /** In every interleaving of offers, answers, candidates and hang-ups: applied followed
      by pending is what was accepted, in order; nothing waits once the exchange is done;
      nothing reaches the connection before the remote description. */
  lemma {:induction false} CandidatesConserved(m: Manager, actions: seq<Action>)
    requires AllOrderly(m)
    ensures AllOrderly(Run(m, actions))
    decreases |actions|
  {
    if actions != [] {
      StepKeepsOrderly(m, actions[0]);
      CandidatesConserved(Step(m, actions[0]), actions[1..]);
    }
  }

  // ----- what every completed exchange achieves -----

  /** A described session is answered, or some handler is still to flush it. */
  ghost predicate FlushComing(m: Manager, ref: Ref)
    requires ref in m.sessions
  {
    m.sessions[ref].answered ||
    exists t :: t in m.handlers && m.handlers[t].ref == ref && (m.handlers[t].Publishing? || m.handlers[t].Flushing?)
  }

  ghost predicate Answering(m: Manager) {
    && (forall t :: t in m.handlers ==> m.handlers[t].ref in m.sessions)
    && (forall id :: id in m.table ==> m.table[id] in m.sessions)
    && m.next !in m.sessions
    && (forall ref :: ref in m.sessions ==> ref < m.next && (m.sessions[ref].described ==> FlushComing(m, ref)))
  }

  /** Another handler's step leaves a coming flush coming. */
  lemma StillComing(m: Manager, m': Manager, ref: Ref, t: nat)
    requires ref in m.sessions && ref in m'.sessions && FlushComing(m, ref)
    requires m.sessions[ref].answered ==> m'.sessions[ref].answered
    requires t in m.handlers && m.handlers[t].ref == ref && (m.handlers[t].Publishing? || m.handlers[t].Flushing?) ==>
               m'.sessions[ref].answered || (t in m'.handlers && m'.handlers[t].ref == ref && m'.handlers[t].Flushing?)
    requires forall u :: u in m.handlers && u != t ==> u in m'.handlers && m'.handlers[u] == m.handlers[u]
    ensures FlushComing(m', ref)
  {
    if !m'.sessions[ref].answered {
      var u :| u in m.handlers && m.handlers[u].ref == ref && (m.handlers[u].Publishing? || m.handlers[u].Flushing?);
      assert u in m'.handlers && m'.handlers[u].ref == ref;
    }
  }

  lemma GoKeepsFlushComing(m: Manager, t: nat, ok: bool, ref: Ref)
    requires Answering(m) && t in m.handlers && ref in m.sessions
    requires Step(m, Go(t, ok)).sessions[ref].described
    ensures FlushComing(Step(m, Go(t, ok)), ref)
  {
    var h, m' := m.handlers[t], Step(m, Go(t, ok));
    if h.Describing? && ok && h.ref == ref {
      assert m'.handlers[t].ref == ref && (m'.handlers[t].Publishing? || m'.handlers[t].Flushing?);
    } else {
      StillComing(m, m', ref, t);
    }
  }

  /** A step that begins a handler, or none, leaves the flushes coming. */
  lemma BeginKeepsFlushComing(m: Manager, a: Action, ref: Ref)
    requires Answering(m) && !a.Go? && ref in Step(m, a).sessions && Step(m, a).sessions[ref].described
    ensures FlushComing(Step(m, a), ref)
  {
    var m' := Step(m, a);
    assert ref in m.sessions && m'.sessions[ref] == m.sessions[ref];
    if !m.sessions[ref].answered {
      var u :| u in m.handlers && m.handlers[u].ref == ref && (m.handlers[u].Publishing? || m.handlers[u].Flushing?);
      assert u in m'.handlers && m'.handlers[u] == m.handlers[u];
    }
  }

  lemma StepKeepsReferences(m: Manager, a: Action)
    requires Answering(m)
    ensures var m' := Step(m, a);
            && (forall t :: t in m'.handlers ==> m'.handlers[t].ref in m'.sessions)
            && (forall id :: id in m'.table ==> m'.table[id] in m'.sessions)
            && (forall ref :: ref in m'.sessions ==> ref < m'.next)
  {
  }

  lemma StepKeepsAnswering(m: Manager, a: Action)
    requires Answering(m)
    ensures Answering(Step(m, a))
  {
    var m' := Step(m, a);
    StepKeepsReferences(m, a);
    forall ref | ref in m'.sessions && m'.sessions[ref].described
      ensures FlushComing(m', ref)
    {
      if !a.Go? {
        BeginKeepsFlushComing(m, a, ref);
      } else if a.t in m.handlers {
        GoKeepsFlushComing(m, a.t, a.ok, ref);
      }
    }
  }

  lemma {:induction false} RunKeepsAnswering(m: Manager, actions: seq<Action>)
    requires Answering(m)
    ensures Answering(Run(m, actions))
    decreases |actions|
  {
    if actions != [] {
      StepKeepsAnswering(m, actions[0]);
      RunKeepsAnswering(Step(m, actions[0]), actions[1..]);
    }
  }

  /** In every run: once a session has its remote description and no handler is at work
      for it, the exchange is done: nothing is pending and everything accepted is applied,
      in order. */
  lemma CompletedExchangeIsAnswered(actions: seq<Action>, ref: Ref)
    requires var m := Run(NEW_MANAGER, actions);
             && ref in m.sessions && m.sessions[ref].described
             && forall t :: t in m.handlers ==> m.handlers[t].ref != ref
    ensures var s := Run(NEW_MANAGER, actions).sessions[ref];
            s.answered && s.pending == [] && s.applied == s.accepted
  {
    RunKeepsAnswering(NEW_MANAGER, actions);
    CandidatesConserved(NEW_MANAGER, actions);
    var s := Run(NEW_MANAGER, actions).sessions[ref];
    assert s.applied + [] == s.applied;
  }

  /** An answer to a listed call, if its description can be set, ends in three steps with
      the exchange done and everything that was pending applied behind the rest. */
  lemma AnswerCompletes(m: Manager, t: nat, id: CallId, ok: bool)
    requires Answering(m) && t !in m.handlers && id in m.table
    ensures var (ref, m3) := (m.table[id], Step(Step(Step(m, Answer(t, id)), Go(t, true)), Go(t, ok)));
            && ref in m3.sessions && m3.handlers == m.handlers && m3.table == m.table
            && m3.sessions[ref].described && m3.sessions[ref].answered && m3.sessions[ref].pending == []
            && m3.sessions[ref].applied == m.sessions[ref].applied + m.sessions[ref].pending
  {
    assert m.handlers[t := Flushing(m.table[id])] - {t} == m.handlers;
  }

  /** A candidate for a listed call is accepted in two steps, behind all before it. */
  lemma TrickleIsAccepted(m: Manager, t: nat, id: CallId, c: Candidate, ok: bool)
    requires Answering(m) && t !in m.handlers && id in m.table
    ensures var (ref, m2) := (m.table[id], Step(Step(m, Trickle(t, id, c)), Go(t, ok)));
            && ref in m2.sessions && m2.handlers == m.handlers && m2.table == m.table
            && m2.sessions[ref].accepted == m.sessions[ref].accepted + [c]
            && (m.sessions[ref].answered ==> m2.sessions[ref].applied == m.sessions[ref].applied + [c])
            && (!m.sessions[ref].answered ==> m2.sessions[ref].pending == m.sessions[ref].pending + [c])
  {
    assert m.handlers[t := Adding(m.table[id], c)] - {t} == m.handlers;
  }

  // ----- which candidates are accepted -----

  /** The candidates a run brings for a session, in the order their handlers get through. */
  function Brought(m: Manager, actions: seq<Action>, ref: Ref): seq<Candidate>
    decreases |actions|
  {
    if actions == [] then []
    else BroughtBy(m, actions[0], ref) + Brought(Step(m, actions[0]), actions[1..], ref)
  }

  function BroughtBy(m: Manager, a: Action, ref: Ref): seq<Candidate> {
    if a.Go? && a.t in m.handlers && m.handlers[a.t].Adding? && m.handlers[a.t].ref == ref && ref in m.sessions
    then [m.handlers[a.t].c] else []
  }

  function Accepted(m: Manager, ref: Ref): seq<Candidate> {
    if ref in m.sessions then m.sessions[ref].accepted else []
  }

  lemma StepAccepts(m: Manager, a: Action, ref: Ref)
    requires Answering(m)
    ensures Accepted(Step(m, a), ref) == Accepted(m, ref) + BroughtBy(m, a, ref)
  {
  }

  /** A session has accepted exactly the candidates brought for it: none is skipped, and no
      handler ends without handing its candidate over. */
  lemma {:induction false} AcceptedAreBrought(m: Manager, actions: seq<Action>, ref: Ref)
    requires Answering(m)
    ensures Accepted(Run(m, actions), ref) == Accepted(m, ref) + Brought(m, actions, ref)
    decreases |actions|
  {
    if actions != [] {
      StepAccepts(m, actions[0], ref);
      StepKeepsAnswering(m, actions[0]);
      AcceptedAreBrought(Step(m, actions[0]), actions[1..], ref);
      Chained(Accepted(m, ref), BroughtBy(m, actions[0], ref), Brought(Step(m, actions[0]), actions[1..], ref));
    }
  }

  lemma Chained(a: seq<Candidate>, b: seq<Candidate>, c: seq<Candidate>)
    ensures a + b + c == a + (b + c)
  {
  }

  // ----- teardown -----

  /** Handlers that hold a session no table entry leads to. */
  predicate Owner(h: Handler) {
    h.Publishing? || (h.Describing? && h.publish.Some?) || h.Closing? || h.Announcing?
  }

  predicate Untouched(m: Manager, ref: Ref) {
    ref in m.sessions && m.sessions[ref].closes == 0 && m.sessions[ref].ends == 0
  }

  /** How far the teardown of an owned session has got. */
  predicate Progress(m: Manager, h: Handler) {
    && h.ref in m.sessions
    && if h.Announcing? then m.sessions[h.ref].closes == 1 && m.sessions[h.ref].ends == 0 else Untouched(m, h.ref)
  }

  /** A session is under at most one name, or with at most one owner, never both. */
  ghost predicate SingleHolder(m: Manager) {
    && (forall id, id' :: id in m.table && id' in m.table && id != id' ==> m.table[id] != m.table[id'])
    && (forall t, u :: t in m.handlers && u in m.handlers && t != u && Owner(m.handlers[t]) && Owner(m.handlers[u]) ==>
          m.handlers[t].ref != m.handlers[u].ref)
    && (forall t, id :: t in m.handlers && id in m.table && Owner(m.handlers[t]) ==> m.handlers[t].ref != m.table[id])
  }

  ghost predicate Progressing(m: Manager) {
    && (forall id :: id in m.table ==> Untouched(m, m.table[id]))
    && (forall t :: t in m.handlers ==> m.handlers[t].ref in m.sessions)
    && (forall t :: t in m.handlers && Owner(m.handlers[t]) ==> Progress(m, m.handlers[t]))
    && (forall ref :: ref in m.sessions ==> ref < m.next && m.sessions[ref].ends <= m.sessions[ref].closes <= 1)
  }

  ghost predicate TornDownOnce(m: Manager) {
    SingleHolder(m) && Progressing(m)
  }

  /** `m'` has the handlers of `m`, but `t` may be gone or hold its session less firmly. */
  ghost predicate HoldsNoMore(m: Manager, m': Manager, t: nat) {
    && (forall u :: u in m'.handlers && u != t ==> u in m.handlers && m'.handlers[u] == m.handlers[u])
    && (t in m.handlers && t in m'.handlers ==>
          m'.handlers[t].ref == m.handlers[t].ref && (Owner(m'.handlers[t]) ==> Owner(m.handlers[t])))
  }

  lemma HoldsNoMoreKeepsSingleHolder(m: Manager, m': Manager, t: nat)
    requires SingleHolder(m) && t in m.handlers && HoldsNoMore(m, m', t) && m'.table == m.table
    ensures SingleHolder(m')
  {
  }

  lemma AdvanceKeepsSingleHolder(m: Manager, t: nat, ok: bool)
    requires TornDownOnce(m) && t in m.handlers
    ensures SingleHolder(Advance(m, t, m.handlers[t], ok))
  {
    if !m.handlers[t].Publishing? {
      HoldsNoMoreKeepsSingleHolder(m, Advance(m, t, m.handlers[t], ok), t);
    }
  }

  predicate TearsDown(h: Handler) {
    h.Closing? || h.Announcing?
  }

  /** `m'` is `m` after handler `t` did something that touches no count. */
  ghost predicate SameCounts(m: Manager, m': Manager, t: nat) {
    && m'.sessions.Keys == m.sessions.Keys && m'.next == m.next
    && (forall ref :: ref in m.sessions ==>
          m'.sessions[ref].closes == m.sessions[ref].closes && m'.sessions[ref].ends == m.sessions[ref].ends)
    && (forall u :: u in m'.handlers && u != t ==> u in m.handlers && m'.handlers[u] == m.handlers[u])
    && (t in m.handlers && t in m'.handlers ==>
          && m'.handlers[t].ref == m.handlers[t].ref
          && (Owner(m'.handlers[t]) ==> Owner(m.handlers[t]) && !TearsDown(m'.handlers[t])))
  }

  /** Describing, flushing and adding touch no count. */
  lemma TrafficKeepsCounts(m: Manager, t: nat, ok: bool)
    requires Progressing(m) && t in m.handlers && !TearsDown(m.handlers[t])
    ensures SameCounts(m, Advance(m, t, m.handlers[t], ok), t)
    ensures !m.handlers[t].Publishing? ==> Advance(m, t, m.handlers[t], ok).table == m.table
  {
  }

  lemma SameCountsKeepsProgressing(m: Manager, m': Manager, t: nat)
    requires Progressing(m) && SameCounts(m, m', t) && t in m.handlers && !TearsDown(m.handlers[t])
    requires m'.table == m.table
    ensures Progressing(m')
  {
  }

  /** A session that enters the table comes fresh from its owner. */
  lemma PublishKeepsProgressing(m: Manager, t: nat, ok: bool)
    requires TornDownOnce(m) && t in m.handlers && m.handlers[t].Publishing?
    ensures Progressing(Advance(m, t, m.handlers[t], ok))
  {
    var h, m' := m.handlers[t], Advance(m, t, m.handlers[t], ok);
    assert m'.sessions == m.sessions && m'.handlers == m.handlers[t := Flushing(h.ref)];
    assert Untouched(m, h.ref);
  }

  /** Closing and announcing touch the one session the handler owns. */
  lemma TeardownTouchesOwn(m: Manager, t: nat, ok: bool, id: CallId)
    requires TornDownOnce(m) && t in m.handlers && TearsDown(m.handlers[t]) && id in m.table
    ensures Untouched(Advance(m, t, m.handlers[t], ok), m.table[id])
  {
  }

  lemma TeardownProgress(m: Manager, t: nat, ok: bool, u: nat)
    requires TornDownOnce(m) && t in m.handlers && TearsDown(m.handlers[t])
    requires u in Advance(m, t, m.handlers[t], ok).handlers
    ensures var m' := Advance(m, t, m.handlers[t], ok);
            m'.handlers[u].ref in m'.sessions && (Owner(m'.handlers[u]) ==> Progress(m', m'.handlers[u]))
  {
    assert Progress(m, m.handlers[t]);
  }

  lemma TeardownCounts(m: Manager, t: nat, ok: bool, ref: Ref)
    requires TornDownOnce(m) && t in m.handlers && TearsDown(m.handlers[t])
    requires ref in Advance(m, t, m.handlers[t], ok).sessions
    ensures var m' := Advance(m, t, m.handlers[t], ok);
            ref < m'.next && m'.sessions[ref].ends <= m'.sessions[ref].closes <= 1
  {
    assert Progress(m, m.handlers[t]);
  }

  lemma TeardownKeepsProgressing(m: Manager, t: nat, ok: bool)
    requires TornDownOnce(m) && t in m.handlers && TearsDown(m.handlers[t])
    ensures Progressing(Advance(m, t, m.handlers[t], ok))
  {
    var m' := Advance(m, t, m.handlers[t], ok);
    forall id | id in m'.table ensures Untouched(m', m'.table[id]) {
      TeardownTouchesOwn(m, t, ok, id);
    }
    forall u | u in m'.handlers
      ensures m'.handlers[u].ref in m'.sessions && (Owner(m'.handlers[u]) ==> Progress(m', m'.handlers[u]))
    {
      TeardownProgress(m, t, ok, u);
    }
    forall ref | ref in m'.sessions ensures ref < m'.next && m'.sessions[ref].ends <= m'.sessions[ref].closes <= 1 {
      TeardownCounts(m, t, ok, ref);
    }
  }

  lemma NewcomerKeepsSingleHolder(m: Manager, a: Action)
    requires TornDownOnce(m) && (a.Initiate? || a.Offer?)
    ensures SingleHolder(Step(m, a))
  {
  }

  /** A session object nobody has heard of. */
  lemma NewcomerKeepsTeardown(m: Manager, a: Action)
    requires TornDownOnce(m) && (a.Initiate? || a.Offer?)
    ensures TornDownOnce(Step(m, a))
  {
    NewcomerKeepsSingleHolder(m, a);
    NewcomerKeepsProgressing(m, a);
  }

  lemma NewcomerKeepsProgressing(m: Manager, a: Action)
    requires Progressing(m) && (a.Initiate? || a.Offer?)
    ensures Progressing(Step(m, a))
  {
  }

  lemma HangUpKeepsTeardown(m: Manager, t: nat, id: CallId)
    requires TornDownOnce(m)
    ensures TornDownOnce(Step(m, HangUp(t, id)))
  {
  }

  lemma GoKeepsTeardown(m: Manager, t: nat, ok: bool)
    requires TornDownOnce(m) && t in m.handlers
    ensures TornDownOnce(Advance(m, t, m.handlers[t], ok))
  {
    AdvanceKeepsSingleHolder(m, t, ok);
    if TearsDown(m.handlers[t]) {
      TeardownKeepsProgressing(m, t, ok);
    } else if m.handlers[t].Publishing? {
      PublishKeepsProgressing(m, t, ok);
    } else {
      TrafficKeepsCounts(m, t, ok);
      SameCountsKeepsProgressing(m, Advance(m, t, m.handlers[t], ok), t);
    }
  }

  /** Answers and candidates begin with nothing but a reference to a listed session. */
  lemma VisitorKeepsTeardown(m: Manager, t: nat, h: Handler)
    requires TornDownOnce(m) && t !in m.handlers && !Owner(h) && h.ref in m.sessions
    ensures TornDownOnce(Begin(m, t, h))
  {
  }

  lemma StepKeepsTeardown(m: Manager, a: Action)
    requires TornDownOnce(m)
    ensures TornDownOnce(Step(m, a))
  {
    match a
    case Go(t, ok) => if t in m.handlers { GoKeepsTeardown(m, t, ok); }
    case Initiate(_) => NewcomerKeepsTeardown(m, a);
    case Offer(_, _) => NewcomerKeepsTeardown(m, a);
    case HangUp(t, id) => HangUpKeepsTeardown(m, t, id);
    case Answer(t, id) =>
      if t !in m.handlers && id in m.table { VisitorKeepsTeardown(m, t, Describing(m.table[id], None)); }
    case Trickle(t, id, c) =>
      if t !in m.handlers && id in m.table { VisitorKeepsTeardown(m, t, Adding(m.table[id], c)); }
  }

  /** Whoever hangs up first tears a session down, and nobody does it twice: at most one
      close and one end event, the event after the close. */
  lemma {:induction false} TeardownHappensOnce(m: Manager, actions: seq<Action>)
    requires TornDownOnce(m)
    ensures TornDownOnce(Run(m, actions))
    decreases |actions|
  {
    if actions != [] {
      StepKeepsTeardown(m, actions[0]);
      TeardownHappensOnce(Step(m, actions[0]), actions[1..]);
    }
  }

  lemma EveryCallRun(actions: seq<Action>)
    ensures var m := Run(NEW_MANAGER, actions);
            forall ref :: ref in m.sessions ==>
              && Orderly(m.sessions[ref])
              && m.sessions[ref].ends <= m.sessions[ref].closes <= 1
  {
    CandidatesConserved(NEW_MANAGER, actions);
    TeardownHappensOnce(NEW_MANAGER, actions);
  }

  // ----- the session object -----

  class SessionObject {
    var pending: seq<Candidate>
    var answered: bool
    var applied: seq<Candidate>    // the peer connection's candidates

    constructor ()
      ensures pending == applied == [] && !answered
    {
      pending, applied, answered := [], [], false;
    }

    method FlushCandidates()
      modifies this
      ensures forall s: Session :: s.pending == old(pending) && s.applied == old(applied) ==>
                pending == Flushed(s).pending && applied == Flushed(s).applied && answered == Flushed(s).answered
    {
      for i := 0 to |pending|
        invariant pending == old(pending) && applied == old(applied) + pending[..i]
      {
        applied := applied + [pending[i]];
      }
      assert pending[..|pending|] == pending;
      pending := [];
      answered := true;
    }

    method HandleCandidate(c: Candidate)
      modifies this`pending, this`applied
      ensures forall s: Session :: s.pending == old(pending) && s.applied == old(applied) && s.answered == answered ==>
                pending == Added(s, c).pending && applied == Added(s, c).applied
    {
      if !answered {
        pending := pending + [c];
        return;
      }
      applied := applied + [c];
    }
  }
}
