/** What somebody who obtains a session's keys can and cannot compute, in the free
    algebra of keys: which packets stay secret, before and after a ratchet step. */
module RatchetSecrecy {
  import opened FreeKeys
  import opened Prelude
  import opened Primitives
  import opened Ratchet

  /** Everything a session holds. */
  function Fields(s: Session<Term>): set<Term> {
    {s.rootKey, s.sendChain, s.recvChain, s.localPub, s.localPriv, s.remotePub}
  }

  /** The chain key `n` packets after `chain`. */
  function ChainAt(chain: Term, n: nat): Term {
    if n == 0 then chain else NextChain(FREE, ChainAt(chain, n - 1))
  }

  /** The key of packet `n` of a chain, counting from 0, under some counter. */
  function KeyAt(chain: Term, n: nat, counter: nat): Term {
    PacketKey(FREE, ChainAt(chain, n), counter)
  }

  lemma {:induction false} SendsMovesChain(s: Session<Term>, n: nat)
    ensures Sends(FREE, s, n) == s.(sendChain := ChainAt(s.sendChain, n), sendCounter := Sends(FREE, s, n).sendCounter,
                              sinceRotation := Sends(FREE, s, n).sinceRotation)
  {
    if n > 0 {
      SendsMovesChain(s, n - 1);
    }
  }

  lemma {:induction false} ReceivesMovesChain(s: Session<Term>, n: nat)
    ensures Receives(FREE, s, n) == s.(recvChain := ChainAt(s.recvChain, n),
                                       recvCounter := Receives(FREE, s, n).recvCounter)
  {
    if n > 0 {
      ReceivesMovesChain(s, n - 1);
    }
  }

  // ----- chains -----

  /** A chain as a Diffie-Hellman step starts it. */
  predicate Fresh(chain: Term) {
    chain.Derived? && chain.salt.KeySalt? && chain.info == "chain"
  }

  /** Positions of chains started by different steps never meet, nor do two of one chain. */
  lemma {:induction false} ChainsNeverMeet(c: Term, d: Term, m: nat, n: nat)
    requires Fresh(c) && Fresh(d)
    ensures ChainAt(c, m) == ChainAt(d, n) <==> c == d && m == n
  {
    if m > 0 && n > 0 {
      ChainsNeverMeet(c, d, m - 1, n - 1);
    }
  }

  /** No key is used for two packets: it tells the chain, the position on it and the
      counter apart, so two counters below 2^64 give two keys at the same position. */
  lemma PacketKeysDistinct(c: Term, d: Term, m: nat, n: nat, k: nat, l: nat)
    requires Fresh(c) && Fresh(d)
    ensures KeyAt(c, m, k) == KeyAt(d, n, l) <==> c == d && m == n && Wrap64(k) == Wrap64(l)
  {
    ChainsNeverMeet(c, d, m, n);
    CounterBytesInjective(k, l);
  }

  lemma {:induction false} ChainHidden(known: set<Term>, c: Term, n: nat)
    requires !Computable(known, c)
    requires forall j: nat :: j <= n ==> ChainAt(c, j) !in known
    ensures !Computable(known, ChainAt(c, n))
  {
    if n > 0 {
      ChainHidden(known, c, n - 1);
      assert ChainAt(c, n) !in known;
    }
  }

  lemma KeyHidden(known: set<Term>, c: Term, n: nat, counter: nat)
    requires !Computable(known, ChainAt(c, n))
    requires forall t :: t in known && t.Derived? ==> t.info != "msg" && t.info != "enc"
    ensures !Computable(known, KeyAt(c, n, counter))
  {
    assert !Computable(known, MessageKey(FREE, ChainAt(c, n)));
  }

  lemma {:induction false} ChainOpen(known: set<Term>, c: Term, n: nat)
    requires Computable(known, c)
    ensures Computable(known, ChainAt(c, n))
  {
    if n > 0 {
      ChainOpen(known, c, n - 1);
    }
  }

  lemma KeyOpen(known: set<Term>, c: Term, m: nat, n: nat, counter: nat)
    requires ChainAt(c, m) in known && m <= n
    ensures Computable(known, KeyAt(c, n, counter))
  {
    ChainAtAdds(c, m, n - m);
    ChainOpen(known, ChainAt(c, m), n - m);
    assert Computable(known, MessageKey(FREE, ChainAt(c, n)));
  }

  lemma {:induction false} ChainAtAdds(c: Term, m: nat, n: nat)
    ensures ChainAt(ChainAt(c, m), n) == ChainAt(c, m + n)
  {
    if n > 0 {
      ChainAtAdds(c, m, n - 1);
    }
  }

  // ----- healing -----

  lemma {:induction false} ChainBuries(id: nat, c: Term, n: nat)
    requires !Avoids(id, c)
    ensures !Avoids(id, ChainAt(c, n))
  {
    if n > 0 {
      ChainBuries(id, c, n - 1);
    }
  }

  /** The step with a fresh private key, against the peer's current public key. */
  function Step(s: Session<Term>, theirs: nat, ours: nat): Session<Term> {
    Ratcheted(FREE, s, Public(Atom(theirs)), Some(Atom(ours))).session
  }

  /** A step heals one direction: somebody who knew the whole session before it, and
      anything else the fresh key is no part of, computes no packet key of the new
      sending chain. The receiving chain the step starts is still open to them, until
      the peer steps in turn. */
  lemma StepHealsSending(s: Session<Term>, theirs: nat, ours: nat, known: set<Term>, n: nat, counter: nat)
    requires Fields(s) <= known && Atom(theirs) !in known && ours != theirs
    requires forall t :: t in known ==> Avoids(ours, t)
    ensures var s' := Step(s, theirs, ours);
            && !Computable(known, KeyAt(s'.sendChain, n, counter))
            && Computable(known, KeyAt(s'.recvChain, n, counter))
  {
    var s' := Step(s, theirs, ours);
    NewChainHidden(s, theirs, ours, known, n);
    NewKeyHidden(s'.sendChain, ours, known, n, counter);
    assert Computable(known, Atom(theirs)) <==> Atom(theirs) in known;
    FollowedChainOpen(s, theirs, known, n, counter);
  }

  lemma NewChainHidden(s: Session<Term>, theirs: nat, ours: nat, known: set<Term>, n: nat)
    requires Atom(theirs) !in known && forall t :: t in known ==> Avoids(ours, t)
    ensures var chain := Step(s, theirs, ours).sendChain;
            !Avoids(ours, chain) && !Computable(known, ChainAt(chain, n))
  {
    AgreedChainHidden(Step(s, theirs, ours).sendChain, theirs, ours, known, n);
  }

  /** A chain agreed between two private keys nobody else holds. */
  lemma AgreedChainHidden(chain: Term, theirs: nat, ours: nat, known: set<Term>, n: nat)
    requires chain.Derived? && chain.secret == Shared({Atom(ours), Atom(theirs)})
    requires Atom(theirs) !in known && forall t :: t in known ==> Avoids(ours, t)
    ensures !Avoids(ours, chain) && !Computable(known, ChainAt(chain, n))
  {
    assert Atom(ours) in {Atom(ours), Atom(theirs)} && !Avoids(ours, Atom(ours));
    assert !Avoids(ours, chain.secret) && !Avoids(ours, chain);
    assert !Computable(known, chain.secret);
    forall j: nat | j <= n
      ensures ChainAt(chain, j) !in known
    {
      ChainBuries(ours, chain, j);
    }
    assert ChainAt(chain, 0) !in known;
    ChainHidden(known, chain, n);
  }

  lemma NewKeyHidden(chain: Term, id: nat, known: set<Term>, n: nat, counter: nat)
    requires !Avoids(id, chain) && !Computable(known, ChainAt(chain, n))
    requires forall t :: t in known ==> Avoids(id, t)
    ensures !Computable(known, KeyAt(chain, n, counter))
  {
    ChainBuries(id, chain, n);
    var m := MessageKey(FREE, ChainAt(chain, n));
    assert !Avoids(id, m) && !Computable(known, m);
    assert !Avoids(id, KeyAt(chain, n, counter));
  }

  lemma FollowedChainOpen(s: Session<Term>, theirs: nat, known: set<Term>, n: nat, counter: nat)
    requires Fields(s) <= known
    ensures Computable(known, KeyAt(ChainAfter(FREE, s.rootKey, Shared({s.localPriv, Atom(theirs)})), n, counter))
  {
    var agreed := Shared({s.localPriv, Atom(theirs)});
    assert s.localPriv in {s.localPriv, Atom(theirs)} && Computable(known, s.localPriv);
    assert Computable(known, agreed) && Computable(known, s.rootKey);
    ChainOpen(known, ChainAfter(FREE, s.rootKey, agreed), n);
    assert Computable(known, MessageKey(FREE, ChainAt(ChainAfter(FREE, s.rootKey, agreed), n)));
  }

  /** The receiving direction heals when the peer has stepped too: the chain our next step
      follows to is agreed between our first fresh key and the peer's. */
  lemma NextStepHealsReceiving(s: Session<Term>, theirs: nat, ours: nat, theirs2: nat, ours2: nat,
                               known: set<Term>, n: nat, counter: nat)
    requires Fields(s) <= known && Atom(theirs2) !in known
    requires forall t :: t in known ==> Avoids(ours, t)
    ensures !Computable(known, KeyAt(Step(Step(s, theirs, ours), theirs2, ours2).recvChain, n, counter))
  {
    var chain := Step(Step(s, theirs, ours), theirs2, ours2).recvChain;
    AgreedChainHidden(chain, theirs2, ours, known, n);
    NewKeyHidden(chain, ours, known, n, counter);
  }

  /** A step leaves the session exactly as it was if and only if the peer's key is of low
      order: every other step, even a failing one, has moved the root. */
  lemma StepUnchangedIff(s: Session<Term>, remote: Term, entropy: Option<Term>)
    ensures Ratcheted(FREE, s, remote, entropy).session == s <==> !remote.Public?
    ensures !remote.Public? ==> !Ratcheted(FREE, s, remote, entropy).ok
  {
    if remote.Public? {
      var agreed := Shared({s.localPriv, remote.of});
      var root := RootAfter(FREE, s.rootKey, agreed);
      assert s.rootKey < root;
      if entropy.Some? {
        assert root < RootAfter(FREE, root, Shared({entropy.value, remote.of}));
      }
    }
  }

  // ----- forward secrecy -----

  /** After a step, `i` packets sent and `j` received, the whole session reveals exactly
      the keys from there on: every packet key of either chain below its position is
      out of reach, and every one from its position on can be computed. */
  lemma SessionRevealsExactlyLater(s: Session<Term>, mine: nat, theirs: nat, ours: nat, i: nat, j: nat, n: nat,
                                   counter: nat)
    requires s.localPriv == Atom(mine) && mine != ours && theirs != ours
    ensures var s' := Step(s, theirs, ours);
            var known := Fields(Receives(FREE, Sends(FREE, s', i), j));
            && (Computable(known, KeyAt(s'.sendChain, n, counter)) <==> i <= n)
            && (Computable(known, KeyAt(s'.recvChain, n, counter)) <==> j <= n)
  {
    var s' := Step(s, theirs, ours);
    var known := Fields(Receives(FREE, Sends(FREE, s', i), j));
    var cs, cr := s'.sendChain, s'.recvChain;
    FieldsLater(s', i, j);
    if i <= n { KeyOpen(known, cs, i, n, counter); }
    if j <= n { KeyOpen(known, cr, j, n, counter); }
    OldSecretHidden(s, mine, theirs, ours, i, j);
    if n < i { EarlierHidden(known, s', cs, cr, i, j, n, counter); }
    if n < j { EarlierHidden(known, s', cr, cs, j, i, n, counter); }
  }

  lemma FieldsLater(s: Session<Term>, i: nat, j: nat)
    ensures Fields(Receives(FREE, Sends(FREE, s, i), j)) ==
            {s.rootKey, ChainAt(s.sendChain, i), ChainAt(s.recvChain, j), s.localPub, s.localPriv, s.remotePub}
  {
    SendsMovesChain(s, i);
    ReceivesMovesChain(Sends(FREE, s, i), j);
  }

  /** What a step makes of the roots and chains: the root between its halves is kept
      nowhere, only derived from. */
  lemma StepShape(s: Session<Term>, mine: nat, theirs: nat, ours: nat)
    requires s.localPriv == Atom(mine) && mine != ours && theirs != ours
    ensures var s' := Step(s, theirs, ours);
            var agreed, agreed2 := Shared({Atom(mine), Atom(theirs)}), Shared({Atom(ours), Atom(theirs)});
            var root := RootAfter(FREE, s.rootKey, agreed);
            && agreed != agreed2
            && s'.recvChain == ChainAfter(FREE, s.rootKey, agreed)
            && s'.sendChain == ChainAfter(FREE, root, agreed2) && s'.rootKey == RootAfter(FREE, root, agreed2)
            && s'.localPriv == Atom(ours) && s'.localPub == Public(Atom(ours)) && s'.remotePub == Public(Atom(theirs))
  {
    assert Atom(ours) in {Atom(ours), Atom(theirs)} && Atom(ours) !in {Atom(mine), Atom(theirs)};
  }

  /** The private key that was replaced protects the agreement of the first half of the
      step, and with it the root between the halves and the starts of both chains. */
  lemma OldSecretHidden(s: Session<Term>, mine: nat, theirs: nat, ours: nat, i: nat, j: nat)
    requires s.localPriv == Atom(mine) && mine != ours && theirs != ours
    ensures var s' := Step(s, theirs, ours);
            var known := Fields(Receives(FREE, Sends(FREE, s', i), j));
            && Fresh(s'.sendChain) && Fresh(s'.recvChain) && s'.sendChain != s'.recvChain
            && (i > 0 ==> !Computable(known, s'.sendChain))
            && (j > 0 ==> !Computable(known, s'.recvChain))
  {
    var s' := Step(s, theirs, ours);
    var known := Fields(Receives(FREE, Sends(FREE, s', i), j));
    StepShape(s, mine, theirs, ours);
    FieldsLater(s', i, j);
    FieldsLack(s', s'.sendChain, s'.recvChain, i, j, Shared({Atom(mine), Atom(theirs)}), mine, theirs);
    MiddleRootHidden(s', s'.sendChain, s'.recvChain, i, j, Shared({Atom(mine), Atom(theirs)}), s.rootKey);
    if i > 0 { StartNotHeld(s', s'.sendChain, s'.recvChain, i, j); }
    if j > 0 { StartNotHeld(s', s'.recvChain, s'.sendChain, j, i); }
  }

  /** Nor is the root between the halves, whatever the root before. */
  lemma MiddleRootHidden(s: Session<Term>, c: Term, d: Term, i: nat, j: nat, agreed: Term, before: Term)
    requires Fresh(c) && Fresh(d)
    requires s.rootKey.Derived? && s.rootKey.secret != agreed
    requires s.localPub.Public? && s.localPriv.Atom? && s.remotePub.Public?
    requires !Computable({s.rootKey, ChainAt(c, i), ChainAt(d, j), s.localPub, s.localPriv, s.remotePub}, agreed)
    ensures !Computable({s.rootKey, ChainAt(c, i), ChainAt(d, j), s.localPub, s.localPriv, s.remotePub},
                        RootAfter(FREE, before, agreed))
  {
    ChainShape(c, i);
    ChainShape(d, j);
  }

  /** The agreement of the first half is neither held nor derivable. */
  lemma FieldsLack(s: Session<Term>, c: Term, d: Term, i: nat, j: nat, agreed: Term, mine: nat, theirs: nat)
    requires Fresh(c) && Fresh(d) && agreed == Shared({Atom(mine), Atom(theirs)})
    requires s.rootKey.Derived? && s.localPub.Public? && s.remotePub.Public?
    requires s.localPriv.Atom? && s.localPriv != Atom(mine) && s.localPriv != Atom(theirs)
    ensures !Computable({s.rootKey, ChainAt(c, i), ChainAt(d, j), s.localPub, s.localPriv, s.remotePub}, agreed)
  {
    ChainShape(c, i);
    ChainShape(d, j);
    AgreementHidden({s.rootKey, ChainAt(c, i), ChainAt(d, j), s.localPub, s.localPriv, s.remotePub}, mine, theirs);
  }

  lemma AgreementHidden(known: set<Term>, mine: nat, theirs: nat)
    requires Atom(mine) !in known && Atom(theirs) !in known && Shared({Atom(mine), Atom(theirs)}) !in known
    ensures !Computable(known, Shared({Atom(mine), Atom(theirs)}))
  {
    assert !Computable(known, Atom(mine)) && !Computable(known, Atom(theirs));
  }

  /** Once a chain has moved its start is not among the fields. */
  lemma StartNotHeld(s: Session<Term>, c: Term, d: Term, i: nat, j: nat)
    requires Fresh(c) && Fresh(d) && c != d && i > 0
    requires s.rootKey.Derived? && s.rootKey.info == "root"
    requires s.localPub.Public? && s.localPriv.Atom? && s.remotePub.Public?
    ensures c !in {s.rootKey, ChainAt(c, i), ChainAt(d, j), s.localPub, s.localPriv, s.remotePub}
  {
    ChainsNeverMeet(c, c, 0, i);
    ChainsNeverMeet(c, d, 0, j);
  }

  lemma ChainShape(c: Term, n: nat)
    requires Fresh(c)
    ensures ChainAt(c, n).Derived? && ChainAt(c, n).info == "chain"
  {
  }

  lemma EarlierHidden(known: set<Term>, s: Session<Term>, c: Term, d: Term, i: nat, j: nat, n: nat, counter: nat)
    requires Fresh(c) && Fresh(d) && c != d && n < i
    requires known == {s.rootKey, ChainAt(c, i), ChainAt(d, j), s.localPub, s.localPriv, s.remotePub}
    requires s.rootKey.Derived? && s.rootKey.info == "root"
    requires s.localPub.Public? && s.localPriv.Atom? && s.remotePub.Public?
    requires !Computable(known, c)
    ensures !Computable(known, KeyAt(c, n, counter))
  {
    forall k: nat | k <= n
      ensures ChainAt(c, k) !in known
    {
      ChainShape(c, k);
      ChainsNeverMeet(c, c, k, i);
      ChainsNeverMeet(c, d, k, j);
    }
    ChainHidden(known, c, n);
    ChainShape(c, i);
    ChainShape(d, j);
    KeyHidden(known, c, n, counter);
  }

  // ----- what message keys reveal -----

  /** The message key of packet `n` of a chain. */
  function MessageAt(chain: Term, n: nat): Term {
    MessageKey(FREE, ChainAt(chain, n))
  }

  function MessagesAt(chain: Term, positions: set<nat>): set<Term> {
    set n | n in positions :: MessageAt(chain, n)
  }

  lemma {:induction false} MessageKeysHideChain(root: Term, a: nat, b: nat, positions: set<nat>, n: nat)
    ensures var chain := ChainAfter(FREE, root, Shared({Atom(a), Atom(b)}));
            !Computable(MessagesAt(chain, positions), ChainAt(chain, n))
  {
    var chain := ChainAfter(FREE, root, Shared({Atom(a), Atom(b)}));
    var known := MessagesAt(chain, positions);
    if n == 0 {
      AgreementHidden(known, a, b);
    } else {
      MessageKeysHideChain(root, a, b, positions, n - 1);
    }
  }

  /** Any number of message keys of a chain reveal neither the chain at any position nor
      the message key of any other packet. */
  lemma MessageKeysRevealNoOther(root: Term, a: nat, b: nat, positions: set<nat>, n: nat)
    ensures var chain := ChainAfter(FREE, root, Shared({Atom(a), Atom(b)}));
            var known := MessagesAt(chain, positions);
            !Computable(known, ChainAt(chain, n)) && (Computable(known, MessageAt(chain, n)) <==> n in positions)
  {
    var chain := ChainAfter(FREE, root, Shared({Atom(a), Atom(b)}));
    var known := MessagesAt(chain, positions);
    MessageKeysHideChain(root, a, b, positions, n);
    if MessageAt(chain, n) in known {
      var m :| m in positions && MessageAt(chain, m) == MessageAt(chain, n);
      ChainsNeverMeet(chain, chain, m, n);
    }
  }
}
