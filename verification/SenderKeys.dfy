/** The per-member sending chain of a group: lockstep between the owner and a member
    seeded in the middle, and what a chain key does and does not reveal. */
module SenderKeys {
  import opened FreeKeys
  import opened Prelude
  import opened Primitives

  function SenderMessageKey<K>(suite: Suite<K>, chain: K): K {
    suite.kdf(chain, ZeroSalt, "sender-msg")
  }

  function SenderNext<K>(suite: Suite<K>, chain: K): K {
    suite.kdf(chain, ZeroSalt, "sender-chain")
  }

  /** The chain key `n` advances after `chain`. */
  function ChainAt<K>(suite: Suite<K>, chain: K, n: nat): K {
    if n == 0 then chain else SenderNext(suite, ChainAt(suite, chain, n - 1))
  }

  /** The key of the message sent at position `n`, counting from 0. */
  function KeyAt<K>(suite: Suite<K>, chain: K, n: nat): K {
    SenderMessageKey(suite, ChainAt(suite, chain, n))
  }

  datatype Distribution<+K> = Distribution(chainKey: K, iteration: nat)

  class SenderKey<K> {
    const suite: Suite<K>
    var chainKey: K
    var iteration: nat

    /** A new key starts at iteration 0; a received one where the distribution says. */
    constructor (suite: Suite<K>, dist: Distribution<K>)
      ensures this.suite == suite && chainKey == dist.chainKey && iteration == dist.iteration
    {
      this.suite, chainKey, iteration := suite, dist.chainKey, dist.iteration;
    }

    function Distribute(): Distribution<K>
      reads this
    {
      Distribution(chainKey, iteration)
    }

    method Advance() returns (key: K)
      modifies this
      ensures key == SenderMessageKey(suite, old(chainKey))
      ensures chainKey == SenderNext(suite, old(chainKey))
      ensures iteration == Wrap32(old(iteration) + 1)
    {
      key := SenderMessageKey(suite, chainKey);
      chainKey := SenderNext(suite, chainKey);
      iteration := Wrap32(iteration + 1);
    }

    /** `n` advances in a row, collecting the keys. */
    method AdvanceMany(n: nat) returns (keys: seq<K>)
      modifies this
      ensures |keys| == n && forall i :: 0 <= i < n ==> keys[i] == KeyAt(suite, old(chainKey), i)
      ensures chainKey == ChainAt(suite, old(chainKey), n)
      ensures old(iteration) + n < TWO_TO_THE_32 ==> iteration == old(iteration) + n
    {
      keys := [];
      while |keys| < n
        invariant |keys| <= n
        invariant forall i :: 0 <= i < |keys| ==> keys[i] == KeyAt(suite, old(chainKey), i)
        invariant chainKey == ChainAt(suite, old(chainKey), |keys|)
        invariant old(iteration) + |keys| < TWO_TO_THE_32 ==> iteration == old(iteration) + |keys|
      {
        var key := Advance();
        keys := keys + [key];
      }
    }
  }

  lemma {:induction false} ChainAtAdds<K>(suite: Suite<K>, chain: K, k: nat, n: nat)
    ensures ChainAt(suite, ChainAt(suite, chain, k), n) == ChainAt(suite, chain, k + n)
  {
    if n > 0 {
      ChainAtAdds(suite, chain, k, n - 1);
    }
  }

  /** A member seeded from the owner's distribution at iteration `k` derives on its
      n-th advance the owner's key of position k + n, under the same iteration number. */
  method Lockstep<K>(suite: Suite<K>, first: K, k: nat, n: nat) returns (owner: seq<K>, member: seq<K>)
    requires k + n < TWO_TO_THE_32
    ensures |owner| == k + n && |member| == n
    ensures forall i :: 0 <= i < n ==> member[i] == owner[k + i] == KeyAt(suite, first, k + i)
  {
    var own := new SenderKey(suite, Distribution(first, 0));
    var before := own.AdvanceMany(k);
    var dist := own.Distribute();
    assert dist == Distribution(ChainAt(suite, first, k), k);
    var copy := new SenderKey(suite, dist);
    var after := own.AdvanceMany(n);
    member := copy.AdvanceMany(n);
    assert own.iteration == copy.iteration == k + n;
    owner := before + after;
    forall i | 0 <= i < n
      ensures member[i] == owner[k + i] == KeyAt(suite, first, k + i)
    {
      ChainAtAdds(suite, first, k, i);
    }
  }

  // ----- what a chain key reveals -----

  /** A holder's keys on the chain grown from Atom(id) all lie at position `k` or later. */
  ghost predicate HoldsFrom(known: set<Term>, id: nat, k: nat) {
    forall t :: t in known ==> Avoids(id, t) || OnChainFrom(t, id, k)
  }

  ghost predicate OnChainFrom(t: Term, id: nat, k: nat) {
    exists j: nat :: k <= j && t == ChainAt(FREE, Atom(id), j)
  }

  lemma {:induction false} ChainHasItsAtom(id: nat, n: nat)
    ensures !Avoids(id, ChainAt(FREE, Atom(id), n))
  {
    if n > 0 {
      ChainHasItsAtom(id, n - 1);
    }
  }

  lemma {:induction false} ChainAtInjective(id: nat, m: nat, n: nat)
    requires ChainAt(FREE, Atom(id), m) == ChainAt(FREE, Atom(id), n)
    ensures m == n
  {
    if m > 0 && n > 0 {
      ChainAtInjective(id, m - 1, n - 1);
    }
  }

  /** Message keys of one chain are pairwise distinct. */
  lemma MessageKeysDistinct(id: nat, m: nat, n: nat)
    ensures KeyAt(FREE, Atom(id), m) == KeyAt(FREE, Atom(id), n) ==> m == n
  {
    if KeyAt(FREE, Atom(id), m) == KeyAt(FREE, Atom(id), n) {
      ChainAtInjective(id, m, n);
    }
  }

  lemma {:induction false} EarlierChainHidden(known: set<Term>, id: nat, k: nat, n: nat)
    requires HoldsFrom(known, id, k) && n < k
    ensures !Computable(known, ChainAt(FREE, Atom(id), n))
  {
    var t := ChainAt(FREE, Atom(id), n);
    ChainHasItsAtom(id, n);
    if t in known {
      var j: nat :| k <= j && t == ChainAt(FREE, Atom(id), j);
      ChainAtInjective(id, n, j);
    }
    if n > 0 {
      EarlierChainHidden(known, id, k, n - 1);
    }
  }

  /** Forward secrecy: no message key below position `k` can be computed. */
  lemma EarlierMessagesHidden(known: set<Term>, id: nat, k: nat, n: nat)
    requires HoldsFrom(known, id, k) && n < k
    ensures !Computable(known, KeyAt(FREE, Atom(id), n))
  {
    EarlierChainHidden(known, id, k, n);
    ChainHasItsAtom(id, n);
    var key := KeyAt(FREE, Atom(id), n);
    if key in known {
      var j: nat :| k <= j && key == ChainAt(FREE, Atom(id), j);
    }
  }

  /** And everything from `k` on can: a member seeded at `k` reads all later messages. */
  lemma {:induction false} LaterMessagesOpen(known: set<Term>, id: nat, k: nat, n: nat)
    requires ChainAt(FREE, Atom(id), k) in known && k <= n
    ensures Computable(known, ChainAt(FREE, Atom(id), n)) && Computable(known, KeyAt(FREE, Atom(id), n))
    decreases n
  {
    if k < n {
      LaterMessagesOpen(known, id, k, n - 1);
    }
  }

  /** Exactly the messages from the seeded position on are readable. */
  lemma SeedReadsExactlyLater(id: nat, k: nat, n: nat)
    ensures Computable({ChainAt(FREE, Atom(id), k)}, KeyAt(FREE, Atom(id), n)) <==> k <= n
  {
    var known := {ChainAt(FREE, Atom(id), k)};
    if k <= n {
      LaterMessagesOpen(known, id, k, n);
    } else {
      assert OnChainFrom(ChainAt(FREE, Atom(id), k), id, k);
      EarlierMessagesHidden(known, id, k, n);
    }
  }

  // ----- what message keys reveal -----

  function KeysAt(id: nat, positions: set<nat>): set<Term> {
    set n | n in positions :: KeyAt(FREE, Atom(id), n)
  }

  /** No number of message keys gives away the chain. */
  lemma {:induction false} MessageKeysHideChain(id: nat, positions: set<nat>, n: nat)
    ensures !Computable(KeysAt(id, positions), ChainAt(FREE, Atom(id), n))
  {
    if n > 0 {
      MessageKeysHideChain(id, positions, n - 1);
    }
  }

  /** Nor any message key that is not one of them. */
  lemma MessageKeysRevealNoOther(id: nat, positions: set<nat>, n: nat)
    ensures Computable(KeysAt(id, positions), KeyAt(FREE, Atom(id), n)) <==> n in positions
  {
    MessageKeysHideChain(id, positions, n);
    if KeyAt(FREE, Atom(id), n) in KeysAt(id, positions) {
      var m :| m in positions && KeyAt(FREE, Atom(id), m) == KeyAt(FREE, Atom(id), n);
      MessageKeysDistinct(id, m, n);
    }
  }
}
