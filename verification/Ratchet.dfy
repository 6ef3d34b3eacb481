/** The per-peer double-ratchet session: two symmetric chains hanging off a root key
    that each Diffie-Hellman step renews. */
module Ratchet {
  import opened Prelude
  import opened Primitives

  datatype Session<+K> = Session(
    rootKey: K,
    sendChain: K,
    recvChain: K,
    sendCounter: nat,
    recvCounter: nat,
    sinceRotation: nat,    // messages sent since the last completed step
    localPub: K,
    localPriv: K,
    remotePub: K)

  // ----- key schedule -----

  function MessageKey<K>(suite: Suite<K>, chain: K): K {
    suite.kdf(chain, ByteSalt([1]), "msg")
  }

  function NextChain<K>(suite: Suite<K>, chain: K): K {
    suite.kdf(chain, ByteSalt([2]), "chain")
  }

  function RootAfter<K>(suite: Suite<K>, root: K, shared: K): K {
    suite.kdf(shared, KeySalt(root), "root")
  }

  function ChainAfter<K>(suite: Suite<K>, root: K, shared: K): K {
    suite.kdf(shared, KeySalt(root), "chain")
  }

  /** The AEAD key of one packet: message key salted with the counter. */
  function PacketKey<K>(suite: Suite<K>, chain: K, counter: nat): K {
    suite.kdf(MessageKey(suite, chain), ByteSalt(CounterBytes(counter)), "enc")
  }

  function NextCounter(n: nat): nat {
    Wrap64(n + 1)
  }

  // ----- what each operation does to a session -----

  function AfterSend<K>(suite: Suite<K>, s: Session<K>): Session<K> {
    s.(sendChain := NextChain(suite, s.sendChain), sendCounter := NextCounter(s.sendCounter),
       sinceRotation := NextCounter(s.sinceRotation))
  }

  function AfterReceive<K>(suite: Suite<K>, s: Session<K>): Session<K> {
    s.(recvChain := NextChain(suite, s.recvChain), recvCounter := NextCounter(s.recvCounter))
  }

  /** The key the next packet sent is sealed under. */
  function SendKey<K>(suite: Suite<K>, s: Session<K>): K {
    PacketKey(suite, s.sendChain, NextCounter(s.sendCounter))
  }

  /** The key the next packet received is opened with. */
  function ReceiveKey<K>(suite: Suite<K>, s: Session<K>): K {
    PacketKey(suite, s.recvChain, NextCounter(s.recvCounter))
  }

  /** First half of a Diffie-Hellman step: follow the peer to its new root. */
  function Followed<K>(suite: Suite<K>, s: Session<K>, remotePub: K, shared: K): Session<K> {
    s.(rootKey := RootAfter(suite, s.rootKey, shared),
       recvChain := ChainAfter(suite, s.rootKey, shared),
       remotePub := remotePub)
  }

  /** Second half: take a fresh key pair and move one root step further. */
  function Led<K>(suite: Suite<K>, s: Session<K>, priv: K, shared: K): Session<K> {
    s.(rootKey := RootAfter(suite, s.rootKey, shared),
       sendChain := ChainAfter(suite, s.rootKey, shared),
       localPub := suite.pub(priv),
       localPriv := priv,
       sinceRotation := 0)
  }

  datatype RatchetOutcome<+K> = RatchetOutcome(ok: bool, session: Session<K>)

  /** The whole step with its three failure points: a low-order remote key before and
      after the fresh pair is drawn, and a random source that yields nothing. */
  function Ratcheted<K>(suite: Suite<K>, s: Session<K>, remotePub: K, entropy: Option<K>): RatchetOutcome<K> {
    match suite.dh(s.localPriv, remotePub)
    case None => RatchetOutcome(false, s)
    case Some(shared) =>
      var f := Followed(suite, s, remotePub, shared);
      match entropy
      case None => RatchetOutcome(false, f)
      case Some(priv) =>
        match suite.dh(priv, remotePub)
        case None => RatchetOutcome(false, f.(localPub := suite.pub(priv), localPriv := priv))
        case Some(shared2) => RatchetOutcome(true, Led(suite, f, priv, shared2))
  }

  /** When the step succeeds, and what the three failures leave: the session as it was,
      the half-finished step, or the half-finished step with the new key pair. */
  lemma RatchetOutcomes<K>(suite: Suite<K>, s: Session<K>, remotePub: K, entropy: Option<K>)
    ensures var o := Ratcheted(suite, s, remotePub, entropy);
            var shared := suite.dh(s.localPriv, remotePub);
            && (o.ok <==> shared.Some? && entropy.Some? && suite.dh(entropy.value, remotePub).Some?)
            && (shared.None? ==> o.session == s)
            && (shared.Some? && !o.ok ==>
                  && o.session.rootKey == RootAfter(suite, s.rootKey, shared.value)
                  && o.session.recvChain == ChainAfter(suite, s.rootKey, shared.value)
                  && o.session.remotePub == remotePub
                  && o.session.sendChain == s.sendChain && o.session.sinceRotation == s.sinceRotation
                  && (o.session.localPriv == if entropy.Some? then entropy.value else s.localPriv))
            && (o.ok ==> o.session.sinceRotation == 0 && o.session.localPriv == entropy.value)
  {
  }

  /** Whether a step is due: enough messages since the last one, or enough time. A limit
      of zero is no limit. */
  function NeedsRotation<K>(s: Session<K>, afterMessages: nat, elapsed: int, afterTime: int): bool {
    (afterMessages > 0 && s.sinceRotation >= afterMessages) || (afterTime > 0 && elapsed >= afterTime)
  }

  function Sends<K>(suite: Suite<K>, s: Session<K>, n: nat): Session<K> {
    if n == 0 then s else AfterSend(suite, Sends(suite, s, n - 1))
  }

  function Receives<K>(suite: Suite<K>, s: Session<K>, n: nat): Session<K> {
    if n == 0 then s else AfterReceive(suite, Receives(suite, s, n - 1))
  }

  lemma CountsOn(c: nat, n: nat)
    ensures NextCounter(Wrap64(c + n)) == Wrap64(c + (n + 1))
  {
  }

  lemma {:induction false} SendsCount<K>(suite: Suite<K>, s: Session<K>, n: nat)
    requires s.sendCounter < TWO_TO_THE_64 && s.sinceRotation < TWO_TO_THE_64
    ensures Sends(suite, s, n).sendCounter == Wrap64(s.sendCounter + n)
    ensures Sends(suite, s, n).sinceRotation == Wrap64(s.sinceRotation + n)
  {
    if n > 0 {
      SendsCount(suite, s, n - 1);
      CountsOn(s.sendCounter, n - 1);
      CountsOn(s.sinceRotation, n - 1);
    }
  }

  lemma {:induction false} ReceivesCount<K>(suite: Suite<K>, s: Session<K>, n: nat)
    requires s.recvCounter < TWO_TO_THE_64
    ensures Receives(suite, s, n).recvCounter == Wrap64(s.recvCounter + n)
  {
    if n > 0 {
      ReceivesCount(suite, s, n - 1);
      CountsOn(s.recvCounter, n - 1);
    }
  }

  lemma {:induction false} ReceivesDoNotCount<K>(suite: Suite<K>, s: Session<K>, n: nat)
    ensures Receives(suite, s, n).sinceRotation == s.sinceRotation
  {
    if n > 0 {
      ReceivesDoNotCount(suite, s, n - 1);
    }
  }

  /** After a completed step and any number of packets received, the next step is due
      exactly with the message that reaches the one limit, or with the time that reaches
      the other. The counter is a uint64: at 2^64 messages it starts again. */
  lemma RotationDueIff<K>(suite: Suite<K>, s: Session<K>, remotePub: K, entropy: Option<K>, sent: nat, got: nat,
                          limit: nat, elapsed: int, period: int)
    requires Ratcheted(suite, s, remotePub, entropy).ok && s.sendCounter < TWO_TO_THE_64
    ensures var s' := Receives(suite, Sends(suite, Ratcheted(suite, s, remotePub, entropy).session, sent), got);
            NeedsRotation(s', limit, elapsed, period) <==> 0 < limit <= Wrap64(sent) || 0 < period <= elapsed
  {
    var stepped := Ratcheted(suite, s, remotePub, entropy).session;
    SendsCount(suite, stepped, sent);
    ReceivesDoNotCount(suite, Sends(suite, stepped, sent), got);
  }

  // ----- the session object -----

  class SessionKey<K> {
    const suite: Suite<K>
    var rootKey: K
    var sendChain: K
    var recvChain: K
    var sendCounter: nat
    var recvCounter: nat
    var sinceRotation: nat
    var localPub: K
    var localPriv: K
    var remotePub: K

    constructor (suite: Suite<K>, s: Session<K>)
      ensures this.suite == suite && State() == s
    {
      this.suite := suite;
      rootKey, sendChain, recvChain := s.rootKey, s.sendChain, s.recvChain;
      sendCounter, recvCounter, sinceRotation := s.sendCounter, s.recvCounter, s.sinceRotation;
      localPub, localPriv, remotePub := s.localPub, s.localPriv, s.remotePub;
    }

    function State(): Session<K>
      reads this
    {
      Session(rootKey, sendChain, recvChain, sendCounter, recvCounter, sinceRotation, localPub, localPriv, remotePub)
    }

    method Advance() returns (key: K)
      modifies this
      ensures key == MessageKey(suite, old(sendChain))
      ensures State() == AfterSend(suite, old(State()))
    {
      key := MessageKey(suite, sendChain);
      sendChain := NextChain(suite, sendChain);
      sendCounter := NextCounter(sendCounter);
      sinceRotation := NextCounter(sinceRotation);
    }

    method AdvanceRecv() returns (key: K)
      modifies this
      ensures key == MessageKey(suite, old(recvChain))
      ensures State() == AfterReceive(suite, old(State()))
    {
      key := MessageKey(suite, recvChain);
      recvChain := NextChain(suite, recvChain);
      recvCounter := NextCounter(recvCounter);
    }

    method DHRatchet(remote: K, entropy: Option<K>) returns (ok: bool)
      modifies this
      ensures RatchetOutcome(ok, State()) == Ratcheted(suite, old(State()), remote, entropy)
    {
      var shared := suite.dh(localPriv, remote);
      if shared.None? {
        return false;
      }
      var root := RootAfter(suite, rootKey, shared.value);
      recvChain := ChainAfter(suite, rootKey, shared.value);
      rootKey := root;
      remotePub := remote;

      if entropy.None? {
        return false;
      }
      localPub, localPriv := suite.pub(entropy.value), entropy.value;

      var shared2 := suite.dh(localPriv, remote);
      if shared2.None? {
        return false;
      }
      root := RootAfter(suite, rootKey, shared2.value);
      sendChain := ChainAfter(suite, rootKey, shared2.value);
      rootKey := root;
      sinceRotation := 0;
      return true;
    }
  }

  /** Seals under the advanced chain, with the counter read after the advance. */
  method EncryptPacketBody<K>(sess: SessionKey<K>, header: Bytes, body: Bytes, nonce: Bytes) returns (packet: Bytes)
    modifies sess
    ensures packet == sess.suite.seal(old(SendKey(sess.suite, sess.State())), nonce, body, header)
    ensures sess.State() == AfterSend(sess.suite, old(sess.State()))
  {
    var key := sess.Advance();
    var packetKey := sess.suite.kdf(key, ByteSalt(CounterBytes(sess.sendCounter)), "enc");
    packet := sess.suite.seal(packetKey, nonce, body, header);
  }

  /** The receive chain moves whether or not the packet opens. */
  method DecryptPacketBody<K>(sess: SessionKey<K>, header: Bytes, packet: Bytes) returns (body: Option<Bytes>)
    modifies sess
    ensures body == sess.suite.open(old(ReceiveKey(sess.suite, sess.State())), packet, header)
    ensures sess.State() == AfterReceive(sess.suite, old(sess.State()))
  {
    var key := sess.AdvanceRecv();
    var packetKey := sess.suite.kdf(key, ByteSalt(CounterBytes(sess.recvCounter)), "enc");
    body := sess.suite.open(packetKey, packet, header);
  }
}
