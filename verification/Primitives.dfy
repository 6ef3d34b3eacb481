/** The cryptographic library as the client sees it: X25519, HKDF and an AEAD.
    `K` is the type of a 32-byte key. Nothing is assumed about the functions
    beyond `Lawful`, so every theorem holds for every library that meets the laws. */
module Primitives {
  import opened ByteOrder
  import opened Prelude

  /** The salt argument of a derivation: absent (the library substitutes zeros),
      literal bytes, or another key. */
  datatype Salt<+K> = ZeroSalt | ByteSalt(bytes: Bytes) | KeySalt(key: K)

  datatype Suite<!K> = Suite(
    pub: K -> K,
    dh: (K, K) -> Option<K>,                    // None: the result is the all-zero point
    kdf: (K, Salt<K>, string) -> K,
    seal: (K, Bytes, Bytes, Bytes) -> Bytes,    // key, nonce, plaintext, associated data
    open: (K, Bytes, Bytes) -> Option<Bytes>)   // key, ciphertext, associated data

  /** Section 6.1 of RFC 7748 (both sides agree on the shared secret) and
      authenticated decryption undoing encryption under equal key and data. */
  ghost predicate Lawful<K(!new)>(suite: Suite<K>) {
    && (forall a: K, b: K {:trigger suite.dh(a, suite.pub(b))} ::
          suite.dh(a, suite.pub(b)).Some? && suite.dh(a, suite.pub(b)) == suite.dh(b, suite.pub(a)))
    && (forall key: K, nonce: Bytes, text: Bytes, data: Bytes {:trigger suite.seal(key, nonce, text, data)} ::
          suite.open(key, suite.seal(key, nonce, text, data), data) == Some(text))
  }

  /** A counter as a uint64 in eight bytes, most significant first. */
  function CounterBytes(n: nat): (bytes: Bytes)
    ensures |bytes| == 8
  {
    BigEndian(Wrap64(n), 8)
  }

  /** The bytes stand for the counter modulo 2^64, so counters below 2^64 have different ones. */
  lemma CounterBytesValue(n: nat)
    ensures Value(CounterBytes(n)) == Wrap64(n)
  {
    Widths();
    ValueOfBigEndian(Wrap64(n), 8);
  }

  lemma CounterBytesInjective(m: nat, n: nat)
    ensures CounterBytes(m) == CounterBytes(n) <==> Wrap64(m) == Wrap64(n)
  {
    CounterBytesValue(m);
    CounterBytesValue(n);
  }

  /** The first packet of a session is salted with this. */
  lemma FirstCounter()
    ensures CounterBytes(1) == [0, 0, 0, 0, 0, 0, 0, 1]
  {
    ZeroInFront(7);
    assert BigEndian(1, 8) == BigEndian(0, 7) + [1];
  }
}
