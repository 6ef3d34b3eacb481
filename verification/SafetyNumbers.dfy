/** Safety numbers: what two users compare to check that they hold each other's keys.
    The hash is a parameter; nothing is assumed about it but the length of its output. */
module SafetyNumbers {
  import ByteOrder
  import opened Decimals
  import opened Prelude

  type Digest = b: Bytes | |b| == 64 witness seq(64, i => 0)
  type Hash = Bytes -> Digest

  const ITERATIONS := 5200

  datatype Party = Party(key: Bytes, nodeId: Bytes)
  datatype SafetyNumber = SafetyNumber(combined: string, qrPayload: Bytes)

  // ----- the order on node identifiers -----

  /** Strings compare byte by byte, and a proper prefix is smaller. */
  predicate Less(a: Bytes, b: Bytes) {
    && b != []
    && (a == [] || a[0] < b[0] || (a[0] == b[0] && Less(a[1..], b[1..])))
  }

  lemma {:induction false} LessIsTotal(a: Bytes, b: Bytes)
    ensures !(Less(a, b) && Less(b, a))
    ensures !Less(a, b) && !Less(b, a) <==> a == b
  {
    if a != [] && b != [] {
      LessIsTotal(a[1..], b[1..]);
      assert a == [a[0]] + a[1..] && b == [b[0]] + b[1..];
    }
  }

  /** The first `k` bytes agree, and then `a` ends or has the smaller byte. */
  ghost predicate SmallerFrom(a: Bytes, b: Bytes, k: nat) {
    k <= |a| && k < |b| && a[..k] == b[..k] && (k == |a| || a[k] < b[k])
  }

  lemma {:induction false} LessIff(a: Bytes, b: Bytes)
    ensures Less(a, b) <==> exists k: nat :: SmallerFrom(a, b, k)
  {
    if a == [] || b == [] || a[0] < b[0] {
      assert b != [] ==> SmallerFrom(a, b, 0);
    } else {
      LessIff(a[1..], b[1..]);
      if a[0] == b[0] && Less(a[1..], b[1..]) {
        var k: nat :| SmallerFrom(a[1..], b[1..], k);
        assert a[..k + 1] == [a[0]] + a[1..][..k] && b[..k + 1] == [b[0]] + b[1..][..k];
        assert SmallerFrom(a, b, k + 1);
      }
      if k: nat :| SmallerFrom(a, b, k) {
        assert k > 0 && a[..k][0] == a[0] && b[..k][0] == b[0];
        assert a[1..][..k - 1] == a[..k][1..] && b[1..][..k - 1] == b[..k][1..];
        assert SmallerFrom(a[1..], b[1..], k - 1);
      }
    }
  }

  // ----- the iterated hash -----

  /** The digest after `n` rounds, the first over key and identifier, the others over
      the previous digest and the key. */
  function Rounds(hash: Hash, key: Bytes, id: Bytes, n: nat): Digest {
    if n <= 1 then hash(key + id) else hash(Rounds(hash, key, id, n - 1) + key)
  }

  function Fingerprint(hash: Hash, p: Party): (f: Bytes)
    ensures |f| == 30
  {
    Rounds(hash, p.key, p.nodeId, ITERATIONS)[..30]
  }

  method IteratedHash(hash: Hash, key: Bytes, id: Bytes, iterations: nat) returns (r: Bytes)
    ensures |r| == 30 && r == Rounds(hash, key, id, iterations)[..30]
  {
    var result: Digest := hash(key + id);
    var i := 1;
    while i < iterations
      invariant 1 <= i && (i <= iterations || i == 1)
      invariant result == Rounds(hash, key, id, i)
    {
      result := hash(result + key);
      i := i + 1;
    }
    r := result[..30];
  }

  // ----- digits -----

  /** Group `k`: five bytes as a big-endian number, reduced to five decimal digits. */
  function Group(data: Bytes, k: nat): nat
    requires 5 * k + 5 <= |data|
  {
    ByteOrder.Value(data[5 * k..5 * k + 5]) % 100000
  }

  /** `digits` is five decimal digits for each of the first `n` groups. */
  ghost predicate Spells(digits: string, data: Bytes, n: nat)
    requires 5 * n <= |data|
  {
    && |digits| == 5 * n
    && (forall c <- digits :: IsDigit(c))
    && (forall k :: 0 <= k < n ==> Value(digits[5 * k..5 * k + 5]) == Group(data, k))
  }

  /** Three zero bytes in front fill the eight-byte word and do not change its value. */
  lemma PaddedWord(chunk: Bytes)
    requires |chunk| == 5
    ensures |[0, 0, 0] + chunk| == 8
    ensures ByteOrder.Value([0, 0, 0] + chunk) == ByteOrder.Value(chunk) < 0x100_0000_0000
  {
    var zeros: Bytes := seq(3, i => 0);
    ZeroBytes(3, chunk);
    assert zeros == [0, 0, 0];
    ByteOrder.BigEndianOfValue(chunk);
    assert ByteOrder.Pow256(5) == 256 * ByteOrder.Pow256(4);
    ByteOrder.Widths();
  }

  lemma {:induction false} ZeroBytes(k: nat, b: Bytes)
    ensures ByteOrder.Value(seq(k, i => 0) + b) == ByteOrder.Value(b)
  {
    var z: Bytes := seq(k, i => 0);
    var t := z + b;
    if b != [] {
      assert t[..|t| - 1] == z + b[..|b| - 1];
      ZeroBytes(k, b[..|b| - 1]);
    } else if k > 0 {
      var z': Bytes := seq(k - 1, i => 0);
      assert t[..|t| - 1] == z' + [];
      ZeroBytes(k - 1, []);
    }
  }

  method FingerprintToDigits(data: Bytes) returns (out: string)
    requires |data| == 60
    ensures Spells(out, data, 12)
  {
    out := "";
    for i := 0 to 12
      invariant Spells(out, data, i)
    {
      var chunk := data[i * 5..i * 5 + 5];
      var padded := [0, 0, 0] + chunk;
      PaddedWord(chunk);
      var v := ByteOrder.Value(padded) % 100000;
      PaddedToFive(v);
      SpellsOneMore(out, data, i, Padded(v, 5));
      out := out + Padded(v, 5);
    }
  }

  /** The groups already there are where they were, and the next one follows them. */
  lemma GroupsOfJoined(digits: string, next: string, n: nat, k: nat)
    requires |digits| == 5 * n && |next| == 5 && k <= n
    ensures (digits + next)[5 * k..5 * k + 5] == if k < n then digits[5 * k..5 * k + 5] else next
  {
  }

  lemma SpellsOneMore(digits: string, data: Bytes, n: nat, next: string)
    requires 5 * n + 5 <= |data| && Spells(digits, data, n)
    requires |next| == 5 && (forall c <- next :: IsDigit(c)) && Value(next) == Group(data, n)
    ensures Spells(digits + next, data, n + 1)
  {
    forall k | 0 <= k < n + 1
      ensures Value((digits + next)[5 * k..5 * k + 5]) == Group(data, k)
    {
      GroupsOfJoined(digits, next, n, k);
    }
  }

  // ----- numerals are determined by what they stand for -----

  lemma {:induction false} NumeralsDiffer(s: string, t: string)
    requires |s| == |t| && (forall c <- s :: IsDigit(c)) && (forall c <- t :: IsDigit(c))
    requires Value(s) == Value(t)
    ensures s == t
  {
    if s != [] {
      var n := |s| - 1;
      assert s[n] in s && t[n] in t;
      assert forall c <- s[..n] :: c in s;
      assert forall c <- t[..n] :: c in t;
      assert s[n] == t[n] && Value(s[..n]) == Value(t[..n]);
      NumeralsDiffer(s[..n], t[..n]);
      assert s == s[..n] + [s[n]] && t == t[..n] + [t[n]];
    }
  }

  ghost predicate GroupsAgree(a: Bytes, b: Bytes, n: nat)
    requires 5 * n <= |a| && 5 * n <= |b|
  {
    forall k :: 0 <= k < n ==> Group(a, k) == Group(b, k)
  }

  /** Two digit strings agree exactly when all their groups do: the bytes determine the
      string, and the string determines every group. */
  lemma SpellsIff(s: string, a: Bytes, t: string, b: Bytes)
    requires |a| == |b| == 60 && Spells(s, a, 12) && Spells(t, b, 12)
    ensures s == t <==> GroupsAgree(a, b, 12)
  {
    if GroupsAgree(a, b, 12) {
      forall i | 0 <= i < 60
        ensures s[i] == t[i]
      {
        var k := i / 5;
        var x, y := s[5 * k..5 * k + 5], t[5 * k..5 * k + 5];
        assert forall c <- x :: c in s;
        assert forall c <- y :: c in t;
        assert Group(a, k) == Group(b, k);
        NumeralsDiffer(x, y);
        assert s[i] == x[i - 5 * k] && t[i] == y[i - 5 * k];
      }
    }
    if s == t {
      forall k | 0 <= k < 12
        ensures Group(a, k) == Group(b, k)
      {
        assert Value(s[5 * k..5 * k + 5]) == Group(a, k);
      }
    }
  }

  // ----- the safety number -----

  /** The bytes behind the digits: the fingerprint of the party with the smaller
      identifier comes first. */
  function CombinedBytes(hash: Hash, local: Party, remote: Party): (b: Bytes)
    ensures |b| == 60
  {
    if Less(remote.nodeId, local.nodeId)
    then Fingerprint(hash, remote) + Fingerprint(hash, local)
    else Fingerprint(hash, local) + Fingerprint(hash, remote)
  }

  function KeysInOrder(local: Party, remote: Party): Bytes {
    if Less(remote.nodeId, local.nodeId) then remote.key + local.key else local.key + remote.key
  }

  /** What the operation promises of its result. */
  ghost predicate IsSafetyNumber(n: SafetyNumber, hash: Hash, local: Party, remote: Party) {
    && Spells(n.combined, CombinedBytes(hash, local, remote), 12)
    && n.qrPayload == [2, 13] + KeysInOrder(local, remote)
  }

  method ComputeSafetyNumber(hash: Hash, local: Party, remote: Party) returns (n: SafetyNumber)
    ensures IsSafetyNumber(n, hash, local, remote)
    ensures |n.combined| == 60 && forall c <- n.combined :: IsDigit(c)
  {
    var a, aKey := local.nodeId, local.key;
    var b, bKey := remote.nodeId, remote.key;
    if Less(remote.nodeId, local.nodeId) {
      a, b := b, a;
      aKey, bKey := bKey, aKey;
    }
    var hashA := IteratedHash(hash, aKey, a, 5200);
    var hashB := IteratedHash(hash, bKey, b, 5200);
    var combined := hashA + hashB;
    assert combined == CombinedBytes(hash, local, remote);
    var digits := FingerprintToDigits(combined);
    var qr: Bytes := [];
    qr := qr + [2, 13];
    qr := qr + aKey;
    qr := qr + bKey;
    assert qr == [2, 13] + (aKey + bKey);
    n := SafetyNumber(digits, qr);
  }

  /** Both users compute the same number if their node identifiers differ, whatever the
      keys and the hash; with equal identifiers, only if the keys are equal too. */
  lemma SymmetricIff(hash: Hash, x: Party, y: Party, n: SafetyNumber, m: SafetyNumber)
    requires |x.key| == |y.key|
    requires IsSafetyNumber(n, hash, x, y) && IsSafetyNumber(m, hash, y, x)
    ensures n == m <==> x.nodeId != y.nodeId || x.key == y.key
  {
    LessIsTotal(x.nodeId, y.nodeId);
    if x.nodeId != y.nodeId || x.key == y.key {
      SpellsIff(n.combined, CombinedBytes(hash, x, y), m.combined, CombinedBytes(hash, y, x));
    } else {
      assert n.qrPayload[2..] == x.key + y.key && m.qrPayload[2..] == y.key + x.key;
      assert (x.key + y.key)[..|x.key|] == x.key && (y.key + x.key)[..|x.key|] == y.key;
    }
  }

  /** The number has no other freedom: it is a function of the two parties. */
  lemma SafetyNumberDetermined(hash: Hash, x: Party, y: Party, n: SafetyNumber, m: SafetyNumber)
    requires IsSafetyNumber(n, hash, x, y) && IsSafetyNumber(m, hash, x, y)
    ensures n == m
  {
    SpellsIff(n.combined, CombinedBytes(hash, x, y), m.combined, CombinedBytes(hash, x, y));
  }

  /** The party with the smaller identifier comes first, in the digits and in the payload. */
  lemma SmallerComesFirst(hash: Hash, local: Party, remote: Party, n: SafetyNumber)
    requires IsSafetyNumber(n, hash, local, remote) && local.nodeId != remote.nodeId
    ensures var (a, b) := if Less(local.nodeId, remote.nodeId) then (local, remote) else (remote, local);
            && n.qrPayload == [2, 13] + a.key + b.key
            && Spells(n.combined, Fingerprint(hash, a) + Fingerprint(hash, b), 12)
  {
    LessIsTotal(local.nodeId, remote.nodeId);
    assert forall x: Bytes, y: Bytes :: [2, 13] + (x + y) == [2, 13] + x + y;
  }

  /** The calls a fingerprint makes to the hash. */
  function Inputs(hash: Hash, key: Bytes, id: Bytes, n: nat): set<Bytes> {
    if n <= 1 then {key + id} else Inputs(hash, key, id, n - 1) + {Rounds(hash, key, id, n - 1) + key}
  }

  /** Two parties with keys of equal length have the same digest only if they are the
      same party, or two different calls made on the way collide in the hash. */
  lemma {:induction false} SameDigestIsCollision(hash: Hash, p: Party, q: Party, n: nat)
    requires |p.key| == |q.key| && Rounds(hash, p.key, p.nodeId, n) == Rounds(hash, q.key, q.nodeId, n)
    ensures p == q ||
            exists x, y :: x in Inputs(hash, p.key, p.nodeId, n) && y in Inputs(hash, q.key, q.nodeId, n) &&
                           x != y && hash(x) == hash(y)
    decreases n
  {
    var x := if n <= 1 then p.key + p.nodeId else Rounds(hash, p.key, p.nodeId, n - 1) + p.key;
    var y := if n <= 1 then q.key + q.nodeId else Rounds(hash, q.key, q.nodeId, n - 1) + q.key;
    assert x in Inputs(hash, p.key, p.nodeId, n) && y in Inputs(hash, q.key, q.nodeId, n);
    assert hash(x) == hash(y);
    if x == y {
      if n <= 1 {
        assert p.key == x[..|p.key|] && q.key == y[..|p.key|];
        assert p.nodeId == x[|p.key|..] && q.nodeId == y[|p.key|..];
      } else {
        assert Rounds(hash, p.key, p.nodeId, n - 1) == x[..64] && Rounds(hash, q.key, q.nodeId, n - 1) == y[..64];
        SameDigestIsCollision(hash, p, q, n - 1);
      }
    }
  }

  /** What the digits attest: a substituted remote key goes unnoticed only if its
      fingerprint agrees in all six groups of five bytes, modulo 100000. */
  lemma SameDigitsIff(hash: Hash, local: Party, remote: Party, other: Party, n: SafetyNumber, m: SafetyNumber)
    requires remote.nodeId == other.nodeId
    requires IsSafetyNumber(n, hash, local, remote) && IsSafetyNumber(m, hash, local, other)
    ensures n.combined == m.combined <==>
            GroupsAgree(Fingerprint(hash, remote), Fingerprint(hash, other), 6)
  {
    var f, g, l := Fingerprint(hash, remote), Fingerprint(hash, other), Fingerprint(hash, local);
    SpellsIff(n.combined, CombinedBytes(hash, local, remote), m.combined, CombinedBytes(hash, local, other));
    if Less(remote.nodeId, local.nodeId) {
      FirstHalf(f, g, l);
    } else {
      SecondHalf(f, g, l);
    }
  }

  lemma FirstHalf(f: Bytes, g: Bytes, l: Bytes)
    requires |f| == |g| == |l| == 30
    ensures GroupsAgree(f + l, g + l, 12) <==> GroupsAgree(f, g, 6)
  {
    forall k | 0 <= k < 12
      ensures Group(f + l, k) == Group(g + l, k) <==> k >= 6 || Group(f, k) == Group(g, k)
    {
      GroupOfHalves(f, l, k);
      GroupOfHalves(g, l, k);
    }
  }

  lemma SecondHalf(f: Bytes, g: Bytes, l: Bytes)
    requires |f| == |g| == |l| == 30
    ensures GroupsAgree(l + f, l + g, 12) <==> GroupsAgree(f, g, 6)
  {
    forall k | 0 <= k < 12
      ensures Group(l + f, k) == Group(l + g, k) <==> k < 6 || Group(f, k - 6) == Group(g, k - 6)
    {
      GroupOfHalves(l, f, k);
      GroupOfHalves(l, g, k);
    }
    forall k | 0 <= k < 6 && GroupsAgree(l + f, l + g, 12)
      ensures Group(f, k) == Group(g, k)
    {
      assert Group(l + f, k + 6) == Group(l + g, k + 6);
    }
  }

  lemma GroupOfHalves(a: Bytes, b: Bytes, k: nat)
    requires |a| == |b| == 30 && k < 12
    ensures Group(a + b, k) == Group(if k < 6 then a else b, k % 6)
  {
    if k < 6 {
      assert (a + b)[5 * k..5 * k + 5] == a[5 * k..5 * k + 5];
    } else {
      assert (a + b)[5 * k..5 * k + 5] == b[5 * (k - 6)..5 * (k - 6) + 5];
    }
  }
}
