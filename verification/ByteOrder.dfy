/** Integers as bytes, most significant first. */
module ByteOrder {
  import opened Prelude

  function BigEndian(n: nat, k: nat): (b: Bytes)
    ensures |b| == k
  {
    if k == 0 then [] else BigEndian(n / 256, k - 1) + [n % 256]
  }

  function Value(b: Bytes): nat {
    if b == [] then 0
    else
      var last: int := b[|b| - 1];
      256 * Value(b[..|b| - 1]) + last
  }

  function Pow256(k: nat): nat {
    if k == 0 then 1 else 256 * Pow256(k - 1)
  }

  lemma {:induction false} ValueOfBigEndian(n: nat, k: nat)
    requires n < Pow256(k)
    ensures Value(BigEndian(n, k)) == n
  {
    if k > 0 {
      ValueOfBigEndian(n / 256, k - 1);
      assert BigEndian(n, k)[..k - 1] == BigEndian(n / 256, k - 1);
    }
  }

  lemma {:induction false} BigEndianOfValue(b: Bytes)
    ensures BigEndian(Value(b), |b|) == b && Value(b) < Pow256(|b|)
  {
    if b != [] {
      var n := |b| - 1;
      BigEndianOfValue(b[..n]);
      assert Value(b) / 256 == Value(b[..n]);
      assert b == b[..n] + [b[n]];
    }
  }

  lemma Widths()
    ensures Pow256(4) == TWO_TO_THE_32 && Pow256(8) == TWO_TO_THE_64
  {
    assert Pow256(2) == 0x1_0000;
    assert Pow256(4) == 256 * (256 * Pow256(2));
    assert Pow256(6) == 256 * (256 * Pow256(4));
    assert Pow256(8) == 256 * (256 * Pow256(6));
  }

  /** Small numbers have their zeros in front. */
  lemma {:induction false} ZeroInFront(k: nat)
    ensures BigEndian(0, k) == seq(k, i => 0)
  {
    if k > 0 {
      ZeroInFront(k - 1);
    }
  }

  lemma {:induction false} AllOnes(k: nat)
    ensures Pow256(k) > 0 && BigEndian(Pow256(k) - 1, k) == seq(k, i => 255)
  {
    if k > 0 {
      AllOnes(k - 1);
      assert (Pow256(k) - 1) / 256 == Pow256(k - 1) - 1;
    }
  }

  lemma FourBytesOf(n: nat)
    ensures BigEndian(n, 4) == [n / 0x100_0000 % 256, n / 0x1_0000 % 256, n / 256 % 256, n % 256]
  {
    var n1, n2, n3 := n / 256, n / 0x1_0000, n / 0x100_0000;
    assert n1 / 256 == n2 && n2 / 256 == n3;
    assert BigEndian(n, 4) == BigEndian(n1, 3) + [n % 256];
    assert BigEndian(n1, 3) == BigEndian(n2, 2) + [n1 % 256];
    assert BigEndian(n2, 2) == BigEndian(n3, 1) + [n2 % 256];
    assert BigEndian(n3, 1) == [n3 % 256];
  }
}
