/** Decimal numerals, as the formatting verbs "%d" and "%05d" print them. */
module Decimals {

  function Digit(d: nat): char
    requires d < 10
  {
    '0' + d as char
  }

  predicate IsDigit(c: char) {
    '0' <= c <= '9'
  }

  function Decimal(n: nat): string {
    if n < 10 then [Digit(n)] else Decimal(n / 10) + [Digit(n % 10)]
  }

  /** The number a string of digits stands for. */
  function Value(s: string): int {
    if s == [] then 0
    else 10 * Value(s[..|s| - 1]) + (s[|s| - 1] as int - '0' as int)
  }

  lemma {:induction false} DecimalValue(n: nat)
    ensures Value(Decimal(n)) == n
  {
    if n >= 10 {
      DecimalValue(n / 10);
      assert Decimal(n)[..|Decimal(n)| - 1] == Decimal(n / 10);
    } else {
      assert Decimal(n)[..0] == [];
    }
  }

  /** Zeros in front up to the width; longer numerals are not cut. */
  function Padded(n: nat, width: nat): string {
    Zeros(if |Decimal(n)| < width then width - |Decimal(n)| else 0) + Decimal(n)
  }

  function Zeros(n: nat): string {
    seq(n, i => '0')
  }

  lemma {:induction false} DecimalDigits(n: nat)
    ensures forall c <- Decimal(n) :: IsDigit(c)
  {
    if n >= 10 { DecimalDigits(n / 10); }
  }

  lemma {:induction false} LeadingZeros(k: nat, s: string)
    ensures Value(Zeros(k) + s) == Value(s)
  {
    var t := Zeros(k) + s;
    if s != [] {
      assert t[..|t| - 1] == Zeros(k) + s[..|s| - 1];
      LeadingZeros(k, s[..|s| - 1]);
    } else if k > 0 {
      assert t[..|t| - 1] == Zeros(k - 1) + [];
      LeadingZeros(k - 1, []);
    }
  }

  lemma DecimalWidth(n: nat)
    ensures n < 10 ==> |Decimal(n)| == 1
    ensures 10 <= n < 100 ==> |Decimal(n)| == 2
    ensures 100 <= n < 1000 ==> |Decimal(n)| == 3
    ensures 1000 <= n < 10000 ==> |Decimal(n)| == 4
    ensures 10000 <= n < 100000 ==> |Decimal(n)| == 5
    ensures n >= 100000 ==> |Decimal(n)| > 5
  {
    if n >= 10 {
      DecimalWidth(n / 10);
    }
  }

  /** A padded numeral has five characters exactly when the number has at most five
      digits; they are all digits and stand for the number. */
  lemma PaddedToFive(n: nat)
    ensures |Padded(n, 5)| == 5 <==> n < 100000
    ensures forall c <- Padded(n, 5) :: IsDigit(c)
    ensures Value(Padded(n, 5)) == n
  {
    DecimalWidth(n);
    DecimalDigits(n);
    DecimalValue(n);
    LeadingZeros(|Padded(n, 5)| - |Decimal(n)|, Decimal(n));
  }
}
