/** Whole numbers as decimal text. */
module Decimal {
  import opened Text

  const ZERO: CodeUnit := 0x30

  predicate IsDigit(c: CodeUnit) { ZERO <= c <= 0x39 }

  predicate AllDigits(s: Text) {
    forall k :: 0 <= k < |s| ==> IsDigit(s[k])
  }

  function Digits(n: nat): (s: Text)
    ensures s != [] && AllDigits(s)
  {
    if n < 10 then [ZERO + n] else Digits(n / 10) + [ZERO + n % 10]
  }

  function Value(s: Text): nat
    requires AllDigits(s)
  {
    if s == [] then 0 else Value(s[..|s| - 1]) * 10 + (s[|s| - 1] - ZERO)
  }

  lemma {:induction false} ValueOfDigits(n: nat)
    ensures Value(Digits(n)) == n
  {
    if n >= 10 {
      ValueOfDigits(n / 10);
      var s := Digits(n);
      assert s[..|s| - 1] == Digits(n / 10);
    }
  }

  /** A larger number is no shorter. */
  lemma {:induction false} DigitsGrow(m: nat, n: nat)
    requires m <= n
    ensures |Digits(m)| <= |Digits(n)|
    decreases n
  {
    if n >= 10 && m >= 10 {
      DigitsGrow(m / 10, n / 10);
    }
  }

  /** Counting on by `k` adds at most `k` digits. */
  lemma {:induction false} DigitsGrowSlowly(n: nat, k: nat)
    ensures |Digits(n + k)| <= |Digits(n)| + k
    decreases n + k
  {
    if k > 0 && n + k >= 10 {
      if n < 10 {
        DigitsGrowSlowly(0, (n + k) / 10);
      } else {
        DigitsGrowSlowly(n / 10, (n + k) / 10 - n / 10);
      }
    }
  }
}
