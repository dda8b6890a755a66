/** Decimal numbers as ASCII digits. */
module Decimals {
  import opened Bytes

  predicate Digits(s: Bytes) { forall i :: 0 <= i < |s| ==> 0x30 <= s[i] <= 0x39 }

  function Decimal(s: Bytes): nat
    requires Digits(s)
  {
    if s == [] then 0 else 10 * Decimal(s[..|s| - 1]) + (s[|s| - 1] - 0x30)
  }

  function ToDecimal(n: nat): (s: Bytes)
    ensures |s| > 0
  {
    if n < 10 then [0x30 + n] else ToDecimal(n / 10) + [0x30 + n % 10]
  }

  lemma {:induction false} DecimalRoundTrip(n: nat)
    ensures Digits(ToDecimal(n)) && Decimal(ToDecimal(n)) == n
    decreases n
  {
    var s := ToDecimal(n);
    if n < 10 {
      assert s[..0] == [];
    } else {
      DecimalRoundTrip(n / 10);
      assert s[..|s| - 1] == ToDecimal(n / 10);
    }
  }

  /** Digits without a superfluous leading zero are the decimal of their value. */
  lemma {:induction false} DecimalCanonical(s: Bytes)
    requires s != [] && Digits(s) && (|s| == 1 || s[0] != 0x30)
    ensures ToDecimal(Decimal(s)) == s
    ensures |s| > 1 ==> Decimal(s) >= 10
    decreases |s|
  {
    var n := |s| - 1;
    assert s == s[..n] + [s[n]];
    if n == 0 {
      assert Decimal(s[..0]) == 0;
    } else {
      DecimalCanonical(s[..n]);
      LeadingDigit(s[..n]);
      assert Decimal(s) / 10 == Decimal(s[..n]) && Decimal(s) % 10 == s[n] - 0x30;
    }
  }

  lemma {:induction false} LeadingDigit(s: Bytes)
    requires s != [] && Digits(s) && s[0] != 0x30
    ensures Decimal(s) >= 1
    decreases |s|
  {
    if |s| == 1 {
      assert Decimal(s[..0]) == 0;
    } else {
      LeadingDigit(s[..|s| - 1]);
    }
  }

  lemma {:induction false} NoLeadingZero(n: nat)
    ensures |ToDecimal(n)| == 1 || ToDecimal(n)[0] != 0x30
    decreases n
  {
    if n >= 10 {
      NoLeadingZero(n / 10);
      if |ToDecimal(n / 10)| == 1 {
        assert n / 10 >= 1;
        OneDigit(n / 10);
      }
    }
  }

  lemma OneDigit(n: nat)
    requires n >= 1 && |ToDecimal(n)| == 1
    ensures ToDecimal(n)[0] != 0x30
  {}
}
