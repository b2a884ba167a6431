/** Unsigned decimal numerals, as sprintf writes and strtoul reads them. */
module Decimal {

  predicate IsDigit(c: char) {
    '0' <= c <= '9'
  }

  predicate AllDigits(s: string) {
    forall i | 0 <= i < |s| :: IsDigit(s[i])
  }

  function Digit(d: nat): (c: char)
    requires d < 10
    ensures IsDigit(c)
  {
    '0' + d as char
  }

  function DigitValue(c: char): (d: nat)
    requires IsDigit(c)
    ensures d < 10
  {
    c as int - '0' as int
  }

  function Numeral(n: nat): (s: string)
    ensures s != "" && AllDigits(s)
  {
    if n < 10 then [Digit(n)] else Numeral(n / 10) + [Digit(n % 10)]
  }

  function Value(s: string): nat
    requires AllDigits(s)
  {
    if s == "" then 0 else 10 * Value(s[..|s| - 1]) + DigitValue(s[|s| - 1])
  }

  /** Reading undoes writing. */
  lemma {:induction false} ValueOfNumeral(n: nat)
    ensures Value(Numeral(n)) == n
  {
    if n >= 10 {
      ValueOfNumeral(n / 10);
      assert Numeral(n)[..|Numeral(n)| - 1] == Numeral(n / 10);
    } else {
      assert Numeral(n)[..0] == "";
    }
  }

  lemma NumeralsDiffer(m: nat, n: nat)
    requires Numeral(m) == Numeral(n)
    ensures m == n
  {
    ValueOfNumeral(m);
    ValueOfNumeral(n);
  }

  function Power10(k: nat): nat {
    if k == 0 then 1 else 10 * Power10(k - 1)
  }

  /** The number of digits is the number of powers of ten needed. */
  lemma {:induction false} NumeralLength(n: nat, k: nat)
    requires k >= 1
    ensures |Numeral(n)| <= k <==> n < Power10(k)
  {
    if n >= 10 && k >= 2 {
      NumeralLength(n / 10, k - 1);
    } else if n >= 10 {
      assert Power10(1) == 10 * Power10(0);
    } else {
      PowerGrows(k);
    }
  }

  lemma {:induction false} PowerGrows(k: nat)
    requires k >= 1
    ensures Power10(k) >= 10
  {
    if k > 1 {
      PowerGrows(k - 1);
    }
  }

  /** A text that is printed for some number below the bound. */
  predicate IsNumeral(s: string, bound: nat) {
    s != "" && AllDigits(s) && (s[0] == '0' ==> |s| == 1) && Value(s) < bound
  }

  lemma {:induction false} ValueOfPrefix(s: string, k: nat)
    requires AllDigits(s) && k <= |s|
    ensures Value(s[..k]) <= Value(s)
    decreases |s|
  {
    if k < |s| {
      ValueOfPrefix(s[..|s| - 1], k);
      assert s[..|s| - 1][..k] == s[..k];
    } else {
      assert s[..k] == s;
    }
  }

  lemma PrefixIsNumeral(s: string, k: nat, bound: nat)
    requires IsNumeral(s, bound) && 0 < k <= |s|
    ensures IsNumeral(s[..k], bound)
  {
    ValueOfPrefix(s, k);
  }

  lemma {:induction false} FirstDigit(n: nat)
    ensures Numeral(n)[0] == '0' ==> n == 0 && |Numeral(n)| == 1
  {
    if n >= 10 {
      FirstDigit(n / 10);
    }
  }

  lemma NumeralIsNumeral(n: nat, bound: nat)
    requires n < bound
    ensures IsNumeral(Numeral(n), bound)
  {
    ValueOfNumeral(n);
    FirstDigit(n);
  }

  /** Writing undoes reading. */
  lemma {:induction false} NumeralOfValue(s: string, bound: nat)
    requires IsNumeral(s, bound)
    ensures Numeral(Value(s)) == s
    decreases |s|
  {
    var front := s[..|s| - 1];
    if |s| == 1 {
      assert front == "";
    } else {
      PrefixIsNumeral(s, |s| - 1, bound);
      NumeralOfValue(front, bound);
      assert Value(front) > 0 by {
        assert Numeral(0) == "0" && front[0] == s[0];
      }
      assert s == front + [s[|s| - 1]];
    }
  }
}
