/** Decimal digit strings and the two conversions the time utilities rely on:
    JavaScript's `Number(digits)` on a captured group and `${n}` on a year or value. */
module Decimal {

  /** Values below this are written with a leading '0' where padding applies. */
  const TwoDigitsMinNumber: nat := 10

  predicate IsDigit(c: char) {
    '0' <= c <= '9'
  }

  /** What the regex class `\d` accepts at every position (ASCII digits only). */
  predicate AllDigits(s: string) {
    forall i :: 0 <= i < |s| ==> IsDigit(s[i])
  }

  function DigitValue(c: char): (d: nat)
    requires IsDigit(c)
    ensures d < 10
  {
    c as int - '0' as int
  }

  function DigitChar(d: nat): (c: char)
    requires d < 10
    ensures IsDigit(c) && DigitValue(c) == d
  {
    ('0' as int + d) as char
  }

  /** `Number(s)` for a string of ASCII digits: leading zeros are ignored and "" is 0. */
  function Number(s: string): nat
    requires AllDigits(s)
  {
    if s == [] then 0 else Number(s[..|s| - 1]) * 10 + DigitValue(s[|s| - 1])
  }

  /** The decimal rendering of `n`, as JavaScript's `${n}`: no leading zero, "0" for zero. */
  function Show(n: nat): (s: string)
    ensures 1 <= |s| && AllDigits(s)
  {
    if n < 10 then [DigitChar(n)] else Show(n / 10) + [DigitChar(n % 10)]
  }

  /** `v` written on (at least) two characters: a '0' in front of a single digit. */
  function ZeroPadded(v: nat): string
  {
    if v < TwoDigitsMinNumber then "0" + Show(v) else Show(v)
  }

  lemma AllDigitsAppend(a: string, b: string)
    ensures AllDigits(a + b) <==> AllDigits(a) && AllDigits(b)
  {
    if AllDigits(a) && AllDigits(b) {
      forall i | 0 <= i < |a + b| ensures IsDigit((a + b)[i]) {
        if i >= |a| { assert (a + b)[i] == b[i - |a|]; }
      }
    }
    if AllDigits(a + b) {
      forall i | 0 <= i < |a| ensures IsDigit(a[i]) {
        assert (a + b)[i] == a[i];
      }
      forall i | 0 <= i < |b| ensures IsDigit(b[i]) {
        assert (a + b)[|a| + i] == b[i];
      }
    }
  }

  /** `Number` reads back what `Show` writes. */
  lemma {:induction false} NumberShow(n: nat)
    ensures Number(Show(n)) == n
  {
    var s := Show(n);
    if n >= 10 {
      NumberShow(n / 10);
      assert s[..|s| - 1] == Show(n / 10);
    } else {
      assert s[..|s| - 1] == [];
    }
  }

  lemma ShowInjective(a: nat, b: nat)
    requires Show(a) == Show(b)
    ensures a == b
  {
    NumberShow(a);
    NumberShow(b);
  }

  /** `Show(n)` has at most `k` characters exactly when `n < 10^k`. */
  lemma {:induction false} ShowLengthBound(n: nat, k: nat)
    requires 1 <= k
    ensures |Show(n)| <= k <==> n < Pow10(k)
  {
    if n >= 10 {
      if k == 1 {
        assert |Show(n)| == |Show(n / 10)| + 1 >= 2;
      } else {
        ShowLengthBound(n / 10, k - 1);
      }
    } else {
      Pow10AtLeastTen(k);
    }
  }

  function Pow10(k: nat): (p: nat)
    ensures 1 <= p
  {
    if k == 0 then 1 else 10 * Pow10(k - 1)
  }

  lemma {:induction false} Pow10AtLeastTen(k: nat)
    requires 1 <= k
    ensures 10 <= Pow10(k)
  {
    if k > 1 { Pow10AtLeastTen(k - 1); }
  }

  /** A year of three or four digits is rendered on three or four characters. */
  lemma ShowYearLength(n: nat)
    ensures 100 <= n <= 9999 <==> 3 <= |Show(n)| <= 4
  {
    ShowLengthBound(n, 2);
    ShowLengthBound(n, 4);
    assert Pow10(2) == 100 && Pow10(4) == 10000;
  }

  /** Below one hundred, the padded form has two digits and reads back as `v`. */
  lemma ZeroPaddedTwoDigits(v: nat)
    requires v < 100
    ensures |ZeroPadded(v)| == 2 && AllDigits(ZeroPadded(v)) && Number(ZeroPadded(v)) == v
  {
    NumberShow(v);
    ShowLengthBound(v, 1);
    ShowLengthBound(v, 2);
    assert Pow10(1) == 10 && Pow10(2) == 100;
    if v < 10 {
      var p := ZeroPadded(v);
      assert p == ['0', DigitChar(v)];
      assert p[..1] == "0";
      assert ("0")[..0] == [];
    }
  }

  lemma ZeroPaddedInjective(a: nat, b: nat)
    requires a < 100 && b < 100 && ZeroPadded(a) == ZeroPadded(b)
    ensures a == b
  {
    ZeroPaddedTwoDigits(a);
    ZeroPaddedTwoDigits(b);
  }

  /** A run of `k` digits denotes a number below `10^k`. */
  lemma {:induction false} NumberBound(s: string)
    requires AllDigits(s)
    ensures Number(s) < Pow10(|s|)
  {
    if s != [] {
      NumberBound(s[..|s| - 1]);
    }
  }
}
