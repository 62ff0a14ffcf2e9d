/** Decimal numerals: `str.isdigit`, `int(s)` on a digit string and `str(n)`
    (the `{d}` of an f-string) for a natural number. */
module Decimal {
  import opened Text

  predicate AllDigits(s: string) {
    forall i :: 0 <= i < |s| ==> IsDigit(s[i])
  }

  /** `s.isdigit()`: non-empty and made of digits only. */
  predicate IsNumeral(s: string) {
    s != [] && AllDigits(s)
  }

  /** A numeral as `str(n)` writes it: no leading zero except for `"0"` itself. */
  predicate IsCanonical(s: string) {
    IsNumeral(s) && (s[0] == '0' ==> s == "0")
  }

  function DigitValue(c: char): nat
    requires IsDigit(c)
  {
    c as int - '0' as int
  }

  function DigitChar(d: nat): (c: char)
    requires d < 10
    ensures IsDigit(c) && DigitValue(c) == d
  {
    ('0' as int + d) as char
  }

  /** `int(ds)` for a string of digits (leading zeros allowed). */
  function Value(ds: string): nat
    requires AllDigits(ds)
  {
    if ds == [] then 0 else Value(ds[..|ds| - 1]) * 10 + DigitValue(ds[|ds| - 1])
  }

  /** `str(n)`. */
  function Show(n: nat): (s: string)
    ensures IsCanonical(s)
  {
    if n < 10 then [DigitChar(n)] else Show(n / 10) + [DigitChar(n % 10)]
  }

  /** `int(str(n)) == n`. */
  lemma {:induction false} ValueShow(n: nat)
    ensures Value(Show(n)) == n
  {
    if n >= 10 {
      ValueShow(n / 10);
      var s := Show(n);
      assert s[..|s| - 1] == Show(n / 10);
    }
  }

  /** Different numbers are written differently. */
  lemma ShowInjective(a: nat, b: nat)
    requires Show(a) == Show(b)
    ensures a == b
  {
    ValueShow(a);
    ValueShow(b);
  }

  /** `str(int(ds)) == ds` exactly for the canonical numerals. */
  lemma {:induction false} ShowValue(ds: string)
    requires IsCanonical(ds)
    ensures Show(Value(ds)) == ds
  {
    if |ds| == 1 {
      assert ds == [ds[0]];
      assert DigitChar(DigitValue(ds[0])) == ds[0];
    } else {
      var p := ds[..|ds| - 1];
      assert p[0] == ds[0];
      ValuePositive(p);
      ShowValue(p);
      var v := Value(ds);
      assert v / 10 == Value(p) && v % 10 == DigitValue(ds[|ds| - 1]);
      assert DigitChar(DigitValue(ds[|ds| - 1])) == ds[|ds| - 1];
      assert p + [ds[|ds| - 1]] == ds;
    }
  }

  lemma {:induction false} ValuePositive(ds: string)
    requires IsNumeral(ds) && ds[0] != '0'
    ensures Value(ds) >= 1
  {
    if |ds| > 1 {
      var p := ds[..|ds| - 1];
      assert p[0] == ds[0];
      ValuePositive(p);
    }
  }
}
