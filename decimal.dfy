/** Decimal digit strings and powers of ten, shared by the digit-based puzzles
    and by the model of Rust's integer parsing. */
module Decimal {
  import Arith

  predicate IsDigit(c: char) {
    '0' <= c <= '9'
  }

  predicate AllDigits(s: string) {
    forall i :: 0 <= i < |s| ==> IsDigit(s[i])
  }

  function DigitValue(c: char): (d: nat)
    requires IsDigit(c)
    ensures d < 10
  {
    (c as int) - ('0' as int)
  }

  function DigitChar(d: nat): (c: char)
    requires d < 10
    ensures IsDigit(c) && DigitValue(c) == d
  {
    (('0' as int) + d) as char
  }

  /** 10 to the power `e`. */
  function Exp10(e: nat): (p: nat)
    ensures p >= 1
  {
    if e == 0 then 1 else 10 * Exp10(e - 1)
  }

  lemma {:induction false} Exp10Add(a: nat, b: nat)
    ensures Exp10(a + b) == Exp10(a) * Exp10(b)
  {
    if b > 0 {
      Exp10Add(a, b - 1);
      assert Exp10(a + b) == 10 * Exp10(a + b - 1);
    }
  }

  lemma {:induction false} Exp10Monotonic(a: nat, b: nat)
    requires a <= b
    ensures Exp10(a) <= Exp10(b)
  {
    if a < b {
      Exp10Monotonic(a, b - 1);
    }
  }

  /** The value of a string of decimal digits, most significant digit first
      (leading zeros allowed, the empty string is 0). */
  function DigitsValue(s: string): (v: nat)
    requires AllDigits(s)
    ensures v < Exp10(|s|)
  {
    if s == [] then 0
    else
      var v0 := DigitsValue(s[..|s| - 1]);
      assert v0 <= Exp10(|s| - 1) - 1;
      v0 * 10 + DigitValue(s[|s| - 1])
  }

  /** The `w`-digit decimal rendering of `n`, padded with leading zeros. */
  function Pad(n: nat, w: nat): (s: string)
    requires n < Exp10(w)
    ensures |s| == w && AllDigits(s) && DigitsValue(s) == n
  {
    if w == 0 then ""
    else
      var prefix := Pad(n / 10, w - 1);
      var s := prefix + [DigitChar(n % 10)];
      assert s[..|s| - 1] == prefix;
      s
  }

  /** The number of decimal digits of `n` (1 for 0). */
  function DigitCount(n: nat): (k: nat)
    ensures k >= 1 && n < Exp10(k)
    ensures n > 0 ==> Exp10(k - 1) <= n
  {
    if n < 10 then 1 else 1 + DigitCount(n / 10)
  }

  /** The canonical decimal rendering of `n`: no leading zeros except for 0 itself. */
  function ToDecimal(n: nat): (s: string)
    ensures |s| == DigitCount(n) && AllDigits(s) && DigitsValue(s) == n
  {
    Pad(n, DigitCount(n))
  }

  lemma Regroup(va: int, p: int, vb0: int, d: int)
    ensures (va * p + vb0) * 10 + d == va * (p * 10) + (vb0 * 10 + d)
  {}

  /** The value of a concatenation: the left part shifted by the length of the right part. */
  lemma {:induction false} DigitsValueConcat(a: string, b: string)
    requires AllDigits(a) && AllDigits(b)
    ensures AllDigits(a + b)
    ensures DigitsValue(a + b) == DigitsValue(a) * Exp10(|b|) + DigitsValue(b)
  {
    if b == [] {
      assert a + b == a;
    } else {
      var b0, d := b[..|b| - 1], DigitValue(b[|b| - 1]);
      assert AllDigits(a + b);
      assert DigitsValue(a + b) == DigitsValue(a + b0) * 10 + d by {
        assert (a + b)[..|a + b| - 1] == a + b0;
      }
      DigitsValueConcat(a, b0);
      Regroup(DigitsValue(a), Exp10(|b0|), DigitsValue(b0), d);
    }
  }

  /** Two digit strings of the same length with the same value are the same string. */
  lemma {:induction false} DigitsValueInjective(a: string, b: string)
    requires AllDigits(a) && AllDigits(b) && |a| == |b|
    requires DigitsValue(a) == DigitsValue(b)
    ensures a == b
  {
    if a != [] {
      var a0, b0 := a[..|a| - 1], b[..|b| - 1];
      var da, db := DigitValue(a[|a| - 1]), DigitValue(b[|b| - 1]);
      var va, vb := DigitsValue(a0), DigitsValue(b0);
      assert DigitsValue(a) == 10 * va + da;
      assert DigitsValue(b) == 10 * vb + db;
      Arith.ModUnique(DigitsValue(a), 10, va, da);
      Arith.ModUnique(DigitsValue(b), 10, vb, db);
      DigitsValueInjective(a0, b0);
      assert a[|a| - 1] == b[|b| - 1];
      assert a == a0 + [a[|a| - 1]] && b == b0 + [b[|b| - 1]];
    }
  }

  /** Rendering round trip: the canonical rendering is the only digit string
      of that length with that value. */
  lemma DecimalUnique(s: string)
    requires AllDigits(s) && |s| == DigitCount(DigitsValue(s))
    ensures ToDecimal(DigitsValue(s)) == s
  {
    DigitsValueInjective(ToDecimal(DigitsValue(s)), s);
  }
}
