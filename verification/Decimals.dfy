// Decimal digit strings and powers of ten, as exact numbers.
module Decimals {
  predicate IsDigit(c: char) {
    '0' <= c <= '9'
  }

  predicate IsDigits(s: string) {
    forall i | 0 <= i < |s| :: IsDigit(s[i])
  }

  function DigitOf(c: char): nat
    requires IsDigit(c)
  {
    (c as int) - ('0' as int)
  }

  function DigitChar(d: nat): (c: char)
    requires d < 10
    ensures IsDigit(c) && DigitOf(c) == d
  {
    ('0' as int + d) as char
  }

  // The number a digit string denotes; the empty string denotes zero.
  function NatOf(s: string): nat
    requires IsDigits(s)
  {
    if s == "" then 0 else 10 * NatOf(s[..|s| - 1]) + DigitOf(s[|s| - 1])
  }

  // The shortest digit string of a number.
  function NatText(n: nat): (s: string)
    ensures s != "" && IsDigits(s)
    ensures NatOf(s) == n
    ensures if n == 0 then s == "0" else s[0] != '0'
  {
    if n < 10 then
      assert [DigitChar(n)][..0] == "";
      [DigitChar(n)]
    else
      var s := NatText(n / 10) + [DigitChar(n % 10)];
      assert s[..|s| - 1] == NatText(n / 10);
      s
  }

  function Pow10(n: nat): (p: nat)
    ensures p > 0
  {
    if n == 0 then 1 else 10 * Pow10(n - 1)
  }

  lemma {:induction false} Pow10Adds(m: nat, n: nat)
    ensures Pow10(m + n) == Pow10(m) * Pow10(n)
  {
    if n > 0 {
      Pow10Adds(m, n - 1);
      assert Pow10(m) * (10 * Pow10(n - 1)) == 10 * (Pow10(m) * Pow10(n - 1));
    }
  }

  lemma {:induction false} NatOfConcat(a: string, b: string)
    requires IsDigits(a) && IsDigits(b)
    ensures IsDigits(a + b) && NatOf(a + b) == NatOf(a) * Pow10(|b|) + NatOf(b)
    decreases |b|
  {
    if b == "" {
      assert a + b == a;
    } else {
      var c := b[..|b| - 1];
      NatOfConcat(a, c);
      assert (a + b)[..|a + b| - 1] == a + c;
      assert NatOf(a) * (10 * Pow10(|c|)) == 10 * (NatOf(a) * Pow10(|c|));
    }
  }

  function Zeros(n: nat): (s: string)
    ensures |s| == n && forall i | 0 <= i < n :: s[i] == '0'
  {
    if n == 0 then "" else Zeros(n - 1) + "0"
  }

  lemma {:induction false} ZerosAreZero(s: string)
    requires forall i | 0 <= i < |s| :: s[i] == '0'
    ensures IsDigits(s) && NatOf(s) == 0
  {
    if s != "" {
      ZerosAreZero(s[..|s| - 1]);
    }
  }

  // ---------- moving the decimal point ----------

  // x times ten to the power n.
  ghost function Shift(x: real, n: int): real
    decreases if n < 0 then -n else n
  {
    if n == 0 then x else if n > 0 then 10.0 * Shift(x, n - 1) else Shift(x, n + 1) / 10.0
  }

  lemma ShiftStep(x: real, n: int)
    ensures Shift(x, n + 1) == 10.0 * Shift(x, n)
  {
  }

  lemma {:induction false} ShiftTwice(x: real, m: int, n: int)
    ensures Shift(Shift(x, m), n) == Shift(x, m + n)
    decreases if n < 0 then -n else n
  {
    if n > 0 {
      ShiftTwice(x, m, n - 1);
      ShiftStep(x, m + n - 1);
    } else if n < 0 {
      ShiftTwice(x, m, n + 1);
      ShiftStep(x, m + n);
    }
  }

  lemma {:induction false} ShiftAdds(x: real, y: real, n: int)
    ensures Shift(x + y, n) == Shift(x, n) + Shift(y, n)
    decreases if n < 0 then -n else n
  {
    if n > 0 {
      ShiftAdds(x, y, n - 1);
    } else if n < 0 {
      ShiftAdds(x, y, n + 1);
    }
  }

  lemma {:induction false} ShiftZero(n: int)
    ensures Shift(0.0, n) == 0.0
    decreases if n < 0 then -n else n
  {
    if n > 0 {
      ShiftZero(n - 1);
    } else if n < 0 {
      ShiftZero(n + 1);
    }
  }

  lemma {:induction false} ShiftPositive(x: real, n: int)
    requires x > 0.0
    ensures Shift(x, n) > 0.0
    decreases if n < 0 then -n else n
  {
    if n > 0 {
      ShiftPositive(x, n - 1);
    } else if n < 0 {
      ShiftPositive(x, n + 1);
    }
  }

  // A number of units at a decimal scale: units times ten to the power of minus scale.
  ghost function Scaled(units: int, scale: int): real {
    Shift(units as real, 0 - scale)
  }

  lemma ScaledStep(units: int, scale: int)
    ensures Scaled(10 * units, scale + 1) == Scaled(units, scale)
  {
    var x := units as real;
    ShiftTwice(x, 1, 0 - scale - 1);
    assert Shift(x, 1) == 10.0 * Shift(x, 0);
    assert (10 * units) as real == 10.0 * x;
  }

  // Ten to the k times as many units at a scale k larger are the same amount.
  lemma {:induction false} Rescaling(units: int, scale: int, k: nat)
    ensures Scaled(units * Pow10(k), scale + k) == Scaled(units, scale)
    decreases k
  {
    if k > 0 {
      Rescaling(units, scale, k - 1);
      ScaledStep(units * Pow10(k - 1), scale + k - 1);
      assert units * (10 * Pow10(k - 1)) == 10 * (units * Pow10(k - 1));
    }
  }

  lemma ScaledAdds(m: int, n: int, scale: int)
    ensures Scaled(m + n, scale) == Scaled(m, scale) + Scaled(n, scale)
  {
    ShiftAdds(m as real, n as real, 0 - scale);
    assert (m + n) as real == m as real + n as real;
  }

  // At one scale the order of the units is the order of the amounts.
  lemma ScaledOrders(m: int, n: int, scale: int)
    ensures m < n ==> Scaled(m, scale) < Scaled(n, scale)
    ensures m == n ==> Scaled(m, scale) == Scaled(n, scale)
    ensures m > n ==> Scaled(m, scale) > Scaled(n, scale)
  {
    if m < n {
      ScaledAdds(m, n - m, scale);
      ShiftPositive((n - m) as real, 0 - scale);
    } else if n < m {
      ScaledAdds(n, m - n, scale);
      ShiftPositive((m - n) as real, 0 - scale);
    }
  }

  lemma WholeAndPart(whole: nat, part: nat, k: nat)
    ensures Scaled(whole * Pow10(k) + part, k) == Scaled(whole, 0) + Scaled(part, k)
  {
    Rescaling(whole, 0, k);
    ScaledAdds(whole * Pow10(k), part, k);
  }
}
