/** Powers of ten and decimal digit counts, the arithmetic underneath the decimal context. */
module Powers {

  function Pow10(n: nat): (p: nat)
    ensures p >= 1
  {
    if n == 0 then 1 else 10 * Pow10(n - 1)
  }

  lemma {:induction false} Pow10Add(a: nat, b: nat)
    ensures Pow10(a + b) == Pow10(a) * Pow10(b)
  {
    if a == 0 {
    } else {
      Pow10Add(a - 1, b);
      MulAssoc(10, Pow10(a - 1), Pow10(b));
    }
  }

  lemma MulAssoc(a: int, b: int, c: int)
    ensures (a * b) * c == a * (b * c)
  {}

  lemma MulMono(a: int, b: int, c: nat)
    requires a <= b
    ensures a * c <= b * c
  {}

  lemma {:induction false} Pow10Mono(a: nat, b: nat)
    requires a <= b
    ensures Pow10(a) <= Pow10(b)
    decreases b
  {
    if a < b {
      Pow10Mono(a, b - 1);
    }
  }

  lemma {:induction false} Pow10StrictMono(a: nat, b: nat)
    requires a < b
    ensures Pow10(a) < Pow10(b)
  {
    Pow10Mono(a, b - 1);
  }

  /** The exponents are ordered as the powers are. */
  lemma Pow10Less(a: nat, b: nat)
    requires Pow10(a) < Pow10(b)
    ensures a < b
  {
    if b <= a {
      Pow10Mono(b, a);
    }
  }

  function Abs(n: int): nat {
    if n < 0 then -n else n
  }

  /** Number of decimal digits, one for zero. */
  function Digits(n: nat): (d: nat)
    ensures d >= 1
    ensures n < Pow10(d)
    ensures n > 0 ==> Pow10(d - 1) <= n
  {
    if n < 10 then assert Pow10(1) == 10 * Pow10(0); 1 else 1 + Digits(n / 10)
  }

  lemma DigitsUnique(n: nat, d: nat)
    requires d >= 1
    requires Pow10(d - 1) <= n < Pow10(d)
    ensures Digits(n) == d
  {
    var e := Digits(n);
    if e < d {
      Pow10Mono(e, d - 1);
    } else if d < e {
      Pow10Mono(d, e - 1);
    }
  }

  /** A bound on a number is a bound on its digits. */
  lemma DigitsBound(n: nat, d: nat)
    requires d >= 1
    requires n < Pow10(d)
    ensures Digits(n) <= d
  {
    var top := Digits(n) - 1;
    if d <= top {
      Pow10Mono(d, top);
    }
  }

  /** Multiplying adds digit counts, up to one. */
  lemma DigitsProduct(a: nat, b: nat)
    ensures Digits(a * b) <= Digits(a) + Digits(b)
  {
    var d, e := Digits(a), Digits(b);
    Pow10Add(d, e);
    if b == 0 {
      assert a * b == 0;
    } else {
      MulStrict(a, Pow10(d), b);
      MulMono(b, Pow10(e), Pow10(d));
      assert a * b < Pow10(d) * Pow10(e);
    }
    DigitsBound(a * b, d + e);
  }

  /** Appending zeros keeps the digit count and the trailing zeros in step. */
  lemma ScaledDivisible(a: nat, shift: nat, t: nat)
    ensures a * Pow10(shift) % Pow10(t + shift) == 0 <==> a % Pow10(t) == 0
  {
    Pow10Add(t, shift);
    DivisibleProduct(a, Pow10(t), Pow10(shift));
  }

  lemma DivisibleProduct(a: nat, p: nat, q: nat)
    requires p >= 1 && q >= 1 && p * q >= 1
    ensures a * q % (p * q) == 0 <==> a % p == 0
  {
    if a % p == 0 {
      var k := a / p;
      assert a == k * p;
      MulAssoc(k, p, q);
      MultipleRemainder(k, p * q);
    } else if a * q % (p * q) == 0 {
      var k := a * q / (p * q);
      Divided(a * q, p * q);
      MulAssoc(k, p, q);
      SameProduct(a, k * p, q);
      MultipleRemainder(k, p);
    }
  }

  lemma Divided(n: nat, m: nat)
    requires m >= 1
    ensures n == n / m * m + n % m
  {}

  lemma MultipleRemainder(k: nat, m: nat)
    requires m >= 1
    ensures k * m % m == 0
  {
    var q, r := k * m / m, k * m % m;
    assert k * m == q * m + r;
    DistributeMinus(k, q, m);
    if k - q >= 1 {
      MulMono(1, k - q, m);
    } else if k - q <= -1 {
      MulMono(k - q, -1, m);
    }
  }

  lemma SameProduct(a: int, b: int, c: int)
    requires c >= 1
    ensures a * c == b * c <==> a == b
  {
    DistributeMinus(a, b, c);
    if a > b {
      MulMono(1, a - b, c);
    } else if a < b {
      MulMono(a - b, -1, c);
    }
  }

  lemma MulStrict(a: int, b: int, c: int)
    requires a < b && 0 < c
    ensures a * c < b * c
  {}

  /** `n / unit` rounded to nearest, ties away from zero. */
  function HalfUp(n: int, unit: nat): (q: int)
    requires unit >= 1
  {
    var down := Abs(n) / unit;
    var near := if 2 * (Abs(n) % unit) >= unit then down + 1 else down;
    if n < 0 then -near else near
  }

  /** Rounding moves a number by at most half a unit. */
  lemma HalfUpError(n: int, unit: nat)
    requires unit >= 1
    ensures 2 * Abs(n - HalfUp(n, unit) * unit) <= unit
  {
    var down, rest := Abs(n) / unit, Abs(n) % unit;
    assert Abs(n) == down * unit + rest;
    assert (down + 1) * unit == down * unit + unit;
    if n < 0 {
      assert (-down) * unit == -(down * unit);
      assert (-(down + 1)) * unit == -((down + 1) * unit);
    }
  }

  /** Exactly the multiples of the unit are left alone. */
  lemma HalfUpExactly(n: int, unit: nat)
    requires unit >= 1
    ensures HalfUp(n, unit) * unit == n <==> Abs(n) % unit == 0
  {
    var down, rest := Abs(n) / unit, Abs(n) % unit;
    assert Abs(n) == down * unit + rest;
    assert (down + 1) * unit == down * unit + unit;
    assert (-down) * unit == -(down * unit);
    assert (-(down + 1)) * unit == -((down + 1) * unit);
  }

  lemma HalfUpOfMultiple(m: int, unit: nat)
    requires unit >= 1
    ensures HalfUp(m * unit, unit) == m
  {
    AbsProduct(m, unit);
    MultipleRemainder(Abs(m), unit);
    HalfUpExactly(m * unit, unit);
    SameProduct(HalfUp(m * unit, unit), m, unit);
  }

  /** Scaling number and unit alike does not change the rounded quotient. */
  lemma HalfUpScaled(n: int, unit: nat, up: nat)
    requires unit >= 1 && up >= 1 && unit * up >= 1
    ensures HalfUp(n * up, unit * up) == HalfUp(n, unit)
  {
    var down, rest := Abs(n) / unit, Abs(n) % unit;
    Divided(Abs(n), unit);
    HalfUpBy(n, unit, down, rest);
    AbsProduct(n, up);
    ProductSignIs(n, up);
    ScaledQuotient(Abs(n), unit, up, down, rest);
    hide HalfUp, Abs;
    HalfUpBy(n * up, unit * up, down, rest * up);
  }

  lemma ScaledQuotient(n: nat, unit: nat, up: nat, down: nat, rest: nat)
    requires up >= 1 && n == down * unit + rest && rest < unit
    ensures n * up == down * (unit * up) + rest * up && 0 <= rest * up < unit * up
    ensures 2 * (rest * up) >= unit * up <==> 2 * rest >= unit
  {
    DistributePlus(down * unit, rest, up);
    MulAssoc(down, unit, up);
    MulStrict(rest, unit, up);
    ProductSign(rest, up);
    MulAssoc(2, rest, up);
    if 2 * rest >= unit {
      MulMono(unit, 2 * rest, up);
    } else {
      MulStrict(2 * rest, unit, up);
    }
  }

  /** Rounding, given the quotient and the remainder. */
  lemma HalfUpBy(n: int, unit: nat, down: nat, rest: nat)
    requires unit >= 1 && Abs(n) == down * unit + rest && rest < unit
    ensures HalfUp(n, unit) == (if n < 0 then -1 else 1) * if 2 * rest >= unit then down + 1 else down
  {
    QuotientIs(Abs(n), unit, down, rest);
  }

  lemma ProductSignIs(n: int, up: nat)
    requires up >= 1
    ensures n * up < 0 <==> n < 0
  {}

  lemma QuotientIs(n: nat, m: nat, q: nat, r: nat)
    requires m >= 1 && n == q * m + r && r < m
    ensures n / m == q && n % m == r
  {
    Divided(n, m);
    DistributeMinus(n / m, q, m);
    if n / m - q >= 1 {
      MulMono(1, n / m - q, m);
    } else if n / m - q <= -1 {
      MulMono(n / m - q, -1, m);
    }
  }

  /** A whole unit more is seen after rounding. */
  lemma HalfUpGrows(a: nat, b: nat, unit: nat)
    requires unit >= 1 && a + unit <= b
    ensures HalfUp(a, unit) < HalfUp(b, unit)
  {
    Divided(a, unit);
    Divided(b, unit);
    QuotientGrows(a / unit, a % unit, b / unit, b % unit, unit);
    hide HalfUp;
    HalfUpBy(a, unit, a / unit, a % unit);
    HalfUpBy(b, unit, b / unit, b % unit);
  }

  lemma QuotientGrows(q: nat, r: nat, q2: nat, r2: nat, unit: nat)
    requires q * unit + r + unit <= q2 * unit + r2 && r < unit && r2 < unit
    ensures q < q2 && (q2 == q + 1 ==> r <= r2)
  {
    OneMoreUnit(q, unit);
    if q2 <= q {
      MulMono(q2, q, unit);
    }
  }

  lemma OneMoreUnit(n: int, unit: int)
    ensures (n + 1) * unit == n * unit + unit
  {}

  /** Rounding cannot cross a multiple of the unit. */
  lemma HalfUpAtLeast(n: int, unit: nat, m: int)
    requires unit >= 1
    requires m * unit <= n
    ensures m <= HalfUp(n, unit)
  {
    HalfUpError(n, unit);
    var q := HalfUp(n, unit);
    assert (m - 1) * unit == m * unit - unit;
    if q <= m - 1 {
      MulMono(q, m - 1, unit);
    }
  }

  lemma HalfUpSign(n: int, unit: nat)
    requires unit >= 1
    ensures HalfUp(-n, unit) == -HalfUp(n, unit)
    ensures n >= 0 ==> HalfUp(n, unit) >= 0
  {}

  /** Rounding off all but the first `p` digits leaves `p` digits, or the first number of one digit more. */
  lemma QuotientRange(n: nat, diff: nat, p: nat)
    requires p >= 1 && diff >= 1
    requires Digits(n) == p + diff
    ensures Pow10(p - 1) <= HalfUp(n, Pow10(diff)) <= Pow10(p)
  {
    var unit := Pow10(diff);
    Pow10Add(p - 1, diff);
    Pow10Add(p, diff);
    HalfUpAtLeast(n, unit, Pow10(p - 1));
    HalfUpAtMost(n, unit, Pow10(p));
  }

  lemma HalfUpAtMost(n: nat, unit: nat, m: int)
    requires unit >= 1
    requires n <= m * unit
    ensures HalfUp(n, unit) <= m
  {
    assert -(m * unit) == (-m) * unit;
    HalfUpAtLeast(0 - n, unit, -m);
    HalfUpSign(n, unit);
  }

  /** The error of rounding off `diff` digits, seen `shift` places further up. */
  lemma ShiftedError(n: int, diff: nat, shift: nat)
    ensures 2 * Abs(HalfUp(n, Pow10(diff)) * Pow10(diff + shift) - n * Pow10(shift)) <= Pow10(diff + shift)
  {
    var unit, up := Pow10(diff), Pow10(shift);
    var q := HalfUp(n, unit);
    var err := n - q * unit;
    HalfUpError(n, unit);
    Pow10Add(diff, shift);
    MulAssoc(q, unit, up);
    assert q * Pow10(diff + shift) - n * up == -(err * up) by {
      DistributeMinus(n, q * unit, up);
    }
    AbsProduct(err, up);
    MulAssoc(2, Abs(err), up);
    MulMono(2 * Abs(err), unit, up);
  }

  lemma DistributeMinus(a: int, b: int, c: int)
    ensures (a - b) * c == a * c - b * c
  {}

  lemma AbsProduct(a: int, b: int)
    ensures Abs(a * b) == Abs(a) * Abs(b)
  {
    if a < 0 {
      NegateProduct(a, b);
    }
    if b < 0 {
      NegateProduct(b, Abs(a));
      ProductSign(Abs(a), -b);
    } else {
      ProductSign(Abs(a), b);
    }
  }

  lemma NegateProduct(a: int, b: int)
    ensures (-a) * b == -(a * b)
  {}

  lemma ProductSign(a: nat, b: nat)
    ensures a * b >= 0
  {}

  /** Above a power of ten before rounding off digits, above it afterwards. */
  lemma RoundedAbove(n: nat, diff: nat, shift: nat, t: nat)
    requires n * Pow10(shift) >= Pow10(t)
    requires HalfUp(n, Pow10(diff)) >= 1
    ensures HalfUp(n, Pow10(diff)) * Pow10(diff + shift) >= Pow10(t)
  {
    var q := HalfUp(n, Pow10(diff));
    if t <= diff + shift {
      Pow10Mono(t, diff + shift);
      MulMono(1, q, Pow10(diff + shift));
    } else {
      var m := t - diff - shift;
      Pow10Add(m + diff, shift);
      Pow10Add(m, diff);
      Pow10Add(m, diff + shift);
      if n < Pow10(m + diff) {
        MulStrict(n, Pow10(m + diff), Pow10(shift));
      }
      HalfUpAtLeast(n, Pow10(diff), Pow10(m));
      MulMono(Pow10(m), q, Pow10(diff + shift));
    }
  }

  // ---------- Sums ----------

  function Sum(xs: seq<int>): int {
    if |xs| == 0 then 0 else Sum(xs[..|xs| - 1]) + xs[|xs| - 1]
  }

  lemma {:induction false} SumUpdate(xs: seq<int>, i: nat, x: int)
    requires i < |xs|
    ensures Sum(xs[i := x]) == Sum(xs) - xs[i] + x
  {
    var n := |xs| - 1;
    if i < n {
      SumUpdate(xs[..n], i, x);
      assert xs[i := x][..n] == xs[..n][i := x];
    } else {
      assert xs[i := x][..n] == xs[..n];
    }
  }

  lemma SumAppend(xs: seq<int>, x: int)
    ensures Sum(xs + [x]) == Sum(xs) + x
  {
    assert (xs + [x])[..|xs|] == xs;
  }

  /** Rounded amounts, each within its own bound of an exact one, add up to within the sum of the bounds. */
  lemma {:induction false} SumError(rounded: seq<int>, exact: seq<int>, bounds: seq<int>, unit: nat)
    requires |rounded| == |exact| == |bounds|
    requires forall i :: 0 <= i < |rounded| ==> 2 * Abs(rounded[i] * unit - exact[i]) <= bounds[i] * unit
    ensures 2 * Abs(Sum(rounded) * unit - Sum(exact)) <= Sum(bounds) * unit
  {
    if |rounded| > 0 {
      var n := |rounded| - 1;
      SumError(rounded[..n], exact[..n], bounds[..n], unit);
      DistributePlus(Sum(rounded[..n]), rounded[n], unit);
      DistributePlus(Sum(bounds[..n]), bounds[n], unit);
    }
  }

  lemma DistributePlus(a: int, b: int, c: int)
    ensures (a + b) * c == a * c + b * c
  {}

  /** Comparing multiples of a positive unit compares the factors. */
  lemma CancelUnit(a: int, b: int, unit: nat)
    requires unit >= 1
    requires 2 * Abs(a * unit) <= b * unit
    ensures 2 * Abs(a) <= b
  {
    AbsProduct(a, unit);
    MulAssoc(2, Abs(a), unit);
    if b <= 2 * Abs(a) - 1 {
      MulMono(b, 2 * Abs(a) - 1, unit);
      DistributeMinus(2 * Abs(a), 1, unit);
    }
  }
}
