/**
 The decimal context of the biller: 65 digits of precision and adjusted exponents from -18 to 65,
 with no condition trapped, rounding half up (ties away from zero). Multiplication and addition follow
 the "multiply" and "add and subtract" operations of the General Decimal Arithmetic Specification:
 compute the exact result, then round it into the context and report what was lost in the flags.
 */
module Decimals {
  import opened Powers
  import opened Wrappers

  const PRECISION: nat := 65
  const MAX_EXPONENT: int := 65
  const MIN_EXPONENT: int := -18
  /** The smallest exponent a number of the context can carry. */
  const ETINY: int := MIN_EXPONENT - PRECISION + 1

  /** The finite number `coeff * 10^exp`. */
  datatype Dec = Dec(coeff: int, exp: int)

  /** What an accumulator can hold: an overflow leaves an infinity behind. */
  datatype Decimal = Finite(dec: Dec) | Infinite(negative: bool)

  const ZERO := Dec(0, 0)

  datatype Flags = Flags(rounded: bool, inexact: bool, subnormal: bool, underflow: bool, overflow: bool, clamped: bool)
  {
    predicate Any() {
      rounded || inexact || subnormal || underflow || overflow || clamped
    }

    function Union(other: Flags): Flags {
      Flags(rounded || other.rounded, inexact || other.inexact, subnormal || other.subnormal,
            underflow || other.underflow, overflow || other.overflow, clamped || other.clamped)
    }
  }

  const QUIET := Flags(false, false, false, false, false, false)

  /** The value an operation leaves and the conditions it raised. */
  datatype Op = Op(value: Decimal, flags: Flags)

  function NumDigits(coeff: int): nat {
    Digits(Abs(coeff))
  }

  /** The exponent of the leading digit. */
  function Adjusted(d: Dec): int {
    d.exp + NumDigits(d.coeff) - 1
  }

  /** Checks the exponent range; `before` holds the conditions raised earlier in the operation. */
  function SetExponent(d: Dec, before: Flags): Op {
    var adj := Adjusted(d);
    if adj < MIN_EXPONENT then
      var flags := before.(subnormal := before.subnormal || d.coeff != 0);
      var small :=
        if d.exp < ETINY then
          var unit := Pow10(ETINY - d.exp);
          var kept := HalfUp(d.coeff, unit);
          Op(Finite(Dec(kept, ETINY)),
             flags.(rounded := true,
                    inexact := flags.inexact || Abs(d.coeff) % unit != 0,
                    clamped := flags.clamped || kept == 0))
        else
          Op(Finite(d), flags);
      small.(flags := small.flags.(underflow := small.flags.underflow || (small.flags.inexact && small.flags.subnormal)))
    else if adj > MAX_EXPONENT then
      if d.coeff == 0 then
        Op(Finite(Dec(0, MAX_EXPONENT)), before.(clamped := true))
      else
        Op(Infinite(d.coeff < 0), before.(overflow := true, inexact := true))
    else
      Op(Finite(d), before)
  }

  /** Shortens a coefficient to `p` digits; a carry into one digit more is shifted back. */
  function DropDigits(d: Dec, p: nat): Dec
    requires NumDigits(d.coeff) > p
  {
    var diff := NumDigits(d.coeff) - p;
    ShiftCarry(HalfUp(d.coeff, Pow10(diff)), d.exp + diff, p)
  }

  function ShiftCarry(q: int, exp: int, p: nat): Dec {
    if NumDigits(q) > p then
      Dec(if q < 0 then -(Abs(q) / 10) else q / 10, exp + 1)
    else
      Dec(q, exp)
  }

  /** Rounds a number into the context. */
  function Round(d: Dec): Op {
    if d.coeff != 0 && Adjusted(d) < MIN_EXPONENT then
      SetExponent(d, QUIET.(subnormal := true))
    else if NumDigits(d.coeff) > PRECISION then
      var unit := Pow10(NumDigits(d.coeff) - PRECISION);
      SetExponent(DropDigits(d, PRECISION), QUIET.(rounded := true, inexact := Abs(d.coeff) % unit != 0))
    else
      SetExponent(d, QUIET)
  }

  function ExactProduct(x: Dec, y: Dec): Dec {
    Dec(x.coeff * y.coeff, x.exp + y.exp)
  }

  function Mul(x: Dec, y: Dec): Op {
    var product := SetExponent(ExactProduct(x, y), QUIET);
    match product.value
    case Infinite(_) => product
    case Finite(d) =>
      var r := Round(d);
      Op(r.value, product.flags.Union(r.flags))
  }

  function Min(a: int, b: int): int {
    if a < b then a else b
  }

  function ExactSum(x: Dec, y: Dec): Dec {
    var exp := Min(x.exp, y.exp);
    Dec(x.coeff * Pow10(x.exp - exp) + y.coeff * Pow10(y.exp - exp), exp)
  }

  /** Adds a number to an accumulator. */
  function Add(x: Decimal, y: Dec): Op {
    match x
    case Infinite(_) => Op(x, QUIET)
    case Finite(d) => Round(ExactSum(d, y))
  }

  // ---------- When an operation raises no condition ----------

  /** The numbers the context represents without raising a condition. */
  predicate Fits(d: Dec) {
    if d.coeff == 0 then
      ETINY <= d.exp <= MAX_EXPONENT
    else
      NumDigits(d.coeff) <= PRECISION && MIN_EXPONENT <= Adjusted(d) <= MAX_EXPONENT
  }

  /** Rounding is silent for exactly the representable numbers, and then it changes nothing. */
  lemma RoundIsQuietExactlyWhenItFits(d: Dec)
    ensures !Round(d).flags.Any() <==> Fits(d)
    ensures Fits(d) ==> Round(d).value == Finite(d)
  {
    if d.coeff == 0 {
      assert NumDigits(0) == 1;
    }
  }

  lemma AddIsQuietExactlyWhenTheSumFits(x: Dec, y: Dec)
    ensures !Add(Finite(x), y).flags.Any() <==> Fits(ExactSum(x, y))
    ensures Fits(ExactSum(x, y)) ==> Add(Finite(x), y).value == Finite(ExactSum(x, y))
  {
    RoundIsQuietExactlyWhenItFits(ExactSum(x, y));
  }

  lemma MulIsQuietExactlyWhenTheProductFits(x: Dec, y: Dec)
    ensures !Mul(x, y).flags.Any() <==> Fits(ExactProduct(x, y))
    ensures Fits(ExactProduct(x, y)) ==> Mul(x, y).value == Finite(ExactProduct(x, y))
  {
    var p := ExactProduct(x, y);
    if p.coeff == 0 {
      assert NumDigits(0) == 1;
    }
    RoundIsQuietExactlyWhenItFits(p);
  }

  /**
   A product of two numbers of at most 17 digits (the most a printed double has) never needs rounding:
   it is exact unless it leaves the exponent range, and exactly then the multiplication is flagged.
   */
  lemma MulIsExactOrFlagged(x: Dec, y: Dec)
    requires NumDigits(x.coeff) <= 17 && NumDigits(y.coeff) <= 17
    ensures NumDigits(x.coeff * y.coeff) <= 34
    ensures !Mul(x, y).flags.Any() <==>
            if x.coeff == 0 || y.coeff == 0 then
              ETINY <= x.exp + y.exp <= MAX_EXPONENT
            else
              MIN_EXPONENT <= Adjusted(ExactProduct(x, y)) <= MAX_EXPONENT
    ensures !Mul(x, y).flags.Any() ==> Mul(x, y).value == Finite(ExactProduct(x, y))
  {
    DigitsProduct(Abs(x.coeff), Abs(y.coeff));
    AbsProduct(x.coeff, y.coeff);
    ProductIsZero(x.coeff, y.coeff);
    MulIsQuietExactlyWhenTheProductFits(x, y);
  }

  lemma ProductIsZero(a: int, b: int)
    ensures a * b == 0 <==> a == 0 || b == 0
  {}

  // ---------- Values ----------

  /**
   The value of a number in units of 10^ETINY. Every number the context can hold is a whole number
   of these units, so sums of values are sums of integers.
   */
  function Units(d: Dec): int
    requires d.exp >= ETINY
  {
    d.coeff * Pow10(d.exp - ETINY)
  }

  lemma FitsIsInUnits(d: Dec)
    requires Fits(d)
    ensures d.exp >= ETINY
  {}

  /** Moving digits from the exponent to the coefficient keeps the value. */
  lemma UnitsScale(coeff: int, shift: nat, exp: int)
    requires exp >= ETINY
    ensures Units(Dec(coeff * Pow10(shift), exp)) == Units(Dec(coeff, exp + shift))
  {
    Pow10Add(shift, exp - ETINY);
    MulAssoc(coeff, Pow10(shift), Pow10(exp - ETINY));
  }

  /** The exact sum is the sum of the values. */
  lemma ExactSumUnits(x: Dec, y: Dec)
    requires x.exp >= ETINY && y.exp >= ETINY
    ensures ExactSum(x, y).exp >= ETINY
    ensures Units(ExactSum(x, y)) == Units(x) + Units(y)
  {
    var exp := Min(x.exp, y.exp);
    UnitsScale(x.coeff, x.exp - exp, exp);
    UnitsScale(y.coeff, y.exp - exp, exp);
    Distribute(x.coeff * Pow10(x.exp - exp), y.coeff * Pow10(y.exp - exp), Pow10(exp - ETINY));
  }

  lemma Distribute(a: int, b: int, c: int)
    ensures (a + b) * c == a * c + b * c
  {}

  /** The adjusted exponent is the order of magnitude of the value. */
  lemma AdjustedIsMagnitude(d: Dec)
    requires d.exp >= ETINY && d.coeff != 0
    ensures Pow10(Adjusted(d) - ETINY) <= Abs(Units(d)) < Pow10(Adjusted(d) + 1 - ETINY)
  {
    var n, shift := NumDigits(d.coeff), d.exp - ETINY;
    AbsProduct(d.coeff, Pow10(shift));
    Pow10Add(n - 1, shift);
    Pow10Add(n, shift);
    MulMono(Pow10(n - 1), Abs(d.coeff), Pow10(shift));
    MulStrict(Abs(d.coeff), Pow10(n), Pow10(shift));
  }

  // ---------- How far rounding moves a value ----------

  /** A shortened number is the rounded quotient, and has `p` digits. */
  lemma DropDigitsValue(d: Dec, p: nat, diff: nat)
    requires d.exp >= ETINY && p >= 1
    requires NumDigits(d.coeff) == p + diff && diff >= 1
    ensures DropDigits(d, p).exp >= d.exp + diff
    ensures NumDigits(DropDigits(d, p).coeff) == p
    ensures DropDigits(d, p).coeff < 0 <==> d.coeff < 0
    ensures Units(DropDigits(d, p)) == HalfUp(d.coeff, Pow10(diff)) * Pow10(diff + d.exp - ETINY)
  {
    QuotientRange(Abs(d.coeff), diff, p);
    HalfUpSign(d.coeff, Pow10(diff));
    CarryValue(HalfUp(d.coeff, Pow10(diff)), p, d.exp + diff);
  }

  /** Shifting a carry back leaves `p` digits and does not change the value. */
  lemma CarryValue(q: int, p: nat, exp: int)
    requires p >= 1 && exp >= ETINY
    requires Pow10(p - 1) <= Abs(q) <= Pow10(p)
    ensures ShiftCarry(q, exp, p).exp >= exp
    ensures NumDigits(ShiftCarry(q, exp, p).coeff) == p
    ensures ShiftCarry(q, exp, p).coeff < 0 <==> q < 0
    ensures Units(ShiftCarry(q, exp, p)) == q * Pow10(exp - ETINY)
  {
    if Abs(q) < Pow10(p) {
      DigitsUnique(Abs(q), p);
    } else {
      DigitsUnique(Abs(q), p + 1);
      var r := ShiftCarry(q, exp, p).coeff;
      assert q == r * 10;
      assert Abs(r) == Pow10(p - 1);
      Pow10StrictMono(p - 1, p);
      DigitsUnique(Abs(r), p);
      MulAssoc(r, 10, Pow10(exp - ETINY));
    }
  }

  lemma DropDigitsError(d: Dec, p: nat, e: nat)
    requires d.exp >= ETINY && p >= 1
    requires NumDigits(d.coeff) > p
    requires Abs(Units(d)) < Pow10(e + p)
    ensures DropDigits(d, p).exp >= ETINY
    ensures 2 * Abs(Units(DropDigits(d, p)) - Units(d)) <= Pow10(e)
  {
    assert NumDigits(0) == 1;
    hide Pow10, HalfUp, Digits, ShiftCarry;
    var diff := NumDigits(d.coeff) - p;
    var shift := d.exp - ETINY;
    DropDigitsValue(d, p, diff);
    AdjustedIsMagnitude(d);
    Pow10Less(Adjusted(d) - ETINY, e + p);
    Pow10Mono(diff + shift, e);
    ShiftedError(d.coeff, diff, shift);
  }

  lemma DropDigitsKeepsMagnitude(d: Dec, p: nat, t: nat)
    requires d.exp >= ETINY && p >= 1
    requires NumDigits(d.coeff) > p
    requires Units(d) >= Pow10(t) && d.coeff > 0
    ensures DropDigits(d, p).exp >= ETINY
    ensures Units(DropDigits(d, p)) >= Pow10(t)
  {
    hide Pow10, HalfUp, Digits, ShiftCarry;
    var diff := NumDigits(d.coeff) - p;
    DropDigitsValue(d, p, diff);
    QuotientRange(d.coeff, diff, p);
    RoundedAbove(d.coeff, diff, d.exp - ETINY, t);
  }

  lemma PositiveUnits(d: Dec)
    requires d.exp >= ETINY
    ensures Units(d) > 0 <==> d.coeff > 0
    ensures Units(d) == 0 <==> d.coeff == 0
  {
    if d.coeff > 0 {
      MulMono(1, d.coeff, Pow10(d.exp - ETINY));
    } else if d.coeff < 0 {
      MulMono(d.coeff, -1, Pow10(d.exp - ETINY));
    }
  }

  /**
   The value rounding leaves: the number itself, the shortened number when it has too many digits, zero for
   a zero, or an infinity of its sign when it overflows.
   */
  lemma RoundCases(d: Dec)
    requires d.exp >= ETINY
    ensures var r := Round(d).value;
            || r == Infinite(d.coeff < 0)
            || r == Finite(d)
            || (d.coeff == 0 && r == Finite(Dec(0, MAX_EXPONENT)))
            || (NumDigits(d.coeff) > PRECISION && r == Finite(DropDigits(d, PRECISION)))
    ensures Round(d).value.Finite? && NumDigits(d.coeff) > PRECISION ==>
              Round(d).value == Finite(DropDigits(d, PRECISION))
  {
    if NumDigits(d.coeff) > PRECISION {
      ShortenedInRange(d, PRECISION, NumDigits(d.coeff) - PRECISION);
    }
  }

  lemma ShortenedInRange(d: Dec, p: nat, diff: nat)
    requires d.exp >= ETINY && p >= 2
    requires NumDigits(d.coeff) == p + diff && diff >= 1
    ensures Adjusted(DropDigits(d, p)) >= ETINY + p
    ensures DropDigits(d, p).coeff != 0
    ensures DropDigits(d, p).coeff < 0 <==> d.coeff < 0
  {
    DropDigitsValue(d, p, diff);
    assert NumDigits(0) == 1;
  }

  /**
   Rounding a number into the context, if it does not overflow, keeps its value to within half a unit
   in the last of 65 places: below 10^(e + 65) units the error is at most half of 10^e units.
   */
  lemma RoundError(d: Dec, e: nat)
    requires d.exp >= ETINY
    requires Round(d).value.Finite?
    requires Abs(Units(d)) < Pow10(e + PRECISION)
    ensures Round(d).value.dec.exp >= ETINY
    ensures 2 * Abs(Units(Round(d).value.dec) - Units(d)) <= Pow10(e)
  {
    RoundCases(d);
    if NumDigits(d.coeff) > PRECISION {
      DropDigitsError(d, PRECISION, e);
    }
  }

  /** Rounding keeps a value at or above every power of ten it was at or above. */
  lemma RoundKeepsMagnitude(d: Dec, t: nat)
    requires d.exp >= ETINY
    requires Units(d) >= Pow10(t)
    ensures var r := Round(d).value;
            r == Infinite(false) || (r.Finite? && r.dec.exp >= ETINY && Units(r.dec) >= Pow10(t))
  {
    PositiveUnits(d);
    RoundCases(d);
    if NumDigits(d.coeff) > PRECISION {
      DropDigitsKeepsMagnitude(d, PRECISION, t);
    }
  }

  /** A value below 10^66 of which at most the first 65 digits are not zeros. */
  predicate Kept(u: int) {
    var digits := Digits(Abs(u));
    digits <= MAX_EXPONENT + 1 - ETINY && (digits > PRECISION ==> Abs(u) % Pow10(digits - PRECISION) == 0)
  }

  /**
   An addition whose conditions are ignored keeps the sum of its operands exactly when that sum is below 10^66 and
   has no digit other than zero after its first 65; the inexact condition tells exactly the other sums.
   */
  lemma ValueIsKeptExactlyWhen(x: Dec, y: Dec)
    requires x.exp >= ETINY && y.exp >= ETINY
    ensures var op := Add(Finite(x), y);
            && (InMemoryUnits(op.value) == Some(Units(x) + Units(y)) <==> Kept(Units(x) + Units(y)))
            && (op.flags.inexact <==> !Kept(Units(x) + Units(y)))
  {
    var sum := ExactSum(x, y);
    ExactSumUnits(x, y);
    hide Pow10, HalfUp, Digits;
    RoundInexact(sum);
    RoundKept(sum);
  }

  /** The value an accumulator holds, in units of 10^ETINY. */
  function InMemoryUnits(d: Decimal): Option<int> {
    if d.Finite? && d.dec.exp >= ETINY then Some(Units(d.dec)) else None
  }

  lemma UnitsDigits(d: Dec)
    requires d.exp >= ETINY && d.coeff != 0
    ensures Digits(Abs(Units(d))) == Adjusted(d) + 1 - ETINY
  {
    hide Units;
    AdjustedIsMagnitude(d);
    DigitsUnique(Abs(Units(d)), Adjusted(d) + 1 - ETINY);
  }

  /** The digits a shortened number loses are those the value loses. */
  lemma KeptDigits(d: Dec)
    requires d.exp >= ETINY && d.coeff != 0
    ensures Kept(Units(d)) <==>
            Adjusted(d) <= MAX_EXPONENT &&
            (NumDigits(d.coeff) > PRECISION ==> Abs(d.coeff) % Pow10(NumDigits(d.coeff) - PRECISION) == 0)
  {
    UnitsDigits(d);
    AbsProduct(d.coeff, Pow10(d.exp - ETINY));
    TrailingZeros(Abs(d.coeff), d.exp - ETINY, NumDigits(d.coeff), PRECISION);
    hide Digits, Pow10;
  }

  /** A number followed by zeros has nothing but zeros after the first `p` digits exactly when it has itself. */
  lemma TrailingZeros(n: nat, shift: nat, digits: nat, p: nat)
    ensures (digits + shift > p ==> n * Pow10(shift) % Pow10(digits + shift - p) == 0) <==>
            (digits > p ==> n % Pow10(digits - p) == 0)
  {
    if digits > p {
      ScaledDivisible(n, shift, digits - p);
    } else if digits + shift > p {
      var t := digits + shift - p;
      Pow10Add(shift - t, t);
      hide Pow10;
      MulAssoc(n, Pow10(shift - t), Pow10(t));
      MultipleRemainder(n * Pow10(shift - t), Pow10(t));
    }
  }

  /** Shortening without loss keeps the order of magnitude. */
  lemma ShortenedMagnitude(d: Dec, p: nat, diff: nat)
    requires d.exp >= ETINY && p >= 1
    requires NumDigits(d.coeff) == p + diff && diff >= 1
    requires Abs(d.coeff) % Pow10(diff) == 0
    ensures Adjusted(DropDigits(d, p)) == Adjusted(d)
  {
    DropDigitsValue(d, p, diff);
    DropDigitsExact(d, p, diff);
    hide Units, Pow10, DropDigits;
    assert NumDigits(0) == 1;
    hide Digits;
    PositiveUnits(d);
    PositiveUnits(DropDigits(d, p));
    UnitsDigits(d);
    UnitsDigits(DropDigits(d, p));
  }

  lemma RoundKept(d: Dec)
    requires d.exp >= ETINY
    ensures Round(d).flags.inexact <==> !Kept(Units(d))
  {
    if d.coeff == 0 {
      assert Units(d) == 0 && Digits(0) == 1;
    } else {
      KeptDigits(d);
      hide Kept, Units;
      if NumDigits(d.coeff) > PRECISION {
        var diff := NumDigits(d.coeff) - PRECISION;
        ShortenedInRange(d, PRECISION, diff);
        if Abs(d.coeff) % Pow10(diff) == 0 {
          ShortenedMagnitude(d, PRECISION, diff);
        }
      }
    }
  }

  lemma RoundInexact(d: Dec)
    requires d.exp >= ETINY
    ensures var op := Round(d);
            !op.flags.inexact <==>
            op.value.Finite? && op.value.dec.exp >= ETINY && Units(op.value.dec) == Units(d)
  {
    if NumDigits(d.coeff) > PRECISION {
      var diff := NumDigits(d.coeff) - PRECISION;
      ShortenedInRange(d, PRECISION, diff);
      DropDigitsValue(d, PRECISION, diff);
      DropDigitsExact(d, PRECISION, diff);
    } else {
      PositiveUnits(d);
      PositiveUnits(Dec(0, MAX_EXPONENT));
      assert NumDigits(0) == 1;
    }
  }

  /** Dropping digits keeps the value exactly when they are zeros. */
  lemma DropDigitsExact(d: Dec, p: nat, diff: nat)
    requires d.exp >= ETINY && p >= 1
    requires NumDigits(d.coeff) == p + diff && diff >= 1
    ensures DropDigits(d, p).exp >= ETINY
    ensures Units(DropDigits(d, p)) == Units(d) <==> Abs(d.coeff) % Pow10(diff) == 0
  {
    var unit, up := Pow10(diff), Pow10(d.exp - ETINY);
    var q := HalfUp(d.coeff, unit);
    DropDigitsValue(d, p, diff);
    Pow10Add(diff, d.exp - ETINY);
    MulAssoc(q, unit, up);
    SameProduct(q * unit, d.coeff, up);
    HalfUpExactly(d.coeff, unit);
  }

  // ---------- Running sums ----------

  predicate InUnits(ys: seq<Dec>) {
    forall i :: 0 <= i < |ys| ==> ys[i].exp >= ETINY
  }

  predicate NonNegative(ys: seq<Dec>) {
    forall i :: 0 <= i < |ys| ==> ys[i].coeff >= 0
  }

  predicate AllFit(ys: seq<Dec>) {
    forall i :: 0 <= i < |ys| ==> Fits(ys[i])
  }

  /** The exact total of some numbers, in units of 10^ETINY. */
  function TotalUnits(ys: seq<Dec>): int
    requires InUnits(ys)
  {
    if |ys| == 0 then 0 else TotalUnits(ys[..|ys| - 1]) + Units(ys[|ys| - 1])
  }

  /** What adding them one by one into an accumulator leaves in it, the conditions ignored. */
  function Accumulate(acc: Decimal, ys: seq<Dec>): Decimal {
    if |ys| == 0 then acc else Add(Accumulate(acc, ys[..|ys| - 1]), ys[|ys| - 1]).value
  }

  /** The same from zero with every condition checked: no total once an addition raised one. */
  function CheckedTotal(ys: seq<Dec>): Option<Dec> {
    if |ys| == 0 then
      Some(ZERO)
    else
      var before := CheckedTotal(ys[..|ys| - 1]);
      if before.None? then
        None
      else
        var op := Add(Finite(before.value), ys[|ys| - 1]);
        if op.flags.Any() || op.value.Infinite? then None else Some(op.value.dec)
  }

  /** The exact sum of some numbers as a number. */
  function ExactTotal(ys: seq<Dec>): Dec {
    if |ys| == 0 then ZERO else ExactSum(ExactTotal(ys[..|ys| - 1]), ys[|ys| - 1])
  }

  lemma {:induction false} ExactTotalUnits(ys: seq<Dec>)
    requires InUnits(ys)
    ensures ETINY <= ExactTotal(ys).exp <= 0
    ensures Units(ExactTotal(ys)) == TotalUnits(ys)
  {
    if |ys| > 0 {
      ExactTotalUnits(ys[..|ys| - 1]);
      ExactSumUnits(ExactTotal(ys[..|ys| - 1]), ys[|ys| - 1]);
    }
  }

  /** Every exact partial sum is representable. */
  predicate PartialSumsFit(ys: seq<Dec>) {
    Fits(ExactTotal(ys)) && (|ys| > 0 ==> PartialSumsFit(ys[..|ys| - 1]))
  }

  /**
   Checked addition gives a total exactly when every exact partial sum is representable, and the total it
   gives is the exact sum.
   */
  lemma {:induction false} CheckedTotalIsExact(ys: seq<Dec>)
    ensures CheckedTotal(ys).Some? <==> PartialSumsFit(ys)
    ensures CheckedTotal(ys).Some? ==> CheckedTotal(ys).value == ExactTotal(ys)
    ensures CheckedTotal(ys).Some? ==> Accumulate(Finite(ZERO), ys) == Finite(ExactTotal(ys))
  {
    if |ys| == 0 {
      assert NumDigits(0) == 1;
    } else {
      var front := ys[..|ys| - 1];
      CheckedTotalIsExact(front);
      if CheckedTotal(front).Some? {
        AddIsQuietExactlyWhenTheSumFits(ExactTotal(front), ys[|ys| - 1]);
      }
    }
  }

  /** After each addition the accumulator holds the exact sum so far. */
  predicate ExactAllAlong(ys: seq<Dec>)
    requires InUnits(ys)
  {
    && InMemoryUnits(Accumulate(Finite(ZERO), ys)) == Some(TotalUnits(ys))
    && (|ys| > 0 ==> ExactAllAlong(ys[..|ys| - 1]))
  }

  predicate KeptAllAlong(ys: seq<Dec>)
    requires InUnits(ys)
  {
    Kept(TotalUnits(ys)) && (|ys| > 0 ==> KeptAllAlong(ys[..|ys| - 1]))
  }

  /** Unchecked addition is exact all along exactly when every exact partial sum is a value the context keeps. */
  lemma {:induction false} AccumulateIsExactExactlyWhen(ys: seq<Dec>)
    requires InUnits(ys)
    ensures ExactAllAlong(ys) <==> KeptAllAlong(ys)
  {
    hide Add, Units;
    if |ys| == 0 {
      assert Units(ZERO) == 0 by { PositiveUnits(ZERO); }
      assert Digits(0) == 1;
    } else {
      hide Kept;
      var front := ys[..|ys| - 1];
      AccumulateIsExactExactlyWhen(front);
      if KeptAllAlong(front) {
        ValueIsKeptExactlyWhen(Accumulate(Finite(ZERO), front).dec, ys[|ys| - 1]);
      }
    }
  }

  lemma {:induction false} AccumulateConcat(acc: Decimal, xs: seq<Dec>, ys: seq<Dec>)
    ensures Accumulate(acc, xs + ys) == Accumulate(Accumulate(acc, xs), ys)
  {
    if |ys| == 0 {
      assert xs + ys == xs;
    } else {
      var n := |ys| - 1;
      assert (xs + ys)[..|xs + ys| - 1] == xs + ys[..n];
      AccumulateConcat(acc, xs, ys[..n]);
    }
  }

  lemma {:induction false} TotalConcat(xs: seq<Dec>, ys: seq<Dec>)
    requires InUnits(xs) && InUnits(ys)
    ensures InUnits(xs + ys)
    ensures TotalUnits(xs + ys) == TotalUnits(xs) + TotalUnits(ys)
  {
    if |ys| == 0 {
      assert xs + ys == xs;
    } else {
      var n := |ys| - 1;
      assert (xs + ys)[..|xs + ys| - 1] == xs + ys[..n];
      TotalConcat(xs, ys[..n]);
    }
  }

  lemma {:induction false} TotalNonNegative(ys: seq<Dec>)
    requires InUnits(ys) && NonNegative(ys)
    ensures TotalUnits(ys) >= 0
  {
    if |ys| > 0 {
      TotalNonNegative(ys[..|ys| - 1]);
      PositiveUnits(ys[|ys| - 1]);
    }
  }

  /** The accumulator holds a finite, non-negative amount below 10^t units. */
  predicate Below(acc: Decimal, t: nat) {
    acc.Finite? && acc.dec.exp >= ETINY && 0 <= Units(acc.dec) < Pow10(t)
  }

  /** One addition: a result below 10^t means it started below and that the exact sum was below too. */
  lemma AddBelow(acc: Decimal, y: Dec, t: nat)
    requires acc.Finite? ==> acc.dec.exp >= ETINY && acc.dec.coeff >= 0
    requires acc != Infinite(true)
    requires y.exp >= ETINY && y.coeff >= 0
    requires Below(Add(acc, y).value, t)
    ensures Below(acc, t)
    ensures 0 <= Units(ExactSum(acc.dec, y)) < Pow10(t)
  {
    if acc.Finite? {
      ExactSumUnits(acc.dec, y);
      PositiveUnits(acc.dec);
      PositiveUnits(y);
      if Units(ExactSum(acc.dec, y)) >= Pow10(t) {
        RoundKeepsMagnitude(ExactSum(acc.dec, y), t);
      }
    }
  }

  /** Adding a non-negative amount keeps an accumulator non-negative. */
  lemma AddNonNegative(acc: Decimal, y: Dec)
    requires acc.Finite? ==> acc.dec.exp >= ETINY && acc.dec.coeff >= 0
    requires acc != Infinite(true)
    requires y.exp >= ETINY && y.coeff >= 0
    ensures var r := Add(acc, y).value;
            r != Infinite(true) && (r.Finite? ==> r.dec.exp >= ETINY && r.dec.coeff >= 0)
  {
    if acc.Finite? {
      var d := ExactSum(acc.dec, y);
      ExactSumUnits(acc.dec, y);
      PositiveUnits(acc.dec);
      PositiveUnits(y);
      PositiveUnits(d);
      if d.coeff > 0 {
        RoundKeepsMagnitude(d, 0);
        if Round(d).value.Finite? {
          PositiveUnits(Round(d).value.dec);
        }
      } else {
        RoundCases(d);
      }
    }
  }

  lemma {:induction false} AccumulateNonNegative(acc: Decimal, ys: seq<Dec>)
    requires acc.Finite? ==> acc.dec.exp >= ETINY && acc.dec.coeff >= 0
    requires acc != Infinite(true)
    requires InUnits(ys) && NonNegative(ys)
    ensures var r := Accumulate(acc, ys);
            r != Infinite(true) && (r.Finite? ==> r.dec.exp >= ETINY && r.dec.coeff >= 0)
  {
    if |ys| > 0 {
      var front := ys[..|ys| - 1];
      AccumulateNonNegative(acc, front);
      AddNonNegative(Accumulate(acc, front), ys[|ys| - 1]);
    }
  }

  /**
   The silent error of unchecked additions. If the final total is below 10^(e + 65) units, then so was every
   total on the way, and the total differs from the exact sum by at most half of 10^e units per addition.
   */
  lemma {:induction false} AccumulateError(acc: Decimal, ys: seq<Dec>, e: nat)
    requires acc.Finite? && acc.dec.exp >= ETINY && acc.dec.coeff >= 0
    requires InUnits(ys) && NonNegative(ys)
    requires Below(Accumulate(acc, ys), e + PRECISION)
    ensures Below(acc, e + PRECISION)
    ensures 2 * Abs(Units(Accumulate(acc, ys).dec) - Units(acc.dec) - TotalUnits(ys)) <= |ys| * Pow10(e)
  {
    hide Add, ExactSum, Units, Pow10;
    if |ys| > 0 {
      var front, y := ys[..|ys| - 1], ys[|ys| - 1];
      var before := Accumulate(acc, front);
      AccumulateNonNegative(acc, front);
      AddBelow(before, y, e + PRECISION);
      AccumulateError(acc, front, e);
      AddError(before.dec, y, e);
      OneMore(|front|, Pow10(e));
    }
  }

  /** The error of one addition of non-negative amounts. */
  lemma AddError(x: Dec, y: Dec, e: nat)
    requires x.exp >= ETINY && y.exp >= ETINY
    requires 0 <= Units(ExactSum(x, y)) < Pow10(e + PRECISION)
    requires Add(Finite(x), y).value.Finite?
    ensures Add(Finite(x), y).value.dec.exp >= ETINY
    ensures 2 * Abs(Units(Add(Finite(x), y).value.dec) - Units(x) - Units(y)) <= Pow10(e)
  {
    ExactSumUnits(x, y);
    RoundError(ExactSum(x, y), e);
  }

  lemma OneMore(n: int, p: int)
    ensures (n + 1) * p == n * p + p
  {}

  // ---------- The regime in which every addition is exact ----------

  /** Every amount is a representable, non-negative number below 10^m with at most `e` decimal places. */
  predicate Bounded(ys: seq<Dec>, m: nat, e: nat)
    requires InUnits(ys)
  {
    && AllFit(ys)
    && NonNegative(ys)
    && forall i :: 0 <= i < |ys| ==> 0 <= ys[i].exp + e && Units(ys[i]) < Pow10(m - ETINY)
  }

  /** A non-negative number below 10^t with at most `e` decimal places fits if `t + e` digits do. */
  lemma SmallSumFits(d: Dec, t: nat, e: nat)
    requires 0 <= d.exp + e && d.exp <= 0 && t + e <= PRECISION
    requires 0 <= Units(d) < Pow10(t - ETINY)
    requires d.coeff != 0 ==> Units(d) >= Pow10(MIN_EXPONENT - ETINY)
    ensures Fits(d)
  {
    if d.coeff != 0 {
      AdjustedIsMagnitude(d);
      Pow10Less(MIN_EXPONENT - ETINY, Adjusted(d) + 1 - ETINY);
      Pow10Less(Adjusted(d) - ETINY, t - ETINY);
    }
  }

  lemma FittingIsNotTiny(d: Dec)
    requires Fits(d) && d.coeff > 0
    ensures Units(d) >= Pow10(MIN_EXPONENT - ETINY)
  {
    AdjustedIsMagnitude(d);
    PositiveUnits(d);
    Pow10Mono(MIN_EXPONENT - ETINY, Adjusted(d) - ETINY);
  }

  lemma {:induction false} BoundedTotal(ys: seq<Dec>, m: nat, e: nat)
    requires InUnits(ys) && Bounded(ys, m, e)
    ensures 0 <= ExactTotal(ys).exp + e
    ensures 0 <= TotalUnits(ys) <= |ys| * Pow10(m - ETINY)
    ensures |ys| > 0 ==> TotalUnits(ys) < |ys| * Pow10(m - ETINY)
    ensures TotalUnits(ys) != 0 ==> TotalUnits(ys) >= Pow10(MIN_EXPONENT - ETINY)
  {
    if |ys| > 0 {
      var y := ys[|ys| - 1];
      BoundedTotal(ys[..|ys| - 1], m, e);
      PositiveUnits(y);
      if y.coeff > 0 {
        FittingIsNotTiny(y);
      }
      OneMore(|ys| - 1, Pow10(m - ETINY));
    }
  }

  /**
   At most 10^k amounts below 10^m with at most `e` decimal places, where m + k + e is at most 65:
   no addition raises a condition, and the total is the exact sum.
   */
  lemma {:induction false} NoConditionInRange(ys: seq<Dec>, m: nat, k: nat, e: nat)
    requires InUnits(ys) && Bounded(ys, m, e)
    requires |ys| <= Pow10(k) && m + k + e <= PRECISION
    ensures CheckedTotal(ys) == Some(ExactTotal(ys))
    ensures Accumulate(Finite(ZERO), ys) == Finite(ExactTotal(ys))
    ensures InMemoryUnits(Accumulate(Finite(ZERO), ys)) == Some(TotalUnits(ys))
  {
    PartialSumsFitInRange(ys, m, k, e);
    CheckedTotalIsExact(ys);
    ExactTotalUnits(ys);
  }

  lemma {:induction false} PartialSumsFitInRange(ys: seq<Dec>, m: nat, k: nat, e: nat)
    requires InUnits(ys) && Bounded(ys, m, e)
    requires |ys| <= Pow10(k) && m + k + e <= PRECISION
    ensures PartialSumsFit(ys)
  {
    BoundedTotal(ys, m, e);
    ExactTotalUnits(ys);
    PositiveUnits(ExactTotal(ys));
    if |ys| > 0 {
      MulMono(|ys|, Pow10(k), Pow10(m - ETINY));
      Pow10Add(k, m - ETINY);
      SmallSumFits(ExactTotal(ys), m + k, e);
      PartialSumsFitInRange(ys[..|ys| - 1], m, k, e);
    } else {
      assert NumDigits(0) == 1;
    }
  }
}
