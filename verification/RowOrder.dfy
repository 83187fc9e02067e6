/**
 The query for an order's leases has no ORDER BY. Adding the spends in another order gives the same order total,
 and raises a condition in one order exactly when it does in every other.
 */
module RowOrder {
  import opened Powers
  import opened Wrappers
  import opened Decimals

  lemma {:induction false} TotalIsNotTiny(ys: seq<Dec>)
    requires InUnits(ys) && AllFit(ys) && NonNegative(ys)
    ensures TotalUnits(ys) >= 0
    ensures TotalUnits(ys) != 0 ==> TotalUnits(ys) >= Pow10(MIN_EXPONENT - ETINY)
  {
    hide Fits, Units, Pow10;
    if |ys| > 0 {
      var y := ys[|ys| - 1];
      TotalIsNotTiny(ys[..|ys| - 1]);
      PositiveUnits(y);
      if y.coeff > 0 {
        FittingIsNotTiny(y);
      }
    }
  }

  /** A smaller amount with no more decimal places than one that fits, and not tiny, fits. */
  lemma SmallerFits(small: Dec, big: Dec)
    requires ETINY <= big.exp <= small.exp <= 0 && Fits(big)
    requires 0 <= Units(small) <= Units(big)
    requires Units(small) != 0 ==> Units(small) >= Pow10(MIN_EXPONENT - ETINY)
    ensures Fits(small)
  {
    hide Units, Pow10, Digits;
    PositiveUnits(small);
    PositiveUnits(big);
    if small.coeff != 0 {
      AdjustedIsMagnitude(small);
      AdjustedIsMagnitude(big);
      Pow10Less(MIN_EXPONENT - ETINY, Adjusted(small) + 1 - ETINY);
      Pow10Less(Adjusted(small) - ETINY, Adjusted(big) + 1 - ETINY);
    }
  }

  /** For non-negative amounts only the final sum decides whether checked addition gives a total. */
  lemma {:induction false} OnlyTheFinalSumMatters(ys: seq<Dec>)
    requires InUnits(ys) && AllFit(ys) && NonNegative(ys)
    ensures PartialSumsFit(ys) <==> Fits(ExactTotal(ys))
  {
    hide Fits, Units, Pow10;
    if |ys| > 0 && Fits(ExactTotal(ys)) {
      var front, y := ys[..|ys| - 1], ys[|ys| - 1];
      ExactTotalUnits(front);
      ExactTotalUnits(ys);
      TotalIsNotTiny(front);
      PositiveUnits(y);
      SmallerFits(ExactTotal(front), ExactTotal(ys));
      OnlyTheFinalSumMatters(front);
    }
  }

  predicate LeastExponent(ys: seq<Dec>, exp: int) {
    && exp <= 0
    && (forall y :: y in ys ==> exp <= y.exp)
    && (exp == 0 || exists y :: y in ys && y.exp == exp)
  }

  lemma {:induction false} TotalHasLeastExponent(ys: seq<Dec>)
    ensures LeastExponent(ys, ExactTotal(ys).exp)
  {
    hide Pow10;
    if |ys| > 0 {
      var front, y := ys[..|ys| - 1], ys[|ys| - 1];
      TotalHasLeastExponent(front);
      assert ys == front + [y];
      if ExactTotal(ys).exp != 0 && ExactTotal(ys).exp == ExactTotal(front).exp {
        var z :| z in front && z.exp == ExactTotal(front).exp;
        assert z in ys;
      } else if ExactTotal(ys).exp != 0 {
        assert y in ys;
      }
    }
  }

  lemma TotalWithout(ys: seq<Dec>, k: nat)
    requires k < |ys| && InUnits(ys)
    ensures InUnits(ys[..k] + ys[k + 1..])
    ensures TotalUnits(ys) == TotalUnits(ys[..k] + ys[k + 1..]) + Units(ys[k])
  {
    hide Units;
    var left, right := ys[..k], ys[k + 1..];
    assert ys == left + [ys[k]] + right;
    TotalConcat(left + [ys[k]], right);
    TotalConcat(left, right);
    assert (left + [ys[k]])[..k] == left;
  }

  lemma MultisetWithout(xs: seq<Dec>, ys: seq<Dec>, k: nat)
    requires |xs| > 0 && multiset(xs) == multiset(ys)
    requires k < |ys| && ys[k] == xs[|xs| - 1]
    ensures multiset(xs[..|xs| - 1]) == multiset(ys[..k] + ys[k + 1..])
  {
    var x := ys[k];
    assert xs == xs[..|xs| - 1] + [x];
    assert ys == ys[..k] + [x] + ys[k + 1..];
    assert multiset(xs) - multiset{x} == multiset(xs[..|xs| - 1]);
    assert multiset(ys) - multiset{x} == multiset(ys[..k] + ys[k + 1..]);
  }

  lemma {:induction false} TotalIgnoresOrder(xs: seq<Dec>, ys: seq<Dec>)
    requires InUnits(xs) && InUnits(ys) && multiset(xs) == multiset(ys)
    ensures TotalUnits(xs) == TotalUnits(ys)
    decreases |xs|
  {
    hide Units;
    if |xs| > 0 {
      assert xs[|xs| - 1] in multiset(ys);
      var k :| 0 <= k < |ys| && ys[k] == xs[|xs| - 1];
      MultisetWithout(xs, ys, k);
      TotalWithout(ys, k);
      TotalIgnoresOrder(xs[..|xs| - 1], ys[..k] + ys[k + 1..]);
    } else {
      assert |multiset(ys)| == 0;
      assert |ys| == 0;
    }
  }

  lemma SameExponentSameUnits(a: Dec, b: Dec)
    requires a.exp == b.exp >= ETINY && Units(a) == Units(b)
    ensures a == b
  {
    var p := Pow10(a.exp - ETINY);
    DistributeMinus(a.coeff, b.coeff, p);
    if a.coeff > b.coeff {
      MulMono(1, a.coeff - b.coeff, p);
    } else if a.coeff < b.coeff {
      MulMono(a.coeff - b.coeff, -1, p);
    }
  }

  /** The order in which rows come back changes neither the total of an order nor whether it has one. */
  lemma CheckedTotalIgnoresOrder(xs: seq<Dec>, ys: seq<Dec>)
    requires AllFit(xs) && NonNegative(xs) && multiset(xs) == multiset(ys)
    ensures CheckedTotal(xs) == CheckedTotal(ys)
  {
    hide Fits, Units, Pow10, CheckedTotal, ExactTotal, TotalUnits, PartialSumsFit;
    forall i | 0 <= i < |ys| ensures Fits(ys[i]) && ys[i].coeff >= 0 && ys[i].exp >= ETINY {
      assert ys[i] in multiset(xs);
      FitsIsInUnits(ys[i]);
    }
    forall i | 0 <= i < |xs| ensures xs[i].exp >= ETINY {
      FitsIsInUnits(xs[i]);
    }
    assert forall y :: y in xs <==> y in multiset(xs);
    assert forall y :: y in ys <==> y in multiset(ys);
    TotalIgnoresOrder(xs, ys);
    TotalHasLeastExponent(xs);
    TotalHasLeastExponent(ys);
    ExactTotalUnits(xs);
    ExactTotalUnits(ys);
    SameExponentSameUnits(ExactTotal(xs), ExactTotal(ys));
    OnlyTheFinalSumMatters(xs);
    OnlyTheFinalSumMatters(ys);
    CheckedTotalIsExact(xs);
    CheckedTotalIsExact(ys);
  }
}
