/**
 When an order is billed, in terms of what it is billed from: the exact products of hours and price of its leases.
 */
module BillingProducts {
  import opened Powers
  import opened Wrappers
  import opened Decimals
  import opened Leases
  import opened LeaseTable
  import opened SpendStore
  import opened BillingRun
  import opened BillingRows
  import opened BillingLaws
  import opened BillingAccuracy
  import opened RowOrder

  function Product(env: Env, charge: Charge): Dec {
    ExactProduct(env.hours(charge.duration), charge.priceHr)
  }

  function Products(env: Env, charges: seq<Charge>): (ps: seq<Dec>)
    ensures |ps| == |charges|
  {
    seq(|charges|, i requires 0 <= i < |charges| => Product(env, charges[i]))
  }

  /** Hours times price of every lease of an order. */
  function OrderProducts(env: Env, w: Window, o: Order): seq<Dec> {
    var leases := env.leasesOf(o.id);
    if leases.Some? then Products(env, Charges(leases.value, w)) else []
  }

  function AccountProducts(env: Env, w: Window, orders: seq<Order>): seq<Dec> {
    if |orders| == 0 then []
    else AccountProducts(env, w, orders[..|orders| - 1]) + OrderProducts(env, w, orders[|orders| - 1])
  }

  function ProjectProducts(env: Env, w: Window, orders: seq<Order>, id: Id): seq<Dec> {
    if |orders| == 0 then []
    else
      var before := ProjectProducts(env, w, orders[..|orders| - 1], id);
      if orders[|orders| - 1].projectId == id then before + OrderProducts(env, w, orders[|orders| - 1]) else before
  }

  // ---------- When the leases of an order are billed ----------

  /** The first product that the context cannot represent is this one, and nothing went wrong before it. */
  predicate ProductStops(products: seq<Dec>, i: nat) {
    && i < |products|
    && !Fits(products[i])
    && AllFit(products[..i]) && PartialSumsFit(products[..i])
  }

  /** The first sum that the context cannot represent is the one that includes this product. */
  predicate SumStops(products: seq<Dec>, i: nat) {
    && i < |products|
    && !Fits(ExactTotal(products[..i + 1]))
    && AllFit(products[..i + 1]) && PartialSumsFit(products[..i])
  }

  lemma SpendIsProduct(env: Env, charge: Charge)
    ensures LeaseSpend(env, charge) == if Fits(Product(env, charge)) then Some(Product(env, charge)) else None
  {
    hide Mul, Fits;
    MulIsQuietExactlyWhenTheProductFits(env.hours(charge.duration), charge.priceHr);
  }

  lemma OneMoreProduct(env: Env, charges: seq<Charge>)
    requires |charges| > 0
    ensures var ps, n := Products(env, charges), |charges| - 1;
            && ps[..n] == Products(env, charges[..n])
            && ps == ps[..n] + [Product(env, charges[n])]
            && (AllFit(ps) <==> AllFit(ps[..n]) && Fits(ps[n]))
  {
    hide Fits, Product;
    var ps, n := Products(env, charges), |charges| - 1;
    assert ps == ps[..n] + [ps[n]];
    if AllFit(ps[..n]) && Fits(ps[n]) {
      forall i | 0 <= i < |ps| ensures Fits(ps[i]) {
        assert i < n ==> ps[..n][i] == ps[i];
      }
    }
  }

  /** Leases are billed exactly when all products and all partial sums are representable, and then for the products. */
  lemma {:induction false} LeasesAreBilledExactlyWhen(env: Env, charges: seq<Charge>)
    ensures var ps, spends := Products(env, charges), SpendsOfCharges(env, charges);
            && (spends.Ok? <==> AllFit(ps) && PartialSumsFit(ps))
            && (spends.Ok? ==> spends.value == ps)
  {
    if |charges| == 0 {
      NoProducts(env, charges);
    } else {
      LeasesAreBilledExactlyWhen(env, charges[..|charges| - 1]);
      hide *;
      LastLeaseIsBilledExactlyWhen(env, charges);
    }
  }

  lemma LastLeaseIsBilledExactlyWhen(env: Env, charges: seq<Charge>)
    requires |charges| > 0
    requires var ps, spends := Products(env, charges[..|charges| - 1]), SpendsOfCharges(env, charges[..|charges| - 1]);
             (spends.Ok? <==> AllFit(ps) && PartialSumsFit(ps)) && (spends.Ok? ==> spends.value == ps)
    ensures var ps, spends := Products(env, charges), SpendsOfCharges(env, charges);
            (spends.Ok? <==> AllFit(ps) && PartialSumsFit(ps)) && (spends.Ok? ==> spends.value == ps)
  {
    hide Fits, Product, Products, LeaseSpend, CheckedTotal, ExactTotal, AllFit;
    var n := |charges| - 1;
    OneMoreProduct(env, charges);
    SpendIsProduct(env, charges[n]);
    CheckedTotalIsExact(Products(env, charges));
  }

  lemma NoProducts(env: Env, charges: seq<Charge>)
    requires charges == []
    ensures var ps := Products(env, charges); ps == [] && AllFit(ps) && PartialSumsFit(ps)
  {
    assert NumDigits(0) == 1;
  }

  lemma LastStops(ps: seq<Dec>, n: nat, i: nat)
    requires n <= |ps|
    ensures ProductStops(ps[..n], i) ==> ProductStops(ps, i)
    ensures SumStops(ps[..n], i) ==> SumStops(ps, i)
    ensures i < n && ProductStops(ps, i) ==> ProductStops(ps[..n], i)
    ensures i < n && SumStops(ps, i) ==> SumStops(ps[..n], i)
  {
    hide Fits, AllFit, PartialSumsFit, ExactTotal;
    if i < n {
      assert ps[..n][..i] == ps[..i] && ps[..n][..i + 1] == ps[..i + 1];
    }
  }

  /** Which of the two checks stops an order, and at which lease. */
  lemma {:induction false} LeasesStopExactlyAt(env: Env, charges: seq<Charge>)
    ensures var ps, spends := Products(env, charges), SpendsOfCharges(env, charges);
            && (spends == Err(LeaseSpendFailed) <==> exists i: nat :: ProductStops(ps, i))
            && (spends == Err(OrderSpendFailed) <==> exists i: nat :: SumStops(ps, i))
            && (spends.Err? ==> spends == Err(LeaseSpendFailed) || spends == Err(OrderSpendFailed))
  {
    hide Fits, Product, Products, LeaseSpend, CheckedTotal, ExactTotal, AllFit, PartialSumsFit, ProductStops, SumStops;
    var ps := Products(env, charges);
    if |charges| == 0 {
      NeverStops(env, charges);
    } else {
      var n := |charges| - 1;
      LeasesStopExactlyAt(env, charges[..n]);
      LeasesAreBilledExactlyWhen(env, charges[..n]);
      OneMoreProduct(env, charges);
      LastLeaseStops(env, charges);
      forall i: nat
        ensures ProductStops(ps, i) <==> ProductStops(ps[..n], i) || (i == n && ProductStops(ps, n))
        ensures SumStops(ps, i) <==> SumStops(ps[..n], i) || (i == n && SumStops(ps, n))
      {
        LastStops(ps, n, i);
        StopsInside(ps, i);
        StopsInside(ps[..n], i);
      }
    }
  }

  lemma StopsInside(ps: seq<Dec>, i: nat)
    ensures ProductStops(ps, i) || SumStops(ps, i) ==> i < |ps|
  {}

  lemma NeverStops(env: Env, charges: seq<Charge>)
    requires charges == []
    ensures forall i: nat :: !ProductStops(Products(env, charges), i) && !SumStops(Products(env, charges), i)
    ensures SpendsOfCharges(env, charges).Ok?
  {}

  lemma LastLeaseStops(env: Env, charges: seq<Charge>)
    requires |charges| > 0
    ensures var n, ps := |charges| - 1, Products(env, charges);
            if SpendsOfCharges(env, charges[..n]).Err? then
              !ProductStops(ps, n) && !SumStops(ps, n) && SpendsOfCharges(env, charges) == SpendsOfCharges(env, charges[..n])
            else
              && (ProductStops(ps, n) <==> SpendsOfCharges(env, charges) == Err(LeaseSpendFailed))
              && (SumStops(ps, n) <==> SpendsOfCharges(env, charges) == Err(OrderSpendFailed))
              && (SpendsOfCharges(env, charges).Err? ==> ProductStops(ps, n) || SumStops(ps, n))
  {
    hide Fits, Product, Products, LeaseSpend, CheckedTotal, ExactTotal, AllFit;
    var n, ps := |charges| - 1, Products(env, charges);
    LeasesAreBilledExactlyWhen(env, charges[..n]);
    OneMoreProduct(env, charges);
    SpendIsProduct(env, charges[n]);
    CheckedTotalIsExact(ps);
    assert ps[..n + 1] == ps;
  }

  // ---------- In terms of stored leases ----------

  /** The product of an hours and a price lies in the exponent range of the context. */
  predicate InExponentRange(hours: Dec, price: Dec) {
    if hours.coeff == 0 || price.coeff == 0 then ETINY <= hours.exp + price.exp <= MAX_EXPONENT
    else MIN_EXPONENT <= Adjusted(ExactProduct(hours, price)) <= MAX_EXPONENT
  }

  /** For printed doubles only the exponent decides whether a product is representable. */
  lemma PrintedProductFits(hours: Dec, price: Dec)
    requires NumDigits(hours.coeff) <= 17 && NumDigits(price.coeff) <= 17
    ensures Fits(ExactProduct(hours, price)) <==> InExponentRange(hours, price)
  {
    hide Mul, Fits, NumDigits;
    MulIsExactOrFlagged(hours, price);
    MulIsQuietExactlyWhenTheProductFits(hours, price);
  }

  lemma SoundProducts(env: Env, w: Window, leases: seq<Lease>, orderId: Id)
    requires w.Valid() && HoursContract(env.hours) && SoundLeases(leases, orderId, w)
    ensures |Charges(leases, w)| == |leases|
    ensures NonNegative(Products(env, Charges(leases, w)))
    ensures AllFit(Products(env, Charges(leases, w))) <==>
            forall i :: 0 <= i < |leases| ==> InExponentRange(env.hours(BilledDuration(leases[i], w)), leases[i].priceHr)
  {
    hide Fits, InExponentRange, NumDigits;
    ChargesAt(leases, w);
    var ps := Products(env, Charges(leases, w));
    forall i | 0 <= i < |leases|
      ensures ps[i].coeff >= 0
      ensures Fits(ps[i]) <==> InExponentRange(env.hours(BilledDuration(leases[i], w)), leases[i].priceHr)
    {
      ClippedDurationCountsInstants(leases[i], w);
      var hours, price := env.hours(BilledDuration(leases[i], w)), leases[i].priceHr;
      ProductSign(hours.coeff, price.coeff);
      PrintedProductFits(hours, price);
    }
  }

  lemma {:induction false} ChargesAt(leases: seq<Lease>, w: Window)
    ensures |Charges(leases, w)| == |leases|
    ensures forall i :: 0 <= i < |leases| ==> Charges(leases, w)[i] == Charge(BilledDuration(leases[i], w), leases[i].priceHr)
  {
    if |leases| > 0 {
      ChargesAt(leases[..|leases| - 1], w);
    }
  }

  /**
   An order with sound leases is billed exactly when the product of each of them lies in the exponent range and
   their exact sum is representable; and then it is billed for exactly these products.
   */
  lemma OrderIsBilledExactlyWhen(env: Env, w: Window, o: Order)
    requires w.Valid() && HoursContract(env.hours) && SoundOrders(env, w, [o])
    requires env.leasesOf(o.id).Some?
    ensures var leases := env.leasesOf(o.id).value;
            OrderSpends(env, o, w).Ok? <==>
            && (forall i :: 0 <= i < |leases| ==> InExponentRange(env.hours(BilledDuration(leases[i], w)), leases[i].priceHr))
            && Fits(ExactTotal(OrderProducts(env, w, o)))
    ensures OrderSpends(env, o, w).Ok? ==> OrderSpends(env, o, w).value == OrderProducts(env, w, o)
  {
    hide Fits, InExponentRange, NumDigits, HoursContract, ExactTotal, SpendsOfCharges, PartialSumsFit, SoundLeases;
    var leases := env.leasesOf(o.id).value;
    var ps := OrderProducts(env, w, o);
    assert [o][0] == o;
    SoundProducts(env, w, leases, o.id);
    LeasesAreBilledExactlyWhen(env, Charges(leases, w));
    if AllFit(ps) {
      forall i | 0 <= i < |ps| ensures ps[i].exp >= ETINY {
        FitsIsInUnits(ps[i]);
      }
      OnlyTheFinalSumMatters(ps);
    }
  }

  /** What a billed order spends is what its leases' products say. */
  lemma BilledOrderSpends(env: Env, w: Window, o: Order)
    requires OrderSpends(env, o, w).Ok?
    ensures SpendsOf(env, w, o) == OrderProducts(env, w, o)
  {
    hide SpendsOfCharges, Products;
    LeasesAreBilledExactlyWhen(env, Charges(env.leasesOf(o.id).value, w));
  }

  lemma {:induction false} BilledSpends(env: Env, w: Window, orders: seq<Order>, id: Id)
    requires forall i :: 0 <= i < |orders| ==> OrderSpends(env, orders[i], w).Ok?
    ensures AccountSpends(env, w, orders) == AccountProducts(env, w, orders)
    ensures ProjectSpends(env, w, orders, id) == ProjectProducts(env, w, orders, id)
  {
    hide OrderSpends, OrderProducts, SpendsOf;
    if |orders| > 0 {
      var n := |orders| - 1;
      forall i | 0 <= i < n ensures OrderSpends(env, orders[..n][i], w).Ok? {
        assert orders[..n][i] == orders[i];
      }
      BilledSpends(env, w, orders[..n], id);
      BilledOrderSpends(env, w, orders[n]);
    }
  }
}
