/**
 Conservation: what an account is charged is what its projects are charged, which is what its orders are
 charged. Exactly so for the exact totals, and for the totals kept in memory when the amounts leave enough of the 65
 digits free.
 */
module BillingConservation {
  import opened Powers
  import opened Wrappers
  import opened Decimals
  import opened Leases
  import opened LeaseTable
  import opened SpendStore
  import opened BillingRun
  import opened BillingRows
  import opened BillingLaws
  import opened BillingAccuracy
  import opened BillingProducts

  // ---------- Exact totals ----------

  lemma SpendsInUnits(env: Env, w: Window, o: Order)
    ensures InUnits(SpendsOf(env, w, o))
  {
    hide OrderSpends;
    if OrderSpends(env, o, w).Ok? {
      SpendsAreChecked(env, o, w);
    }
  }

  lemma {:induction false} ListsInUnits(env: Env, w: Window, orders: seq<Order>, id: Id)
    ensures InUnits(AccountSpends(env, w, orders))
    ensures InUnits(ProjectSpends(env, w, orders, id))
  {
    hide SpendsOf;
    if |orders| > 0 {
      ListsInUnits(env, w, orders[..|orders| - 1], id);
      SpendsInUnits(env, w, orders[|orders| - 1]);
    }
  }

  /** The exact sum of an order's lease spends, in units of 10^ETINY. */
  function OrderTotal(env: Env, w: Window, o: Order): int {
    SpendsInUnits(env, w, o);
    TotalUnits(SpendsOf(env, w, o))
  }

  function ProjectTotal(env: Env, w: Window, orders: seq<Order>, id: Id): int {
    ListsInUnits(env, w, orders, id);
    TotalUnits(ProjectSpends(env, w, orders, id))
  }

  function AccountTotal(env: Env, w: Window, orders: seq<Order>): int {
    ListsInUnits(env, w, orders, "");
    TotalUnits(AccountSpends(env, w, orders))
  }

  function OrderTotals(env: Env, w: Window, orders: seq<Order>): seq<int> {
    seq(|orders|, i requires 0 <= i < |orders| => OrderTotal(env, w, orders[i]))
  }

  function ProjectTotals(env: Env, w: Window, orders: seq<Order>, ids: seq<Id>): seq<int> {
    seq(|ids|, i requires 0 <= i < |ids| => ProjectTotal(env, w, orders, ids[i]))
  }

  /** The projects of some orders, each once. */
  function ProjectsOf(orders: seq<Order>): seq<Id> {
    if |orders| == 0 then []
    else
      var before := ProjectsOf(orders[..|orders| - 1]);
      var id := orders[|orders| - 1].projectId;
      if id in before then before else before + [id]
  }

  lemma {:induction false} ProjectsOfOnce(orders: seq<Order>)
    ensures forall i, j :: 0 <= i < j < |ProjectsOf(orders)| ==> ProjectsOf(orders)[i] != ProjectsOf(orders)[j]
    ensures forall id :: id in ProjectsOf(orders) <==> ListsProject(orders, id)
  {
    if |orders| > 0 {
      var n := |orders| - 1;
      ProjectsOfOnce(orders[..n]);
      forall id ensures id in ProjectsOf(orders) <==> ListsProject(orders, id) {
        ListsProjectStep(orders, id);
      }
    }
  }

  lemma ListsProjectStep(orders: seq<Order>, id: Id)
    requires |orders| > 0
    ensures ListsProject(orders, id) <==>
            ListsProject(orders[..|orders| - 1], id) || orders[|orders| - 1].projectId == id
  {
    var n := |orders| - 1;
    if ListsProject(orders[..n], id) {
      var i :| 0 <= i < n && orders[..n][i].projectId == id;
      assert orders[i].projectId == id;
    }
    if ListsProject(orders, id) && orders[n].projectId != id {
      var i :| 0 <= i < |orders| && orders[i].projectId == id;
      assert orders[..n][i].projectId == id;
    }
  }

  lemma {:induction false} UnlistedProjectIsEmpty(env: Env, w: Window, orders: seq<Order>, id: Id)
    requires !ListsProject(orders, id)
    ensures ProjectSpends(env, w, orders, id) == []
  {
    hide SpendsOf;
    if |orders| > 0 {
      ListsProjectStep(orders, id);
      UnlistedProjectIsEmpty(env, w, orders[..|orders| - 1], id);
    }
  }

  lemma TotalsStep(env: Env, w: Window, orders: seq<Order>, id: Id)
    requires |orders| > 0
    ensures var front, o := orders[..|orders| - 1], orders[|orders| - 1];
            && AccountTotal(env, w, orders) == AccountTotal(env, w, front) + OrderTotal(env, w, o)
            && ProjectTotal(env, w, orders, id) ==
               ProjectTotal(env, w, front, id) + if o.projectId == id then OrderTotal(env, w, o) else 0
  {
    hide SpendsOf;
    var front, o := orders[..|orders| - 1], orders[|orders| - 1];
    ListsInUnits(env, w, front, id);
    SpendsInUnits(env, w, o);
    TotalConcat(AccountSpends(env, w, front), SpendsOf(env, w, o));
    TotalConcat(ProjectSpends(env, w, front, id), SpendsOf(env, w, o));
  }

  /** The exact total of an account is the sum of the exact totals of its orders, and of those of its projects. */
  lemma {:induction false} ExactConservation(env: Env, w: Window, orders: seq<Order>)
    ensures Sum(OrderTotals(env, w, orders)) == AccountTotal(env, w, orders)
    ensures Sum(ProjectTotals(env, w, orders, ProjectsOf(orders))) == AccountTotal(env, w, orders)
  {
    hide OrderTotal, ProjectTotal, AccountTotal;
    if |orders| == 0 {
      NoOrdersTotal(env, w);
      assert orders == [];
    } else {
      var n := |orders| - 1;
      var front, o := orders[..n], orders[n];
      ExactConservation(env, w, front);
      TotalsStep(env, w, orders, o.projectId);
      assert OrderTotals(env, w, orders)[..n] == OrderTotals(env, w, front);
      ProjectTotalsStep(env, w, orders);
    }
  }

  lemma NoOrdersTotal(env: Env, w: Window)
    ensures AccountTotal(env, w, []) == 0
  {}

  lemma ProjectTotalsStep(env: Env, w: Window, orders: seq<Order>)
    requires |orders| > 0
    ensures var front := orders[..|orders| - 1];
            Sum(ProjectTotals(env, w, orders, ProjectsOf(orders))) ==
            Sum(ProjectTotals(env, w, front, ProjectsOf(front))) + OrderTotal(env, w, orders[|orders| - 1])
  {
    hide OrderTotal, ProjectTotal, Sum, ListsProject, AccountTotal;
    var front, o := orders[..|orders| - 1], orders[|orders| - 1];
    var id := o.projectId;
    var ids := ProjectsOf(front);
    var before := ProjectTotals(env, w, front, ids);
    ProjectsOfOnce(front);
    forall i | 0 <= i < |ids| && ids[i] != id
      ensures ProjectTotal(env, w, orders, ids[i]) == ProjectTotal(env, w, front, ids[i])
    {
      TotalsStep(env, w, orders, ids[i]);
    }
    TotalsStep(env, w, orders, id);
    if id in ids {
      var i :| 0 <= i < |ids| && ids[i] == id;
      assert ProjectTotals(env, w, orders, ids) == before[i := before[i] + OrderTotal(env, w, o)];
      SumUpdate(before, i, before[i] + OrderTotal(env, w, o));
    } else {
      NewProjectTotal(env, w, front, id);
      assert ProjectTotals(env, w, orders, ids + [id]) == before + [OrderTotal(env, w, o)];
      SumAppend(before, OrderTotal(env, w, o));
    }
  }

  lemma NewProjectTotal(env: Env, w: Window, orders: seq<Order>, id: Id)
    requires !ListsProject(orders, id)
    ensures ProjectTotal(env, w, orders, id) == 0
  {
    UnlistedProjectIsEmpty(env, w, orders, id);
  }

  // ---------- Totals kept in memory ----------

  /**
   Every product of hours and price of the orders' leases is representable, non-negative, below 10^m, with at most
   `e` decimal places; there are at most 10^k of them; and m + k + e digits fit the context.
   */
  predicate InRange(env: Env, w: Window, orders: seq<Order>, m: nat, k: nat, e: nat) {
    && (forall i :: 0 <= i < |orders| ==> env.leasesOf(orders[i].id).Some?)
    && var ys := AccountProducts(env, w, orders);
       InUnits(ys) && Bounded(ys, m, e) && |ys| <= Pow10(k) && m + k + e <= PRECISION
  }

  /** The products of a project, and of an order, are some of those of their account. */
  lemma {:induction false} ProjectProductsAreAmongThem(env: Env, w: Window, orders: seq<Order>, id: Id)
    ensures forall y :: y in ProjectProducts(env, w, orders, id) ==> y in AccountProducts(env, w, orders)
    ensures |ProjectProducts(env, w, orders, id)| <= |AccountProducts(env, w, orders)|
  {
    hide OrderProducts;
    if |orders| > 0 {
      ProjectProductsAreAmongThem(env, w, orders[..|orders| - 1], id);
    }
  }

  lemma {:induction false} OrderProductsAreAmongThem(env: Env, w: Window, orders: seq<Order>, k: nat)
    requires k < |orders|
    ensures forall y :: y in OrderProducts(env, w, orders[k]) ==> y in AccountProducts(env, w, orders)
    ensures |OrderProducts(env, w, orders[k])| <= |AccountProducts(env, w, orders)|
  {
    hide OrderProducts;
    var n := |orders| - 1;
    if k < n {
      assert orders[..n][k] == orders[k];
      OrderProductsAreAmongThem(env, w, orders[..n], k);
    }
  }

  lemma PartIsBounded(part: seq<Dec>, whole: seq<Dec>, m: nat, e: nat)
    requires InUnits(whole) && Bounded(whole, m, e)
    requires forall y :: y in part ==> y in whole
    ensures InUnits(part) && Bounded(part, m, e)
  {
    hide Fits, Units;
    forall i | 0 <= i < |part|
      ensures part[i].exp >= ETINY && Fits(part[i]) && part[i].coeff >= 0 && 0 <= part[i].exp + e
      ensures Units(part[i]) < Pow10(m - ETINY)
    {
      assert part[i] in part;
      var j :| 0 <= j < |whole| && whole[j] == part[i];
    }
  }

  /** Adding some of the products of an account raises no condition and gives their exact sum. */
  lemma PartAddsExactly(env: Env, w: Window, orders: seq<Order>, part: seq<Dec>, m: nat, k: nat, e: nat)
    requires InRange(env, w, orders, m, k, e)
    requires forall y :: y in part ==> y in AccountProducts(env, w, orders)
    requires |part| <= |AccountProducts(env, w, orders)|
    ensures InUnits(part) && AllFit(part) && PartialSumsFit(part)
    ensures CheckedTotal(part) == Some(ExactTotal(part)) && TotalOf(part) == Finite(ExactTotal(part))
    ensures InMemoryUnits(TotalOf(part)) == Some(TotalUnits(part))
  {
    hide Fits, Units, Accumulate, CheckedTotal, ExactTotal, TotalUnits, PartialSumsFit, AccountProducts;
    PartIsBounded(part, AccountProducts(env, w, orders), m, e);
    NoConditionInRange(part, m, k, e);
    CheckedTotalIsExact(part);
    ExactTotalUnits(part);
  }

  /** In range every order is billed, for exactly the products of its leases. */
  lemma OrdersInRangeAreBilled(env: Env, w: Window, orders: seq<Order>, m: nat, k: nat, e: nat)
    requires InRange(env, w, orders, m, k, e)
    ensures forall i :: 0 <= i < |orders| ==> OrderSpends(env, orders[i], w) == Ok(OrderProducts(env, w, orders[i]))
  {
    forall i | 0 <= i < |orders|
      ensures OrderSpends(env, orders[i], w) == Ok(OrderProducts(env, w, orders[i]))
    {
      assert env.leasesOf(orders[i].id).Some?;
      hide InRange, AllFit, PartialSumsFit, AccountProducts, Products, SpendsOfCharges, ExactTotal, CheckedTotal;
      OrderProductsAreAmongThem(env, w, orders, i);
      PartAddsExactly(env, w, orders, OrderProducts(env, w, orders[i]), m, k, e);
      LeasesAreBilledExactlyWhen(env, Charges(env.leasesOf(orders[i].id).value, w));
    }
  }

  lemma SpendsInRange(env: Env, w: Window, orders: seq<Order>, id: Id, m: nat, k: nat, e: nat)
    requires InRange(env, w, orders, m, k, e)
    ensures AccountSpends(env, w, orders) == AccountProducts(env, w, orders)
    ensures ProjectSpends(env, w, orders, id) == ProjectProducts(env, w, orders, id)
  {
    hide InRange, OrderSpends;
    OrdersInRangeAreBilled(env, w, orders, m, k, e);
    BilledSpends(env, w, orders, id);
  }

  /**
   In range, every order is billed for all its leases, no addition raises a condition anywhere, and what memory holds
   for the account is the exact sum of the products, which is what it holds for its projects added up, and for its
   orders added up.
   */
  lemma ConservationInMemory(env: Env, w: Window, orders: seq<Order>, m: nat, k: nat, e: nat)
    requires InRange(env, w, orders, m, k, e)
    ensures forall i :: 0 <= i < |orders| ==>
                          && OrderSpends(env, orders[i], w) == Ok(OrderProducts(env, w, orders[i]))
                          && InMemoryUnits(TotalOf(OrderProducts(env, w, orders[i]))) == Some(OrderTotal(env, w, orders[i]))
    ensures AccountSpends(env, w, orders) == AccountProducts(env, w, orders)
    ensures CheckedTotal(AccountProducts(env, w, orders)).Some?
    ensures InMemoryUnits(TotalOf(AccountProducts(env, w, orders))) == Some(AccountTotal(env, w, orders))
    ensures forall id ::
              && ProjectSpends(env, w, orders, id) == ProjectProducts(env, w, orders, id)
              && CheckedTotal(ProjectProducts(env, w, orders, id)).Some?
              && InMemoryUnits(TotalOf(ProjectProducts(env, w, orders, id))) == Some(ProjectTotal(env, w, orders, id))
    ensures Sum(ProjectTotals(env, w, orders, ProjectsOf(orders))) == AccountTotal(env, w, orders)
    ensures Sum(OrderTotals(env, w, orders)) == AccountTotal(env, w, orders)
  {
    hide InRange, Accumulate, CheckedTotal, TotalUnits, Units, ProjectSpends, AccountSpends, ExactTotal, OrderSpends,
      AllFit, PartialSumsFit, AccountProducts, ProjectProducts, OrderProducts, InMemoryUnits, TotalOf;
    OrdersInRangeAreBilled(env, w, orders, m, k, e);
    SpendsInRange(env, w, orders, "", m, k, e);
    PartAddsExactly(env, w, orders, AccountProducts(env, w, orders), m, k, e);
    forall id
      ensures ProjectSpends(env, w, orders, id) == ProjectProducts(env, w, orders, id)
      ensures CheckedTotal(ProjectProducts(env, w, orders, id)).Some?
      ensures InMemoryUnits(TotalOf(ProjectProducts(env, w, orders, id))) == Some(ProjectTotal(env, w, orders, id))
    {
      SpendsInRange(env, w, orders, id, m, k, e);
      ProjectProductsAreAmongThem(env, w, orders, id);
      PartAddsExactly(env, w, orders, ProjectProducts(env, w, orders, id), m, k, e);
    }
    forall i | 0 <= i < |orders|
      ensures InMemoryUnits(TotalOf(OrderProducts(env, w, orders[i]))) == Some(OrderTotal(env, w, orders[i]))
    {
      OrderProductsAreAmongThem(env, w, orders, i);
      PartAddsExactly(env, w, orders, OrderProducts(env, w, orders[i]), m, k, e);
    }
    ExactConservation(env, w, orders);
  }
}
