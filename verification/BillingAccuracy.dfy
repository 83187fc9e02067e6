/**
 How far the written rows can be from the exact sums: the additions to the project and account totals are not
 checked, so rounding there is silent. The bounds below need no assumption about the size of the amounts: a run
 whose totals grew large enough to lose more would have failed to write them.
 */
module BillingAccuracy {
  import opened Powers
  import opened Wrappers
  import opened Decimals
  import opened Leases
  import opened LeaseTable
  import opened SpendStore
  import opened BillingRun
  import opened BillingRows
  import opened BillingLaws

  // ---------- Spends are non-negative for non-negative prices ----------

  /** What the biller relies on of printed durations: never negative, at most 17 digits. */
  ghost predicate HoursContract(hours: int -> Dec) {
    forall d :: d >= 0 ==> hours(d).coeff >= 0 && NumDigits(hours(d).coeff) <= 17
  }

  /** The leases of an order are well formed and their prices are printed non-negative doubles. */
  predicate SoundLeases(leases: seq<Lease>, orderId: Id, w: Window) {
    forall i :: 0 <= i < |leases| ==>
                  && Matches(leases[i], orderId, w)
                  && leases[i].WellFormed()
                  && leases[i].priceHr.coeff >= 0
                  && NumDigits(leases[i].priceHr.coeff) <= 17
  }

  predicate SoundOrders(env: Env, w: Window, orders: seq<Order>) {
    forall i :: 0 <= i < |orders| ==>
                  env.leasesOf(orders[i].id).Some? ==>
                    SoundLeases(env.leasesOf(orders[i].id).value, orders[i].id, w)
  }

  lemma {:induction false} SoundChargesNonNegative(env: Env, leases: seq<Lease>, orderId: Id, w: Window)
    requires w.Valid() && HoursContract(env.hours) && SoundLeases(leases, orderId, w)
    requires SpendsOfCharges(env, Charges(leases, w)).Ok?
    ensures NonNegative(SpendsOfCharges(env, Charges(leases, w)).value)
  {
    hide LeaseSpend, CheckedTotal;
    if |leases| > 0 {
      var l := leases[|leases| - 1];
      SoundChargesNonNegative(env, leases[..|leases| - 1], orderId, w);
      var cs := Charges(leases, w);
      assert cs[..|cs| - 1] == Charges(leases[..|leases| - 1], w);
      ClippedDurationCountsInstants(l, w);
      LeaseSpendFits(env, Charge(BilledDuration(l, w), l.priceHr));
      ProductSign(env.hours(BilledDuration(l, w)).coeff, l.priceHr.coeff);
    }
  }

  lemma SoundOrderNonNegative(env: Env, w: Window, o: Order)
    requires w.Valid() && HoursContract(env.hours) && SoundOrders(env, w, [o])
    ensures NonNegative(SpendsOf(env, w, o)) && AllFit(SpendsOf(env, w, o)) && InUnits(SpendsOf(env, w, o))
  {
    hide SpendsOfCharges, Fits, NumDigits;
    if OrderSpends(env, o, w).Ok? {
      assert [o][0] == o;
      SoundChargesNonNegative(env, env.leasesOf(o.id).value, o.id, w);
      SpendsAreChecked(env, o, w);
    }
  }

  /** Everything an account or one of its projects adds up is a representable, non-negative amount. */
  lemma {:induction false} SoundAccountNonNegative(env: Env, w: Window, orders: seq<Order>, id: Id)
    requires w.Valid() && HoursContract(env.hours) && SoundOrders(env, w, orders)
    ensures var ys := AccountSpends(env, w, orders); NonNegative(ys) && AllFit(ys) && InUnits(ys)
    ensures var ys := ProjectSpends(env, w, orders, id); NonNegative(ys) && AllFit(ys) && InUnits(ys)
  {
    hide SpendsOf, SoundLeases, Fits, HoursContract;
    if |orders| > 0 {
      var n := |orders| - 1;
      SoundAccountNonNegative(env, w, orders[..n], id);
      SoundOrderNonNegative(env, w, orders[n]);
    }
  }

  // ---------- The accuracy of a row ----------

  /** Digits a total can have before the column refuses it, less the 65 the context keeps. */
  const SPARE: nat := -NUMERIC_SCALE - ETINY

  /**
   A stored total of `n` non-negative amounts added without looking at the conditions is within (n + 1) / 2 units
   of 10^-18 of their exact sum.
   */
  lemma StoredTotalError(ys: seq<Dec>)
    requires InUnits(ys) && NonNegative(ys)
    requires StoredForm(TotalOf(ys)).Some?
    ensures 2 * Abs(StoredForm(TotalOf(ys)).value * StoredUnit() - TotalUnits(ys)) <= (|ys| + 1) * StoredUnit()
  {
    hide Accumulate, StoredForm, Units, TotalUnits, Pow10;
    PositiveUnits(ZERO);
    StoredTotalIsFinite(ys);
    AccumulateNonNegative(Finite(ZERO), ys);
    var total := TotalOf(ys).dec;
    PositiveUnits(total);
    StoredFormError(total);
    AccumulateError(Finite(ZERO), ys, SPARE);
    OneMore(|ys|, StoredUnit());
  }

  lemma StoredTotalIsFinite(ys: seq<Dec>)
    requires StoredForm(TotalOf(ys)).Some?
    ensures TotalOf(ys).Finite?
  {}

  /** A stored checked total is within half a unit of 10^-18 of the exact sum. */
  lemma StoredExactError(ys: seq<Dec>)
    requires InUnits(ys) && StoredForm(Finite(ExactTotal(ys))).Some?
    ensures 2 * Abs(StoredForm(Finite(ExactTotal(ys))).value * StoredUnit() - TotalUnits(ys)) <= StoredUnit()
  {
    ExactTotalUnits(ys);
    StoredFormError(ExactTotal(ys));
  }

  /** The account row of a completed run is within (n + 1) / 2 units of 10^-18 of the exact sum of its n lease spends. */
  lemma AccountRowAccuracy(env: Env, w: Window, accounts: seq<Account>, tables: Tables, i: nat)
    requires w.Valid() && HoursContract(env.hours)
    requires Completes(env, w, accounts, tables) && DistinctAccounts(accounts)
    requires i < |accounts| && SoundOrders(env, w, OrdersOf(env, accounts[i]))
    ensures var ys := AccountSpends(env, w, OrdersOf(env, accounts[i]));
            && InUnits(ys)
            && Key(accounts[i].id, w) in RowsAfter(env, w, accounts, tables).accounts
            && 2 * Abs(RowsAfter(env, w, accounts, tables).accounts[Key(accounts[i].id, w)] * StoredUnit() - TotalUnits(ys))
               <= (|ys| + 1) * StoredUnit()
  {
    hide StoredForm, TotalOf, AccountSpends, BillAccounts, HoursContract, SoundOrders, StoredUnit, TotalUnits;
    AccountRow(env, w, accounts, tables, i);
    SoundAccountNonNegative(env, w, OrdersOf(env, accounts[i]), "");
    StoredTotalError(AccountSpends(env, w, OrdersOf(env, accounts[i])));
  }

  /** The same for the row of a project, about its orders in the last listed account that has some. */
  lemma ProjectRowAccuracy(env: Env, w: Window, accounts: seq<Account>, tables: Tables, i: nat, id: Id)
    requires w.Valid() && HoursContract(env.hours)
    requires Completes(env, w, accounts, tables)
    requires i < |accounts| && ListsProject(OrdersOf(env, accounts[i]), id)
    requires forall j :: i < j < |accounts| ==> !ListsProject(OrdersOf(env, accounts[j]), id)
    requires SoundOrders(env, w, OrdersOf(env, accounts[i]))
    ensures var ys := ProjectSpends(env, w, OrdersOf(env, accounts[i]), id);
            && InUnits(ys)
            && Key(id, w) in RowsAfter(env, w, accounts, tables).projects
            && 2 * Abs(RowsAfter(env, w, accounts, tables).projects[Key(id, w)] * StoredUnit() - TotalUnits(ys))
               <= (|ys| + 1) * StoredUnit()
  {
    hide StoredForm, TotalOf, ProjectSpends, BillAccounts, HoursContract, SoundOrders, ListsProject, StoredUnit, TotalUnits;
    ProjectRow(env, w, accounts, tables, i, id);
    SoundAccountNonNegative(env, w, OrdersOf(env, accounts[i]), id);
    StoredTotalError(ProjectSpends(env, w, OrdersOf(env, accounts[i]), id));
  }

  /** The row of an order is the exact sum of its lease spends, rounded once: within half a unit, whatever the prices. */
  lemma OrderRowAccuracy(env: Env, w: Window, accounts: seq<Account>, tables: Tables, i: nat, k: nat)
    requires Completes(env, w, accounts, tables)
    requires i < |accounts| && k < |OrdersOf(env, accounts[i])| && ListedOnce(env, accounts, i, k)
    ensures var o := OrdersOf(env, accounts[i])[k];
            var ys := SpendsOf(env, w, o);
            && InUnits(ys)
            && Key(o.id, w) in RowsAfter(env, w, accounts, tables).orders
            && 2 * Abs(RowsAfter(env, w, accounts, tables).orders[Key(o.id, w)] * StoredUnit() - TotalUnits(ys))
               <= StoredUnit()
  {
    hide StoredForm, OrderSpends, BillAccounts, ListedOnce, StoredUnit, TotalUnits, ExactTotal;
    var o := OrdersOf(env, accounts[i])[k];
    OrderRow(env, w, accounts, tables, i, k);
    SpendsAreChecked(env, o, w);
    StoredExactError(SpendsOf(env, w, o));
  }
}
