/**
 Runs that need not fear a condition: if the hours times price of the leases leave enough of the 65 digits free,
 the run completes and its rows are the stored exact sums.
 */
module BillingCompletion {
  import opened Powers
  import opened Wrappers
  import opened Decimals
  import opened Leases
  import opened LeaseTable
  import opened SpendStore
  import opened BillingRun
  import opened BillingRows
  import opened BillingLaws
  import opened BillingProducts
  import opened BillingConservation
  import opened BillingDatabase
  import opened BillingSkew
  import opened BillingUids

  // ---------- Amounts the column can hold ----------

  lemma LessByFactor(a: nat, t: nat, shift: nat)
    requires a * Pow10(shift) < Pow10(t + shift)
    ensures a < Pow10(t)
  {
    Pow10Add(t, shift);
    if Pow10(t) <= a {
      MulMono(Pow10(t), a, Pow10(shift));
    }
  }

  /** A non-negative amount below 10^t fits the column, if rounding cannot carry it beyond. */
  lemma SmallAmountIsStored(d: Dec, t: nat)
    requires d.exp >= ETINY && 0 <= Units(d) < Pow10(t - ETINY)
    requires t + NUMERIC_SCALE <= NUMERIC_PRECISION && (d.exp < -NUMERIC_SCALE ==> t + NUMERIC_SCALE < NUMERIC_PRECISION)
    ensures StoredForm(Finite(d)).Some?
  {
    PositiveUnits(d);
    hide Pow10, HalfUp, Units;
    if d.exp >= -NUMERIC_SCALE {
      WholeAmount(d, t);
      Pow10Mono(t + NUMERIC_SCALE, NUMERIC_PRECISION);
    } else {
      RoundedAmount(d, t);
      Pow10StrictMono(t + NUMERIC_SCALE, NUMERIC_PRECISION);
    }
  }

  lemma WholeAmount(d: Dec, t: nat)
    requires d.exp >= -NUMERIC_SCALE && d.coeff >= 0 && Units(d) < Pow10(t - ETINY)
    ensures 0 <= d.coeff * Pow10(d.exp + NUMERIC_SCALE) < Pow10(t + NUMERIC_SCALE)
  {
    UnitsScale(d.coeff, d.exp + NUMERIC_SCALE, -NUMERIC_SCALE);
    var n := d.coeff * Pow10(d.exp + NUMERIC_SCALE);
    ProductSign(d.coeff, Pow10(d.exp + NUMERIC_SCALE));
    hide Pow10;
    LessByFactor(n, t + NUMERIC_SCALE, -NUMERIC_SCALE - ETINY);
  }

  lemma RoundedAmount(d: Dec, t: nat)
    requires ETINY <= d.exp < -NUMERIC_SCALE && d.coeff >= 0 && Units(d) < Pow10(t - ETINY)
    ensures 0 <= HalfUp(d.coeff, Pow10(-NUMERIC_SCALE - d.exp)) <= Pow10(t + NUMERIC_SCALE)
  {
    hide Pow10, HalfUp;
    var shift := -NUMERIC_SCALE - d.exp;
    LessByFactor(d.coeff, t + NUMERIC_SCALE + shift, d.exp - ETINY);
    hide Units;
    Pow10Add(t + NUMERIC_SCALE, shift);
    HalfUpAtMost(d.coeff, Pow10(shift), Pow10(t + NUMERIC_SCALE));
    HalfUpSign(d.coeff, Pow10(shift));
  }

  /** In range, with m + k at most 47, the total of some of the account's products fits the column. */
  lemma PartIsStored(env: Env, w: Window, orders: seq<Order>, part: seq<Dec>, m: nat, k: nat, e: nat)
    requires InRange(env, w, orders, m, k, e) && m + k + NUMERIC_SCALE <= NUMERIC_PRECISION
    requires forall y :: y in part ==> y in AccountProducts(env, w, orders)
    requires |part| <= |AccountProducts(env, w, orders)|
    ensures StoredForm(TotalOf(part)).Some?
  {
    hide Fits, Units, Accumulate, CheckedTotal, ExactTotal, TotalUnits, PartialSumsFit, AccountProducts, Pow10, StoredForm,
      Bounded;
    PartAddsExactly(env, w, orders, part, m, k, e);
    PartIsBounded(part, AccountProducts(env, w, orders), m, e);
    BoundedTotal(part, m, e);
    ExactTotalUnits(part);
    MulMono(|part|, Pow10(k), Pow10(m - ETINY));
    Pow10Add(k, m - ETINY);
    if |part| == 0 {
      assert |part| * Pow10(m - ETINY) == 0;
    }
    assert Pow10(m + k - ETINY) >= 1;
    SmallAmountIsStored(ExactTotal(part), m + k);
  }

  // ---------- Completion ----------

  ghost predicate NoneRefused(env: Env, writes: set<Write>) {
    forall x :: x in writes ==> !env.refuses(x)
  }

  /** The orders of every account are listed, and in range. */
  ghost predicate RunInRange(env: Env, w: Window, accounts: seq<Account>, m: nat, k: nat, e: nat) {
    forall i :: 0 <= i < |accounts| ==>
                  env.ordersOf(accounts[i].id).Some? && InRange(env, w, OrdersOf(env, accounts[i]), m, k, e)
  }

  lemma InRangePrefix(env: Env, w: Window, orders: seq<Order>, m: nat, k: nat, e: nat)
    requires |orders| > 0 && InRange(env, w, orders, m, k, e)
    ensures InRange(env, w, orders[..|orders| - 1], m, k, e)
  {
    hide Bounded, OrderProducts;
    var front := orders[..|orders| - 1];
    assert forall i :: 0 <= i < |front| ==> front[i] == orders[i];
    PartIsBounded(AccountProducts(env, w, front), AccountProducts(env, w, orders), m, e);
  }

  lemma LastOrderInRangeIsOk(env: Env, w: Window, orders: seq<Order>, m: nat, k: nat, e: nat)
    requires |orders| > 0 && InRange(env, w, orders, m, k, e) && m + k + NUMERIC_SCALE <= NUMERIC_PRECISION
    requires NoneRefused(env, OrderWrites(orders))
    ensures LastOrderOk(env, w, orders)
  {
    hide InRange, OrderSpends, OrderProducts, AccountProducts, ProjectProducts, StoredForm, TotalOf, ProjectSpends,
      AccountSpends;
    var n := |orders| - 1;
    OrdersInRangeAreBilled(env, w, orders, m, k, e);
    SpendsInRange(env, w, orders, orders[n].projectId, m, k, e);
    OrderProductsAreAmongThem(env, w, orders, n);
    ProjectProductsAreAmongThem(env, w, orders, orders[n].projectId);
    PartIsStored(env, w, orders, OrderProducts(env, w, orders[n]), m, k, e);
    PartIsStored(env, w, orders, ProjectProducts(env, w, orders, orders[n].projectId), m, k, e);
  }

  lemma {:induction false} OrdersInRangeAreOk(env: Env, w: Window, orders: seq<Order>, m: nat, k: nat, e: nat)
    requires InRange(env, w, orders, m, k, e) && m + k + NUMERIC_SCALE <= NUMERIC_PRECISION
    requires NoneRefused(env, OrderWrites(orders))
    ensures OrdersOk(env, w, orders)
  {
    hide InRange, LastOrderOk;
    if |orders| > 0 {
      InRangePrefix(env, w, orders, m, k, e);
      OrdersInRangeAreOk(env, w, orders[..|orders| - 1], m, k, e);
      LastOrderInRangeIsOk(env, w, orders, m, k, e);
    }
  }

  lemma RunInRangeIsOk(env: Env, w: Window, accounts: seq<Account>, m: nat, k: nat, e: nat)
    requires RunInRange(env, w, accounts, m, k, e) && m + k + NUMERIC_SCALE <= NUMERIC_PRECISION
    requires NoneRefused(env, RunWrites(env, accounts))
    ensures RunOk(env, w, accounts)
  {
    hide InRange, OrdersOk, StoredForm, TotalOf, AccountSpends, AccountProducts, OrderWrites, RunWrites, OrdersOf;
    RunWritesAre(env, accounts);
    forall i | 0 <= i < |accounts| ensures AccountOk(env, w, accounts[i]) {
      var orders := OrdersOf(env, accounts[i]);
      OrdersInRangeAreOk(env, w, orders, m, k, e);
      SpendsInRange(env, w, orders, "", m, k, e);
      PartIsStored(env, w, orders, AccountProducts(env, w, orders), m, k, e);
      assert AccountWrite(accounts[i].id) in RunWrites(env, accounts);
    }
  }

  /**
   If at most 10^k products of hours and price per account, each non-negative, below 10^m, with at most `e` decimal
   places, leave m + k + e digits within 65 and m + k within 47, then a run with fresh uids that bills nothing twice
   and meets no refused write completes.
   */
  lemma RunInRangeCompletes(env: Env, w: Window, accounts: seq<Account>, tables: Tables, m: nat, k: nat, e: nat)
    requires RunInRange(env, w, accounts, m, k, e) && m + k + NUMERIC_SCALE <= NUMERIC_PRECISION
    requires NoneRefused(env, RunWrites(env, accounts)) && FreshUids(env, RunWrites(env, accounts), tables)
    requires EachOnce(env, accounts)
    ensures Completes(env, w, accounts, tables)
  {
    hide *;
    RunInRangeIsOk(env, w, accounts, m, k, e);
    FreshUidsCompleteExactlyWhenOk(env, w, accounts, tables);
  }

  // ---------- The rows are exact sums, rounded once ----------

  /** In range the row of an account is the stored form of the exact sum of all its products. */
  lemma AccountRowInRange(env: Env, w: Window, accounts: seq<Account>, tables: Tables, i: nat, m: nat, k: nat, e: nat)
    requires Completes(env, w, accounts, tables) && DistinctAccounts(accounts)
    requires i < |accounts| && InRange(env, w, OrdersOf(env, accounts[i]), m, k, e)
    ensures var sum := Finite(ExactTotal(AccountProducts(env, w, OrdersOf(env, accounts[i]))));
            && StoredForm(sum).Some?
            && Key(accounts[i].id, w) in RowsAfter(env, w, accounts, tables).accounts
            && RowsAfter(env, w, accounts, tables).accounts[Key(accounts[i].id, w)] == StoredForm(sum).value
  {
    hide StoredForm, TotalOf, AccountSpends, Completes, RowsAfter, InRange, ExactTotal, AccountProducts, DistinctAccounts,
      OrdersOf, AllFit, PartialSumsFit, CheckedTotal;
    var orders := OrdersOf(env, accounts[i]);
    AccountRow(env, w, accounts, tables, i);
    SpendsInRange(env, w, orders, "", m, k, e);
    PartAddsExactly(env, w, orders, AccountProducts(env, w, orders), m, k, e);
  }

  /** And the row of a project that of the exact sum over its orders under the last listed account that has some. */
  lemma ProjectRowInRange(env: Env, w: Window, accounts: seq<Account>, tables: Tables, i: nat, id: Id,
                          m: nat, k: nat, e: nat)
    requires Completes(env, w, accounts, tables)
    requires i < |accounts| && InRange(env, w, OrdersOf(env, accounts[i]), m, k, e)
    requires ListsProject(OrdersOf(env, accounts[i]), id) && ListedLastIn(env, accounts, i, id)
    ensures var sum := Finite(ExactTotal(ProjectProducts(env, w, OrdersOf(env, accounts[i]), id)));
            && StoredForm(sum).Some?
            && Key(id, w) in RowsAfter(env, w, accounts, tables).projects
            && RowsAfter(env, w, accounts, tables).projects[Key(id, w)] == StoredForm(sum).value
  {
    hide StoredForm, TotalOf, ProjectSpends, Completes, RowsAfter, InRange, ExactTotal, AccountProducts, ListsProject,
      OrdersOf, AllFit, PartialSumsFit, CheckedTotal, ProjectProducts;
    var orders := OrdersOf(env, accounts[i]);
    ProjectRow(env, w, accounts, tables, i, id);
    SpendsInRange(env, w, orders, id, m, k, e);
    ProjectProductsAreAmongThem(env, w, orders, id);
    PartAddsExactly(env, w, orders, ProjectProducts(env, w, orders, id), m, k, e);
  }

  // ---------- A run over the stored orders and leases ----------

  /** Over a database no order is listed twice. */
  lemma DatabaseListsOnce(env: Env, db: Database, w: Window, accounts: seq<Account>)
    requires Reads(env, db, w) && DistinctOrders(db.orders) && DistinctAccounts(accounts)
    ensures EachOnce(env, accounts)
  {
    hide EachOnce, OrdersFor;
    forall i | 0 <= i < |accounts| ensures DistinctOrders(OrdersOf(env, accounts[i])) {
      OrdersAreDistinct(db.orders, accounts[i].id);
    }
    forall i, j, k, n | 0 <= i < j < |accounts| && 0 <= k < |OrdersOf(env, accounts[i])| &&
                        0 <= n < |OrdersOf(env, accounts[j])|
      ensures OrdersOf(env, accounts[i])[k].id != OrdersOf(env, accounts[j])[n].id
    {
      OrdersForIsTheSelection(db.orders, accounts[i].id);
      OrdersForIsTheSelection(db.orders, accounts[j].id);
      var a, b := OrdersFor(db.orders, accounts[i].id)[k], OrdersFor(db.orders, accounts[j].id)[n];
      assert a in OrdersFor(db.orders, accounts[i].id) && b in OrdersFor(db.orders, accounts[j].id);
      if a.id == b.id {
        SameIdSameOrder(db.orders, a, b);
      }
    }
    DistinctRunsOnce(env, accounts);
  }

  /**
   The whole run in range: over a database, with fresh uids and no refused write, it completes, and the row of every
   account is the sum of hours times price over all leases of all its orders, rounded once, to the nearest 10^-18.
   */
  lemma RunOverDatabase(env: Env, db: Database, w: Window, accounts: seq<Account>, tables: Tables, m: nat, k: nat, e: nat)
    requires Reads(env, db, w) && DistinctOrders(db.orders) && DistinctAccounts(accounts)
    requires RunInRange(env, w, accounts, m, k, e) && m + k + NUMERIC_SCALE <= NUMERIC_PRECISION
    requires NoneRefused(env, RunWrites(env, accounts)) && FreshUids(env, RunWrites(env, accounts), tables)
    ensures Completes(env, w, accounts, tables)
    ensures forall i :: 0 <= i < |accounts| ==>
                          RowIsSum(env, db, w, RowsAfter(env, w, accounts, tables).accounts, accounts[i].id)
  {
    hide InRange, NoneRefused, FreshUids, RunWrites, EachOnce, Completes, RowsAfter, DistinctOrders, DistinctAccounts,
      RowIsSum;
    DatabaseListsOnce(env, db, w, accounts);
    RunInRangeCompletes(env, w, accounts, tables, m, k, e);
    forall i | 0 <= i < |accounts|
      ensures RowIsSum(env, db, w, RowsAfter(env, w, accounts, tables).accounts, accounts[i].id)
    {
      AccountRowIsExact(env, db, w, accounts, tables, i, m, k, e);
    }
  }

  /** The row holds the nearest whole number of 10^-18 to the sum of hours times price of the account's leases. */
  ghost predicate RowIsSum(env: Env, db: Database, w: Window, rows: map<Key, int>, accountId: Id) {
    && Key(accountId, w) in rows
    && rows[Key(accountId, w)] == HalfUp(AccountSum(env.hours, db.orders, db.leases, accountId, w), StoredUnit())
  }

  lemma AccountRowIsExact(env: Env, db: Database, w: Window, accounts: seq<Account>, tables: Tables, i: nat,
                          m: nat, k: nat, e: nat)
    requires Reads(env, db, w) && DistinctAccounts(accounts) && i < |accounts|
    requires Completes(env, w, accounts, tables) && InRange(env, w, OrdersOf(env, accounts[i]), m, k, e)
    ensures RowIsSum(env, db, w, RowsAfter(env, w, accounts, tables).accounts, accounts[i].id)
  {
    hide Completes, RowsAfter, InRange, StoredForm, ExactTotal, AccountProducts, AccountSpends, TotalUnits, DistinctAccounts,
      AccountSum, HalfUp, OrdersFor;
    var orders := OrdersOf(env, accounts[i]);
    assert orders == OrdersFor(db.orders, accounts[i].id);
    AccountRowInRange(env, w, accounts, tables, i, m, k, e);
    SpendsInRange(env, w, orders, "", m, k, e);
    CompletedAccountSum(env, db, w, accounts, tables, i);
    ListsInUnits(env, w, orders, "");
    ExactTotalUnits(AccountProducts(env, w, orders));
    StoredIsNearest(ExactTotal(AccountProducts(env, w, orders)));
  }

  /** What the column stores is the value rounded half up to a whole number of its units. */
  lemma StoredIsNearest(d: Dec)
    requires d.exp >= ETINY && StoredForm(Finite(d)).Some?
    ensures StoredForm(Finite(d)).value == HalfUp(Units(d), StoredUnit())
  {
    if d.exp >= -NUMERIC_SCALE {
      UnitsScale(d.coeff, d.exp + NUMERIC_SCALE, -NUMERIC_SCALE);
      var n := d.coeff * Pow10(d.exp + NUMERIC_SCALE);
      hide Pow10, HalfUp;
      assert Units(d) == n * StoredUnit();
      HalfUpOfMultiple(n, StoredUnit());
    } else {
      hide Pow10, HalfUp;
      var shift := d.exp - ETINY;
      Pow10Add(-NUMERIC_SCALE - d.exp, shift);
      HalfUpScaled(d.coeff, Pow10(-NUMERIC_SCALE - d.exp), Pow10(shift));
    }
  }

  // ---------- Any amounts, as long as no digit is lost ----------

  /** A total whose every exact partial sum is a value the context keeps is stored as the exact sum, rounded once. */
  lemma KeptTotalIsStored(ys: seq<Dec>)
    requires InUnits(ys) && KeptAllAlong(ys) && StoredForm(TotalOf(ys)).Some?
    ensures StoredForm(TotalOf(ys)).value == HalfUp(TotalUnits(ys), StoredUnit())
  {
    hide StoredForm, Accumulate, TotalUnits, Units, Kept, HalfUp;
    AccumulateIsExactExactlyWhen(ys);
    StoredIsNearest(TotalOf(ys).dec);
  }

  /** The row of an account is the exact sum, rounded once, if no partial sum of its leases has a digit to lose. */
  lemma AccountRowWhenKept(env: Env, w: Window, accounts: seq<Account>, tables: Tables, i: nat)
    requires Completes(env, w, accounts, tables) && DistinctAccounts(accounts) && i < |accounts|
    requires var ys := AccountSpends(env, w, OrdersOf(env, accounts[i])); InUnits(ys) && KeptAllAlong(ys)
    ensures Key(accounts[i].id, w) in RowsAfter(env, w, accounts, tables).accounts
    ensures RowsAfter(env, w, accounts, tables).accounts[Key(accounts[i].id, w)] ==
            HalfUp(AccountTotal(env, w, OrdersOf(env, accounts[i])), StoredUnit())
  {
    hide StoredForm, TotalOf, AccountSpends, Completes, RowsAfter, OrdersOf, KeptAllAlong, HalfUp, TotalUnits,
      DistinctAccounts, InUnits;
    AccountRow(env, w, accounts, tables, i);
    KeptTotalIsStored(AccountSpends(env, w, OrdersOf(env, accounts[i])));
  }

  /** The same for a project under the last listed account that has orders of it. */
  lemma ProjectRowWhenKept(env: Env, w: Window, accounts: seq<Account>, tables: Tables, i: nat, id: Id)
    requires Completes(env, w, accounts, tables) && i < |accounts|
    requires ListsProject(OrdersOf(env, accounts[i]), id) && ListedLastIn(env, accounts, i, id)
    requires var ys := ProjectSpends(env, w, OrdersOf(env, accounts[i]), id); InUnits(ys) && KeptAllAlong(ys)
    ensures Key(id, w) in RowsAfter(env, w, accounts, tables).projects
    ensures RowsAfter(env, w, accounts, tables).projects[Key(id, w)] ==
            HalfUp(ProjectTotal(env, w, OrdersOf(env, accounts[i]), id), StoredUnit())
  {
    hide StoredForm, TotalOf, ProjectSpends, Completes, RowsAfter, OrdersOf, KeptAllAlong, HalfUp, TotalUnits,
      ListsProject, InUnits;
    ProjectRow(env, w, accounts, tables, i, id);
    KeptTotalIsStored(ProjectSpends(env, w, OrdersOf(env, accounts[i]), id));
  }
}
