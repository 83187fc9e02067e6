/**
 How far the rows of a completed run are from each other: an account's row from the rows of its projects added up,
 and a project's row from the rows of its orders added up. Each row is rounded to 10^-18 on its own, and outside the
 range in which additions are exact the totals carry silent rounding too.
 */
module BillingSkew {
  import opened Powers
  import opened Wrappers
  import opened Decimals
  import opened Leases
  import opened LeaseTable
  import opened SpendStore
  import opened BillingRun
  import opened BillingRows
  import opened BillingLaws
  import opened BillingAccuracy
  import opened BillingProducts
  import opened BillingConservation

  // ---------- An account and its projects ----------

  function StoredProjects(env: Env, w: Window, orders: seq<Order>, ids: seq<Id>): seq<int> {
    seq(|ids|, i requires 0 <= i < |ids| => Stored(TotalOf(ProjectSpends(env, w, orders, ids[i]))))
  }

  function ProjectBounds(env: Env, w: Window, orders: seq<Order>, ids: seq<Id>): seq<int> {
    seq(|ids|, i requires 0 <= i < |ids| => |ProjectSpends(env, w, orders, ids[i])| + 1)
  }

  /**
   Whatever the amounts: in an account whose orders were all billed, the stored form of the account's total differs
   from the sum of those of its projects by at most (2n + p + 1) / 2 units of 10^-18, for n leases in p projects.
   */
  lemma AccountSkew(env: Env, w: Window, orders: seq<Order>)
    requires w.Valid() && HoursContract(env.hours) && SoundOrders(env, w, orders)
    requires OrdersOk(env, w, orders)
    requires StoredForm(TotalOf(AccountSpends(env, w, orders))).Some?
    ensures var ids := ProjectsOf(orders);
            2 * Abs(Stored(TotalOf(AccountSpends(env, w, orders))) - Sum(StoredProjects(env, w, orders, ids)))
            <= 2 * |AccountSpends(env, w, orders)| + |ids| + 1
  {
    hide StoredForm, Stored, TotalOf, HoursContract, SoundOrders, StoredUnit, ProjectSpends, AccountSpends, TotalUnits, OrdersOk,
      Sum, ProjectTotal, AccountTotal, ProjectsOf, ListsProject;
    var ids := ProjectsOf(orders);
    var unit := StoredUnit();
    var rounded := StoredProjects(env, w, orders, ids);
    var exact := ProjectTotals(env, w, orders, ids);
    var bounds := ProjectBounds(env, w, orders, ids);
    ProjectsOfOnce(orders);
    forall i | 0 <= i < |ids| ensures 2 * Abs(rounded[i] * unit - exact[i]) <= bounds[i] * unit {
      ProjectTotalStorable(env, w, orders, ids[i]);
      ProjectRowError(env, w, orders, ids[i]);
    }
    SumError(rounded, exact, bounds, unit);
    ExactConservation(env, w, orders);
    AccountRowError(env, w, orders);
    CountLeases(env, w, orders);
    Triangle(Stored(TotalOf(AccountSpends(env, w, orders))), Sum(rounded), AccountTotal(env, w, orders),
             |AccountSpends(env, w, orders)| + 1, Sum(bounds), unit);
  }

  lemma ProjectRowError(env: Env, w: Window, orders: seq<Order>, id: Id)
    requires w.Valid() && HoursContract(env.hours) && SoundOrders(env, w, orders)
    requires StoredForm(TotalOf(ProjectSpends(env, w, orders, id))).Some?
    ensures 2 * Abs(Stored(TotalOf(ProjectSpends(env, w, orders, id))) * StoredUnit() - ProjectTotal(env, w, orders, id))
            <= (|ProjectSpends(env, w, orders, id)| + 1) * StoredUnit()
  {
    hide StoredForm, TotalOf, HoursContract, SoundOrders, ProjectSpends, TotalUnits, StoredUnit, AllFit, NonNegative;
    SoundAccountNonNegative(env, w, orders, id);
    StoredTotalError(ProjectSpends(env, w, orders, id));
  }

  lemma AccountRowError(env: Env, w: Window, orders: seq<Order>)
    requires w.Valid() && HoursContract(env.hours) && SoundOrders(env, w, orders)
    requires StoredForm(TotalOf(AccountSpends(env, w, orders))).Some?
    ensures 2 * Abs(Stored(TotalOf(AccountSpends(env, w, orders))) * StoredUnit() - AccountTotal(env, w, orders))
            <= (|AccountSpends(env, w, orders)| + 1) * StoredUnit()
  {
    hide StoredForm, TotalOf, HoursContract, SoundOrders, AccountSpends, TotalUnits, StoredUnit, AllFit, NonNegative;
    SoundAccountNonNegative(env, w, orders, "");
    StoredTotalError(AccountSpends(env, w, orders));
  }

  /** Two rounded amounts near the same exact one are near each other. */
  lemma Triangle(a: int, b: int, exact: int, boundA: int, boundB: int, unit: nat)
    requires unit >= 1
    requires 2 * Abs(a * unit - exact) <= boundA * unit
    requires 2 * Abs(b * unit - exact) <= boundB * unit
    ensures 2 * Abs(a - b) <= boundA + boundB
  {
    DistributeMinus(a, b, unit);
    DistributePlus(boundA, boundB, unit);
    CancelUnit(a - b, boundA + boundB, unit);
  }

  /** Every lease of an account is in exactly one of its projects. */
  lemma {:induction false} CountLeases(env: Env, w: Window, orders: seq<Order>)
    ensures Sum(ProjectBounds(env, w, orders, ProjectsOf(orders))) ==
            |AccountSpends(env, w, orders)| + |ProjectsOf(orders)|
  {
    hide SpendsOf, Sum, ListsProject;
    if |orders| == 0 {
      assert ProjectBounds(env, w, orders, ProjectsOf(orders)) == [];
      EmptySum();
    } else {
      var front, o := orders[..|orders| - 1], orders[|orders| - 1];
      var id := o.projectId;
      var ids := ProjectsOf(front);
      var before := ProjectBounds(env, w, front, ids);
      CountLeases(env, w, front);
      ProjectsOfOnce(front);
      if id in ids {
        var i :| 0 <= i < |ids| && ids[i] == id;
        assert ProjectBounds(env, w, orders, ids) == before[i := before[i] + |SpendsOf(env, w, o)|];
        SumUpdate(before, i, before[i] + |SpendsOf(env, w, o)|);
      } else {
        UnlistedProjectIsEmpty(env, w, front, id);
        assert ProjectBounds(env, w, orders, ids + [id]) == before + [|SpendsOf(env, w, o)| + 1];
        SumAppend(before, |SpendsOf(env, w, o)| + 1);
      }
    }
  }

  lemma EmptySum()
    ensures Sum([]) == 0
  {}

  /** In range the skew shrinks to half a unit per row: at most (p + 1) / 2 units of 10^-18 for p projects. */
  lemma AccountSkewInRange(env: Env, w: Window, orders: seq<Order>, m: nat, k: nat, e: nat)
    requires InRange(env, w, orders, m, k, e)
    requires OrdersOk(env, w, orders)
    requires StoredForm(TotalOf(AccountSpends(env, w, orders))).Some?
    ensures var ids := ProjectsOf(orders);
            2 * Abs(Stored(TotalOf(AccountSpends(env, w, orders))) - Sum(StoredProjects(env, w, orders, ids))) <= |ids| + 1
  {
    hide StoredForm, Stored, TotalOf, InRange, StoredUnit, ProjectSpends, AccountSpends, TotalUnits, OrdersOk, InMemoryUnits,
      AccountTotal, ProjectTotal, Sum, ProjectsOf, ListsProject, CheckedTotal, SpendsOf;
    var ids := ProjectsOf(orders);
    var unit := StoredUnit();
    var rounded := StoredProjects(env, w, orders, ids);
    var exact := ProjectTotals(env, w, orders, ids);
    var bounds := seq(|ids|, i => 1);
    ConservationInMemory(env, w, orders, m, k, e);
    ProjectsOfOnce(orders);
    forall i | 0 <= i < |ids| ensures 2 * Abs(rounded[i] * unit - exact[i]) <= bounds[i] * unit {
      ProjectTotalStorable(env, w, orders, ids[i]);
      StoredInMemoryError(TotalOf(ProjectSpends(env, w, orders, ids[i])));
    }
    SumError(rounded, exact, bounds, unit);
    SumOfOnes(|ids|);
    StoredInMemoryError(TotalOf(AccountSpends(env, w, orders)));
    Triangle(Stored(TotalOf(AccountSpends(env, w, orders))), Sum(rounded), AccountTotal(env, w, orders), 1, Sum(bounds), unit);
  }

  lemma StoredInMemoryError(d: Decimal)
    requires InMemoryUnits(d).Some? && StoredForm(d).Some?
    ensures 2 * Abs(Stored(d) * StoredUnit() - InMemoryUnits(d).value) <= 1 * StoredUnit()
  {
    StoredFormError(d.dec);
  }

  lemma {:induction false} SumOfOnes(n: nat)
    ensures Sum(seq(n, i => 1)) == n
  {
    if n > 0 {
      assert seq(n, i => 1)[..n - 1] == seq(n - 1, i => 1);
      SumOfOnes(n - 1);
    }
  }

  // ---------- A project and its orders ----------

  function OrdersOfProject(orders: seq<Order>, id: Id): seq<Order> {
    if |orders| == 0 then []
    else
      var before := OrdersOfProject(orders[..|orders| - 1], id);
      if orders[|orders| - 1].projectId == id then before + [orders[|orders| - 1]] else before
  }

  lemma {:induction false} ProjectSpendsByOrder(env: Env, w: Window, orders: seq<Order>, id: Id)
    ensures ProjectSpends(env, w, orders, id) == AccountSpends(env, w, OrdersOfProject(orders, id))
    ensures forall o :: o in OrdersOfProject(orders, id) ==> o in orders
  {
    hide SpendsOf;
    if |orders| > 0 {
      var front, o := orders[..|orders| - 1], orders[|orders| - 1];
      ProjectSpendsByOrder(env, w, front, id);
      var before := OrdersOfProject(front, id);
      assert (before + [o])[..|before|] == before;
    }
  }

  function StoredOrders(env: Env, w: Window, orders: seq<Order>): seq<int> {
    seq(|orders|, i requires 0 <= i < |orders| => Stored(TotalOf(SpendsOf(env, w, orders[i]))))
  }

  /** An order's total is checked, so storing it is the only rounding. */
  lemma StoredOrderError(env: Env, w: Window, orders: seq<Order>, o: Order)
    requires OrdersOk(env, w, orders) && o in orders
    ensures 2 * Abs(Stored(TotalOf(SpendsOf(env, w, o))) * StoredUnit() - OrderTotal(env, w, o)) <= 1 * StoredUnit()
  {
    hide OrdersOk, StoredForm, OrderSpends, CheckedTotal, ExactTotal, Accumulate, TotalUnits, StoredUnit;
    var k :| 0 <= k < |orders| && orders[k] == o;
    OrderIsOk(env, w, orders, k);
    SpendsAreChecked(env, o, w);
    CheckedTotalIsExact(SpendsOf(env, w, o));
    StoredExactError(SpendsOf(env, w, o));
  }

  /** The stored orders of a project add up to within half a unit each of the project's exact total. */
  lemma StoredOrdersError(env: Env, w: Window, orders: seq<Order>, id: Id)
    requires OrdersOk(env, w, orders)
    ensures var some := OrdersOfProject(orders, id);
            2 * Abs(Sum(StoredOrders(env, w, some)) * StoredUnit() - ProjectTotal(env, w, orders, id)) <= |some| * StoredUnit()
  {
    hide OrdersOk, Stored, TotalOf, SpendsOf, TotalUnits, StoredUnit, Sum, OrderTotal, ProjectSpends, AccountSpends;
    var some := OrdersOfProject(orders, id);
    var rounded, exact := StoredOrders(env, w, some), OrderTotals(env, w, some);
    var bounds := seq(|some|, i => 1);
    ProjectSpendsByOrder(env, w, orders, id);
    forall i | 0 <= i < |some| ensures 2 * Abs(rounded[i] * StoredUnit() - exact[i]) <= bounds[i] * StoredUnit() {
      assert some[i] in some;
      StoredOrderError(env, w, orders, some[i]);
    }
    SumError(rounded, exact, bounds, StoredUnit());
    SumOfOnes(|some|);
    ExactConservation(env, w, some);
  }

  /** The same for a project and its q orders: at most (n + q + 1) / 2 units of 10^-18, for n leases. */
  lemma ProjectSkew(env: Env, w: Window, orders: seq<Order>, id: Id)
    requires w.Valid() && HoursContract(env.hours) && SoundOrders(env, w, orders)
    requires OrdersOk(env, w, orders)
    requires StoredForm(TotalOf(ProjectSpends(env, w, orders, id))).Some?
    ensures var some := OrdersOfProject(orders, id);
            2 * Abs(Stored(TotalOf(ProjectSpends(env, w, orders, id))) - Sum(StoredOrders(env, w, some)))
            <= |ProjectSpends(env, w, orders, id)| + |some| + 1
  {
    hide StoredForm, Stored, TotalOf, HoursContract, SoundOrders, StoredUnit, ProjectSpends, OrdersOk, Sum, ProjectTotal,
      OrdersOfProject;
    var some := OrdersOfProject(orders, id);
    ProjectRowError(env, w, orders, id);
    StoredOrdersError(env, w, orders, id);
    Triangle(Stored(TotalOf(ProjectSpends(env, w, orders, id))), Sum(StoredOrders(env, w, some)),
             ProjectTotal(env, w, orders, id), |ProjectSpends(env, w, orders, id)| + 1, |some|, StoredUnit());
  }

  /** And in range at most (q + 1) / 2 units. */
  lemma ProjectSkewInRange(env: Env, w: Window, orders: seq<Order>, id: Id, m: nat, k: nat, e: nat)
    requires InRange(env, w, orders, m, k, e)
    requires OrdersOk(env, w, orders)
    requires StoredForm(TotalOf(ProjectSpends(env, w, orders, id))).Some?
    ensures var some := OrdersOfProject(orders, id);
            2 * Abs(Stored(TotalOf(ProjectSpends(env, w, orders, id))) - Sum(StoredOrders(env, w, some))) <= |some| + 1
  {
    hide StoredForm, Stored, TotalOf, InRange, StoredUnit, ProjectSpends, AccountSpends, OrdersOk, Sum, ProjectTotal,
      AccountTotal, OrdersOfProject, InMemoryUnits, ProjectsOf, CheckedTotal, OrderSpends;
    var some := OrdersOfProject(orders, id);
    ConservationInMemory(env, w, orders, m, k, e);
    StoredInMemoryError(TotalOf(ProjectSpends(env, w, orders, id)));
    StoredOrdersError(env, w, orders, id);
    Triangle(Stored(TotalOf(ProjectSpends(env, w, orders, id))), Sum(StoredOrders(env, w, some)),
             ProjectTotal(env, w, orders, id), 1, |some|, StoredUnit());
  }

  // ---------- The rows of a completed run ----------

  /** The amounts of some rows of a window. */
  function Amounts(rows: map<Key, int>, ids: seq<Id>, w: Window): seq<int> {
    seq(|ids|, i requires 0 <= i < |ids| => if Key(ids[i], w) in rows then rows[Key(ids[i], w)] else 0)
  }

  function OrderIds(orders: seq<Order>): seq<Id> {
    seq(|orders|, i requires 0 <= i < |orders| => orders[i].id)
  }

  /** No account listed later has orders of this project. */
  ghost predicate ListedLastIn(env: Env, accounts: seq<Account>, i: nat, id: Id)
    requires i < |accounts|
  {
    forall j :: i < j < |accounts| ==> !ListsProject(OrdersOf(env, accounts[j]), id)
  }

  ghost predicate OwnProjects(env: Env, accounts: seq<Account>, i: nat)
    requires i < |accounts|
  {
    forall id :: ListsProject(OrdersOf(env, accounts[i]), id) ==> ListedLastIn(env, accounts, i, id)
  }

  ghost predicate OwnOrders(env: Env, accounts: seq<Account>, i: nat)
    requires i < |accounts|
  {
    forall k :: 0 <= k < |OrdersOf(env, accounts[i])| ==> ListedOnce(env, accounts, i, k)
  }

  lemma CompletedOrdersOk(env: Env, w: Window, accounts: seq<Account>, tables: Tables, i: nat)
    requires Completes(env, w, accounts, tables) && i < |accounts|
    ensures OrdersOk(env, w, OrdersOf(env, accounts[i]))
  {
    hide BillAccounts, OrdersOk, RunRows;
    CompletedRunOverlaysItsRows(env, w, accounts, tables);
    assert AccountOk(env, w, accounts[i]);
  }

  lemma ProjectAmounts(env: Env, w: Window, accounts: seq<Account>, tables: Tables, i: nat)
    requires Completes(env, w, accounts, tables) && i < |accounts| && OwnProjects(env, accounts, i)
    ensures var orders := OrdersOf(env, accounts[i]);
            Amounts(RowsAfter(env, w, accounts, tables).projects, ProjectsOf(orders), w) ==
            StoredProjects(env, w, orders, ProjectsOf(orders))
  {
    hide Completes, RowsAfter, StoredForm, TotalOf, ProjectSpends, ProjectsOf, ListsProject, OrdersOf;
    var orders := OrdersOf(env, accounts[i]);
    var ids := ProjectsOf(orders);
    ProjectsOfOnce(orders);
    forall n | 0 <= n < |ids|
      ensures Key(ids[n], w) in RowsAfter(env, w, accounts, tables).projects
      ensures RowsAfter(env, w, accounts, tables).projects[Key(ids[n], w)] ==
              Stored(TotalOf(ProjectSpends(env, w, orders, ids[n])))
    {
      assert ids[n] in ids;
      ProjectRow(env, w, accounts, tables, i, ids[n]);
    }
  }

  lemma OrderAmount(env: Env, w: Window, accounts: seq<Account>, tables: Tables, i: nat, o: Order)
    requires Completes(env, w, accounts, tables) && i < |accounts| && OwnOrders(env, accounts, i)
    requires o in OrdersOf(env, accounts[i])
    ensures var rows := RowsAfter(env, w, accounts, tables).orders;
            Key(o.id, w) in rows && rows[Key(o.id, w)] == Stored(TotalOf(SpendsOf(env, w, o)))
  {
    hide Completes, RowsAfter, StoredForm, Accumulate, CheckedTotal, ExactTotal, OrderSpends, ListedOnce, OrdersOf;
    var orders := OrdersOf(env, accounts[i]);
    var k :| 0 <= k < |orders| && orders[k] == o;
    OrderRow(env, w, accounts, tables, i, k);
    SpendsAreChecked(env, o, w);
    CheckedTotalIsExact(SpendsOf(env, w, o));
  }

  lemma OrderAmounts(env: Env, w: Window, accounts: seq<Account>, tables: Tables, i: nat, id: Id)
    requires Completes(env, w, accounts, tables) && i < |accounts| && OwnOrders(env, accounts, i)
    ensures var some := OrdersOfProject(OrdersOf(env, accounts[i]), id);
            Amounts(RowsAfter(env, w, accounts, tables).orders, OrderIds(some), w) == StoredOrders(env, w, some)
  {
    hide Completes, RowsAfter, Stored, TotalOf, SpendsOf, OwnOrders, OrdersOf, OrdersOfProject;
    var orders := OrdersOf(env, accounts[i]);
    var some := OrdersOfProject(orders, id);
    ProjectSpendsByOrder(env, w, orders, id);
    forall n | 0 <= n < |some|
      ensures Key(some[n].id, w) in RowsAfter(env, w, accounts, tables).orders
      ensures RowsAfter(env, w, accounts, tables).orders[Key(some[n].id, w)] == Stored(TotalOf(SpendsOf(env, w, some[n])))
    {
      assert some[n] in some;
      OrderAmount(env, w, accounts, tables, i, some[n]);
    }
  }

  /**
   After a completed run the row of an account whose projects are billed last under it differs from the rows of its p
   projects added up by at most (2n + p + 1) / 2 units of 10^-18, for n leases, whatever the amounts.
   */
  lemma StoredSkew(env: Env, w: Window, accounts: seq<Account>, tables: Tables, i: nat)
    requires w.Valid() && HoursContract(env.hours)
    requires Completes(env, w, accounts, tables) && DistinctAccounts(accounts)
    requires i < |accounts| && SoundOrders(env, w, OrdersOf(env, accounts[i])) && OwnProjects(env, accounts, i)
    ensures var rows, orders := RowsAfter(env, w, accounts, tables), OrdersOf(env, accounts[i]);
            && Key(accounts[i].id, w) in rows.accounts
            && 2 * Abs(rows.accounts[Key(accounts[i].id, w)] - Sum(Amounts(rows.projects, ProjectsOf(orders), w)))
               <= 2 * |AccountSpends(env, w, orders)| + |ProjectsOf(orders)| + 1
  {
    hide Completes, RowsAfter, StoredForm, TotalOf, AccountSpends, ProjectsOf, OrdersOf, HoursContract, SoundOrders,
      DistinctAccounts, OwnProjects, OrdersOk, Amounts, StoredProjects, Sum;
    AccountRow(env, w, accounts, tables, i);
    CompletedOrdersOk(env, w, accounts, tables, i);
    ProjectAmounts(env, w, accounts, tables, i);
    AccountSkew(env, w, OrdersOf(env, accounts[i]));
  }

  /** In range the difference is at most (p + 1) / 2 units. */
  lemma StoredSkewInRange(env: Env, w: Window, accounts: seq<Account>, tables: Tables, i: nat, m: nat, k: nat, e: nat)
    requires Completes(env, w, accounts, tables) && DistinctAccounts(accounts)
    requires i < |accounts| && InRange(env, w, OrdersOf(env, accounts[i]), m, k, e) && OwnProjects(env, accounts, i)
    ensures var rows, orders := RowsAfter(env, w, accounts, tables), OrdersOf(env, accounts[i]);
            && Key(accounts[i].id, w) in rows.accounts
            && 2 * Abs(rows.accounts[Key(accounts[i].id, w)] - Sum(Amounts(rows.projects, ProjectsOf(orders), w)))
               <= |ProjectsOf(orders)| + 1
  {
    hide Completes, RowsAfter, StoredForm, TotalOf, AccountSpends, ProjectsOf, OrdersOf, InRange,
      DistinctAccounts, OwnProjects, OrdersOk, Amounts, StoredProjects, Sum;
    AccountRow(env, w, accounts, tables, i);
    CompletedOrdersOk(env, w, accounts, tables, i);
    ProjectAmounts(env, w, accounts, tables, i);
    AccountSkewInRange(env, w, OrdersOf(env, accounts[i]), m, k, e);
  }

  /**
   The row of a project differs from the rows of its q orders under the last listed account that has some, added up,
   by at most (n + q + 1) / 2 units of 10^-18, for n leases, whatever the amounts.
   */
  lemma StoredProjectSkew(env: Env, w: Window, accounts: seq<Account>, tables: Tables, i: nat, id: Id)
    requires w.Valid() && HoursContract(env.hours)
    requires Completes(env, w, accounts, tables)
    requires i < |accounts| && SoundOrders(env, w, OrdersOf(env, accounts[i])) && OwnOrders(env, accounts, i)
    requires ListsProject(OrdersOf(env, accounts[i]), id) && ListedLastIn(env, accounts, i, id)
    ensures var rows, some := RowsAfter(env, w, accounts, tables), OrdersOfProject(OrdersOf(env, accounts[i]), id);
            && Key(id, w) in rows.projects
            && 2 * Abs(rows.projects[Key(id, w)] - Sum(Amounts(rows.orders, OrderIds(some), w)))
               <= |ProjectSpends(env, w, OrdersOf(env, accounts[i]), id)| + |some| + 1
  {
    hide Completes, RowsAfter, StoredForm, TotalOf, ProjectSpends, OrdersOf, HoursContract, SoundOrders,
      OwnOrders, OrdersOk, Amounts, StoredOrders, OrderIds, OrdersOfProject, Sum, ListsProject;
    ProjectRow(env, w, accounts, tables, i, id);
    CompletedOrdersOk(env, w, accounts, tables, i);
    OrderAmounts(env, w, accounts, tables, i, id);
    ProjectSkew(env, w, OrdersOf(env, accounts[i]), id);
  }

  /** In range the difference is at most (q + 1) / 2 units. */
  lemma StoredProjectSkewInRange(env: Env, w: Window, accounts: seq<Account>, tables: Tables, i: nat, id: Id,
                                 m: nat, k: nat, e: nat)
    requires Completes(env, w, accounts, tables)
    requires i < |accounts| && InRange(env, w, OrdersOf(env, accounts[i]), m, k, e) && OwnOrders(env, accounts, i)
    requires ListsProject(OrdersOf(env, accounts[i]), id) && ListedLastIn(env, accounts, i, id)
    ensures var rows, some := RowsAfter(env, w, accounts, tables), OrdersOfProject(OrdersOf(env, accounts[i]), id);
            && Key(id, w) in rows.projects
            && 2 * Abs(rows.projects[Key(id, w)] - Sum(Amounts(rows.orders, OrderIds(some), w))) <= |some| + 1
  {
    hide Completes, RowsAfter, StoredForm, TotalOf, ProjectSpends, OrdersOf, InRange,
      OwnOrders, OrdersOk, Amounts, StoredOrders, OrderIds, OrdersOfProject, Sum, ListsProject;
    ProjectRow(env, w, accounts, tables, i, id);
    CompletedOrdersOk(env, w, accounts, tables, i);
    OrderAmounts(env, w, accounts, tables, i, id);
    ProjectSkewInRange(env, w, OrdersOf(env, accounts[i]), id, m, k, e);
  }
}
