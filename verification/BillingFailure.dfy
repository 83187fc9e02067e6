/**
 What a run that fails leaves behind: the rows of a prefix of its work. There is no transaction around a run, so
 the rows written before the error stay.
 */
module BillingFailure {
  import opened Wrappers
  import opened Decimals
  import opened Leases
  import opened LeaseTable
  import opened SpendStore
  import opened BillingRun
  import opened BillingRows
  import opened BillingLaws
  import opened BillingProducts
  import opened BillingOutcome

  /** The rows of the accounts before `i` and of this account's orders before `j`, over what was there. */
  function PrefixRows(env: Env, w: Window, accounts: seq<Account>, tables: Tables, i: nat, j: nat): Spends
    requires i < |accounts| && j <= |OrdersOf(env, accounts[i])|
  {
    Overlay(Overlay(SpendOf(tables), RunRows(env, w, accounts[..i])), OrderRows(env, w, OrdersOf(env, accounts[i])[..j]))
  }

  /** The run stopped in order `j` of account `i`, and only the row of the order's project could not be written. */
  predicate OnlyProjectFails(env: Env, w: Window, accounts: seq<Account>, tables: Tables, i: nat, j: nat) {
    && i < |accounts| && j < |OrdersOf(env, accounts[i])|
    && var orders, base := OrdersOf(env, accounts[i]), RunTables(env, w, accounts[..i], tables);
       OrderRowOk(env, w, orders[..j + 1], OrdersTables(env, w, orders[..j], base))
  }

  lemma StopRows(env: Env, w: Window, a: Account, base: Tables, j: nat)
    requires StopsInAccount(env, w, a, base, j)
    ensures j <= |OrdersOf(env, a)| && OrdersOk(env, w, OrdersOf(env, a)[..j])
    ensures var orders := OrdersOf(env, a);
            var done := Overlay(SpendOf(base), OrderRows(env, w, orders[..j]));
            SpendOf(AccountStop(env, w, a, base, j).tables) ==
            if j < |orders| && OrderRowOk(env, w, orders[..j + 1], OrdersTables(env, w, orders[..j], base)) then
              done.(orders := done.orders[Key(orders[j].id, w) := Stored(TotalOf(SpendsOf(env, w, orders[j])))])
            else done
  {
    hide OrdersTables, OrdersBilled, OrdersOk, OrderRows, AccountRowOk, ProjectRowOk, Stored, TotalOf, SpendsOf, Accepts,
      OrderSpends;
    var orders := OrdersOf(env, a);
    OrdersTablesRows(env, w, orders[..j], base);
    assert orders[..|orders|] == orders;
    if env.ordersOf(a.id).None? {
      NothingBilled(env, w, base);
    } else if j < |orders| {
      assert orders[..j + 1][..j] == orders[..j] && orders[..j + 1][j] == orders[j];
    }
  }

  lemma NothingBilled(env: Env, w: Window, t: Tables)
    ensures OrdersBilled(env, w, [], t) && OrdersTables(env, w, [], t) == t
  {}

  /**
   A run fails exactly when something goes wrong in some account after some of its orders, and that place is unique.
   Then every account before it has all its rows and every order of this account before it has its own and its project's
   total so far; the order it stopped in has its own row exactly if only its project's could not be written; and nothing
   else changes.
   */
  lemma FailedRunLeavesAPrefix(env: Env, w: Window, accounts: seq<Account>, tables: Tables, i: nat, j: nat)
    requires StopsInRun(env, w, accounts, tables, i, j)
    ensures var run := BillAccounts(env, w, accounts, tables);
            && run.error == AccountStop(env, w, accounts[i], RunTables(env, w, accounts[..i], tables), j).error
            && run.error.Some?
            && SpendOf(run.tables) ==
               var done := PrefixRows(env, w, accounts, tables, i, j);
               if OnlyProjectFails(env, w, accounts, tables, i, j) then
                 var o := OrdersOf(env, accounts[i])[j];
                 done.(orders := done.orders[Key(o.id, w) := Stored(TotalOf(SpendsOf(env, w, o)))])
               else done
    ensures RunOk(env, w, accounts[..i]) && OrdersOk(env, w, OrdersOf(env, accounts[i])[..j])
    ensures forall i2: nat, j2: nat :: StopsInRun(env, w, accounts, tables, i2, j2) ==> i2 == i && j2 == j
  {
    hide BillAccounts, RunTables, RunBilled, StopsInAccount, AccountStop, OrderRowOk, OrdersOk, RunOk, OrderRows, RunRows,
      Stored, TotalOf, SpendsOf, OrdersTables, OrdersOf;
    StoppedRunExactly(env, w, accounts, tables, i, j);
    RunTablesRows(env, w, accounts[..i], tables);
    StopRows(env, w, accounts[i], RunTables(env, w, accounts[..i], tables), j);
    forall i2: nat, j2: nat | StopsInRun(env, w, accounts, tables, i2, j2) ensures i2 == i && j2 == j {
      RunStopsOnce(env, w, accounts, tables, i, j, i2, j2);
    }
  }

  /** In particular, a project of the account it stopped in has the total over the orders already written. */
  lemma ProjectRowAfterFailure(env: Env, w: Window, accounts: seq<Account>, tables: Tables, i: nat, j: nat, id: Id)
    requires StopsInRun(env, w, accounts, tables, i, j) && j <= |OrdersOf(env, accounts[i])|
    requires ListsProject(OrdersOf(env, accounts[i])[..j], id)
    ensures var rows := SpendOf(BillAccounts(env, w, accounts, tables).tables);
            && Key(id, w) in rows.projects
            && rows.projects[Key(id, w)] ==
               Stored(TotalOf(ProjectSpends(env, w, OrdersOf(env, accounts[i])[..j], id)))
  {
    hide BillAccounts, Stored, TotalOf, SpendsOf, RunRows, OrdersOf, OrderRows, ProjectSpends, ListsProject, RunOk, OrdersOk,
      RunTables, RunBilled, StopsInAccount, AccountStop, OnlyProjectFails;
    FailedRunLeavesAPrefix(env, w, accounts, tables, i, j);
    ProjectRowOfAccount(env, w, OrdersOf(env, accounts[i])[..j], id);
  }

  /** No account row of the failing or a later account is touched, and no order row the run did not reach. */
  lemma UnreachedRowsAfterFailure(env: Env, w: Window, accounts: seq<Account>, tables: Tables, i: nat, j: nat, key: Key)
    requires StopsInRun(env, w, accounts, tables, i, j)
    ensures var rows, before := SpendOf(BillAccounts(env, w, accounts, tables).tables), SpendOf(tables);
            && (key !in RunRows(env, w, accounts[..i]).accounts ==>
                  (key in rows.accounts <==> key in before.accounts) &&
                  (key in rows.accounts ==> rows.accounts[key] == before.accounts[key]))
            && (key !in RunRows(env, w, accounts[..i]).orders && !ListsOrder(OrdersOf(env, accounts[i]), key.id) ==>
                  (key in rows.orders <==> key in before.orders) &&
                  (key in rows.orders ==> rows.orders[key] == before.orders[key]))
  {
    hide BillAccounts, Stored, TotalOf, SpendsOf, RunRows, OrdersOf, OrderRows, ListsOrder, RunOk, OrdersOk,
      RunTables, RunBilled, StopsInAccount, AccountStop, OrderRowOk, OrdersTables;
    StoppedRunExactly(env, w, accounts, tables, i, j);
    FailedRunLeavesAPrefix(env, w, accounts, tables, i, j);
    var orders := OrdersOf(env, accounts[i]);
    OrderRowKeys(env, w, orders[..j], key);
    ListsOrderPrefix(orders, j, key.id);
    if j < |orders| && orders[j].id == key.id {
      ListsOrderAt(orders, j);
    }
  }

  lemma ListsOrderPrefix(orders: seq<Order>, j: nat, id: Id)
    requires j <= |orders|
    ensures ListsOrder(orders[..j], id) ==> ListsOrder(orders, id)
  {
    if ListsOrder(orders[..j], id) {
      var k :| 0 <= k < j && orders[..j][k].id == id;
      assert orders[k].id == id;
    }
  }

  lemma ListsOrderAt(orders: seq<Order>, j: nat)
    requires j < |orders|
    ensures ListsOrder(orders, orders[j].id)
  {}

  // ---------- Which lease stops a run ----------

  /** The errors that come from an order's leases. */
  predicate OfLeases(e: Error) {
    e == ListLeasesFailed || e == LeaseSpendFailed || e == OrderSpendFailed
  }

  lemma OrderStopsOnLeases(env: Env, w: Window, o: Order, p: Progress, e: Error)
    requires OfLeases(e)
    ensures BillOrder(env, w, o, p).error == Some(e) <==> OrderSpends(env, o, w) == Err(e)
  {
    hide OrderSpends, WriteRow, Accumulate;
  }

  /** The orders before this one are billed, and this one stops on its leases. */
  ghost predicate StopsAtOrder(env: Env, w: Window, orders: seq<Order>, tables: Tables, j: nat, e: Error) {
    && j < |orders|
    && BillOrders(env, w, orders[..j], Start(tables)).error.None?
    && OrderSpends(env, orders[j], w) == Err(e)
  }

  lemma {:induction false} OrdersStopOnLeases(env: Env, w: Window, orders: seq<Order>, tables: Tables, e: Error)
    requires OfLeases(e)
    ensures BillOrders(env, w, orders, Start(tables)).error == Some(e) <==>
            exists j: nat :: StopsAtOrder(env, w, orders, tables, j, e)
  {
    hide BillOrder, OrderSpends;
    if |orders| > 0 {
      var n := |orders| - 1;
      var front := orders[..n];
      OrdersStopOnLeases(env, w, front, tables, e);
      OrderStopsOnLeases(env, w, orders[n], BillOrders(env, w, front, Start(tables)).progress, e);
      forall j: nat
        ensures StopsAtOrder(env, w, orders, tables, j, e) <==>
                StopsAtOrder(env, w, front, tables, j, e) || (j == n && StopsAtOrder(env, w, orders, tables, n, e))
      {
        if j < n {
          assert front[..j] == orders[..j] && front[j] == orders[j];
        }
      }
      assert StopsAtOrder(env, w, orders, tables, n, e) <==>
             BillOrders(env, w, front, Start(tables)).error.None? && OrderSpends(env, orders[n], w) == Err(e);
    }
  }

  /** The accounts before this one are billed, and so are this account's orders before one that stops on its leases. */
  ghost predicate StopsAt(env: Env, w: Window, accounts: seq<Account>, tables: Tables, i: nat, j: nat, e: Error) {
    && i < |accounts|
    && env.ordersOf(accounts[i].id).Some?
    && Completes(env, w, accounts[..i], tables)
    && StopsAtOrder(env, w, OrdersOf(env, accounts[i]), BillAccounts(env, w, accounts[..i], tables).tables, j, e)
  }

  lemma AccountStopsOnLeases(env: Env, w: Window, a: Account, tables: Tables, e: Error)
    requires OfLeases(e)
    ensures BillAccount(env, w, a, tables).error == Some(e) <==>
            env.ordersOf(a.id).Some? && exists j: nat :: StopsAtOrder(env, w, OrdersOf(env, a), tables, j, e)
  {
    hide BillOrders, WriteRow, StopsAtOrder;
    OrdersStopOnLeases(env, w, OrdersOf(env, a), tables, e);
  }

  /** A run stops with an error of the leases exactly when it reaches an order whose leases give that error. */
  lemma {:induction false} RunStopsOnLeases(env: Env, w: Window, accounts: seq<Account>, tables: Tables, e: Error)
    requires OfLeases(e)
    ensures BillAccounts(env, w, accounts, tables).error == Some(e) <==>
            exists i: nat, j: nat :: StopsAt(env, w, accounts, tables, i, j, e)
  {
    hide BillAccount, StopsAtOrder, OrdersOf;
    if |accounts| > 0 {
      var n := |accounts| - 1;
      var front := accounts[..n];
      RunStopsOnLeases(env, w, front, tables, e);
      AccountStopsOnLeases(env, w, accounts[n], BillAccounts(env, w, front, tables).tables, e);
      forall i: nat, j: nat
        ensures StopsAt(env, w, accounts, tables, i, j, e) <==>
                StopsAt(env, w, front, tables, i, j, e) || (i == n && StopsAt(env, w, accounts, tables, n, j, e))
      {
        if i < n {
          assert front[..i] == accounts[..i] && front[i] == accounts[i];
        }
      }
      forall j: nat
        ensures StopsAt(env, w, accounts, tables, n, j, e) <==>
                && env.ordersOf(accounts[n].id).Some? && Completes(env, w, front, tables)
                && StopsAtOrder(env, w, OrdersOf(env, accounts[n]), BillAccounts(env, w, front, tables).tables, j, e)
      {}
    }
  }

  /** The run reaches this order, and its lease `k` is the first whose product the context cannot represent. */
  ghost predicate ProductStopsRun(env: Env, w: Window, accounts: seq<Account>, tables: Tables, i: nat, j: nat, k: nat) {
    && StopsAt(env, w, accounts, tables, i, j, LeaseSpendFailed)
    && ProductStops(OrderProducts(env, w, OrdersOf(env, accounts[i])[j]), k)
  }

  /** The run reaches this order, and its lease `k` is the first that makes its exact sum one the context cannot represent. */
  ghost predicate SumStopsRun(env: Env, w: Window, accounts: seq<Account>, tables: Tables, i: nat, j: nat, k: nat) {
    && StopsAt(env, w, accounts, tables, i, j, OrderSpendFailed)
    && SumStops(OrderProducts(env, w, OrdersOf(env, accounts[i])[j]), k)
  }

  /**
   A run stops on a multiplication exactly when it reaches a lease whose product is not representable, and on an
   addition exactly when it reaches one that makes the exact sum of its order so.
   */
  lemma RunStopsOnALeaseExactlyWhen(env: Env, w: Window, accounts: seq<Account>, tables: Tables)
    ensures BillAccounts(env, w, accounts, tables).error == Some(LeaseSpendFailed) <==>
            exists i: nat, j: nat, k: nat :: ProductStopsRun(env, w, accounts, tables, i, j, k)
    ensures BillAccounts(env, w, accounts, tables).error == Some(OrderSpendFailed) <==>
            exists i: nat, j: nat, k: nat :: SumStopsRun(env, w, accounts, tables, i, j, k)
  {
    hide BillAccounts, BillOrders, OrdersOf, Completes, ProductStops, SumStops, SpendsOfCharges, OrderProducts, OrderSpends;
    RunStopsOnLeases(env, w, accounts, tables, LeaseSpendFailed);
    RunStopsOnLeases(env, w, accounts, tables, OrderSpendFailed);
    if i: nat, j: nat :| StopsAt(env, w, accounts, tables, i, j, LeaseSpendFailed) {
      OrderStopsAtLease(env, w, OrdersOf(env, accounts[i])[j]);
      var k: nat :| ProductStops(OrderProducts(env, w, OrdersOf(env, accounts[i])[j]), k);
      assert ProductStopsRun(env, w, accounts, tables, i, j, k);
    }
    if i: nat, j: nat :| StopsAt(env, w, accounts, tables, i, j, OrderSpendFailed) {
      OrderStopsAtLease(env, w, OrdersOf(env, accounts[i])[j]);
      var k: nat :| SumStops(OrderProducts(env, w, OrdersOf(env, accounts[i])[j]), k);
      assert SumStopsRun(env, w, accounts, tables, i, j, k);
    }
  }

  lemma OrderStopsAtLease(env: Env, w: Window, o: Order)
    ensures OrderSpends(env, o, w) == Err(LeaseSpendFailed) <==> exists k: nat :: ProductStops(OrderProducts(env, w, o), k)
    ensures OrderSpends(env, o, w) == Err(OrderSpendFailed) <==> exists k: nat :: SumStops(OrderProducts(env, w, o), k)
  {
    hide SpendsOfCharges, Products, Fits, AllFit, PartialSumsFit, ExactTotal, ProductStops, SumStops;
    if env.leasesOf(o.id).Some? {
      LeasesStopExactlyAt(env, Charges(env.leasesOf(o.id).value, w));
      assert OrderProducts(env, w, o) == Products(env, Charges(env.leasesOf(o.id).value, w));
    } else {
      forall k: nat ensures !ProductStops(OrderProducts(env, w, o), k) && !SumStops(OrderProducts(env, w, o), k) {
        StopsInside(OrderProducts(env, w, o), k);
      }
    }
  }
}
