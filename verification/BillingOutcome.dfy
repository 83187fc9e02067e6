/**
 How a run ends, written down from the query results and the tables it started from, without the run: which rows it
 writes and with which uids, where it stops, with which error. A run ends exactly so.
 */
module BillingOutcome {
  import opened Wrappers
  import opened Decimals
  import opened Leases
  import opened LeaseTable
  import opened SpendStore
  import opened BillingRun
  import opened BillingRows

  // ---------- The tables, row by row ----------

  /** The amount under this key, with the uid if the row is new. */
  function Written(t: Table, key: Key, uid: Uid, spend: Decimal): Table {
    Table(t.spend[key := Stored(spend)], if key in t.spend then t.uid else t.uid[key := uid])
  }

  /** The row of the last of some orders. */
  function WithOrderRow(env: Env, w: Window, orders: seq<Order>, t: Tables): Tables
    requires |orders| > 0
  {
    var o := orders[|orders| - 1];
    t.(orders := Written(t.orders, Key(o.id, w), env.uid(OrderWrite(o.id)), TotalOf(SpendsOf(env, w, o))))
  }

  /** The row of its project, with the total over those orders. */
  function WithProjectRow(env: Env, w: Window, orders: seq<Order>, t: Tables): Tables
    requires |orders| > 0
  {
    var o := orders[|orders| - 1];
    t.(projects := Written(t.projects, Key(o.projectId, w), env.uid(ProjectWrite(o.id)),
                           TotalOf(ProjectSpends(env, w, orders, o.projectId))))
  }

  function OrdersTables(env: Env, w: Window, orders: seq<Order>, t: Tables): Tables {
    if |orders| == 0 then t
    else WithProjectRow(env, w, orders, WithOrderRow(env, w, orders, OrdersTables(env, w, orders[..|orders| - 1], t)))
  }

  function AccountTables(env: Env, w: Window, a: Account, t: Tables): Tables {
    var after := OrdersTables(env, w, OrdersOf(env, a), t);
    after.(accounts := Written(after.accounts, Key(a.id, w), env.uid(AccountWrite(a.id)),
                               TotalOf(AccountSpends(env, w, OrdersOf(env, a)))))
  }

  function RunTables(env: Env, w: Window, accounts: seq<Account>, t: Tables): Tables {
    if |accounts| == 0 then t
    else AccountTables(env, w, accounts[|accounts| - 1], RunTables(env, w, accounts[..|accounts| - 1], t))
  }

  // ---------- What can go wrong ----------

  /** The leases of the last order are billed, and its row can be written: not refused, not too large, no uid taken. */
  predicate OrderRowOk(env: Env, w: Window, orders: seq<Order>, t: Tables)
    requires |orders| > 0
  {
    var o := orders[|orders| - 1];
    && OrderSpends(env, o, w).Ok?
    && !env.refuses(OrderWrite(o.id))
    && Accepts(t.orders, Key(o.id, w), env.uid(OrderWrite(o.id)), TotalOf(SpendsOf(env, w, o)))
  }

  predicate ProjectRowOk(env: Env, w: Window, orders: seq<Order>, t: Tables)
    requires |orders| > 0
  {
    var o := orders[|orders| - 1];
    && !env.refuses(ProjectWrite(o.id))
    && Accepts(t.projects, Key(o.projectId, w), env.uid(ProjectWrite(o.id)),
               TotalOf(ProjectSpends(env, w, orders, o.projectId)))
  }

  predicate AccountRowOk(env: Env, w: Window, a: Account, t: Tables) {
    && !env.refuses(AccountWrite(a.id))
    && Accepts(t.accounts, Key(a.id, w), env.uid(AccountWrite(a.id)), TotalOf(AccountSpends(env, w, OrdersOf(env, a))))
  }

  predicate LastBilled(env: Env, w: Window, orders: seq<Order>, t: Tables)
    requires |orders| > 0
  {
    OrderRowOk(env, w, orders, t) && ProjectRowOk(env, w, orders, t)
  }

  /** Nothing goes wrong with any of these orders. */
  predicate OrdersBilled(env: Env, w: Window, orders: seq<Order>, t: Tables) {
    |orders| > 0 ==>
      && OrdersBilled(env, w, orders[..|orders| - 1], t)
      && LastBilled(env, w, orders, OrdersTables(env, w, orders[..|orders| - 1], t))
  }

  predicate AccountBilled(env: Env, w: Window, a: Account, t: Tables) {
    && env.ordersOf(a.id).Some?
    && OrdersBilled(env, w, OrdersOf(env, a), t)
    && AccountRowOk(env, w, a, OrdersTables(env, w, OrdersOf(env, a), t))
  }

  predicate RunBilled(env: Env, w: Window, accounts: seq<Account>, t: Tables) {
    |accounts| > 0 ==>
      && RunBilled(env, w, accounts[..|accounts| - 1], t)
      && AccountBilled(env, w, accounts[|accounts| - 1], RunTables(env, w, accounts[..|accounts| - 1], t))
  }

  // ---------- Where it stops ----------

  /** Order `j` is the first with which something goes wrong. */
  predicate StopsInOrder(env: Env, w: Window, orders: seq<Order>, t: Tables, j: nat) {
    && j < |orders|
    && OrdersBilled(env, w, orders[..j], t)
    && !LastBilled(env, w, orders[..j + 1], OrdersTables(env, w, orders[..j], t))
  }

  /** The account stops after its first `j` orders: in order `j`, or when they are all done in its own row. */
  predicate StopsInAccount(env: Env, w: Window, a: Account, t: Tables, j: nat) {
    var orders := OrdersOf(env, a);
    if env.ordersOf(a.id).None? then j == 0
    else if j < |orders| then StopsInOrder(env, w, orders, t, j)
    else j == |orders| && OrdersBilled(env, w, orders, t) && !AccountRowOk(env, w, a, OrdersTables(env, w, orders, t))
  }

  /** The run stops in account `i`, after its first `j` orders. */
  predicate StopsInRun(env: Env, w: Window, accounts: seq<Account>, t: Tables, i: nat, j: nat) {
    && i < |accounts|
    && RunBilled(env, w, accounts[..i], t)
    && StopsInAccount(env, w, accounts[i], RunTables(env, w, accounts[..i], t), j)
  }

  /** The outcome of the last of some orders when something goes wrong with it: its row is there if only its project's is not. */
  function OrderStop(env: Env, w: Window, orders: seq<Order>, t: Tables): Outcome
    requires |orders| > 0
  {
    var o := orders[|orders| - 1];
    var spends := OrderSpends(env, o, w);
    if spends.Err? then Outcome(Some(spends.error), t)
    else if !OrderRowOk(env, w, orders, t) then Outcome(Some(WriteFailed(OrderWrite(o.id))), t)
    else Outcome(Some(WriteFailed(ProjectWrite(o.id))), WithOrderRow(env, w, orders, t))
  }

  function AccountStop(env: Env, w: Window, a: Account, t: Tables, j: nat): Outcome
    requires j <= |OrdersOf(env, a)|
  {
    var orders := OrdersOf(env, a);
    if env.ordersOf(a.id).None? then Outcome(Some(ListOrdersFailed), t)
    else if j < |orders| then OrderStop(env, w, orders[..j + 1], OrdersTables(env, w, orders[..j], t))
    else Outcome(Some(WriteFailed(AccountWrite(a.id))), OrdersTables(env, w, orders, t))
  }

  // ---------- Orders ----------

  lemma WriteRowIsWritten(env: Env, t: Table, write: Write, key: Key, spend: Decimal)
    ensures WriteRow(env, t, write, key, spend) ==
            if !env.refuses(write) && Accepts(t, key, env.uid(write), spend) then Some(Written(t, key, env.uid(write), spend))
            else None
  {
    hide StoredForm;
  }

  lemma LastOrderExactly(env: Env, w: Window, orders: seq<Order>, p: Progress)
    requires |orders| > 0 && InMemory(env, w, orders[..|orders| - 1], p)
    ensures var step := BillOrder(env, w, orders[|orders| - 1], p);
            if LastBilled(env, w, orders, p.tables) then
              && step.error.None?
              && step.progress.tables == WithProjectRow(env, w, orders, WithOrderRow(env, w, orders, p.tables))
            else
              Outcome(step.error, step.progress.tables) == OrderStop(env, w, orders, p.tables)
  {
    hide Accumulate, OrderSpends, WriteRow, Accepts, Written, InMemory, ProjectSpends;
    var o := orders[|orders| - 1];
    MemoryStep(env, w, orders, p);
    WriteRowIsWritten(env, p.tables.orders, OrderWrite(o.id), Key(o.id, w), TotalOf(SpendsOf(env, w, o)));
    WriteRowIsWritten(env, p.tables.projects, ProjectWrite(o.id), Key(o.projectId, w),
                      TotalOf(ProjectSpends(env, w, orders, o.projectId)));
  }

  lemma {:induction false} OrdersExactly(env: Env, w: Window, orders: seq<Order>, t: Tables)
    ensures var step := BillOrders(env, w, orders, Start(t));
            && (step.error.None? <==> OrdersBilled(env, w, orders, t))
            && (step.error.None? ==>
                  step.progress.tables == OrdersTables(env, w, orders, t) && InMemory(env, w, orders, step.progress))
  {
    hide BillOrder, LastBilled, WithOrderRow, WithProjectRow, OrderStop, InMemory;
    if |orders| == 0 {
      NoOrdersInMemory(env, w, t);
      assert orders == [];
    } else {
      var front := orders[..|orders| - 1];
      OrdersExactly(env, w, front, t);
      var before := BillOrders(env, w, front, Start(t));
      if before.error.None? {
        LastOrderExactly(env, w, orders, before.progress);
        OrderStopHasError(env, w, orders, before.progress.tables);
        if BillOrder(env, w, orders[|orders| - 1], before.progress).error.None? {
          OneMoreOrder(env, w, orders, before.progress);
        }
      }
    }
  }

  lemma OrderStopHasError(env: Env, w: Window, orders: seq<Order>, t: Tables)
    requires |orders| > 0
    ensures OrderStop(env, w, orders, t).error.Some?
  {}

  lemma {:induction false} StoppedOrdersExactly(env: Env, w: Window, orders: seq<Order>, t: Tables, j: nat)
    requires StopsInOrder(env, w, orders, t, j)
    ensures var step := BillOrders(env, w, orders, Start(t));
            Outcome(step.error, step.progress.tables) ==
            OrderStop(env, w, orders[..j + 1], OrdersTables(env, w, orders[..j], t))
  {
    hide BillOrder, LastBilled, WithOrderRow, WithProjectRow, OrderStop, InMemory, OrdersBilled, OrdersTables;
    var n := |orders| - 1;
    var front := orders[..n];
    if j < n {
      assert front[..j] == orders[..j] && front[..j + 1] == orders[..j + 1];
      StoppedOrdersExactly(env, w, front, t, j);
      OrderStopHasError(env, w, orders[..j + 1], OrdersTables(env, w, orders[..j], t));
    } else {
      assert orders[..j + 1] == orders && orders[..j] == front;
      OrdersExactly(env, w, front, t);
      LastOrderExactly(env, w, orders, BillOrders(env, w, front, Start(t)).progress);
      OrderStopHasError(env, w, orders, OrdersTables(env, w, front, t));
    }
  }

  lemma {:induction false} OrdersStopSomewhere(env: Env, w: Window, orders: seq<Order>, t: Tables)
    requires !OrdersBilled(env, w, orders, t)
    ensures exists j: nat :: StopsInOrder(env, w, orders, t, j)
  {
    hide LastBilled, OrdersTables;
    var n := |orders| - 1;
    var front := orders[..n];
    if !OrdersBilled(env, w, front, t) {
      OrdersStopSomewhere(env, w, front, t);
      var j: nat :| StopsInOrder(env, w, front, t, j);
      assert front[..j] == orders[..j] && front[..j + 1] == orders[..j + 1];
      assert StopsInOrder(env, w, orders, t, j);
    } else {
      assert orders[..n + 1] == orders;
      assert StopsInOrder(env, w, orders, t, n);
    }
  }

  lemma {:induction false} BilledPrefix(env: Env, w: Window, orders: seq<Order>, t: Tables, j: nat)
    requires OrdersBilled(env, w, orders, t) && j <= |orders|
    ensures OrdersBilled(env, w, orders[..j], t)
    ensures j < |orders| ==> LastBilled(env, w, orders[..j + 1], OrdersTables(env, w, orders[..j], t))
  {
    hide LastBilled, OrdersTables;
    var n := |orders| - 1;
    if j == |orders| {
      assert orders[..j] == orders;
    } else if j == n {
      assert orders[..j + 1] == orders;
    } else {
      assert orders[..n][..j] == orders[..j] && orders[..n][..j + 1] == orders[..j + 1];
      BilledPrefix(env, w, orders[..n], t, j);
    }
  }

  // ---------- Accounts ----------

  lemma AccountExactly(env: Env, w: Window, a: Account, t: Tables)
    ensures AccountBilled(env, w, a, t) ==> BillAccount(env, w, a, t) == Outcome(None, AccountTables(env, w, a, t))
    ensures !AccountBilled(env, w, a, t) ==>
              BillAccount(env, w, a, t).error.Some? && exists j: nat :: StopsInAccount(env, w, a, t, j)
  {
    hide BillOrders, WriteRow, Accepts, Written, OrdersTables, OrdersBilled, AccountSpends, StopsInOrder, TotalOf;
    var orders := OrdersOf(env, a);
    OrdersExactly(env, w, orders, t);
    var after := BillOrders(env, w, orders, Start(t)).progress;
    WriteRowIsWritten(env, after.tables.accounts, AccountWrite(a.id), Key(a.id, w), after.account);
    if env.ordersOf(a.id).None? {
      assert StopsInAccount(env, w, a, t, 0);
    } else if !OrdersBilled(env, w, orders, t) {
      OrdersStopSomewhere(env, w, orders, t);
      var j: nat :| StopsInOrder(env, w, orders, t, j);
      OrderStopIsInside(env, w, orders, t, j);
      assert StopsInAccount(env, w, a, t, j);
    } else {
      InMemoryAccount(env, w, orders, after);
      if !AccountBilled(env, w, a, t) {
        assert StopsInAccount(env, w, a, t, |orders|);
      }
    }
  }

  lemma OrderStopIsInside(env: Env, w: Window, orders: seq<Order>, t: Tables, j: nat)
    requires StopsInOrder(env, w, orders, t, j)
    ensures j < |orders|
  {}

  lemma InMemoryAccount(env: Env, w: Window, orders: seq<Order>, p: Progress)
    requires InMemory(env, w, orders, p)
    ensures p.account == TotalOf(AccountSpends(env, w, orders))
  {}

  lemma StoppedAccountExactly(env: Env, w: Window, a: Account, t: Tables, j: nat)
    requires StopsInAccount(env, w, a, t, j)
    ensures j <= |OrdersOf(env, a)| && BillAccount(env, w, a, t) == AccountStop(env, w, a, t, j)
    ensures BillAccount(env, w, a, t).error.Some?
  {
    hide BillOrders, WriteRow, Accepts, Written, OrdersTables, OrdersBilled, AccountSpends, StopsInOrder, TotalOf, OrderStop;
    var orders := OrdersOf(env, a);
    if env.ordersOf(a.id).Some? {
      if j < |orders| {
        StoppedOrdersExactly(env, w, orders, t, j);
        OrderStopHasError(env, w, orders[..j + 1], OrdersTables(env, w, orders[..j], t));
      } else {
        OrdersExactly(env, w, orders, t);
        var after := BillOrders(env, w, orders, Start(t)).progress;
        InMemoryAccount(env, w, orders, after);
        WriteRowIsWritten(env, after.tables.accounts, AccountWrite(a.id), Key(a.id, w), after.account);
      }
    }
  }

  // ---------- Runs ----------

  /** A run completes exactly when nothing goes wrong, and then leaves exactly these tables, uids included. */
  lemma {:induction false} RunCompletesExactlyWhen(env: Env, w: Window, accounts: seq<Account>, t: Tables)
    ensures Completes(env, w, accounts, t) <==> RunBilled(env, w, accounts, t)
    ensures RunBilled(env, w, accounts, t) ==> BillAccounts(env, w, accounts, t) == Outcome(None, RunTables(env, w, accounts, t))
  {
    hide BillAccount, AccountBilled, AccountTables, StopsInAccount;
    if |accounts| > 0 {
      var n := |accounts| - 1;
      RunCompletesExactlyWhen(env, w, accounts[..n], t);
      AccountExactly(env, w, accounts[n], RunTables(env, w, accounts[..n], t));
    }
  }

  /** A run that stops in account `i` after its first `j` orders ends with exactly that error and exactly those tables. */
  lemma {:induction false} StoppedRunExactly(env: Env, w: Window, accounts: seq<Account>, t: Tables, i: nat, j: nat)
    requires StopsInRun(env, w, accounts, t, i, j)
    ensures j <= |OrdersOf(env, accounts[i])|
    ensures BillAccounts(env, w, accounts, t) == AccountStop(env, w, accounts[i], RunTables(env, w, accounts[..i], t), j)
    ensures BillAccounts(env, w, accounts, t).error.Some?
  {
    hide BillAccount, RunBilled, RunTables, StopsInAccount, AccountStop, OrdersOf;
    var n := |accounts| - 1;
    var front := accounts[..n];
    StoppedAccountExactly(env, w, accounts[i], RunTables(env, w, accounts[..i], t), j);
    if i < n {
      assert front[..i] == accounts[..i] && front[i] == accounts[i];
      StoppedRunExactly(env, w, front, t, i, j);
    } else {
      RunCompletesExactlyWhen(env, w, front, t);
    }
  }

  lemma {:induction false} RunStopsSomewhere(env: Env, w: Window, accounts: seq<Account>, t: Tables)
    requires !RunBilled(env, w, accounts, t)
    ensures exists i: nat, j: nat :: StopsInRun(env, w, accounts, t, i, j)
  {
    hide AccountBilled, StopsInAccount, RunTables, BillAccount;
    var n := |accounts| - 1;
    var front := accounts[..n];
    if !RunBilled(env, w, front, t) {
      RunStopsSomewhere(env, w, front, t);
      var i: nat, j: nat :| StopsInRun(env, w, front, t, i, j);
      assert front[..i] == accounts[..i] && front[i] == accounts[i];
      assert StopsInRun(env, w, accounts, t, i, j);
    } else {
      AccountExactly(env, w, accounts[n], RunTables(env, w, front, t));
      var j: nat :| StopsInAccount(env, w, accounts[n], RunTables(env, w, front, t), j);
      assert StopsInRun(env, w, accounts, t, n, j);
    }
  }

  /** A run fails exactly when something goes wrong in some account after some of its orders. */
  lemma RunFailsExactlyWhen(env: Env, w: Window, accounts: seq<Account>, t: Tables)
    ensures BillAccounts(env, w, accounts, t).error.Some? <==>
            exists i: nat, j: nat :: StopsInRun(env, w, accounts, t, i, j)
  {
    hide BillAccounts, RunBilled, StopsInRun, RunTables, AccountStop;
    RunCompletesExactlyWhen(env, w, accounts, t);
    if !RunBilled(env, w, accounts, t) {
      RunStopsSomewhere(env, w, accounts, t);
    }
    if i: nat, j: nat :| StopsInRun(env, w, accounts, t, i, j) {
      StopIsInside(env, w, accounts, t, i, j);
      StoppedRunExactly(env, w, accounts, t, i, j);
    }
  }

  lemma StopIsInside(env: Env, w: Window, accounts: seq<Account>, t: Tables, i: nat, j: nat)
    requires StopsInRun(env, w, accounts, t, i, j)
    ensures i < |accounts|
  {}

  /** It goes wrong in one place only. */
  lemma RunStopsOnce(env: Env, w: Window, accounts: seq<Account>, t: Tables, i: nat, j: nat, i2: nat, j2: nat)
    requires StopsInRun(env, w, accounts, t, i, j) && StopsInRun(env, w, accounts, t, i2, j2)
    ensures i == i2 && j == j2
  {
    hide OrdersTables, RunTables, AccountRowOk, LastBilled, RunBilled;
    if i < i2 {
      AccountBeforeIsBilled(env, w, accounts[..i2], t, i);
      assert accounts[..i2][..i] == accounts[..i];
      BilledAccountDoesNotStop(env, w, accounts[i], RunTables(env, w, accounts[..i], t), j);
    } else if i2 < i {
      AccountBeforeIsBilled(env, w, accounts[..i], t, i2);
      assert accounts[..i][..i2] == accounts[..i2];
      BilledAccountDoesNotStop(env, w, accounts[i2], RunTables(env, w, accounts[..i2], t), j2);
    } else {
      AccountStopsOnce(env, w, accounts[i], RunTables(env, w, accounts[..i], t), j, j2);
      AccountStopsOnce(env, w, accounts[i], RunTables(env, w, accounts[..i], t), j2, j);
    }
  }

  lemma {:induction false} AccountBeforeIsBilled(env: Env, w: Window, accounts: seq<Account>, t: Tables, i: nat)
    requires RunBilled(env, w, accounts, t) && i < |accounts|
    ensures AccountBilled(env, w, accounts[i], RunTables(env, w, accounts[..i], t))
  {
    hide AccountBilled, RunTables;
    var n := |accounts| - 1;
    if i < n {
      assert accounts[..n][..i] == accounts[..i];
      AccountBeforeIsBilled(env, w, accounts[..n], t, i);
    }
  }

  lemma BilledAccountDoesNotStop(env: Env, w: Window, a: Account, t: Tables, j: nat)
    requires AccountBilled(env, w, a, t)
    ensures !StopsInAccount(env, w, a, t, j)
  {
    hide OrdersTables, OrdersBilled, AccountRowOk, LastBilled;
    if j < |OrdersOf(env, a)| {
      BilledPrefix(env, w, OrdersOf(env, a), t, j);
    }
  }

  lemma AccountStopsOnce(env: Env, w: Window, a: Account, t: Tables, j: nat, j2: nat)
    requires StopsInAccount(env, w, a, t, j) && StopsInAccount(env, w, a, t, j2)
    ensures j >= j2
  {
    hide OrdersTables, OrdersBilled, AccountRowOk, LastBilled;
    var orders := OrdersOf(env, a);
    if j < j2 {
      assert orders[..j2][..j] == orders[..j] && orders[..j2][..j + 1] == orders[..j + 1];
      assert orders[..|orders|] == orders;
      BilledPrefix(env, w, orders[..j2], t, j);
    }
  }

  // ---------- The same in terms of rows ----------

  lemma {:induction false} OrdersTablesRows(env: Env, w: Window, orders: seq<Order>, t: Tables)
    ensures SpendOf(OrdersTables(env, w, orders, t)) == Overlay(SpendOf(t), OrderRows(env, w, orders))
    ensures OrdersBilled(env, w, orders, t) ==> OrdersOk(env, w, orders)
  {
    hide Stored, StoredForm, TotalOf, ProjectSpends, OrderSpends;
    if |orders| > 0 {
      var front, o := orders[..|orders| - 1], orders[|orders| - 1];
      OrdersTablesRows(env, w, front, t);
      UpdateOverlay(t.orders.spend, OrderRows(env, w, front).orders, Key(o.id, w), Stored(TotalOf(SpendsOf(env, w, o))));
      UpdateOverlay(t.projects.spend, OrderRows(env, w, front).projects, Key(o.projectId, w),
                    Stored(TotalOf(ProjectSpends(env, w, orders, o.projectId))));
    }
  }

  lemma AccountTablesRows(env: Env, w: Window, a: Account, t: Tables)
    ensures SpendOf(AccountTables(env, w, a, t)) == Overlay(SpendOf(t), AccountRows(env, w, a))
    ensures AccountBilled(env, w, a, t) ==> AccountOk(env, w, a)
  {
    hide OrderRows, OrdersTables, OrdersBilled, OrdersOk, Stored, StoredForm, TotalOf, AccountSpends, OrdersOf;
    OrdersTablesRows(env, w, OrdersOf(env, a), t);
    OrderRowsNoAccounts(env, w, OrdersOf(env, a));
  }

  lemma {:induction false} RunTablesRows(env: Env, w: Window, accounts: seq<Account>, t: Tables)
    ensures SpendOf(RunTables(env, w, accounts, t)) == Overlay(SpendOf(t), RunRows(env, w, accounts))
    ensures RunBilled(env, w, accounts, t) ==> RunOk(env, w, accounts)
  {
    hide AccountTables, AccountRows, AccountBilled, AccountOk;
    if |accounts| > 0 {
      var front, a := accounts[..|accounts| - 1], accounts[|accounts| - 1];
      RunTablesRows(env, w, front, t);
      AccountTablesRows(env, w, a, RunTables(env, w, front, t));
      OverlayAssociative(SpendOf(t), RunRows(env, w, front), AccountRows(env, w, a));
      if RunBilled(env, w, accounts, t) {
        forall i | 0 <= i < |accounts| ensures AccountOk(env, w, accounts[i]) {
          assert i < |front| ==> accounts[i] == front[i];
        }
      }
    }
  }
}
