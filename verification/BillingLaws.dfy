/**
 What the rows of a completed run mean: order rows are exact sums, project and account rows are within a
 proved distance of them, and later runs replace what earlier runs wrote.
 */
module BillingLaws {
  import opened Powers
  import opened Wrappers
  import opened Decimals
  import opened Leases
  import opened LeaseTable
  import opened SpendStore
  import opened BillingRun
  import opened BillingRows

  // ---------- Which row a run leaves ----------

  ghost predicate ListsProject(orders: seq<Order>, id: Id) {
    exists i :: 0 <= i < |orders| && orders[i].projectId == id
  }

  ghost predicate ListsOrder(orders: seq<Order>, id: Id) {
    exists i :: 0 <= i < |orders| && orders[i].id == id
  }

  predicate DistinctAccounts(accounts: seq<Account>) {
    forall i, j :: 0 <= i < j < |accounts| ==> accounts[i].id != accounts[j].id
  }

  predicate DistinctOrders(orders: seq<Order>) {
    forall i, j :: 0 <= i < j < |orders| ==> orders[i].id != orders[j].id
  }

  /** Within an account, a project's row ends as the total over all of the project's orders there. */
  lemma {:induction false} ProjectRowOfAccount(env: Env, w: Window, orders: seq<Order>, id: Id)
    ensures var rows := OrderRows(env, w, orders).projects;
            && (Key(id, w) in rows <==> ListsProject(orders, id))
            && (Key(id, w) in rows ==> rows[Key(id, w)] == Stored(TotalOf(ProjectSpends(env, w, orders, id))))
  {
    hide Stored, TotalOf, SpendsOf;
    if |orders| > 0 {
      var n := |orders| - 1;
      ProjectRowOfAccount(env, w, orders[..n], id);
      if ListsProject(orders[..n], id) {
        var i :| 0 <= i < n && orders[..n][i].projectId == id;
        assert orders[i].projectId == id;
      }
      assert ListsProject(orders, id) ==> ListsProject(orders[..n], id) || orders[n].projectId == id by {
        if ListsProject(orders, id) && orders[n].projectId != id {
          var i :| 0 <= i < |orders| && orders[i].projectId == id;
          assert orders[..n][i].projectId == id;
        }
      }
      assert orders[n].projectId == id ==> ListsProject(orders, id);
    }
  }

  /** The row of an order that is not listed again later in the account. */
  lemma {:induction false} OrderRowOfAccount(env: Env, w: Window, orders: seq<Order>, i: nat)
    requires i < |orders|
    requires forall j :: i < j < |orders| ==> orders[j].id != orders[i].id
    ensures Key(orders[i].id, w) in OrderRows(env, w, orders).orders
    ensures OrderRows(env, w, orders).orders[Key(orders[i].id, w)] == Stored(TotalOf(SpendsOf(env, w, orders[i])))
  {
    hide Stored, TotalOf, SpendsOf;
    var n := |orders| - 1;
    if i < n {
      assert orders[..n][i] == orders[i];
      OrderRowOfAccount(env, w, orders[..n], i);
    }
  }

  lemma {:induction false} OrderRowKeys(env: Env, w: Window, orders: seq<Order>, key: Key)
    ensures key in OrderRows(env, w, orders).orders ==> key.window == w && ListsOrder(orders, key.id)
    ensures key in OrderRows(env, w, orders).projects ==> key.window == w && ListsProject(orders, key.id)
    ensures OrderRows(env, w, orders).accounts == map[]
  {
    hide Stored, TotalOf, SpendsOf, ProjectSpends;
    if |orders| > 0 {
      var n := |orders| - 1;
      OrderRowKeys(env, w, orders[..n], key);
      assert forall i :: 0 <= i < n ==> orders[..n][i] == orders[i];
      assert orders[n].id == key.id ==> ListsOrder(orders, key.id);
      assert orders[n].projectId == key.id ==> ListsProject(orders, key.id);
      if ListsOrder(orders[..n], key.id) {
        var i :| 0 <= i < n && orders[..n][i].id == key.id;
        assert orders[i].id == key.id;
      }
      if ListsProject(orders[..n], key.id) {
        var i :| 0 <= i < n && orders[..n][i].projectId == key.id;
        assert orders[i].projectId == key.id;
      }
    }
  }

  datatype Which = Orders | Projects | Accounts

  function Pick(rows: Spends, which: Which): map<Key, int> {
    match which
    case Orders => rows.orders
    case Projects => rows.projects
    case Accounts => rows.accounts
  }

  lemma PickOverlay(under: Spends, over: Spends, which: Which)
    ensures Pick(Overlay(under, over), which) == Pick(under, which) + Pick(over, which)
  {}

  /** Of the accounts that write a row, the one listed last decides it. */
  lemma {:induction false} LastListedAccountDecides(env: Env, w: Window, accounts: seq<Account>, i: nat, which: Which,
                                                    key: Key)
    requires i < |accounts|
    requires key in Pick(AccountRows(env, w, accounts[i]), which)
    requires forall j :: i < j < |accounts| ==> key !in Pick(AccountRows(env, w, accounts[j]), which)
    ensures key in Pick(RunRows(env, w, accounts), which)
    ensures Pick(RunRows(env, w, accounts), which)[key] == Pick(AccountRows(env, w, accounts[i]), which)[key]
  {
    hide AccountRows, Pick, Overlay;
    var n := |accounts| - 1;
    PickOverlay(RunRows(env, w, accounts[..n]), AccountRows(env, w, accounts[n]), which);
    if i < n {
      assert forall j :: 0 <= j < n ==> accounts[..n][j] == accounts[j];
      LastListedAccountDecides(env, w, accounts[..n], i, which, key);
    }
  }

  /** The rows of a run are all for its window. */
  lemma {:induction false} RunRowsInWindow(env: Env, w: Window, accounts: seq<Account>, key: Key)
    requires key.window != w
    ensures var rows := RunRows(env, w, accounts);
            key !in rows.orders && key !in rows.projects && key !in rows.accounts
  {
    hide OrderRows;
    if |accounts| > 0 {
      RunRowsInWindow(env, w, accounts[..|accounts| - 1], key);
      OrderRowKeys(env, w, OrdersOf(env, accounts[|accounts| - 1]), key);
    }
  }

  function RowsAfter(env: Env, w: Window, accounts: seq<Account>, tables: Tables): Spends {
    SpendOf(BillAccounts(env, w, accounts, tables).tables)
  }

  /** After a completed run the row of every account is the stored total of the spends of its orders. */
  lemma AccountRow(env: Env, w: Window, accounts: seq<Account>, tables: Tables, i: nat)
    requires Completes(env, w, accounts, tables) && DistinctAccounts(accounts)
    requires i < |accounts|
    ensures var total := TotalOf(AccountSpends(env, w, OrdersOf(env, accounts[i])));
            && StoredForm(total).Some?
            && Key(accounts[i].id, w) in RowsAfter(env, w, accounts, tables).accounts
            && RowsAfter(env, w, accounts, tables).accounts[Key(accounts[i].id, w)] == StoredForm(total).value
  {
    hide StoredForm, TotalOf, AccountSpends, OrderRows, BillAccounts;
    CompletedRunOverlaysItsRows(env, w, accounts, tables);
    LastListedAccountDecides(env, w, accounts, i, Accounts, Key(accounts[i].id, w));
    assert AccountOk(env, w, accounts[i]);
  }

  /** After a completed run a project's row is its total in the last listed account with orders of it. */
  lemma ProjectRow(env: Env, w: Window, accounts: seq<Account>, tables: Tables, i: nat, id: Id)
    requires Completes(env, w, accounts, tables)
    requires i < |accounts| && ListsProject(OrdersOf(env, accounts[i]), id)
    requires forall j :: i < j < |accounts| ==> !ListsProject(OrdersOf(env, accounts[j]), id)
    ensures var total := TotalOf(ProjectSpends(env, w, OrdersOf(env, accounts[i]), id));
            && StoredForm(total).Some?
            && Key(id, w) in RowsAfter(env, w, accounts, tables).projects
            && RowsAfter(env, w, accounts, tables).projects[Key(id, w)] == StoredForm(total).value
  {
    hide StoredForm, TotalOf, ProjectSpends, OrderRows, BillAccounts, ListsProject, OrdersOk;
    CompletedRunOverlaysItsRows(env, w, accounts, tables);
    ProjectRowOfAccount(env, w, OrdersOf(env, accounts[i]), id);
    forall j | i < j < |accounts| ensures Key(id, w) !in AccountRows(env, w, accounts[j]).projects {
      ProjectRowOfAccount(env, w, OrdersOf(env, accounts[j]), id);
    }
    LastListedAccountDecides(env, w, accounts, i, Projects, Key(id, w));
    assert AccountOk(env, w, accounts[i]);
    ProjectTotalStorable(env, w, OrdersOf(env, accounts[i]), id);
  }

  lemma {:induction false} ProjectTotalStorable(env: Env, w: Window, orders: seq<Order>, id: Id)
    requires OrdersOk(env, w, orders) && ListsProject(orders, id)
    ensures StoredForm(TotalOf(ProjectSpends(env, w, orders, id))).Some?
  {
    hide StoredForm, TotalOf, OrderSpends;
    var n := |orders| - 1;
    if orders[n].projectId != id {
      var i :| 0 <= i < |orders| && orders[i].projectId == id;
      assert orders[..n][i].projectId == id;
      ProjectTotalStorable(env, w, orders[..n], id);
    }
  }

  /** An order listed once in the whole run. */
  ghost predicate ListedOnce(env: Env, accounts: seq<Account>, i: nat, k: nat)
    requires i < |accounts| && k < |OrdersOf(env, accounts[i])|
  {
    var id := OrdersOf(env, accounts[i])[k].id;
    && (forall j :: k < j < |OrdersOf(env, accounts[i])| ==> OrdersOf(env, accounts[i])[j].id != id)
    && (forall j :: i < j < |accounts| ==> !ListsOrder(OrdersOf(env, accounts[j]), id))
  }

  /** After a completed run the row of an order is the stored exact sum of its leases' spends. */
  lemma OrderRow(env: Env, w: Window, accounts: seq<Account>, tables: Tables, i: nat, k: nat)
    requires Completes(env, w, accounts, tables)
    requires i < |accounts| && k < |OrdersOf(env, accounts[i])| && ListedOnce(env, accounts, i, k)
    ensures var o := OrdersOf(env, accounts[i])[k];
            && OrderSpends(env, o, w).Ok?
            && var sum := Finite(ExactTotal(OrderSpends(env, o, w).value));
               && StoredForm(sum).Some?
               && Key(o.id, w) in RowsAfter(env, w, accounts, tables).orders
               && RowsAfter(env, w, accounts, tables).orders[Key(o.id, w)] == StoredForm(sum).value
  {
    hide StoredForm, OrderRows, BillAccounts, ListsOrder, OrderSpends, OrdersOk;
    var orders := OrdersOf(env, accounts[i]);
    var key := Key(orders[k].id, w);
    CompletedRunOverlaysItsRows(env, w, accounts, tables);
    OrderRowOfAccount(env, w, orders, k);
    forall j | i < j < |accounts| ensures key !in AccountRows(env, w, accounts[j]).orders {
      OrderRowKeys(env, w, OrdersOf(env, accounts[j]), key);
    }
    LastListedAccountDecides(env, w, accounts, i, Orders, key);
    assert AccountOk(env, w, accounts[i]);
    OrderIsOk(env, w, orders, k);
    SpendsAreChecked(env, orders[k], w);
    CheckedTotalIsExact(SpendsOf(env, w, orders[k]));
  }

  lemma {:induction false} OrderIsOk(env: Env, w: Window, orders: seq<Order>, k: nat)
    requires OrdersOk(env, w, orders) && k < |orders|
    ensures OrderSpends(env, orders[k], w).Ok?
    ensures StoredForm(TotalOf(SpendsOf(env, w, orders[k]))).Some?
  {
    hide StoredForm, TotalOf, OrderSpends;
    var n := |orders| - 1;
    if k < n {
      assert orders[..n][k] == orders[k];
      OrderIsOk(env, w, orders[..n], k);
    }
  }

  /** Spends that were accepted are representable numbers, and adding them raised no condition. */
  lemma SpendsAreChecked(env: Env, o: Order, w: Window)
    requires OrderSpends(env, o, w).Ok?
    ensures var ys := OrderSpends(env, o, w).value;
            AllFit(ys) && InUnits(ys) && CheckedTotal(ys).Some?
  {
    hide SpendsOfCharges, CheckedTotal, Fits;
    ChargesAreChecked(env, Charges(env.leasesOf(o.id).value, w));
    forall i | 0 <= i < |OrderSpends(env, o, w).value| ensures OrderSpends(env, o, w).value[i].exp >= ETINY {
      FitsIsInUnits(OrderSpends(env, o, w).value[i]);
    }
  }

  lemma {:induction false} ChargesAreChecked(env: Env, charges: seq<Charge>)
    requires SpendsOfCharges(env, charges).Ok?
    ensures var ys := SpendsOfCharges(env, charges).value;
            AllFit(ys) && CheckedTotal(ys).Some? && |ys| == |charges|
  {
    hide CheckedTotal, LeaseSpend, Fits;
    if |charges| == 0 {
      EmptyTotal();
    } else {
      var last := charges[|charges| - 1];
      ChargesAreChecked(env, charges[..|charges| - 1]);
      LeaseSpendFits(env, last);
    }
  }

  lemma EmptyTotal()
    ensures CheckedTotal([]) == Some(ZERO)
  {}

  lemma LeaseSpendFits(env: Env, charge: Charge)
    requires LeaseSpend(env, charge).Some?
    ensures Fits(LeaseSpend(env, charge).value)
    ensures LeaseSpend(env, charge).value == ExactProduct(env.hours(charge.duration), charge.priceHr)
  {
    hide Mul, Fits;
    MulIsQuietExactlyWhenTheProductFits(env.hours(charge.duration), charge.priceHr);
  }
}
