/**
 Running the biller again: a window's rows are those of the last completed run in it, other windows are not
 touched, and a repeated run changes nothing.
 */
module BillingReruns {
  import opened Wrappers
  import opened Decimals
  import opened Leases
  import opened LeaseTable
  import opened SpendStore
  import opened BillingRun
  import opened BillingRows
  import opened BillingLaws

  /** One run of a history: what it read, its window, the accounts it went through. */
  datatype Job = Job(env: Env, window: Window, accounts: seq<Account>)

  function After(jobs: seq<Job>, tables: Tables): Tables {
    if |jobs| == 0 then tables
    else
      var j := jobs[|jobs| - 1];
      BillAccounts(j.env, j.window, j.accounts, After(jobs[..|jobs| - 1], tables)).tables
  }

  predicate AllComplete(jobs: seq<Job>, tables: Tables) {
    |jobs| > 0 ==>
      && AllComplete(jobs[..|jobs| - 1], tables)
      && var j := jobs[|jobs| - 1];
         Completes(j.env, j.window, j.accounts, After(jobs[..|jobs| - 1], tables))
  }

  function JobRows(j: Job): Spends {
    RunRows(j.env, j.window, j.accounts)
  }

  /** The three tables agree on a key. */
  predicate SameRows(a: Spends, b: Spends, key: Key) {
    && (key in a.orders <==> key in b.orders) && (key in a.orders ==> a.orders[key] == b.orders[key])
    && (key in a.projects <==> key in b.projects) && (key in a.projects ==> a.projects[key] == b.projects[key])
    && (key in a.accounts <==> key in b.accounts) && (key in a.accounts ==> a.accounts[key] == b.accounts[key])
  }

  lemma JobOverlays(jobs: seq<Job>, tables: Tables)
    requires |jobs| > 0 && AllComplete(jobs, tables)
    ensures SpendOf(After(jobs, tables)) ==
            Overlay(SpendOf(After(jobs[..|jobs| - 1], tables)), JobRows(jobs[|jobs| - 1]))
  {
    hide RunRows, BillAccounts;
    var j := jobs[|jobs| - 1];
    CompletedRunOverlaysItsRows(j.env, j.window, j.accounts, After(jobs[..|jobs| - 1], tables));
  }

  /** Runs in other windows leave the rows of a window alone. */
  lemma {:induction false} OtherWindowsUntouched(jobs: seq<Job>, tables: Tables, key: Key)
    requires AllComplete(jobs, tables)
    requires forall i :: 0 <= i < |jobs| ==> jobs[i].window != key.window
    ensures SameRows(SpendOf(After(jobs, tables)), SpendOf(tables), key)
  {
    hide BillAccounts, RunRows;
    if |jobs| > 0 {
      var n := |jobs| - 1;
      JobOverlays(jobs, tables);
      OtherWindowsUntouched(jobs[..n], tables, key);
      RunRowsInWindow(jobs[n].env, jobs[n].window, jobs[n].accounts, key);
    }
  }

  /**
   The last completed run in a window decides every row it writes: nothing is accumulated over earlier runs, and
   later runs in other windows do not matter.
   */
  lemma {:induction false} LastRunDecides(jobs: seq<Job>, tables: Tables, last: nat, key: Key)
    requires AllComplete(jobs, tables)
    requires last < |jobs| && jobs[last].window == key.window
    requires forall i :: last < i < |jobs| ==> jobs[i].window != key.window
    ensures var rows, final := JobRows(jobs[last]), SpendOf(After(jobs, tables));
            && (key in rows.orders ==> key in final.orders && final.orders[key] == rows.orders[key])
            && (key in rows.projects ==> key in final.projects && final.projects[key] == rows.projects[key])
            && (key in rows.accounts ==> key in final.accounts && final.accounts[key] == rows.accounts[key])
  {
    hide BillAccounts, RunRows;
    var n := |jobs| - 1;
    JobOverlays(jobs, tables);
    if last < n {
      assert forall i :: 0 <= i < n ==> jobs[..n][i] == jobs[i];
      LastRunDecides(jobs[..n], tables, last, key);
      RunRowsInWindow(jobs[n].env, jobs[n].window, jobs[n].accounts, key);
    }
  }

  // ---------- The same run twice ----------

  /** The run's rows all exist already. */
  predicate HasRows(t: Tables, rows: Spends) {
    && rows.orders.Keys <= t.orders.spend.Keys
    && rows.projects.Keys <= t.projects.spend.Keys
    && rows.accounts.Keys <= t.accounts.spend.Keys
  }

  predicate SameUids(a: Tables, b: Tables) {
    a.orders.uid == b.orders.uid && a.projects.uid == b.projects.uid && a.accounts.uid == b.accounts.uid
  }

  lemma UpsertExisting(env: Env, t: Table, write: Write, key: Key, spend: Decimal)
    requires !env.refuses(write) && StoredForm(spend).Some? && key in t.spend
    ensures WriteRow(env, t, write, key, spend) == Some(t.(spend := t.spend[key := StoredForm(spend).value]))
  {
    hide StoredForm;
  }

  /** If the rows exist, only the conditions that do not depend on uids matter, and no uid changes. */
  lemma {:induction false} OrdersSucceedOverRows(env: Env, w: Window, orders: seq<Order>, tables: Tables)
    requires OrdersOk(env, w, orders)
    requires HasRows(tables, OrderRows(env, w, orders))
    ensures var step := BillOrders(env, w, orders, Start(tables));
            && step.error.None?
            && SameUids(step.progress.tables, tables)
            && HasRows(step.progress.tables, SpendOf(tables))
            && InMemory(env, w, orders, step.progress)
  {
    hide BillOrder, Stored, TotalOf, LastOrderOk, InMemory, ProjectSpends, SpendsOf;
    if |orders| == 0 {
      NoOrdersInMemory(env, w, tables);
      assert orders == [];
    } else {
      var front := orders[..|orders| - 1];
      OrdersSucceedOverRows(env, w, front, tables);
      OneMoreOrderOverRows(env, w, orders, BillOrders(env, w, front, Start(tables)).progress);
    }
  }

  lemma OneMoreOrderOverRows(env: Env, w: Window, orders: seq<Order>, p: Progress)
    requires |orders| > 0 && LastOrderOk(env, w, orders)
    requires InMemory(env, w, orders[..|orders| - 1], p)
    requires Key(orders[|orders| - 1].id, w) in p.tables.orders.spend
    requires Key(orders[|orders| - 1].projectId, w) in p.tables.projects.spend
    ensures var step := BillOrder(env, w, orders[|orders| - 1], p);
            && step.error.None?
            && SameUids(step.progress.tables, p.tables)
            && HasRows(step.progress.tables, SpendOf(p.tables))
            && InMemory(env, w, orders, step.progress)
  {
    var o := orders[|orders| - 1];
    MemoryStep(env, w, orders, p);
    if BillOrder(env, w, o, p).error.None? {
      OneMoreOrder(env, w, orders, p);
    }
    OrderStepOverRows(env, w, orders, p);
  }

  lemma OrderStepOverRows(env: Env, w: Window, orders: seq<Order>, p: Progress)
    requires |orders| > 0 && LastOrderOk(env, w, orders)
    requires InMemory(env, w, orders[..|orders| - 1], p)
    requires Key(orders[|orders| - 1].id, w) in p.tables.orders.spend
    requires Key(orders[|orders| - 1].projectId, w) in p.tables.projects.spend
    ensures var step := BillOrder(env, w, orders[|orders| - 1], p);
            && step.error.None?
            && SameUids(step.progress.tables, p.tables)
            && HasRows(step.progress.tables, SpendOf(p.tables))
  {
    hide Accumulate, OrderSpends, StoredForm, WriteRow, InMemory, ProjectSpends, AccountSpends;
    var o := orders[|orders| - 1];
    var project := Accumulate(ProjectSoFar(p.projects, o.projectId), SpendsOf(env, w, o));
    MemoryStep(env, w, orders, p);
    UpsertExisting(env, p.tables.orders, OrderWrite(o.id), Key(o.id, w), TotalOf(SpendsOf(env, w, o)));
    UpsertExisting(env, p.tables.projects, ProjectWrite(o.id), Key(o.projectId, w), project);
  }

  lemma AccountSucceedsOverRows(env: Env, w: Window, a: Account, tables: Tables)
    requires AccountOk(env, w, a)
    requires HasRows(tables, AccountRows(env, w, a))
    ensures var run := BillAccount(env, w, a, tables);
            && run.error.None?
            && SameUids(run.tables, tables)
            && HasRows(run.tables, SpendOf(tables))
  {
    hide BillOrders, WriteRow, StoredForm, Accumulate, OrderRows, OrdersOk, AccountSpends;
    var orders := OrdersOf(env, a);
    OrderRowsNoAccounts(env, w, orders);
    OrdersSucceedOverRows(env, w, orders, tables);
    var after := BillOrders(env, w, orders, Start(tables)).progress;
    UpsertExisting(env, after.tables.accounts, AccountWrite(a.id), Key(a.id, w), after.account);
  }

  /** A run whose rows exist completes unless something other than a uid is wrong, and changes no uid. */
  lemma {:induction false} RunSucceedsOverRows(env: Env, w: Window, accounts: seq<Account>, tables: Tables)
    requires RunOk(env, w, accounts)
    requires HasRows(tables, RunRows(env, w, accounts))
    ensures var run := BillAccounts(env, w, accounts, tables);
            && run.error.None?
            && SameUids(run.tables, tables)
            && HasRows(run.tables, SpendOf(tables))
  {
    hide BillAccount, AccountOk, AccountRows;
    if |accounts| > 0 {
      var n := |accounts| - 1;
      assert RunOk(env, w, accounts[..n]);
      RunSucceedsOverRows(env, w, accounts[..n], tables);
      assert AccountOk(env, w, accounts[n]);
      AccountSucceedsOverRows(env, w, accounts[n], BillAccounts(env, w, accounts[..n], tables).tables);
    }
  }

  /** Two environments that read the same and refuse the same writes; the uids they send are their own. */
  ghost predicate SameData(a: Env, b: Env) {
    && (forall id :: a.ordersOf(id) == b.ordersOf(id))
    && (forall id :: a.leasesOf(id) == b.leasesOf(id))
    && (forall d :: a.hours(d) == b.hours(d))
    && (forall x :: a.refuses(x) == b.refuses(x))
  }

  lemma SameDataSameSpends(a: Env, b: Env, w: Window, o: Order)
    requires SameData(a, b)
    ensures OrderSpends(a, o, w) == OrderSpends(b, o, w)
  {
    hide SpendsOfCharges;
    if a.leasesOf(o.id).Some? {
      SameHoursSameSpends(a, b, Charges(a.leasesOf(o.id).value, w));
    }
  }

  lemma {:induction false} SameDataSameLists(a: Env, b: Env, w: Window, orders: seq<Order>, id: Id)
    requires SameData(a, b)
    ensures AccountSpends(a, w, orders) == AccountSpends(b, w, orders)
    ensures ProjectSpends(a, w, orders, id) == ProjectSpends(b, w, orders, id)
  {
    hide OrderSpends;
    if |orders| > 0 {
      SameDataSameLists(a, b, w, orders[..|orders| - 1], id);
      SameDataSameSpends(a, b, w, orders[|orders| - 1]);
    }
  }

  lemma {:induction false} SameDataSameOrderRows(a: Env, b: Env, w: Window, orders: seq<Order>)
    requires SameData(a, b)
    ensures OrderRows(a, w, orders) == OrderRows(b, w, orders)
    ensures OrdersOk(a, w, orders) <==> OrdersOk(b, w, orders)
  {
    hide OrderSpends, Stored, StoredForm, TotalOf, ProjectSpends;
    if |orders| > 0 {
      var o := orders[|orders| - 1];
      SameDataSameOrderRows(a, b, w, orders[..|orders| - 1]);
      SameDataSameSpends(a, b, w, o);
      SameDataSameLists(a, b, w, orders, o.projectId);
    }
  }

  lemma {:induction false} SameDataSameRun(a: Env, b: Env, w: Window, accounts: seq<Account>)
    requires SameData(a, b)
    ensures RunRows(a, w, accounts) == RunRows(b, w, accounts)
    ensures RunOk(a, w, accounts) <==> RunOk(b, w, accounts)
  {
    hide OrderRows, OrdersOk, Stored, StoredForm, TotalOf, AccountSpends;
    forall i | 0 <= i < |accounts| ensures AccountOk(a, w, accounts[i]) <==> AccountOk(b, w, accounts[i]) {
      SameDataSameOrderRows(a, b, w, OrdersOf(a, accounts[i]));
      SameDataSameLists(a, b, w, OrdersOf(a, accounts[i]), "");
    }
    if |accounts| > 0 {
      var n := |accounts| - 1;
      SameDataSameRun(a, b, w, accounts[..n]);
      SameDataSameOrderRows(a, b, w, OrdersOf(a, accounts[n]));
      SameDataSameLists(a, b, w, OrdersOf(a, accounts[n]), "");
    }
  }

  /**
   A completed run, repeated at once on the same data, completes again and leaves every row as it is, whatever uids
   it sends: the rows are there already and keep the uids they have.
   */
  lemma RepeatedRunChangesNothing(env: Env, again: Env, w: Window, accounts: seq<Account>, tables: Tables)
    requires Completes(env, w, accounts, tables) && SameData(env, again)
    ensures var after := BillAccounts(env, w, accounts, tables).tables;
            BillAccounts(again, w, accounts, after) == Outcome(None, after)
  {
    hide BillAccounts, RunRows, RunOk, SameData;
    var once := BillAccounts(env, w, accounts, tables).tables;
    var rows := RunRows(env, w, accounts);
    CompletedRunOverlaysItsRows(env, w, accounts, tables);
    SameDataSameRun(env, again, w, accounts);
    assert HasRows(once, rows);
    RunSucceedsOverRows(again, w, accounts, once);
    CompletedRunOverlaysItsRows(again, w, accounts, once);
    OverlayTwice(SpendOf(tables), rows);
  }

  lemma OverlayTwice(under: Spends, over: Spends)
    ensures Overlay(Overlay(under, over), over) == Overlay(under, over)
  {}
}
