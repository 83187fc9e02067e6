/**
 The primary key of the spend rows decides whether a run can complete. The biller never sets it, so every row is
 sent with the same uid; with a new uid for every write, as the tables' default would give, nothing but the
 run's own conditions matters.
 */
module BillingUids {
  import opened Wrappers
  import opened Decimals
  import opened Leases
  import opened LeaseTable
  import opened SpendStore
  import opened BillingRun
  import opened BillingRows
  import opened BillingLaws

  // ---------- The same uid for every row ----------

  predicate AllUids(t: Table, uid: Uid) {
    t.Valid() && forall k :: k in t.uid ==> t.uid[k] == uid
  }

  /** The tables hold only rows with this uid, as the biller leaves them. */
  predicate FedWith(t: Tables, uid: Uid) {
    AllUids(t.orders, uid) && AllUids(t.projects, uid) && AllUids(t.accounts, uid)
  }

  ghost predicate AtMostOne(keys: set<Key>) {
    forall j, k :: j in keys && k in keys ==> j == k
  }

  /** Old and new rows together are at most one per table. */
  ghost predicate OneRowEach(t: Tables, rows: Spends) {
    && AtMostOne(t.orders.spend.Keys + rows.orders.Keys)
    && AtMostOne(t.projects.spend.Keys + rows.projects.Keys)
    && AtMostOne(t.accounts.spend.Keys + rows.accounts.Keys)
  }

  lemma WriteKeepsUid(env: Env, t: Table, write: Write, key: Key, spend: Decimal, uid: Uid)
    requires AllUids(t, uid) && env.uid(write) == uid
    ensures WriteRow(env, t, write, key, spend).Some? ==> AllUids(WriteRow(env, t, write, key, spend).value, uid)
    ensures !env.refuses(write) && StoredForm(spend).Some? && AtMostOne(t.spend.Keys + {key}) ==>
              WriteRow(env, t, write, key, spend).Some?
  {
    hide StoredForm;
  }

  lemma {:induction false} OrdersKeepUid(env: Env, w: Window, orders: seq<Order>, p: Progress, uid: Uid)
    requires FedWith(p.tables, uid) && (forall x :: env.uid(x) == uid)
    ensures FedWith(BillOrders(env, w, orders, p).progress.tables, uid)
  {
    hide BillOrder, AllUids;
    if |orders| > 0 {
      var before := BillOrders(env, w, orders[..|orders| - 1], p).progress;
      OrdersKeepUid(env, w, orders[..|orders| - 1], p, uid);
      OrderKeepsUid(env, w, orders[|orders| - 1], before, uid);
    }
  }

  lemma OrderKeepsUid(env: Env, w: Window, o: Order, p: Progress, uid: Uid)
    requires FedWith(p.tables, uid) && (forall x :: env.uid(x) == uid)
    ensures FedWith(BillOrder(env, w, o, p).progress.tables, uid)
  {
    hide Accumulate, OrderSpends, WriteRow, AllUids;
    var ys := SpendsOf(env, w, o);
    WriteKeepsUid(env, p.tables.orders, OrderWrite(o.id), Key(o.id, w), TotalOf(ys), uid);
    WriteKeepsUid(env, p.tables.projects, ProjectWrite(o.id), Key(o.projectId, w),
                  Accumulate(ProjectSoFar(p.projects, o.projectId), ys), uid);
  }

  lemma {:induction false} RunKeepsUid(env: Env, w: Window, accounts: seq<Account>, tables: Tables, uid: Uid)
    requires FedWith(tables, uid) && (forall x :: env.uid(x) == uid)
    ensures FedWith(BillAccounts(env, w, accounts, tables).tables, uid)
  {
    hide BillAccount, AllUids;
    if |accounts| > 0 {
      RunKeepsUid(env, w, accounts[..|accounts| - 1], tables, uid);
      AccountKeepsUid(env, w, accounts[|accounts| - 1], BillAccounts(env, w, accounts[..|accounts| - 1], tables).tables, uid);
    }
  }

  lemma AccountKeepsUid(env: Env, w: Window, a: Account, tables: Tables, uid: Uid)
    requires FedWith(tables, uid) && (forall x :: env.uid(x) == uid)
    ensures FedWith(BillAccount(env, w, a, tables).tables, uid)
  {
    hide BillOrders, WriteRow, AllUids;
    if env.ordersOf(a.id).Some? {
      var orders := env.ordersOf(a.id).value;
      OrdersKeepUid(env, w, orders, Start(tables), uid);
      var after := BillOrders(env, w, orders, Start(tables)).progress;
      WriteKeepsUid(env, after.tables.accounts, AccountWrite(a.id), Key(a.id, w), after.account, uid);
    }
  }

  /** With at most one row per table nothing collides. */
  lemma {:induction false} OrdersSucceedWithOneRow(env: Env, w: Window, orders: seq<Order>, tables: Tables, uid: Uid)
    requires FedWith(tables, uid) && (forall x :: env.uid(x) == uid)
    requires OrdersOk(env, w, orders) && OneRowEach(tables, OrderRows(env, w, orders))
    ensures BillOrders(env, w, orders, Start(tables)).error.None?
  {
    hide BillOrder, Stored, TotalOf, LastOrderOk, ProjectSpends, SpendsOf, AllUids, AtMostOne;
    if |orders| > 0 {
      var front, o := orders[..|orders| - 1], orders[|orders| - 1];
      var rows, before := OrderRows(env, w, orders), OrderRows(env, w, front);
      AtMostOneSubset(tables.orders.spend.Keys + rows.orders.Keys, tables.orders.spend.Keys + before.orders.Keys);
      AtMostOneSubset(tables.projects.spend.Keys + rows.projects.Keys, tables.projects.spend.Keys + before.projects.Keys);
      AtMostOneSubset(tables.accounts.spend.Keys + rows.accounts.Keys, tables.accounts.spend.Keys + before.accounts.Keys);
      OrdersSucceedWithOneRow(env, w, front, tables, uid);
      OrdersEffect(env, w, front, tables);
      OrdersKeepUid(env, w, front, Start(tables), uid);
      var p := BillOrders(env, w, front, Start(tables)).progress;
      AtMostOneSubset(tables.orders.spend.Keys + rows.orders.Keys, p.tables.orders.spend.Keys + {Key(o.id, w)});
      AtMostOneSubset(tables.projects.spend.Keys + rows.projects.Keys, p.tables.projects.spend.Keys + {Key(o.projectId, w)});
      OrderSucceedsWithOneRow(env, w, orders, p, uid);
    }
  }

  lemma AtMostOneSubset(big: set<Key>, small: set<Key>)
    requires AtMostOne(big) && small <= big
    ensures AtMostOne(small)
  {}

  lemma OrderSucceedsWithOneRow(env: Env, w: Window, orders: seq<Order>, p: Progress, uid: Uid)
    requires FedWith(p.tables, uid) && (forall x :: env.uid(x) == uid)
    requires |orders| > 0 && LastOrderOk(env, w, orders) && InMemory(env, w, orders[..|orders| - 1], p)
    requires AtMostOne(p.tables.orders.spend.Keys + {Key(orders[|orders| - 1].id, w)})
    requires AtMostOne(p.tables.projects.spend.Keys + {Key(orders[|orders| - 1].projectId, w)})
    ensures BillOrder(env, w, orders[|orders| - 1], p).error.None?
  {
    hide Accumulate, OrderSpends, StoredForm, WriteRow, AllUids, AtMostOne, ProjectSpends, AccountSpends;
    var front, o := orders[..|orders| - 1], orders[|orders| - 1];
    var ys := SpendsOf(env, w, o);
    MemoryStep(env, w, orders, p);
    WriteKeepsUid(env, p.tables.orders, OrderWrite(o.id), Key(o.id, w), TotalOf(ys), uid);
    WriteKeepsUid(env, p.tables.projects, ProjectWrite(o.id), Key(o.projectId, w),
                  Accumulate(ProjectSoFar(p.projects, o.projectId), ys), uid);
  }

  lemma AccountSucceedsWithOneRow(env: Env, w: Window, a: Account, tables: Tables, uid: Uid)
    requires FedWith(tables, uid) && (forall x :: env.uid(x) == uid)
    requires AccountOk(env, w, a) && OneRowEach(tables, AccountRows(env, w, a))
    ensures BillAccount(env, w, a, tables).error.None?
  {
    hide BillOrders, WriteRow, AllUids, OrderRows, OrdersOk, StoredForm, Stored, TotalOf, AccountSpends, AtMostOne;
    var orders := OrdersOf(env, a);
    OrderRowsNoAccounts(env, w, orders);
    AtMostOneSubset(tables.accounts.spend.Keys + AccountRows(env, w, a).accounts.Keys, tables.accounts.spend.Keys);
    assert tables.accounts.spend.Keys + OrderRows(env, w, orders).accounts.Keys == tables.accounts.spend.Keys;
    OrdersSucceedWithOneRow(env, w, orders, tables, uid);
    OrdersEffect(env, w, orders, tables);
    OrdersKeepUid(env, w, orders, Start(tables), uid);
    var after := BillOrders(env, w, orders, Start(tables)).progress;
    assert AccountRows(env, w, a).accounts.Keys == {Key(a.id, w)};
    WriteKeepsUid(env, after.tables.accounts, AccountWrite(a.id), Key(a.id, w), after.account, uid);
  }

  lemma {:induction false} RunSucceedsWithOneRow(env: Env, w: Window, accounts: seq<Account>, tables: Tables, uid: Uid)
    requires FedWith(tables, uid) && (forall x :: env.uid(x) == uid)
    requires RunOk(env, w, accounts) && OneRowEach(tables, RunRows(env, w, accounts))
    ensures Completes(env, w, accounts, tables)
  {
    hide BillAccount, AccountOk, AccountRows, AllUids, AtMostOne;
    if |accounts| > 0 {
      var front, a := accounts[..|accounts| - 1], accounts[|accounts| - 1];
      var rows, before, mine := RunRows(env, w, accounts), RunRows(env, w, front), AccountRows(env, w, a);
      assert RunOk(env, w, front);
      AtMostOneSubset(tables.orders.spend.Keys + rows.orders.Keys, tables.orders.spend.Keys + before.orders.Keys);
      AtMostOneSubset(tables.projects.spend.Keys + rows.projects.Keys, tables.projects.spend.Keys + before.projects.Keys);
      AtMostOneSubset(tables.accounts.spend.Keys + rows.accounts.Keys, tables.accounts.spend.Keys + before.accounts.Keys);
      RunSucceedsWithOneRow(env, w, front, tables, uid);
      CompletedRunOverlaysItsRows(env, w, front, tables);
      RunKeepsUid(env, w, front, tables, uid);
      var t := BillAccounts(env, w, front, tables).tables;
      AtMostOneSubset(tables.orders.spend.Keys + rows.orders.Keys, t.orders.spend.Keys + mine.orders.Keys);
      AtMostOneSubset(tables.projects.spend.Keys + rows.projects.Keys, t.projects.spend.Keys + mine.projects.Keys);
      AtMostOneSubset(tables.accounts.spend.Keys + rows.accounts.Keys, t.accounts.spend.Keys + mine.accounts.Keys);
      assert AccountOk(env, w, accounts[|accounts| - 1]);
      AccountSucceedsWithOneRow(env, w, a, t, uid);
    }
  }

  /**
   The biller as written sends the same uid with every row. A run then completes exactly when nothing else is
   wrong and old and new rows together are at most one per table.
   */
  lemma ConstantUidCompletesExactlyWithOneRow(env: Env, w: Window, accounts: seq<Account>, tables: Tables, uid: Uid)
    requires FedWith(tables, uid) && (forall x :: env.uid(x) == uid)
    ensures Completes(env, w, accounts, tables) <==>
            RunOk(env, w, accounts) && OneRowEach(tables, RunRows(env, w, accounts))
  {
    hide BillAccounts, RunRows, RunOk;
    if Completes(env, w, accounts, tables) {
      CompletedRunOverlaysItsRows(env, w, accounts, tables);
      RunKeepsUid(env, w, accounts, tables, uid);
      var after := BillAccounts(env, w, accounts, tables).tables;
      assert after.orders.spend.Keys == tables.orders.spend.Keys + RunRows(env, w, accounts).orders.Keys;
      assert after.projects.spend.Keys == tables.projects.spend.Keys + RunRows(env, w, accounts).projects.Keys;
      assert after.accounts.spend.Keys == tables.accounts.spend.Keys + RunRows(env, w, accounts).accounts.Keys;
    }
    if RunOk(env, w, accounts) && OneRowEach(tables, RunRows(env, w, accounts)) {
      RunSucceedsWithOneRow(env, w, accounts, tables, uid);
    }
  }

  /** So a run over two accounts never completes as written. */
  lemma TwoAccountsNeverComplete(env: Env, w: Window, accounts: seq<Account>, tables: Tables, uid: Uid)
    requires FedWith(tables, uid) && (forall x :: env.uid(x) == uid)
    requires |accounts| >= 2 && DistinctAccounts(accounts)
    ensures !Completes(env, w, accounts, tables)
  {
    hide BillAccounts, OrderRows, TotalOf, AccountSpends, Stored;
    var first, second := Key(accounts[0].id, w), Key(accounts[1].id, w);
    assert first != second;
    if Completes(env, w, accounts, tables) {
      ConstantUidCompletesExactlyWithOneRow(env, w, accounts, tables, uid);
      forall i | 0 <= i < 2 ensures Key(accounts[i].id, w) in RunRows(env, w, accounts).accounts {
        LastListedAccountDecides(env, w, accounts, i, Accounts, Key(accounts[i].id, w));
      }
      NotBoth(tables.accounts.spend.Keys + RunRows(env, w, accounts).accounts.Keys, first, second);
    }
  }

  lemma NotBoth(keys: set<Key>, j: Key, k: Key)
    requires AtMostOne(keys) && j != k
    ensures j !in keys || k !in keys
  {}

  // ---------- A new uid for every write ----------

  predicate UidsWithin(t: Table, before: Table, env: Env, writes: set<Write>) {
    forall k :: k in t.uid ==> t.uid[k] in before.uid.Values || exists x :: x in writes && t.uid[k] == env.uid(x)
  }

  /** Every uid in the tables was there before or was sent with one of these writes. */
  predicate Within(t: Tables, before: Tables, env: Env, writes: set<Write>) {
    && UidsWithin(t.orders, before.orders, env, writes)
    && UidsWithin(t.projects, before.projects, env, writes)
    && UidsWithin(t.accounts, before.accounts, env, writes)
  }

  /** Each of these writes has a uid of its own, and none that the tables already hold. */
  ghost predicate FreshUids(env: Env, writes: set<Write>, t: Tables) {
    && (forall x, y :: x in writes && y in writes && env.uid(x) == env.uid(y) ==> x == y)
    && (forall x :: x in writes ==>
                      env.uid(x) !in t.orders.uid.Values + t.projects.uid.Values + t.accounts.uid.Values)
  }

  function OrderWrites(orders: seq<Order>): set<Write> {
    if |orders| == 0 then {}
    else OrderWrites(orders[..|orders| - 1]) + {OrderWrite(orders[|orders| - 1].id), ProjectWrite(orders[|orders| - 1].id)}
  }

  /** No order is billed twice. */
  predicate EachOrderOnce(orders: seq<Order>, writes: set<Write>) {
    |orders| > 0 ==>
      && EachOrderOnce(orders[..|orders| - 1], writes)
      && OrderWrite(orders[|orders| - 1].id) !in writes + OrderWrites(orders[..|orders| - 1])
      && ProjectWrite(orders[|orders| - 1].id) !in writes + OrderWrites(orders[..|orders| - 1])
  }

  function RunWrites(env: Env, accounts: seq<Account>): set<Write> {
    if |accounts| == 0 then {}
    else RunWrites(env, accounts[..|accounts| - 1]) + OrderWrites(OrdersOf(env, accounts[|accounts| - 1])) +
         {AccountWrite(accounts[|accounts| - 1].id)}
  }

  /** No account and no order is billed twice. */
  predicate EachOnce(env: Env, accounts: seq<Account>) {
    |accounts| > 0 ==>
      && EachOnce(env, accounts[..|accounts| - 1])
      && EachOrderOnce(OrdersOf(env, accounts[|accounts| - 1]), RunWrites(env, accounts[..|accounts| - 1]))
      && AccountWrite(accounts[|accounts| - 1].id) !in
         RunWrites(env, accounts[..|accounts| - 1]) + OrderWrites(OrdersOf(env, accounts[|accounts| - 1]))
  }

  /** A write that was not made yet finds its uid free. */
  lemma FreshWrite(env: Env, t: Table, before: Table, writes: set<Write>, write: Write, key: Key, spend: Decimal)
    requires UidsWithin(t, before, env, writes) && write !in writes
    requires forall x :: x in writes && env.uid(x) == env.uid(write) ==> x == write
    requires env.uid(write) !in before.uid.Values
    requires !env.refuses(write) && StoredForm(spend).Some?
    ensures WriteRow(env, t, write, key, spend).Some?
    ensures UidsWithin(WriteRow(env, t, write, key, spend).value, before, env, writes + {write})
  {
    hide StoredForm;
    var after := WriteRow(env, t, write, key, spend);
    assert after.Some?;
    forall k | k in after.value.uid
      ensures after.value.uid[k] in before.uid.Values ||
              exists x :: x in writes + {write} && after.value.uid[k] == env.uid(x)
    {
      if k in t.uid && after.value.uid[k] == t.uid[k] {
        if t.uid[k] !in before.uid.Values {
          var x :| x in writes && t.uid[k] == env.uid(x);
          assert x in writes + {write};
        }
      } else {
        assert write in writes + {write};
      }
    }
  }

  lemma WithinMore(t: Table, before: Table, env: Env, writes: set<Write>, more: set<Write>)
    requires UidsWithin(t, before, env, writes) && writes <= more
    ensures UidsWithin(t, before, env, more)
  {}

  lemma OrderSucceedsFresh(env: Env, w: Window, orders: seq<Order>, p: Progress, before: Tables, writes: set<Write>,
                           all: set<Write>)
    requires |orders| > 0 && LastOrderOk(env, w, orders) && InMemory(env, w, orders[..|orders| - 1], p)
    requires FreshUids(env, all, before) && Within(p.tables, before, env, writes)
    requires writes + OrderWrites(orders) <= all
    requires OrderWrite(orders[|orders| - 1].id) !in writes && ProjectWrite(orders[|orders| - 1].id) !in writes
    ensures var o := orders[|orders| - 1];
            var step := BillOrder(env, w, o, p);
            && step.error.None?
            && Within(step.progress.tables, before, env, writes + {OrderWrite(o.id), ProjectWrite(o.id)})
  {
    hide Accumulate, OrderSpends, StoredForm, WriteRow, UidsWithin, InMemory, ProjectSpends, AccountSpends;
    var o := orders[|orders| - 1];
    var ys := SpendsOf(env, w, o);
    var project := Accumulate(ProjectSoFar(p.projects, o.projectId), ys);
    var more := writes + {OrderWrite(o.id), ProjectWrite(o.id)};
    MemoryStep(env, w, orders, p);
    FreshWrite(env, p.tables.orders, before.orders, writes, OrderWrite(o.id), Key(o.id, w), TotalOf(ys));
    FreshWrite(env, p.tables.projects, before.projects, writes, ProjectWrite(o.id), Key(o.projectId, w), project);
    var after := BillOrder(env, w, o, p).progress.tables;
    WithinMore(after.orders, before.orders, env, writes + {OrderWrite(o.id)}, more);
    WithinMore(after.projects, before.projects, env, writes + {ProjectWrite(o.id)}, more);
    WithinMore(after.accounts, before.accounts, env, writes, more);
  }

  lemma {:induction false} OrdersSucceedFresh(env: Env, w: Window, orders: seq<Order>, tables: Tables, before: Tables,
                                              writes: set<Write>, all: set<Write>)
    requires OrdersOk(env, w, orders) && EachOrderOnce(orders, writes)
    requires FreshUids(env, all, before) && Within(tables, before, env, writes)
    requires writes + OrderWrites(orders) <= all
    ensures var step := BillOrders(env, w, orders, Start(tables));
            && step.error.None?
            && Within(step.progress.tables, before, env, writes + OrderWrites(orders))
  {
    hide BillOrder, Stored, TotalOf, LastOrderOk, ProjectSpends, SpendsOf, UidsWithin, InMemory, FreshUids;
    if |orders| == 0 {
      assert writes + OrderWrites(orders) == writes;
    } else {
      var front, o := orders[..|orders| - 1], orders[|orders| - 1];
      OrdersSucceedFresh(env, w, front, tables, before, writes, all);
      OrdersEffect(env, w, front, tables);
      OrderSucceedsFresh(env, w, orders, BillOrders(env, w, front, Start(tables)).progress, before,
                         writes + OrderWrites(front), all);
      assert writes + OrderWrites(orders) == writes + OrderWrites(front) + {OrderWrite(o.id), ProjectWrite(o.id)};
    }
  }

  lemma AccountSucceedsFresh(env: Env, w: Window, a: Account, tables: Tables, before: Tables, writes: set<Write>,
                             all: set<Write>)
    requires AccountOk(env, w, a) && EachOrderOnce(OrdersOf(env, a), writes)
    requires AccountWrite(a.id) !in writes + OrderWrites(OrdersOf(env, a))
    requires FreshUids(env, all, before) && Within(tables, before, env, writes)
    requires writes + OrderWrites(OrdersOf(env, a)) + {AccountWrite(a.id)} <= all
    ensures var run := BillAccount(env, w, a, tables);
            && run.error.None?
            && Within(run.tables, before, env, writes + OrderWrites(OrdersOf(env, a)) + {AccountWrite(a.id)})
  {
    hide BillOrders, WriteRow, UidsWithin, OrdersOk, StoredForm, TotalOf, AccountSpends, OrderWrites, EachOrderOnce;
    var orders := OrdersOf(env, a);
    OrdersSucceedFresh(env, w, orders, tables, before, writes, all);
    OrdersEffect(env, w, orders, tables);
    var after := BillOrders(env, w, orders, Start(tables)).progress;
    var done := writes + OrderWrites(orders);
    FreshWrite(env, after.tables.accounts, before.accounts, done, AccountWrite(a.id), Key(a.id, w), after.account);
    WithinMore(after.tables.orders, before.orders, env, done, done + {AccountWrite(a.id)});
    WithinMore(after.tables.projects, before.projects, env, done, done + {AccountWrite(a.id)});
  }

  lemma {:induction false} RunSucceedsFresh(env: Env, w: Window, accounts: seq<Account>, tables: Tables, all: set<Write>)
    requires RunOk(env, w, accounts) && EachOnce(env, accounts)
    requires FreshUids(env, all, tables) && RunWrites(env, accounts) <= all
    ensures Completes(env, w, accounts, tables)
    ensures Within(BillAccounts(env, w, accounts, tables).tables, tables, env, RunWrites(env, accounts))
  {
    hide BillAccount, AccountOk, FreshUids, OrderWrites, EachOrderOnce;
    if |accounts| > 0 {
      var front, a := accounts[..|accounts| - 1], accounts[|accounts| - 1];
      assert RunOk(env, w, front);
      RunSucceedsFresh(env, w, front, tables, all);
      assert AccountOk(env, w, accounts[|accounts| - 1]);
      hide UidsWithin;
      AccountSucceedsFresh(env, w, a, BillAccounts(env, w, front, tables).tables, tables, RunWrites(env, front), all);
    }
  }

  /** With a new uid for each of its writes, a run that bills nothing twice completes exactly when nothing else is wrong. */
  lemma FreshUidsCompleteExactlyWhenOk(env: Env, w: Window, accounts: seq<Account>, tables: Tables)
    requires EachOnce(env, accounts) && FreshUids(env, RunWrites(env, accounts), tables)
    ensures Completes(env, w, accounts, tables) <==> RunOk(env, w, accounts)
  {
    hide BillAccounts, EachOnce, FreshUids, RunWrites;
    if Completes(env, w, accounts, tables) {
      CompletedRunOverlaysItsRows(env, w, accounts, tables);
    }
    if RunOk(env, w, accounts) {
      RunSucceedsFresh(env, w, accounts, tables, RunWrites(env, accounts));
    }
  }

  // ---------- Runs that bill nothing twice ----------

  lemma {:induction false} OrderWritesAre(orders: seq<Order>)
    ensures forall x :: x in OrderWrites(orders) <==>
                          !x.AccountWrite? && exists i :: 0 <= i < |orders| && orders[i].id == x.orderId
  {
    if |orders| > 0 {
      var n := |orders| - 1;
      OrderWritesAre(orders[..n]);
      forall x: Write | !x.AccountWrite?
        ensures (exists i :: 0 <= i < |orders| && orders[i].id == x.orderId) <==>
                (exists i :: 0 <= i < n && orders[..n][i].id == x.orderId) || orders[n].id == x.orderId
      {
        if i :| 0 <= i < n && orders[..n][i].id == x.orderId {
          assert orders[i].id == x.orderId;
        }
        if i :| 0 <= i < |orders| && orders[i].id == x.orderId && i < n {
          assert orders[..n][i].id == x.orderId;
        }
      }
    }
  }

  lemma {:induction false} RunWritesAre(env: Env, accounts: seq<Account>)
    ensures forall id :: AccountWrite(id) in RunWrites(env, accounts) <==>
                           exists i :: 0 <= i < |accounts| && accounts[i].id == id
    ensures forall x :: x in RunWrites(env, accounts) && !x.AccountWrite? ==>
                          exists i :: 0 <= i < |accounts| && x in OrderWrites(OrdersOf(env, accounts[i]))
    ensures forall i :: 0 <= i < |accounts| ==> OrderWrites(OrdersOf(env, accounts[i])) <= RunWrites(env, accounts)
  {
    hide OrderWrites, OrdersOf;
    if |accounts| > 0 {
      var n := |accounts| - 1;
      var front := accounts[..n];
      RunWritesAre(env, front);
      assert forall i :: 0 <= i < n ==> front[i] == accounts[i];
      OrderWritesAre(OrdersOf(env, accounts[n]));
      forall id ensures AccountWrite(id) in RunWrites(env, accounts) <==>
                        exists i :: 0 <= i < |accounts| && accounts[i].id == id
      {
        if i :| 0 <= i < n && front[i].id == id {
          assert accounts[i].id == id;
        }
        if i :| 0 <= i < |accounts| && accounts[i].id == id && i < n {
          assert front[i].id == id;
        }
        assert accounts[n].id == id ==> AccountWrite(id) in RunWrites(env, accounts);
      }
      forall x | x in RunWrites(env, accounts) && !x.AccountWrite?
        ensures exists i :: 0 <= i < |accounts| && x in OrderWrites(OrdersOf(env, accounts[i]))
      {
        if x in RunWrites(env, front) {
          var i :| 0 <= i < n && x in OrderWrites(OrdersOf(env, front[i]));
          assert x in OrderWrites(OrdersOf(env, accounts[i]));
        } else {
          assert x in OrderWrites(OrdersOf(env, accounts[n]));
        }
      }
    }
  }

  lemma {:induction false} DistinctOrdersOnce(orders: seq<Order>, writes: set<Write>)
    requires DistinctOrders(orders)
    requires forall x :: x in writes && !x.AccountWrite? ==> forall i :: 0 <= i < |orders| ==> orders[i].id != x.orderId
    ensures EachOrderOnce(orders, writes)
  {
    if |orders| > 0 {
      var n := |orders| - 1;
      assert forall i :: 0 <= i < n ==> orders[..n][i] == orders[i];
      DistinctOrdersOnce(orders[..n], writes);
      OrderWritesAre(orders[..n]);
    }
  }

  /** No order is listed twice, neither under one account nor under two. */
  ghost predicate DistinctListings(env: Env, accounts: seq<Account>) {
    && (forall i :: 0 <= i < |accounts| ==> DistinctOrders(OrdersOf(env, accounts[i])))
    && (forall i, j, k, n :: 0 <= i < j < |accounts| && 0 <= k < |OrdersOf(env, accounts[i])| &&
                             0 <= n < |OrdersOf(env, accounts[j])| ==>
                               OrdersOf(env, accounts[i])[k].id != OrdersOf(env, accounts[j])[n].id)
  }

  lemma {:induction false} DistinctRunsOnce(env: Env, accounts: seq<Account>)
    requires DistinctAccounts(accounts) && DistinctListings(env, accounts)
    ensures EachOnce(env, accounts)
  {
    hide OrdersOf, DistinctOrders, EachOrderOnce, OrderWrites, RunWrites;
    if |accounts| > 0 {
      var n := |accounts| - 1;
      var front, orders := accounts[..n], OrdersOf(env, accounts[n]);
      assert forall i :: 0 <= i < n ==> front[i] == accounts[i];
      DistinctRunsOnce(env, front);
      RunWritesAre(env, front);
      OrderWritesAre(orders);
      forall x | x in RunWrites(env, front) && !x.AccountWrite?
        ensures forall k :: 0 <= k < |orders| ==> orders[k].id != x.orderId
      {
        var i :| 0 <= i < n && x in OrderWrites(OrdersOf(env, front[i]));
        OrderWritesAre(OrdersOf(env, front[i]));
      }
      DistinctOrdersOnce(orders, RunWrites(env, front));
    }
  }
}
