/**
 What a run writes, described without the run: the rows as functions of the query results alone. A run that
 completes lays exactly these rows over the tables it started from.
 */
module BillingRows {
  import opened Wrappers
  import opened Decimals
  import opened Leases
  import opened LeaseTable
  import opened SpendStore
  import opened BillingRun

  // ---------- The spends behind each total ----------

  function SpendsOf(env: Env, w: Window, o: Order): seq<Dec> {
    var spends := OrderSpends(env, o, w);
    if spends.Ok? then spends.value else []
  }

  function AccountSpends(env: Env, w: Window, orders: seq<Order>): seq<Dec> {
    if |orders| == 0 then []
    else AccountSpends(env, w, orders[..|orders| - 1]) + SpendsOf(env, w, orders[|orders| - 1])
  }

  function ProjectSpends(env: Env, w: Window, orders: seq<Order>, projectId: Id): seq<Dec> {
    if |orders| == 0 then []
    else
      var before := ProjectSpends(env, w, orders[..|orders| - 1], projectId);
      if orders[|orders| - 1].projectId == projectId then before + SpendsOf(env, w, orders[|orders| - 1]) else before
  }

  function TotalOf(spends: seq<Dec>): Decimal {
    Accumulate(Finite(ZERO), spends)
  }

  // ---------- Rows ----------

  /** The amounts of the three tables, in units of 10^-18. */
  datatype Spends = Spends(orders: map<Key, int>, projects: map<Key, int>, accounts: map<Key, int>)

  const NOTHING := Spends(map[], map[], map[])

  function SpendOf(t: Tables): Spends {
    Spends(t.orders.spend, t.projects.spend, t.accounts.spend)
  }

  /** Rows written over existing ones: the newer amount wins. */
  function Overlay(under: Spends, over: Spends): Spends {
    Spends(under.orders + over.orders, under.projects + over.projects, under.accounts + over.accounts)
  }

  function Stored(d: Decimal): int {
    var s := StoredForm(d);
    if s.Some? then s.value else 0
  }

  /** The rows written while going through an account's orders. A project's row is written after each of its orders. */
  function OrderRows(env: Env, w: Window, orders: seq<Order>): Spends {
    if |orders| == 0 then
      NOTHING
    else
      var before := OrderRows(env, w, orders[..|orders| - 1]);
      var o := orders[|orders| - 1];
      before.(orders := before.orders[Key(o.id, w) := Stored(TotalOf(SpendsOf(env, w, o)))],
              projects := before.projects[Key(o.projectId, w) := Stored(TotalOf(ProjectSpends(env, w, orders, o.projectId)))])
  }

  function OrdersOf(env: Env, a: Account): seq<Order> {
    var orders := env.ordersOf(a.id);
    if orders.Some? then orders.value else []
  }

  function AccountRows(env: Env, w: Window, a: Account): Spends {
    OrderRows(env, w, OrdersOf(env, a)).(
      accounts := map[Key(a.id, w) := Stored(TotalOf(AccountSpends(env, w, OrdersOf(env, a))))])
  }

  function RunRows(env: Env, w: Window, accounts: seq<Account>): Spends {
    if |accounts| == 0 then NOTHING
    else Overlay(RunRows(env, w, accounts[..|accounts| - 1]), AccountRows(env, w, accounts[|accounts| - 1]))
  }

  lemma OverlayAssociative(a: Spends, b: Spends, c: Spends)
    ensures Overlay(Overlay(a, b), c) == Overlay(a, Overlay(b, c))
  {
    MapOverlayAssociative(a.orders, b.orders, c.orders);
    MapOverlayAssociative(a.projects, b.projects, c.projects);
    MapOverlayAssociative(a.accounts, b.accounts, c.accounts);
  }

  lemma MapOverlayAssociative(a: map<Key, int>, b: map<Key, int>, c: map<Key, int>)
    ensures (a + b) + c == a + (b + c)
  {}

  lemma UpdateOverlay(under: map<Key, int>, over: map<Key, int>, key: Key, amount: int)
    ensures (under + over)[key := amount] == under + over[key := amount]
  {}

  // ---------- A completed run, step by step ----------

  /** Nothing goes wrong with the last of some orders: its spends, its two amounts, its two writes. */
  predicate LastOrderOk(env: Env, w: Window, orders: seq<Order>)
    requires |orders| > 0
  {
    var o := orders[|orders| - 1];
    && OrderSpends(env, o, w).Ok?
    && StoredForm(TotalOf(SpendsOf(env, w, o))).Some?
    && StoredForm(TotalOf(ProjectSpends(env, w, orders, o.projectId))).Some?
    && !env.refuses(OrderWrite(o.id))
    && !env.refuses(ProjectWrite(o.id))
  }

  predicate OrdersOk(env: Env, w: Window, orders: seq<Order>) {
    |orders| > 0 ==> OrdersOk(env, w, orders[..|orders| - 1]) && LastOrderOk(env, w, orders)
  }

  predicate AccountOk(env: Env, w: Window, a: Account) {
    && env.ordersOf(a.id).Some?
    && OrdersOk(env, w, OrdersOf(env, a))
    && StoredForm(TotalOf(AccountSpends(env, w, OrdersOf(env, a)))).Some?
    && !env.refuses(AccountWrite(a.id))
  }

  /** Nothing goes wrong in the run, but perhaps a uid that is taken. */
  predicate RunOk(env: Env, w: Window, accounts: seq<Account>) {
    forall i :: 0 <= i < |accounts| ==> AccountOk(env, w, accounts[i])
  }

  /** The totals kept in memory after some orders. */
  ghost predicate InMemory(env: Env, w: Window, orders: seq<Order>, p: Progress) {
    && p.account == TotalOf(AccountSpends(env, w, orders))
    && forall id :: ProjectSoFar(p.projects, id) == TotalOf(ProjectSpends(env, w, orders, id))
  }

  lemma WriteRowEffect(env: Env, t: Table, write: Write, key: Key, spend: Decimal)
    requires WriteRow(env, t, write, key, spend).Some?
    ensures WriteRow(env, t, write, key, spend).value.spend == t.spend[key := Stored(spend)]
    ensures StoredForm(spend).Some? && !env.refuses(write)
  {
    hide StoredForm;
  }

  /** One more order: memory, tables and outcome agree with the description. */
  lemma OneMoreOrder(env: Env, w: Window, orders: seq<Order>, p: Progress)
    requires |orders| > 0
    requires InMemory(env, w, orders[..|orders| - 1], p)
    requires BillOrder(env, w, orders[|orders| - 1], p).error.None?
    ensures LastOrderOk(env, w, orders)
    ensures var o := orders[|orders| - 1];
            var after := BillOrder(env, w, o, p).progress;
            && InMemory(env, w, orders, after)
            && after.tables.orders.spend == p.tables.orders.spend[Key(o.id, w) := Stored(TotalOf(SpendsOf(env, w, o)))]
            && after.tables.projects.spend ==
               p.tables.projects.spend[Key(o.projectId, w) := Stored(TotalOf(ProjectSpends(env, w, orders, o.projectId)))]
            && after.tables.accounts == p.tables.accounts
  {
    hide Accumulate, StoredForm, OrderSpends, WriteRow;
    var front, o := orders[..|orders| - 1], orders[|orders| - 1];
    var ys := SpendsOf(env, w, o);
    AccumulateConcat(Finite(ZERO), AccountSpends(env, w, front), ys);
    AccumulateConcat(Finite(ZERO), ProjectSpends(env, w, front, o.projectId), ys);
    var project := Accumulate(ProjectSoFar(p.projects, o.projectId), ys);
    WriteRowEffect(env, p.tables.orders, OrderWrite(o.id), Key(o.id, w), TotalOf(ys));
    WriteRowEffect(env, p.tables.projects, ProjectWrite(o.id), Key(o.projectId, w), project);
    var after := BillOrder(env, w, o, p).progress;
    assert after.projects == p.projects[o.projectId := project];
    forall id ensures ProjectSoFar(after.projects, id) == TotalOf(ProjectSpends(env, w, orders, id)) {
      assert ProjectSoFar(p.projects, id) == TotalOf(ProjectSpends(env, w, front, id));
    }
    assert AccountSpends(env, w, orders) == AccountSpends(env, w, front) + ys;
    assert ProjectSpends(env, w, orders, o.projectId) == ProjectSpends(env, w, front, o.projectId) + ys;
  }

  /** The amount the last order writes for its project. */
  lemma MemoryStep(env: Env, w: Window, orders: seq<Order>, p: Progress)
    requires |orders| > 0
    requires InMemory(env, w, orders[..|orders| - 1], p)
    ensures var o := orders[|orders| - 1];
            Accumulate(ProjectSoFar(p.projects, o.projectId), SpendsOf(env, w, o)) ==
            TotalOf(ProjectSpends(env, w, orders, o.projectId))
  {
    hide Accumulate, SpendsOf;
    var front, o := orders[..|orders| - 1], orders[|orders| - 1];
    AccumulateConcat(Finite(ZERO), ProjectSpends(env, w, front, o.projectId), SpendsOf(env, w, o));
  }

  /** What going through the orders without an error leaves. */
  lemma {:induction false} OrdersEffect(env: Env, w: Window, orders: seq<Order>, tables: Tables)
    requires BillOrders(env, w, orders, Start(tables)).error.None?
    ensures OrdersOk(env, w, orders)
    ensures var after := BillOrders(env, w, orders, Start(tables)).progress;
            && InMemory(env, w, orders, after)
            && SpendOf(after.tables) == Overlay(SpendOf(tables), OrderRows(env, w, orders))
            && after.tables.accounts == tables.accounts
  {
    hide BillOrder, Stored, TotalOf, LastOrderOk, InMemory, ProjectSpends, SpendsOf;
    if |orders| == 0 {
      NoOrdersInMemory(env, w, tables);
      assert orders == [];
    } else {
      var front, o := orders[..|orders| - 1], orders[|orders| - 1];
      OrdersEffect(env, w, front, tables);
      var p := BillOrders(env, w, front, Start(tables)).progress;
      OneMoreOrder(env, w, orders, p);
      UpdateOverlay(tables.orders.spend, OrderRows(env, w, front).orders, Key(o.id, w), Stored(TotalOf(SpendsOf(env, w, o))));
      UpdateOverlay(tables.projects.spend, OrderRows(env, w, front).projects, Key(o.projectId, w),
                    Stored(TotalOf(ProjectSpends(env, w, orders, o.projectId))));
    }
  }

  lemma NoOrdersInMemory(env: Env, w: Window, tables: Tables)
    ensures InMemory(env, w, [], Start(tables))
  {}

  lemma AccountEffect(env: Env, w: Window, a: Account, tables: Tables)
    requires BillAccount(env, w, a, tables).error.None?
    ensures AccountOk(env, w, a)
    ensures SpendOf(BillAccount(env, w, a, tables).tables) == Overlay(SpendOf(tables), AccountRows(env, w, a))
  {
    hide BillOrders, WriteRow, StoredForm, Accumulate, OrderRows, OrdersOk, AccountSpends;
    var orders := OrdersOf(env, a);
    OrdersEffect(env, w, orders, tables);
    var after := BillOrders(env, w, orders, Start(tables)).progress;
    WriteRowEffect(env, after.tables.accounts, AccountWrite(a.id), Key(a.id, w), after.account);
    OrderRowsNoAccounts(env, w, orders);
  }

  lemma {:induction false} OrderRowsNoAccounts(env: Env, w: Window, orders: seq<Order>)
    ensures OrderRows(env, w, orders).accounts == map[]
  {
    if |orders| > 0 {
      OrderRowsNoAccounts(env, w, orders[..|orders| - 1]);
    }
  }

  /**
   A run that completes lays its rows over the tables it started from: the amounts afterwards are those of
   `RunRows`, which depend on the query results alone, and elsewhere those from before.
   */
  lemma {:induction false} CompletedRunOverlaysItsRows(env: Env, w: Window, accounts: seq<Account>, tables: Tables)
    requires Completes(env, w, accounts, tables)
    ensures RunOk(env, w, accounts)
    ensures SpendOf(BillAccounts(env, w, accounts, tables).tables) == Overlay(SpendOf(tables), RunRows(env, w, accounts))
  {
    hide BillAccount, AccountOk, AccountRows;
    if |accounts| > 0 {
      var front, a := accounts[..|accounts| - 1], accounts[|accounts| - 1];
      CompletedRunOverlaysItsRows(env, w, front, tables);
      var before := BillAccounts(env, w, front, tables).tables;
      AccountEffect(env, w, a, before);
      OverlayAssociative(SpendOf(tables), RunRows(env, w, front), AccountRows(env, w, a));
      forall i | 0 <= i < |accounts| ensures AccountOk(env, w, accounts[i]) {
        assert i < |front| ==> accounts[i] == front[i];
      }
    }
  }
}
