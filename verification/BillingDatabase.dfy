/**
 A run over the stored orders and leases: its rows against a sum written down in one line, and against lease
 events that happen after the window.
 */
module BillingDatabase {
  import opened Powers
  import opened Wrappers
  import opened Decimals
  import opened Leases
  import opened LeaseTable
  import opened SpendStore
  import opened BillingRun
  import opened BillingRows
  import opened BillingLaws
  import opened BillingAccuracy
  import opened BillingConservation

  datatype Database = Database(orders: seq<Order>, leases: seq<Lease>)

  /** The queries of a run answer from the database. */
  ghost predicate Reads(env: Env, db: Database, w: Window) {
    && (forall id :: env.ordersOf(id) == Some(OrdersFor(db.orders, id)))
    && (forall id :: env.leasesOf(id) == Some(LeasesFor(db.leases, id, w)))
  }

  // ---------- The simple sum ----------

  /** Hours times price of a lease, in units of 10^ETINY. */
  function LeaseUnits(hours: int -> Dec, l: Lease, w: Window): int {
    var product := ExactProduct(hours(BilledDuration(l, w)), l.priceHr);
    if product.exp >= ETINY then Units(product) else 0
  }

  /** Hours times price over all leases of an order that overlap the window. */
  function OrderSum(hours: int -> Dec, leases: seq<Lease>, orderId: Id, w: Window): int {
    if |leases| == 0 then 0
    else
      OrderSum(hours, leases[..|leases| - 1], orderId, w) +
      var l := leases[|leases| - 1];
      if Matches(l, orderId, w) then LeaseUnits(hours, l, w) else 0
  }

  /** The same over all orders of an account. */
  function AccountSum(hours: int -> Dec, orders: seq<Order>, leases: seq<Lease>, accountId: Id, w: Window): int {
    if |orders| == 0 then 0
    else
      var o := orders[|orders| - 1];
      AccountSum(hours, orders[..|orders| - 1], leases, accountId, w) +
      if o.accountId == accountId then OrderSum(hours, leases, o.id, w) else 0
  }

  function SumOfLeases(hours: int -> Dec, leases: seq<Lease>, w: Window): int {
    if |leases| == 0 then 0
    else SumOfLeases(hours, leases[..|leases| - 1], w) + LeaseUnits(hours, leases[|leases| - 1], w)
  }

  lemma {:induction false} OrderSumIsOverMatches(hours: int -> Dec, table: seq<Lease>, orderId: Id, w: Window)
    ensures SumOfLeases(hours, LeasesFor(table, orderId, w), w) == OrderSum(hours, table, orderId, w)
  {
    hide LeaseUnits, Matches;
    if |table| > 0 {
      var front, l := table[..|table| - 1], table[|table| - 1];
      var before := LeasesFor(front, orderId, w);
      OrderSumIsOverMatches(hours, front, orderId, w);
      assert (before + [l])[..|before|] == before;
    }
  }

  /** Accepted spends add up to the simple sum over the leases. */
  lemma {:induction false} SpendsAddUp(env: Env, leases: seq<Lease>, w: Window)
    requires SpendsOfCharges(env, Charges(leases, w)).Ok?
    ensures var ys := SpendsOfCharges(env, Charges(leases, w)).value;
            InUnits(ys) && TotalUnits(ys) == SumOfLeases(env.hours, leases, w)
  {
    hide CheckedTotal, LeaseSpend, Fits, LeaseUnits, Units;
    if |leases| > 0 {
      var l := leases[|leases| - 1];
      var charge := Charge(BilledDuration(l, w), l.priceHr);
      var cs := Charges(leases, w);
      assert cs[..|cs| - 1] == Charges(leases[..|leases| - 1], w);
      SpendsAddUp(env, leases[..|leases| - 1], w);
      LeaseSpendUnits(env, l, w);
      var ys := SpendsOfCharges(env, cs[..|cs| - 1]).value;
      var y := LeaseSpend(env, charge).value;
      assert (ys + [y])[..|ys|] == ys;
    }
  }

  lemma LeaseSpendUnits(env: Env, l: Lease, w: Window)
    requires LeaseSpend(env, Charge(BilledDuration(l, w), l.priceHr)).Some?
    ensures var y := LeaseSpend(env, Charge(BilledDuration(l, w), l.priceHr)).value;
            y.exp >= ETINY && Units(y) == LeaseUnits(env.hours, l, w)
  {
    hide LeaseSpend, Fits;
    LeaseSpendFits(env, Charge(BilledDuration(l, w), l.priceHr));
    FitsIsInUnits(LeaseSpend(env, Charge(BilledDuration(l, w), l.priceHr)).value);
  }

  lemma OrderTotalIsOrderSum(env: Env, db: Database, w: Window, o: Order)
    requires Reads(env, db, w) && OrderSpends(env, o, w).Ok?
    ensures OrderTotal(env, w, o) == OrderSum(env.hours, db.leases, o.id, w)
  {
    hide SpendsOfCharges;
    SpendsAddUp(env, LeasesFor(db.leases, o.id, w), w);
    OrderSumIsOverMatches(env.hours, db.leases, o.id, w);
  }

  lemma {:induction false} AccountTotalIsAccountSum(env: Env, db: Database, w: Window, orders: seq<Order>, accountId: Id)
    requires Reads(env, db, w) && orders <= db.orders
    requires forall o :: o in OrdersFor(orders, accountId) ==> OrderSpends(env, o, w).Ok?
    ensures AccountTotal(env, w, OrdersFor(orders, accountId)) == AccountSum(env.hours, orders, db.leases, accountId, w)
  {
    hide OrderSpends, OrderSum, OrderTotal, AccountTotal, Reads;
    if |orders| == 0 {
      NoOrdersTotal(env, w);
    } else {
      var front, o := orders[..|orders| - 1], orders[|orders| - 1];
      var listed := OrdersFor(front, accountId);
      AccountTotalIsAccountSum(env, db, w, front, accountId);
      if o.accountId == accountId {
        var all := listed + [o];
        assert all[..|all| - 1] == listed;
        assert o in OrdersFor(orders, accountId);
        TotalsStep(env, w, all, o.projectId);
        OrderTotalIsOrderSum(env, db, w, o);
      }
    }
  }

  /** The leases and prices in the database are sound. */
  predicate SoundDatabase(db: Database) {
    forall i :: 0 <= i < |db.leases| ==>
                  db.leases[i].WellFormed() && db.leases[i].priceHr.coeff >= 0 && NumDigits(db.leases[i].priceHr.coeff) <= 17
  }

  lemma SoundDatabaseGivesSoundOrders(env: Env, db: Database, w: Window, orders: seq<Order>)
    requires Reads(env, db, w) && SoundDatabase(db)
    ensures SoundOrders(env, w, orders)
  {
    hide NumDigits, Matches;
    forall i | 0 <= i < |orders| ensures SoundLeases(LeasesFor(db.leases, orders[i].id, w), orders[i].id, w) {
      LeasesForIsTheSelection(db.leases, orders[i].id, w);
      var leases := LeasesFor(db.leases, orders[i].id, w);
      forall j | 0 <= j < |leases| ensures leases[j] in db.leases && Matches(leases[j], orders[i].id, w) {
        assert leases[j] in leases;
      }
    }
  }

  lemma {:induction false} OrdersAreDistinct(table: seq<Order>, accountId: Id)
    requires DistinctOrders(table)
    ensures DistinctOrders(OrdersFor(table, accountId))
  {
    if |table| > 0 {
      var front, o := table[..|table| - 1], table[|table| - 1];
      OrdersAreDistinct(front, accountId);
      OrdersForIsTheSelection(front, accountId);
      var listed := OrdersFor(front, accountId);
      forall i | 0 <= i < |listed| ensures listed[i].id != o.id {
        assert listed[i] in front;
      }
    }
  }

  /**
   The main refinement. A completed run over a database with sound leases stores, for every listed account, the sum
   of hours times price over all leases of all its orders, to within (n + 1) / 2 units of 10^-18 for n leases.
   */
  lemma AccountRowIsTheSum(env: Env, db: Database, w: Window, accounts: seq<Account>, tables: Tables, i: nat)
    requires w.Valid() && HoursContract(env.hours) && Reads(env, db, w) && SoundDatabase(db)
    requires Completes(env, w, accounts, tables) && DistinctAccounts(accounts) && i < |accounts|
    ensures var n := |AccountSpends(env, w, OrdersFor(db.orders, accounts[i].id))|;
            && Key(accounts[i].id, w) in RowsAfter(env, w, accounts, tables).accounts
            && 2 * Abs(RowsAfter(env, w, accounts, tables).accounts[Key(accounts[i].id, w)] * StoredUnit()
                       - AccountSum(env.hours, db.orders, db.leases, accounts[i].id, w)) <= (n + 1) * StoredUnit()
  {
    hide HoursContract, SoundOrders, Completes, RowsAfter, AccountSpends, StoredUnit, SoundDatabase, AccountSum, TotalUnits,
      OrdersFor, DistinctAccounts;
    var orders := OrdersFor(db.orders, accounts[i].id);
    assert OrdersOf(env, accounts[i]) == orders;
    SoundDatabaseGivesSoundOrders(env, db, w, orders);
    AccountRowAccuracy(env, w, accounts, tables, i);
    CompletedAccountSum(env, db, w, accounts, tables, i);
  }

  lemma CompletedAccountSum(env: Env, db: Database, w: Window, accounts: seq<Account>, tables: Tables, i: nat)
    requires Reads(env, db, w) && Completes(env, w, accounts, tables) && i < |accounts|
    ensures AccountTotal(env, w, OrdersFor(db.orders, accounts[i].id)) ==
            AccountSum(env.hours, db.orders, db.leases, accounts[i].id, w)
  {
    hide OrderSpends, RunRows, OrdersFor, BillAccounts, AccountTotal, AccountSum, OrdersOk;
    var orders := OrdersFor(db.orders, accounts[i].id);
    CompletedRunOverlaysItsRows(env, w, accounts, tables);
    assert AccountOk(env, w, accounts[i]);
    assert OrdersOf(env, accounts[i]) == orders;
    AllOrdersOk(env, w, orders);
    AccountTotalIsAccountSum(env, db, w, db.orders, accounts[i].id);
  }

  lemma CompletedOrderSum(env: Env, db: Database, w: Window, accounts: seq<Account>, tables: Tables, i: nat, k: nat)
    requires Reads(env, db, w) && Completes(env, w, accounts, tables)
    requires i < |accounts| && k < |OrdersFor(db.orders, accounts[i].id)|
    ensures OrderTotal(env, w, OrdersFor(db.orders, accounts[i].id)[k]) ==
            OrderSum(env.hours, db.leases, OrdersFor(db.orders, accounts[i].id)[k].id, w)
  {
    hide OrderSpends, RunRows, OrdersFor, BillAccounts, OrderTotal, OrderSum, OrdersOk;
    var orders := OrdersFor(db.orders, accounts[i].id);
    CompletedRunOverlaysItsRows(env, w, accounts, tables);
    assert AccountOk(env, w, accounts[i]);
    assert OrdersOf(env, accounts[i]) == orders;
    AllOrdersOk(env, w, orders);
    assert orders[k] in orders;
    OrderTotalIsOrderSum(env, db, w, orders[k]);
  }

  lemma AllOrdersOk(env: Env, w: Window, orders: seq<Order>)
    requires OrdersOk(env, w, orders)
    ensures forall o :: o in orders ==> OrderSpends(env, o, w).Ok?
  {
    hide OrderSpends, OrdersOk, StoredForm;
    forall o | o in orders ensures OrderSpends(env, o, w).Ok? {
      var k :| 0 <= k < |orders| && orders[k] == o;
      OrderIsOk(env, w, orders, k);
    }
  }

  /** Whatever the leases and prices, it stores for every order the sum over that order's leases, rounded once. */
  lemma OrderRowIsTheSum(env: Env, db: Database, w: Window, accounts: seq<Account>, tables: Tables, i: nat, k: nat)
    requires Reads(env, db, w) && DistinctOrders(db.orders)
    requires Completes(env, w, accounts, tables) && DistinctAccounts(accounts)
    requires i < |accounts| && k < |OrdersFor(db.orders, accounts[i].id)|
    ensures var o := OrdersFor(db.orders, accounts[i].id)[k];
            && Key(o.id, w) in RowsAfter(env, w, accounts, tables).orders
            && 2 * Abs(RowsAfter(env, w, accounts, tables).orders[Key(o.id, w)] * StoredUnit()
                       - OrderSum(env.hours, db.leases, o.id, w)) <= StoredUnit()
  {
    hide RowsAfter, Completes, StoredUnit, SpendsOf, TotalUnits, OrderSum, OrdersFor, ListedOnce, DistinctOrders,
      DistinctAccounts;
    assert OrdersOf(env, accounts[i]) == OrdersFor(db.orders, accounts[i].id);
    ListedOnceInDatabase(env, db, w, accounts, i, k);
    OrderRowAccuracy(env, w, accounts, tables, i, k);
    CompletedOrderSum(env, db, w, accounts, tables, i, k);
  }

  lemma ListedOnceInDatabase(env: Env, db: Database, w: Window, accounts: seq<Account>, i: nat, k: nat)
    requires Reads(env, db, w) && DistinctOrders(db.orders) && DistinctAccounts(accounts)
    requires i < |accounts| && k < |OrdersOf(env, accounts[i])|
    ensures ListedOnce(env, accounts, i, k)
  {
    var orders := OrdersFor(db.orders, accounts[i].id);
    OrdersAreDistinct(db.orders, accounts[i].id);
    OrdersForIsTheSelection(db.orders, accounts[i].id);
    assert orders[k] in orders;
    forall j | i < j < |accounts| ensures !ListsOrder(OrdersOf(env, accounts[j]), orders[k].id) {
      var others := OrdersFor(db.orders, accounts[j].id);
      OrdersForIsTheSelection(db.orders, accounts[j].id);
      if ListsOrder(others, orders[k].id) {
        var m :| 0 <= m < |others| && others[m].id == orders[k].id;
        assert others[m] in others;
        SameIdSameOrder(db.orders, others[m], orders[k]);
      }
    }
  }

  lemma SameIdSameOrder(table: seq<Order>, a: Order, b: Order)
    requires DistinctOrders(table) && a in table && b in table && a.id == b.id
    ensures a == b
  {
    var i :| 0 <= i < |table| && table[i] == a;
    var j :| 0 <= j < |table| && table[j] == b;
  }

  // ---------- Events after the window ----------

  /** Two environments that a run cannot tell apart. */
  ghost predicate Alike(a: Env, b: Env, w: Window) {
    && (forall id :: a.ordersOf(id) == b.ordersOf(id))
    && (forall o :: OrderSpends(a, o, w) == OrderSpends(b, o, w))
    && (forall x :: a.uid(x) == b.uid(x))
    && (forall x :: a.refuses(x) == b.refuses(x))
  }

  lemma {:induction false} AlikeOrders(a: Env, b: Env, w: Window, orders: seq<Order>, p: Progress)
    requires Alike(a, b, w)
    ensures BillOrders(a, w, orders, p) == BillOrders(b, w, orders, p)
  {
    hide OrderSpends, Upsert, Accumulate;
    if |orders| > 0 {
      AlikeOrders(a, b, w, orders[..|orders| - 1], p);
    }
  }

  lemma {:induction false} AlikeRuns(a: Env, b: Env, w: Window, accounts: seq<Account>, tables: Tables)
    requires Alike(a, b, w)
    ensures BillAccounts(a, w, accounts, tables) == BillAccounts(b, w, accounts, tables)
  {
    hide OrderSpends, Upsert, BillOrders;
    if |accounts| > 0 {
      var front, last := accounts[..|accounts| - 1], accounts[|accounts| - 1];
      AlikeRuns(a, b, w, front, tables);
      if a.ordersOf(last.id).Some? {
        AlikeOrders(a, b, w, a.ordersOf(last.id).value, Start(BillAccounts(a, w, front, tables).tables));
      }
    }
  }

  /**
   A window's rows are final once only late events follow: leases created after the window, or ended after it
   that had no end inside it. A run before such events and the same run after them end in the same way and leave
   the same tables.
   */
  lemma WindowIsFinal(a: Env, b: Env, db: Database, events: seq<Event>, w: Window, accounts: seq<Account>, tables: Tables)
    requires w.Valid() && AllLate(db.leases, events, w)
    requires Reads(a, db, w) && Reads(b, db.(leases := ApplyAll(db.leases, events)), w)
    requires (forall d :: a.hours(d) == b.hours(d)) && (forall x :: a.uid(x) == b.uid(x) && a.refuses(x) == b.refuses(x))
    ensures BillAccounts(b, w, accounts, tables) == BillAccounts(a, w, accounts, tables)
  {
    hide SpendsOfCharges, AllLate, ApplyAll, Charges, LeasesFor, BillAccounts;
    forall o ensures OrderSpends(a, o, w) == OrderSpends(b, o, w) {
      LateEventsKeepCharges(db.leases, events, o.id, w);
      SameHoursSameSpends(a, b, Charges(LeasesFor(db.leases, o.id, w), w));
    }
    AlikeRuns(a, b, w, accounts, tables);
  }
}
