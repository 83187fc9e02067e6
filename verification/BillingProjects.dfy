/**
 The row of a project against the stored orders of the project. Its total is kept per account and its row is
 overwritten, so the row is the sum over the project's orders under the account listed last, and that is the sum
 over all of them exactly when no lease of the project under another account costs anything.
 */
module BillingProjects {
  import opened Powers
  import opened Wrappers
  import opened Decimals
  import opened Leases
  import opened LeaseTable
  import opened SpendStore
  import opened BillingRun
  import opened BillingRows
  import opened BillingLaws
  import opened BillingAccuracy
  import opened BillingProducts
  import opened BillingConservation
  import opened BillingDatabase
  import opened BillingSkew
  import opened BillingCompletion

  /** Hours times price over all leases of all stored orders of a project that overlap the window. */
  function ProjectSum(hours: int -> Dec, orders: seq<Order>, leases: seq<Lease>, id: Id, w: Window): int {
    if |orders| == 0 then 0
    else
      var o := orders[|orders| - 1];
      ProjectSum(hours, orders[..|orders| - 1], leases, id, w) +
      if o.projectId == id then OrderSum(hours, leases, o.id, w) else 0
  }

  /** The same over the project's orders under one account. */
  function ProjectSumUnder(hours: int -> Dec, orders: seq<Order>, leases: seq<Lease>, id: Id, accountId: Id, w: Window): int {
    if |orders| == 0 then 0
    else
      var o := orders[|orders| - 1];
      ProjectSumUnder(hours, orders[..|orders| - 1], leases, id, accountId, w) +
      if o.projectId == id && o.accountId == accountId then OrderSum(hours, leases, o.id, w) else 0
  }

  lemma {:induction false} ProjectTotalIsProjectSum(env: Env, db: Database, w: Window, orders: seq<Order>, id: Id,
                                                    accountId: Id)
    requires Reads(env, db, w) && orders <= db.orders
    requires forall o :: o in OrdersFor(orders, accountId) ==> OrderSpends(env, o, w).Ok?
    ensures ProjectTotal(env, w, OrdersFor(orders, accountId), id) ==
            ProjectSumUnder(env.hours, orders, db.leases, id, accountId, w)
  {
    hide OrderSpends, OrderSum, OrderTotal, ProjectTotal, Reads;
    if |orders| == 0 {
      NewProjectTotal(env, w, [], id);
    } else {
      var front, o := orders[..|orders| - 1], orders[|orders| - 1];
      var listed := OrdersFor(front, accountId);
      ProjectTotalIsProjectSum(env, db, w, front, id, accountId);
      if o.accountId == accountId {
        var all := listed + [o];
        assert all[..|all| - 1] == listed;
        assert o in OrdersFor(orders, accountId);
        TotalsStep(env, w, all, id);
        OrderTotalIsOrderSum(env, db, w, o);
      }
    }
  }

  lemma CompletedProjectSum(env: Env, db: Database, w: Window, accounts: seq<Account>, tables: Tables, i: nat, id: Id)
    requires Reads(env, db, w) && Completes(env, w, accounts, tables) && i < |accounts|
    ensures ProjectTotal(env, w, OrdersOf(env, accounts[i]), id) ==
            ProjectSumUnder(env.hours, db.orders, db.leases, id, accounts[i].id, w)
  {
    hide OrderSpends, OrdersFor, Completes, ProjectTotal, ProjectSumUnder, OrdersOk;
    CompletedOrdersOk(env, w, accounts, tables, i);
    assert OrdersOf(env, accounts[i]) == OrdersFor(db.orders, accounts[i].id);
    AllOrdersOk(env, w, OrdersOf(env, accounts[i]));
    ProjectTotalIsProjectSum(env, db, w, db.orders, id, accounts[i].id);
  }

  /**
   After a completed run the row of a project is within (n + 1) / 2 units of 10^-18 of the sum over its stored orders
   under the last listed account that has some, for n leases.
   */
  lemma ProjectRowIsTheLastSum(env: Env, db: Database, w: Window, accounts: seq<Account>, tables: Tables, i: nat, id: Id)
    requires w.Valid() && HoursContract(env.hours) && Reads(env, db, w) && SoundDatabase(db)
    requires Completes(env, w, accounts, tables) && i < |accounts|
    requires ListsProject(OrdersOf(env, accounts[i]), id) && ListedLastIn(env, accounts, i, id)
    ensures var n := |ProjectSpends(env, w, OrdersOf(env, accounts[i]), id)|;
            && Key(id, w) in RowsAfter(env, w, accounts, tables).projects
            && 2 * Abs(RowsAfter(env, w, accounts, tables).projects[Key(id, w)] * StoredUnit()
                       - ProjectSumUnder(env.hours, db.orders, db.leases, id, accounts[i].id, w)) <= (n + 1) * StoredUnit()
  {
    hide HoursContract, SoundOrders, Completes, RowsAfter, ProjectSpends, StoredUnit, SoundDatabase, ProjectSumUnder,
      TotalUnits, OrdersOf, ListsProject, Reads;
    SoundDatabaseGivesSoundOrders(env, db, w, OrdersOf(env, accounts[i]));
    ProjectRowAccuracy(env, w, accounts, tables, i, id);
    CompletedProjectSum(env, db, w, accounts, tables, i, id);
  }

  // ---------- Projects under one account ----------

  ghost predicate HasOrders(db: Database, id: Id, accountId: Id) {
    exists o :: o in db.orders && o.projectId == id && o.accountId == accountId
  }

  lemma ListsStoredProjects(env: Env, db: Database, w: Window, a: Account, id: Id)
    requires Reads(env, db, w)
    ensures ListsProject(OrdersOf(env, a), id) <==> HasOrders(db, id, a.id)
  {
    OrdersForIsTheSelection(db.orders, a.id);
    var listed := OrdersOf(env, a);
    if ListsProject(listed, id) {
      var i :| 0 <= i < |listed| && listed[i].projectId == id;
      assert listed[i] in listed;
    }
    if HasOrders(db, id, a.id) {
      var o :| o in db.orders && o.projectId == id && o.accountId == a.id;
      assert o in listed;
      var i :| 0 <= i < |listed| && listed[i] == o;
    }
  }

  lemma {:induction false} OneAccountSum(hours: int -> Dec, orders: seq<Order>, leases: seq<Lease>, id: Id, accountId: Id,
                                         w: Window)
    requires forall o :: o in orders && o.projectId == id ==> o.accountId == accountId
    ensures ProjectSum(hours, orders, leases, id, w) == ProjectSumUnder(hours, orders, leases, id, accountId, w)
  {
    hide OrderSum;
    if |orders| > 0 {
      OneAccountSum(hours, orders[..|orders| - 1], leases, id, accountId, w);
    }
  }

  /**
   If all stored orders of a project belong to one account, its row is within (n + 1) / 2 units of 10^-18 of the sum
   over all of them.
   */
  lemma ProjectRowIsTheSum(env: Env, db: Database, w: Window, accounts: seq<Account>, tables: Tables, i: nat, id: Id)
    requires w.Valid() && HoursContract(env.hours) && Reads(env, db, w) && SoundDatabase(db)
    requires Completes(env, w, accounts, tables) && DistinctAccounts(accounts) && i < |accounts|
    requires HasOrders(db, id, accounts[i].id)
    requires forall o :: o in db.orders && o.projectId == id ==> o.accountId == accounts[i].id
    ensures var n := |ProjectSpends(env, w, OrdersOf(env, accounts[i]), id)|;
            && Key(id, w) in RowsAfter(env, w, accounts, tables).projects
            && 2 * Abs(RowsAfter(env, w, accounts, tables).projects[Key(id, w)] * StoredUnit()
                       - ProjectSum(env.hours, db.orders, db.leases, id, w)) <= (n + 1) * StoredUnit()
  {
    hide HoursContract, Completes, RowsAfter, ProjectSpends, StoredUnit, SoundDatabase, ProjectSumUnder, ProjectSum,
      OrdersOf, ListsProject, Reads;
    ListsStoredProjects(env, db, w, accounts[i], id);
    forall j | i < j < |accounts| ensures !ListsProject(OrdersOf(env, accounts[j]), id) {
      ListsStoredProjects(env, db, w, accounts[j], id);
    }
    ProjectRowIsTheLastSum(env, db, w, accounts, tables, i, id);
    OneAccountSum(env.hours, db.orders, db.leases, id, accounts[i].id, w);
  }

  // ---------- Projects under several accounts ----------

  /** The lease costs something: neither its hours nor its price is zero. */
  predicate Costs(hours: int -> Dec, l: Lease, w: Window) {
    hours(BilledDuration(l, w)).coeff != 0 && l.priceHr.coeff != 0
  }

  /** No lease of the project's orders under other accounts that overlaps the window costs anything. */
  ghost predicate FreeElsewhere(hours: int -> Dec, orders: seq<Order>, leases: seq<Lease>, id: Id, accountId: Id, w: Window) {
    forall o, l :: o in orders && o.projectId == id && o.accountId != accountId && l in leases && Matches(l, o.id, w) ==>
                     !Costs(hours, l, w)
  }

  /** The products of an order's leases are numbers of the context. */
  ghost predicate InContext(hours: int -> Dec, leases: seq<Lease>, orderId: Id, w: Window) {
    forall l :: l in leases && Matches(l, orderId, w) ==>
                  hours(BilledDuration(l, w)).exp + l.priceHr.exp >= ETINY &&
                  hours(BilledDuration(l, w)).coeff >= 0 && l.priceHr.coeff >= 0
  }

  lemma LeaseUnitsSign(hours: int -> Dec, l: Lease, w: Window)
    requires hours(BilledDuration(l, w)).exp + l.priceHr.exp >= ETINY
    requires hours(BilledDuration(l, w)).coeff >= 0 && l.priceHr.coeff >= 0
    ensures LeaseUnits(hours, l, w) >= 0
    ensures LeaseUnits(hours, l, w) == 0 <==> !Costs(hours, l, w)
  {
    var h, p := hours(BilledDuration(l, w)), l.priceHr;
    ProductSign(h.coeff, p.coeff);
    ProductIsZero(h.coeff, p.coeff);
    PositiveUnits(ExactProduct(h, p));
  }

  lemma {:induction false} OrderSumSign(hours: int -> Dec, leases: seq<Lease>, orderId: Id, w: Window)
    requires InContext(hours, leases, orderId, w)
    ensures OrderSum(hours, leases, orderId, w) >= 0
    ensures OrderSum(hours, leases, orderId, w) == 0 <==>
            forall l :: l in leases && Matches(l, orderId, w) ==> !Costs(hours, l, w)
  {
    hide LeaseUnits, Costs, Matches;
    if |leases| > 0 {
      var front, l := leases[..|leases| - 1], leases[|leases| - 1];
      assert leases == front + [l];
      OrderSumSign(hours, front, orderId, w);
      if Matches(l, orderId, w) {
        LeaseUnitsSign(hours, l, w);
      }
    }
  }

  /** The sum under one account is the whole sum exactly when nothing elsewhere costs anything. */
  lemma {:induction false} WholeSumExactlyWhen(hours: int -> Dec, orders: seq<Order>, leases: seq<Lease>, id: Id,
                                               accountId: Id, w: Window)
    requires forall o :: o in orders && o.projectId == id ==> InContext(hours, leases, o.id, w)
    ensures ProjectSumUnder(hours, orders, leases, id, accountId, w) <= ProjectSum(hours, orders, leases, id, w)
    ensures ProjectSumUnder(hours, orders, leases, id, accountId, w) >= 0
    ensures ProjectSumUnder(hours, orders, leases, id, accountId, w) == ProjectSum(hours, orders, leases, id, w) <==>
            FreeElsewhere(hours, orders, leases, id, accountId, w)
  {
    hide OrderSum, Costs, Matches, InContext;
    if |orders| > 0 {
      var front, o := orders[..|orders| - 1], orders[|orders| - 1];
      assert orders == front + [o];
      WholeSumExactlyWhen(hours, front, leases, id, accountId, w);
      if o.projectId == id {
        OrderSumSign(hours, leases, o.id, w);
      }
    }
  }

  /** Every stored order of the project belongs to a listed account. */
  ghost predicate AllListed(db: Database, accounts: seq<Account>, id: Id) {
    forall o :: o in db.orders && o.projectId == id ==> exists j :: 0 <= j < |accounts| && accounts[j].id == o.accountId
  }

  /** A completed run has billed every listed order, so the products of its leases are numbers of the context. */
  lemma CompletedOrdersInContext(env: Env, db: Database, w: Window, accounts: seq<Account>, tables: Tables, id: Id)
    requires w.Valid() && HoursContract(env.hours) && Reads(env, db, w) && SoundDatabase(db)
    requires Completes(env, w, accounts, tables) && AllListed(db, accounts, id)
    ensures forall o :: o in db.orders && o.projectId == id ==> InContext(env.hours, db.leases, o.id, w)
  {
    hide Completes, OrdersOk, NumDigits, OrdersFor, OrderSpends;
    forall o | o in db.orders && o.projectId == id ensures InContext(env.hours, db.leases, o.id, w) {
      var j :| 0 <= j < |accounts| && accounts[j].id == o.accountId;
      CompletedOrdersOk(env, w, accounts, tables, j);
      OrdersForIsTheSelection(db.orders, accounts[j].id);
      AllOrdersOk(env, w, OrdersOf(env, accounts[j]));
      BilledOrderInContext(env, db, w, o);
    }
  }

  lemma BilledOrderInContext(env: Env, db: Database, w: Window, o: Order)
    requires w.Valid() && HoursContract(env.hours) && Reads(env, db, w) && SoundDatabase(db)
    requires OrderSpends(env, o, w).Ok?
    ensures InContext(env.hours, db.leases, o.id, w)
  {
    hide NumDigits, SpendsOfCharges, PartialSumsFit, Fits, Matches;
    var leases := LeasesFor(db.leases, o.id, w);
    LeasesForIsTheSelection(db.leases, o.id, w);
    LeasesAreBilledExactlyWhen(env, Charges(leases, w));
    ChargesAt(leases, w);
    forall l | l in db.leases && Matches(l, o.id, w)
      ensures env.hours(BilledDuration(l, w)).exp + l.priceHr.exp >= ETINY
      ensures env.hours(BilledDuration(l, w)).coeff >= 0 && l.priceHr.coeff >= 0
    {
      assert l in leases;
      var k :| 0 <= k < |leases| && leases[k] == l;
      FitsIsInUnits(Products(env, Charges(leases, w))[k]);
      MatchedLeaseIsSound(l, o.id, w);
    }
  }

  lemma MatchedLeaseIsSound(l: Lease, orderId: Id, w: Window)
    requires w.Valid() && l.WellFormed() && Matches(l, orderId, w)
    ensures BilledDuration(l, w) >= 0
  {}

  /**
   In general the row of a project is within (n + 1) / 2 units of 10^-18 of the sum under the account listed last, which
   is never more than the sum over all stored orders of the project, and is that sum exactly when no lease of the
   project under another account costs anything.
   */
  lemma ProjectRowIsWholeExactlyWhen(env: Env, db: Database, w: Window, accounts: seq<Account>, tables: Tables, i: nat,
                                     id: Id)
    requires w.Valid() && HoursContract(env.hours) && Reads(env, db, w) && SoundDatabase(db)
    requires Completes(env, w, accounts, tables) && AllListed(db, accounts, id) && i < |accounts|
    requires ListsProject(OrdersOf(env, accounts[i]), id) && ListedLastIn(env, accounts, i, id)
    ensures var n := |ProjectSpends(env, w, OrdersOf(env, accounts[i]), id)|;
            var last := ProjectSumUnder(env.hours, db.orders, db.leases, id, accounts[i].id, w);
            var whole := ProjectSum(env.hours, db.orders, db.leases, id, w);
            && Key(id, w) in RowsAfter(env, w, accounts, tables).projects
            && 2 * Abs(RowsAfter(env, w, accounts, tables).projects[Key(id, w)] * StoredUnit() - last)
               <= (n + 1) * StoredUnit()
            && last <= whole
            && (last == whole <==> FreeElsewhere(env.hours, db.orders, db.leases, id, accounts[i].id, w))
  {
    hide HoursContract, Completes, RowsAfter, ProjectSpends, StoredUnit, SoundDatabase, ProjectSumUnder, ProjectSum,
      OrdersOf, ListsProject, Reads, FreeElsewhere, InContext;
    ProjectRowIsTheLastSum(env, db, w, accounts, tables, i, id);
    CompletedOrdersInContext(env, db, w, accounts, tables, id);
    WholeSumExactlyWhen(env.hours, db.orders, db.leases, id, accounts[i].id, w);
  }

  /** In range the row is the last account's sum, rounded once. */
  lemma ProjectRowIsNearest(env: Env, db: Database, w: Window, accounts: seq<Account>, tables: Tables, i: nat, id: Id,
                            m: nat, k: nat, e: nat)
    requires Reads(env, db, w) && Completes(env, w, accounts, tables)
    requires i < |accounts| && InRange(env, w, OrdersOf(env, accounts[i]), m, k, e)
    requires ListsProject(OrdersOf(env, accounts[i]), id) && ListedLastIn(env, accounts, i, id)
    ensures Key(id, w) in RowsAfter(env, w, accounts, tables).projects
    ensures RowsAfter(env, w, accounts, tables).projects[Key(id, w)] ==
            HalfUp(ProjectSumUnder(env.hours, db.orders, db.leases, id, accounts[i].id, w), StoredUnit())
    ensures e <= NUMERIC_SCALE ==>
              RowsAfter(env, w, accounts, tables).projects[Key(id, w)] * StoredUnit() ==
              ProjectSumUnder(env.hours, db.orders, db.leases, id, accounts[i].id, w)
  {
    hide Completes, RowsAfter, InRange, StoredForm, ExactTotal, ProjectProducts, ProjectSpends, TotalUnits, AccountProducts,
      ProjectSumUnder, HalfUp, OrdersFor, ListsProject, Bounded, StoredUnit;
    var orders := OrdersOf(env, accounts[i]);
    var ps := ProjectProducts(env, w, orders, id);
    ProjectRowInRange(env, w, accounts, tables, i, id, m, k, e);
    SpendsInRange(env, w, orders, id, m, k, e);
    CompletedProjectSum(env, db, w, accounts, tables, i, id);
    ListsInUnits(env, w, orders, id);
    ExactTotalUnits(ps);
    StoredIsNearest(ExactTotal(ps));
    ProjectPlaces(env, w, orders, id, m, k, e);
    if e <= NUMERIC_SCALE {
      StoredIsExact(ExactTotal(ps));
    }
  }

  lemma ProjectPlaces(env: Env, w: Window, orders: seq<Order>, id: Id, m: nat, k: nat, e: nat)
    requires InRange(env, w, orders, m, k, e)
    ensures 0 <= ExactTotal(ProjectProducts(env, w, orders, id)).exp + e
  {
    hide Bounded, ExactTotal, TotalUnits;
    ProjectProductsAreAmongThem(env, w, orders, id);
    PartIsBounded(ProjectProducts(env, w, orders, id), AccountProducts(env, w, orders), m, e);
    BoundedTotal(ProjectProducts(env, w, orders, id), m, e);
  }

  /** Amounts of at most 18 decimal places are stored as they are. */
  lemma StoredIsExact(d: Dec)
    requires d.exp >= -NUMERIC_SCALE && StoredForm(Finite(d)).Some?
    ensures StoredForm(Finite(d)).value * StoredUnit() == Units(d)
  {
    UnitsScale(d.coeff, d.exp + NUMERIC_SCALE, -NUMERIC_SCALE);
  }

  /**
   In range, with amounts of at most 18 decimal places, the row of a project is the sum over all its stored orders
   exactly when no lease of the project under another account than the one listed last costs anything. With more
   places the row is the nearest to that sum if so, and too small as soon as the leases elsewhere cost 10^-18 together.
   */
  lemma ProjectRowIsWholeInRange(env: Env, db: Database, w: Window, accounts: seq<Account>, tables: Tables, i: nat, id: Id,
                                 m: nat, k: nat, e: nat)
    requires w.Valid() && HoursContract(env.hours) && Reads(env, db, w) && SoundDatabase(db)
    requires Completes(env, w, accounts, tables) && AllListed(db, accounts, id)
    requires i < |accounts| && InRange(env, w, OrdersOf(env, accounts[i]), m, k, e)
    requires ListsProject(OrdersOf(env, accounts[i]), id) && ListedLastIn(env, accounts, i, id)
    ensures var rows := RowsAfter(env, w, accounts, tables).projects;
            var whole := ProjectSum(env.hours, db.orders, db.leases, id, w);
            var free := FreeElsewhere(env.hours, db.orders, db.leases, id, accounts[i].id, w);
            && Key(id, w) in rows
            && (e <= NUMERIC_SCALE ==> (rows[Key(id, w)] * StoredUnit() == whole <==> free))
            && (free ==> rows[Key(id, w)] == HalfUp(whole, StoredUnit()))
            && (whole - ProjectSumUnder(env.hours, db.orders, db.leases, id, accounts[i].id, w) >= StoredUnit() ==>
                  rows[Key(id, w)] < HalfUp(whole, StoredUnit()))
  {
    hide HoursContract, Completes, RowsAfter, StoredUnit, SoundDatabase, ProjectSumUnder, ProjectSum, HalfUp,
      OrdersOf, ListsProject, Reads, FreeElsewhere, InContext, InRange;
    var last := ProjectSumUnder(env.hours, db.orders, db.leases, id, accounts[i].id, w);
    var whole := ProjectSum(env.hours, db.orders, db.leases, id, w);
    ProjectRowIsNearest(env, db, w, accounts, tables, i, id, m, k, e);
    CompletedOrdersInContext(env, db, w, accounts, tables, id);
    WholeSumExactlyWhen(env.hours, db.orders, db.leases, id, accounts[i].id, w);
    if whole - last >= StoredUnit() {
      HalfUpGrows(last, whole, StoredUnit());
    }
  }
}
