/**
 Two stored inputs on which a run completes, with a uid of its own for every row, and leaves a project's row short of
 the sum of the project's leases: one with the project under two accounts, one with amounts of very different size.
 */
module BillingExamples {
  import opened Powers
  import opened Wrappers
  import opened Decimals
  import opened Leases
  import opened LeaseTable
  import opened SpendStore
  import opened BillingRun
  import opened BillingRows
  import opened BillingLaws
  import opened BillingAccuracy
  import opened BillingProducts
  import opened BillingConservation
  import opened BillingDatabase
  import opened BillingSkew
  import opened BillingUids
  import opened BillingCompletion
  import opened BillingProjects

  const HOUR: int := 3_600_000_000_000
  const MONTH := Window(0, 720 * HOUR)

  /** Whole hours, as far as a month needs them. */
  function WholeHours(duration: int): Dec {
    if 0 <= duration < 1000 * HOUR then Dec(duration / HOUR, 0) else ZERO
  }

  function Number(id: Id): int {
    if id == "o1" then 1 else if id == "o2" then 2 else if id == "o3" then 3 else if id == "a" then 4 else 5
  }

  /** A uid of its own for every row of the two inputs. */
  function UidOf(x: Write): Uid {
    match x
    case OrderWrite(id) => 10 * Number(id)
    case ProjectWrite(id) => 10 * Number(id) + 1
    case AccountWrite(id) => 10 * Number(id) + 2
  }

  function EnvOf(db: Database, w: Window): Env {
    Env((id: Id) => Some(OrdersFor(db.orders, id)),
        (id: Id) => Some(LeasesFor(db.leases, id, w)),
        WholeHours,
        UidOf,
        (x: Write) => false)
  }

  const NO_ROWS := Tables(EMPTY, EMPTY, EMPTY)

  /** A lease that runs for the first hour of the window. */
  function OneHour(id: Id, orderId: Id, price: Dec): Lease {
    Lease(id, orderId, 0, Some(HOUR), price)
  }

  lemma OneHourIsBilled(l: Lease, price: Dec)
    requires l == OneHour(l.id, l.orderId, price)
    ensures BilledDuration(l, MONTH) == HOUR && Matches(l, l.orderId, MONTH)
    ensures ExactProduct(WholeHours(HOUR), price) == price
  {
    assert HOUR / HOUR == 1;
  }

  lemma OneLeaseProducts(env: Env, l: Lease, price: Dec)
    requires l == OneHour(l.id, l.orderId, price) && env.hours == WholeHours
    ensures Products(env, Charges([l], MONTH)) == [price]
  {
    OneHourIsBilled(l, price);
    assert [l][..0] == [];
    assert Charges([l], MONTH) == [Charge(HOUR, price)];
  }

  /** An order with one lease of one hour, of a representable price, is billed that price. */
  lemma OneLeaseOrder(env: Env, o: Order, l: Lease, price: Dec)
    requires env.hours == WholeHours && env.leasesOf(o.id) == Some([l])
    requires l == OneHour(l.id, l.orderId, price) && Fits(price) && Fits(ExactTotal([price]))
    ensures OrderSpends(env, o, MONTH) == Ok([price])
    ensures OrderProducts(env, MONTH, o) == [price]
  {
    hide Fits, ExactTotal;
    OneLeaseProducts(env, l, price);
    LeasesAreBilledExactlyWhen(env, Charges([l], MONTH));
    assert [price][..0] == [];
    NoProducts(env, []);
  }

  lemma DistinctUids(x: Write, y: Write)
    requires UidOf(x) == UidOf(y) && WriteOfKnown(x) && WriteOfKnown(y)
    ensures x == y
  {}

  // ---------- A project under two accounts ----------

  const O1 := Order("o1", "project", "a")
  const O2 := Order("o2", "project", "b")
  const L1 := OneHour("l1", "o1", Dec(1, 0))
  const L2 := OneHour("l2", "o2", Dec(1, 0))
  /** One order of the project under each account, with one lease that costs 1. */
  const SPLIT := Database([O1, O2], [L1, L2])
  const BOTH := [Account("a", 0, true), Account("b", 1, true)]

  lemma OneMoreStoredOrder(orders: seq<Order>, o: Order, accountId: Id)
    ensures OrdersFor(orders + [o], accountId) == OrdersFor(orders, accountId) + if o.accountId == accountId then [o] else []
  {
    assert (orders + [o])[..|orders|] == orders;
  }

  lemma OneMoreStoredLease(leases: seq<Lease>, l: Lease, orderId: Id, w: Window)
    ensures LeasesFor(leases + [l], orderId, w) ==
            LeasesFor(leases, orderId, w) + if Matches(l, orderId, w) then [l] else []
  {
    assert (leases + [l])[..|leases|] == leases;
  }

  lemma SplitQueries()
    ensures OrdersFor(SPLIT.orders, "a") == [O1] && OrdersFor(SPLIT.orders, "b") == [O2]
    ensures LeasesFor(SPLIT.leases, "o1", MONTH) == [L1] && LeasesFor(SPLIT.leases, "o2", MONTH) == [L2]
  {
    assert [O1, O2] == [] + [O1] + [O2] && [L1, L2] == [] + [L1] + [L2];
    forall id ensures OrdersFor([] + [O1] + [O2], id) ==
                      (if id == "a" then [O1] else []) + if id == "b" then [O2] else []
    {
      OneMoreStoredOrder([], O1, id);
      OneMoreStoredOrder([] + [O1], O2, id);
    }
    forall id ensures LeasesFor([] + [L1] + [L2], id, MONTH) ==
                      (if id == "o1" then [L1] else []) + if id == "o2" then [L2] else []
    {
      OneMoreStoredLease([], L1, id, MONTH);
      OneMoreStoredLease([] + [L1], L2, id, MONTH);
    }
  }

  lemma OneIsSmall(one: Dec, m: nat, e: nat)
    requires one == Dec(1, 0) && m == 1 && e == 0
    ensures Fits(one) && ExactTotal([one]) == one
    ensures InUnits([one]) && Bounded([one], m, e)
  {
    OneFits();
    hide Pow10, Digits, Fits, ExactTotal, Units, Bounded;
    SingleTotal(one);
    WholeUnits(one, 0, m);
    SingleIsBounded(one, m, e);
  }

  lemma WholeUnits(one: Dec, t: nat, more: nat)
    requires one == Dec(1, t) && t < more
    ensures Units(one) == Pow10(t - ETINY) < Pow10(more - ETINY)
  {
    hide Pow10;
    Pow10StrictMono(t - ETINY, more - ETINY);
  }

  lemma SingleIsBounded(d: Dec, m: nat, e: nat)
    requires Fits(d) && d.exp >= ETINY && d.coeff >= 0 && d.exp + e >= 0 && Units(d) < Pow10(m - ETINY)
    ensures InUnits([d]) && Bounded([d], m, e)
  {}

  lemma OneFits()
    ensures Fits(Dec(1, 0))
  {
    assert Digits(1) == 1;
  }

  lemma SingleTotal(d: Dec)
    requires d.exp <= 0
    ensures ExactTotal([d]) == d
  {
    assert [d][..0] == [];
    assert Pow10(0) == 1;
    hide Pow10;
  }

  lemma OneOrderInRange(env: Env, o: Order, l: Lease, price: Dec, m: nat, k: nat, e: nat)
    requires env.hours == WholeHours && env.leasesOf(o.id) == Some([l])
    requires l == OneHour(l.id, l.orderId, price) && Fits(price) && ExactTotal([price]) == price
    requires InUnits([price]) && Bounded([price], m, e) && m + k + e <= PRECISION
    ensures InRange(env, MONTH, [o], m, k, e)
  {
    hide Bounded, Fits, ExactTotal, OrderProducts, Pow10;
    OneLeaseOrder(env, o, l, price);
    assert [o][..0] == [];
    assert AccountProducts(env, MONTH, [o]) == [price];
  }

  lemma SplitInRange(env: Env, i: nat)
    requires env == EnvOf(SPLIT, MONTH) && i < 2
    ensures OrdersOf(env, BOTH[i]) == [if i == 0 then O1 else O2]
    ensures InRange(env, MONTH, OrdersOf(env, BOTH[i]), 1, 0, 0)
  {
    hide Bounded, Fits, ExactTotal, InRange;
    SplitQueries();
    OneIsSmall(Dec(1, 0), 1, 0);
    OneOrderInRange(env, if i == 0 then O1 else O2, if i == 0 then L1 else L2, Dec(1, 0), 1, 0, 0);
  }

  lemma EnvReads(db: Database, w: Window)
    ensures Reads(EnvOf(db, w), db, w)
    ensures forall writes :: NoneRefused(EnvOf(db, w), writes)
  {
    hide OrdersFor, LeasesFor;
  }

  lemma SplitIsDistinct()
    ensures DistinctOrders(SPLIT.orders) && DistinctAccounts(BOTH)
  {}

  lemma SplitCompletes(env: Env, m: nat, k: nat, e: nat)
    requires env == EnvOf(SPLIT, MONTH) && m == 1 && k == 0 && e == 0
    ensures Completes(env, MONTH, BOTH, NO_ROWS)
  {
    SplitInRange(env, 0);
    SplitInRange(env, 1);
    SplitWrites(env);
    SplitIsDistinct();
    EnvReads(SPLIT, MONTH);
    hide InRange, OrdersOf, RunWrites, NoneRefused, FreshUids, Reads, DistinctOrders, DistinctAccounts, Completes, RowIsSum,
      RowsAfter, OrdersFor, LeasesFor, WholeHours, UidOf;
    RunOverDatabase(env, SPLIT, MONTH, BOTH, NO_ROWS, m, k, e);
  }

  predicate Known(id: Id) {
    id in {"o1", "o2", "o3", "a", "b"}
  }

  predicate WriteOfKnown(x: Write) {
    Known(if x.AccountWrite? then x.accountId else x.orderId)
  }

  ghost predicate AllKnown(env: Env, accounts: seq<Account>) {
    forall i :: 0 <= i < |accounts| ==> Known(accounts[i].id) && OrdersKnown(OrdersOf(env, accounts[i]))
  }

  predicate OrdersKnown(orders: seq<Order>) {
    forall k :: 0 <= k < |orders| ==> Known(orders[k].id)
  }

  lemma WritesAreKnown(env: Env, accounts: seq<Account>, x: Write)
    requires AllKnown(env, accounts) && x in RunWrites(env, accounts)
    ensures WriteOfKnown(x)
  {
    hide OrdersOf, RunWrites, OrderWrites, Known;
    RunWritesAre(env, accounts);
    if !x.AccountWrite? {
      var i :| 0 <= i < |accounts| && x in OrderWrites(OrdersOf(env, accounts[i]));
      OrderWritesAre(OrdersOf(env, accounts[i]));
    }
  }

  /** Runs over these ids send a uid of its own with every row. */
  lemma ExampleUidsAreFresh(env: Env, accounts: seq<Account>)
    requires env.uid == UidOf && AllKnown(env, accounts)
    ensures FreshUids(env, RunWrites(env, accounts), NO_ROWS)
  {
    hide AllKnown, WriteOfKnown, RunWrites;
    forall x, y | x in RunWrites(env, accounts) && y in RunWrites(env, accounts) && env.uid(x) == env.uid(y)
      ensures x == y
    {
      WritesAreKnown(env, accounts, x);
      WritesAreKnown(env, accounts, y);
      DistinctUids(x, y);
    }
  }

  lemma SplitIsKnown(env: Env)
    requires env == EnvOf(SPLIT, MONTH)
    ensures AllKnown(env, BOTH)
  {
    SplitQueries();
    hide OrdersFor, LeasesFor, WholeHours, UidOf;
    forall i | 0 <= i < |BOTH| ensures Known(BOTH[i].id) && OrdersKnown(OrdersOf(env, BOTH[i])) {
      assert OrdersOf(env, BOTH[i]) == [if i == 0 then O1 else O2];
    }
  }

  lemma SplitWrites(env: Env)
    requires env == EnvOf(SPLIT, MONTH)
    ensures FreshUids(env, RunWrites(env, BOTH), NO_ROWS)
  {
    SplitIsKnown(env);
    hide AllKnown, UidOf, RunWrites, FreshUids, OrdersFor, LeasesFor, WholeHours;
    ExampleUidsAreFresh(env, BOTH);
  }

  lemma OneMoreLeaseSum(hours: int -> Dec, leases: seq<Lease>, l: Lease, orderId: Id, w: Window)
    ensures OrderSum(hours, leases + [l], orderId, w) ==
            OrderSum(hours, leases, orderId, w) + if Matches(l, orderId, w) then LeaseUnits(hours, l, w) else 0
  {
    assert (leases + [l])[..|leases|] == leases;
  }

  lemma OneMoreOrderSum(hours: int -> Dec, orders: seq<Order>, o: Order, leases: seq<Lease>, id: Id, accountId: Id, w: Window)
    ensures ProjectSum(hours, orders + [o], leases, id, w) ==
            ProjectSum(hours, orders, leases, id, w) +
            if o.projectId == id then OrderSum(hours, leases, o.id, w) else 0
    ensures ProjectSumUnder(hours, orders + [o], leases, id, accountId, w) ==
            ProjectSumUnder(hours, orders, leases, id, accountId, w) +
            if o.projectId == id && o.accountId == accountId then OrderSum(hours, leases, o.id, w) else 0
  {
    assert (orders + [o])[..|orders|] == orders;
  }

  lemma OneHourUnits(l: Lease, price: Dec)
    requires l == OneHour(l.id, l.orderId, price) && price.exp >= ETINY
    ensures LeaseUnits(WholeHours, l, MONTH) == Units(price)
  {
    OneHourIsBilled(l, price);
    hide WholeHours, Units;
  }

  lemma SplitOrderSum(orderId: Id)
    requires orderId == "o1" || orderId == "o2"
    ensures OrderSum(WholeHours, SPLIT.leases, orderId, MONTH) == Pow10(-ETINY)
  {
    hide LeaseUnits, WholeHours, Pow10;
    assert [L1, L2] == [] + [L1] + [L2];
    OneMoreLeaseSum(WholeHours, [], L1, orderId, MONTH);
    OneMoreLeaseSum(WholeHours, [] + [L1], L2, orderId, MONTH);
    OneHourUnits(L1, Dec(1, 0));
    OneHourUnits(L2, Dec(1, 0));
    assert Units(Dec(1, 0)) == 1 * Pow10(-ETINY);
  }

  /** The sums: one under each account, two in all. */
  lemma SplitSums()
    ensures ProjectSumUnder(WholeHours, SPLIT.orders, SPLIT.leases, "project", "b", MONTH) == Pow10(-ETINY)
    ensures ProjectSum(WholeHours, SPLIT.orders, SPLIT.leases, "project", MONTH) == 2 * Pow10(-ETINY)
  {
    hide OrderSum, WholeHours, Pow10;
    SplitOrderSum("o1");
    SplitOrderSum("o2");
    assert [O1, O2] == [] + [O1] + [O2];
    OneMoreOrderSum(WholeHours, [], O1, SPLIT.leases, "project", "b", MONTH);
    OneMoreOrderSum(WholeHours, [] + [O1], O2, SPLIT.leases, "project", "b", MONTH);
  }

  lemma SplitRow(env: Env, m: nat, k: nat, e: nat)
    requires env == EnvOf(SPLIT, MONTH) && m == 1 && k == 0 && e == 0
    ensures Reads(env, SPLIT, MONTH) && Completes(env, MONTH, BOTH, NO_ROWS)
    ensures Key("project", MONTH) in RowsAfter(env, MONTH, BOTH, NO_ROWS).projects
    ensures RowsAfter(env, MONTH, BOTH, NO_ROWS).projects[Key("project", MONTH)] ==
            HalfUp(ProjectSumUnder(env.hours, SPLIT.orders, SPLIT.leases, "project", "b", MONTH), StoredUnit())
  {
    SplitInRange(env, 1);
    SplitCompletes(env, m, k, e);
    EnvReads(SPLIT, MONTH);
    hide Completes, RowsAfter, InRange, ProjectSumUnder, OrdersOf, HalfUp, StoredUnit, Reads, OrdersFor, LeasesFor,
      WholeHours, UidOf, NoneRefused;
    assert [O2][0].projectId == "project";
    ProjectRowIsNearest(env, SPLIT, MONTH, BOTH, NO_ROWS, 1, "project", m, k, e);
  }

  lemma SplitRounded(n: nat, unit: nat)
    requires n == NUMERIC_SCALE && unit == StoredUnit()
    ensures HalfUp(Pow10(-ETINY), unit) == Pow10(n) && HalfUp(2 * Pow10(-ETINY), unit) == 2 * Pow10(n)
  {
    hide Pow10, HalfUp;
    Pow10Add(n, -NUMERIC_SCALE - ETINY);
    HalfUpOfMultiple(Pow10(n), unit);
    HalfUpOfMultiple(2 * Pow10(n), unit);
    MulAssoc(2, Pow10(n), unit);
  }

  /** The run completes, and the row of the project holds 1, half of the 2 its leases cost. */
  lemma SplitProjectLosesHalf(n: nat)
    requires n == NUMERIC_SCALE
    ensures var env := EnvOf(SPLIT, MONTH);
            && Reads(env, SPLIT, MONTH) && Completes(env, MONTH, BOTH, NO_ROWS)
            && Key("project", MONTH) in RowsAfter(env, MONTH, BOTH, NO_ROWS).projects
            && RowsAfter(env, MONTH, BOTH, NO_ROWS).projects[Key("project", MONTH)] == Pow10(n)
            && HalfUp(ProjectSum(env.hours, SPLIT.orders, SPLIT.leases, "project", MONTH), StoredUnit()) == 2 * Pow10(n)
  {
    hide Completes, RowsAfter, ProjectSum, ProjectSumUnder, HalfUp, Pow10, StoredUnit, Reads, WholeHours, UidOf, OrdersFor,
      LeasesFor;
    SplitRow(EnvOf(SPLIT, MONTH), 1, 0, 0);
    SplitSums();
    SplitRounded(n, StoredUnit());
  }

  // ---------- A project with amounts of very different size ----------

  const BIG := Dec(1, 46)
  const SMALL := Dec(14, -19)
  const P1 := Order("o1", "project", "a")
  const P2 := Order("o2", "project", "a")
  const P3 := Order("o3", "project", "a")
  const M1 := OneHour("m1", "o1", BIG)
  const M2 := OneHour("m2", "o2", SMALL)
  const M3 := OneHour("m3", "o3", SMALL)
  /** Three orders of one project: one lease costs 10^46, the other two 1.4 times 10^-18 each. */
  const LOSSY := Database([P1, P2, P3], [M1, M2, M3])
  const ONE := [Account("a", 0, true)]

  lemma LossyQueries()
    ensures OrdersFor(LOSSY.orders, "a") == [P1, P2, P3]
    ensures LeasesFor(LOSSY.leases, "o1", MONTH) == [M1]
    ensures LeasesFor(LOSSY.leases, "o2", MONTH) == [M2]
    ensures LeasesFor(LOSSY.leases, "o3", MONTH) == [M3]
  {
    assert [P1, P2, P3] == [] + [P1] + [P2] + [P3] && [M1, M2, M3] == [] + [M1] + [M2] + [M3];
    OneMoreStoredOrder([], P1, "a");
    OneMoreStoredOrder([] + [P1], P2, "a");
    OneMoreStoredOrder([] + [P1] + [P2], P3, "a");
    hide OrdersFor;
    forall id ensures LeasesFor([] + [M1] + [M2] + [M3], id, MONTH) ==
                      (if id == "o1" then [M1] else []) + (if id == "o2" then [M2] else []) + if id == "o3" then [M3] else []
    {
      OneMoreStoredLease([], M1, id, MONTH);
      OneMoreStoredLease([] + [M1], M2, id, MONTH);
      OneMoreStoredLease([] + [M1] + [M2], M3, id, MONTH);
    }
  }

  lemma PowerFits(d: Dec, n: nat)
    requires n <= 64 && (d == Dec(1, n) || d == Dec(Pow10(n), 0))
    ensures Fits(d)
  {
    Pow10StrictMono(n, n + 1);
    DigitsUnique(Pow10(n), n + 1);
    assert Digits(1) == 1;
    hide Pow10, Digits;
  }

  /** The total of one power of ten has it written out. */
  lemma PowerTotal(d: Dec, n: nat)
    requires d == Dec(1, n)
    ensures ExactTotal([d]) == Dec(Pow10(n), 0)
  {
    assert [d][..0] == [];
    assert Pow10(0) == 1;
    hide Pow10;
  }

  lemma SmallFits(d: Dec)
    requires d == SMALL
    ensures Fits(d) && ExactTotal([d]) == d
  {
    TwoDigits(14);
    FitsByDigits(d, 2);
    SingleTotal(d);
    hide Fits, Digits, ExactTotal;
  }

  lemma TwoDigits(k: nat)
    requires 10 <= k < 100
    ensures Digits(k) == 2
  {
    assert Digits(k / 10) == 1;
  }

  lemma FitsByDigits(d: Dec, digits: nat)
    requires NumDigits(d.coeff) == digits <= PRECISION && d.coeff != 0
    requires MIN_EXPONENT <= d.exp + digits - 1 <= MAX_EXPONENT
    ensures Fits(d)
  {}

  lemma TenfoldPower(p: nat)
    requires p >= 1
    ensures Pow10(p) == 10 * Pow10(p - 1)
    ensures Pow10(0) == 1 && Pow10(1) == 10
  {}

  /** Rounding off the last of 66 digits, a 4. */
  lemma LastDigitIsLost(p: nat, j: nat)
    requires p == PRECISION && j < 10
    ensures Round(Dec(Pow10(p) + 10 * j + 14, -19)).value == Finite(Dec(Pow10(p - 1) + j + 1, -18))
  {
    hide Pow10, Digits;
    Longer(p, 10 * j + 14);
    Longer(p - 1, j + 1);
    TenfoldPower(p);
    FourIsDropped(Pow10(p - 1) + j + 1, p);
  }

  lemma FourIsDropped(q: nat, p: nat)
    requires p == PRECISION && Digits(q) == p && Digits(10 * q + 4) == p + 1 && q > 0
    ensures Round(Dec(10 * q + 4, -19)).value == Finite(Dec(q, -18))
  {
    hide Pow10, Digits;
    TenfoldPower(p);
    DroppedFour(q, p);
  }

  lemma DroppedFour(q: nat, p: nat)
    requires Digits(q) == p && Digits(10 * q + 4) == p + 1 && q > 0
    ensures DropDigits(Dec(10 * q + 4, -19), p) == Dec(q, -18)
  {
    hide Pow10, Digits;
    TenfoldPower(1);
    assert HalfUp(10 * q + 4, 10) == q;
    hide HalfUp;
  }

  /** A power of ten plus a number of at most three digits has one digit more than its exponent. */
  lemma Longer(n: nat, k: nat)
    requires 3 <= n && k < 1000
    ensures Digits(Pow10(n) + k) == n + 1
  {
    assert Pow10(3) == 1000 by { assert Pow10(1) == 10 && Pow10(2) == 100; }
    Pow10Mono(3, n);
    assert Pow10(n + 1) == 10 * Pow10(n);
    hide Pow10;
    DigitsUnique(Pow10(n) + k, n + 1);
  }

  /** Each addition of 1.4 times 10^-18 to a total from 10^46 on counts as 10^-18. */
  lemma AddingSmall(acc: Dec, p: nat, n: nat, j: nat)
    requires p == PRECISION && n == 46 && j < 10
    requires acc == Dec(Pow10(p - 1) + j, -18) || (j == 0 && acc == Dec(Pow10(n), 0))
    ensures Add(Finite(acc), SMALL).value == Finite(Dec(Pow10(p - 1) + j + 1, -18))
  {
    hide Pow10, Round;
    LastDigitIsLost(p, j);
    SumWithSmall(acc, SMALL, p, n, j);
  }

  lemma SumWithSmall(acc: Dec, small: Dec, p: nat, n: nat, j: nat)
    requires p == n + 19 && small == Dec(14, -19)
    requires acc == Dec(Pow10(p - 1) + j, -18) || (j == 0 && acc == Dec(Pow10(n), 0))
    ensures ExactSum(acc, small) == Dec(Pow10(p) + 10 * j + 14, -19)
  {
    hide Pow10;
    TenfoldPower(p);
    Pow10Add(n, p - n);
  }

  /** The totals in memory after one, two and three leases. */
  lemma LossyTotals(p: nat, n: nat)
    requires p == PRECISION && n == 46
    ensures TotalOf([BIG]) == Finite(Dec(Pow10(n), 0))
    ensures TotalOf([BIG, SMALL]) == Finite(Dec(Pow10(p - 1) + 1, -18))
    ensures TotalOf([BIG, SMALL, SMALL]) == Finite(Dec(Pow10(p - 1) + 2, -18))
  {
    hide Pow10, Add, Fits, ExactTotal, CheckedTotal;
    PowerFits(Dec(Pow10(n), 0), n);
    PowerTotal(BIG, n);
    SingleIsBilled(BIG);
    AddingSmall(Dec(Pow10(n), 0), p, n, 0);
    AddingSmall(Dec(Pow10(p - 1) + 1, -18), p, n, 1);
    assert [BIG, SMALL][..1] == [BIG];
    assert [BIG, SMALL, SMALL][..2] == [BIG, SMALL];
    hide TotalOf;
  }

  lemma SingleIsBilled(d: Dec)
    requires Fits(ExactTotal([d]))
    ensures PartialSumsFit([d]) && TotalOf([d]) == Finite(ExactTotal([d]))
  {
    hide Fits, ExactTotal, CheckedTotal, Accumulate;
    assert [d][..0] == [];
    NoProducts(EnvOf(LOSSY, MONTH), []);
    CheckedTotalIsExact([d]);
  }

  lemma StoredLong(p: nat, j: nat)
    requires p == PRECISION && j < 10
    ensures StoredForm(Finite(Dec(Pow10(p - 1) + j, -18))) == Some(Pow10(p - 1) + j)
  {
    hide Pow10;
    TenfoldPower(p);
    Pow10Mono(1, p - 1);
  }

  lemma StoredPower(p: nat, n: nat)
    requires p == PRECISION && n == 46
    ensures StoredForm(Finite(Dec(Pow10(n), 0))).Some?
  {
    hide Pow10;
    Pow10Add(n, NUMERIC_SCALE);
    Pow10StrictMono(p - 1, p);
  }

  lemma StoredSmall()
    ensures StoredForm(Finite(SMALL)).Some?
  {
    hide Pow10;
    TenfoldPower(1);
    Pow10Mono(1, NUMERIC_PRECISION);
  }

  lemma LossyOrders(env: Env)
    requires env == EnvOf(LOSSY, MONTH)
    ensures SpendsOf(env, MONTH, P1) == [BIG] && OrderSpends(env, P1, MONTH).Ok?
    ensures SpendsOf(env, MONTH, P2) == [SMALL] && OrderSpends(env, P2, MONTH).Ok?
    ensures SpendsOf(env, MONTH, P3) == [SMALL] && OrderSpends(env, P3, MONTH).Ok?
  {
    LossyQueries();
    hide Pow10, Fits, ExactTotal, OrderProducts, OrderSpends, LeasesFor, OrdersFor, WholeHours, UidOf;
    BigIsBilled(BIG, 46);
    SmallFits(SMALL);
    OneLeaseOrder(env, P1, M1, BIG);
    OneLeaseOrder(env, P2, M2, SMALL);
    OneLeaseOrder(env, P3, M3, SMALL);
  }

  lemma BigIsBilled(d: Dec, n: nat)
    requires d == Dec(1, n) && n <= 64
    ensures Fits(d) && Fits(ExactTotal([d])) && ExactTotal([d]) == Dec(Pow10(n), 0)
  {
    hide Pow10, Fits, ExactTotal;
    PowerFits(d, n);
    PowerFits(Dec(Pow10(n), 0), n);
    PowerTotal(d, n);
  }

  /** One more order with one spend. */
  lemma OneMoreSpend(env: Env, orders: seq<Order>, o: Order, d: Dec)
    requires SpendsOf(env, MONTH, o) == [d]
    ensures AccountSpends(env, MONTH, orders + [o]) == AccountSpends(env, MONTH, orders) + [d]
    ensures ProjectSpends(env, MONTH, orders + [o], o.projectId) == ProjectSpends(env, MONTH, orders, o.projectId) + [d]
    ensures OrdersOk(env, MONTH, orders + [o]) <==> OrdersOk(env, MONTH, orders) && LastOrderOk(env, MONTH, orders + [o])
  {
    hide SpendsOf, LastOrderOk;
    assert (orders + [o])[..|orders|] == orders;
  }

  lemma LossyLists(env: Env)
    requires env == EnvOf(LOSSY, MONTH)
    ensures ProjectSpends(env, MONTH, [P1], "project") == [BIG]
    ensures ProjectSpends(env, MONTH, [P1, P2], "project") == [BIG, SMALL]
    ensures ProjectSpends(env, MONTH, [P1, P2, P3], "project") == [BIG, SMALL, SMALL]
    ensures AccountSpends(env, MONTH, [P1, P2, P3]) == [BIG, SMALL, SMALL]
    ensures OrdersOk(env, MONTH, [P1, P2, P3]) <==>
            LastOrderOk(env, MONTH, [P1]) && LastOrderOk(env, MONTH, [P1, P2]) && LastOrderOk(env, MONTH, [P1, P2, P3])
  {
    LossyOrders(env);
    assert [] + [P1] == [P1] && [P1] + [P2] == [P1, P2] && [P1, P2] + [P3] == [P1, P2, P3];
    OneMoreSpend(env, [], P1, BIG);
    OneMoreSpend(env, [P1], P2, SMALL);
    OneMoreSpend(env, [P1, P2], P3, SMALL);
    assert ProjectSpends(env, MONTH, [], "project") == [] && AccountSpends(env, MONTH, []) == [] && OrdersOk(env, MONTH, []);
    hide SpendsOf, LastOrderOk, ProjectSpends, AccountSpends, OrdersOk;
  }

  lemma LossyAmounts(p: nat, n: nat)
    requires p == PRECISION && n == 46
    ensures StoredForm(TotalOf([BIG])).Some?
    ensures StoredForm(TotalOf([SMALL])).Some?
    ensures StoredForm(TotalOf([BIG, SMALL])).Some?
    ensures StoredForm(TotalOf([BIG, SMALL, SMALL])).Some?
  {
    hide Pow10, Fits, ExactTotal, StoredForm, TotalOf, PartialSumsFit;
    LossyTotals(p, n);
    SmallFits(SMALL);
    SingleIsBilled(SMALL);
    StoredPower(p, n);
    StoredLong(p, 1);
    StoredLong(p, 2);
    StoredSmall();
  }

  lemma LossyRunIsOk(env: Env, p: nat, n: nat)
    requires env == EnvOf(LOSSY, MONTH) && p == PRECISION && n == 46
    ensures RunOk(env, MONTH, ONE)
  {
    hide StoredForm, TotalOf;
    LossyAmounts(p, n);
    LossyQueries();
    LossyOrders(env);
    LossyLists(env);
    hide Pow10, OrderSpends, LeasesFor, OrdersFor, ProjectSpends, AccountSpends, SpendsOf, OrdersOk, WholeHours, UidOf;
    assert LastOrderOk(env, MONTH, [P1]);
    assert LastOrderOk(env, MONTH, [P1, P2]);
    assert LastOrderOk(env, MONTH, [P1, P2, P3]);
    hide LastOrderOk;
    assert OrdersOf(env, ONE[0]) == [P1, P2, P3];
  }

  lemma LossyListing(env: Env)
    requires env == EnvOf(LOSSY, MONTH)
    ensures OrdersOf(env, ONE[0]) == [P1, P2, P3]
    ensures DistinctOrders(LOSSY.orders) && DistinctAccounts(ONE)
  {
    LossyQueries();
    hide OrdersFor, LeasesFor;
  }

  lemma LossyWrites(env: Env)
    requires env == EnvOf(LOSSY, MONTH)
    ensures FreshUids(env, RunWrites(env, ONE), NO_ROWS)
  {
    LossyListing(env);
    hide OrdersOf, UidOf, RunWrites, FreshUids, OrdersFor, LeasesFor, WholeHours, DistinctOrders, DistinctAccounts;
    assert OrdersKnown([P1, P2, P3]);
    ExampleUidsAreFresh(env, ONE);
  }

  lemma LossyCompletes(env: Env, p: nat, n: nat)
    requires env == EnvOf(LOSSY, MONTH) && p == PRECISION && n == 46
    ensures Completes(env, MONTH, ONE, NO_ROWS)
  {
    LossyListing(env);
    LossyWrites(env);
    EnvReads(LOSSY, MONTH);
    hide UidOf, RunWrites, FreshUids, Completes, EachOnce, RunOk, Reads, OrdersFor, OrdersOf, LeasesFor, WholeHours,
      DistinctOrders, DistinctAccounts, NoneRefused;
    LossyRunIsOk(env, p, n);
    DatabaseListsOnce(env, LOSSY, MONTH, ONE);
    FreshUidsCompleteExactlyWhenOk(env, MONTH, ONE, NO_ROWS);
  }

  lemma LossyOrderSums()
    ensures OrderSum(WholeHours, LOSSY.leases, "o1", MONTH) == Units(BIG)
    ensures OrderSum(WholeHours, LOSSY.leases, "o2", MONTH) == Units(SMALL)
    ensures OrderSum(WholeHours, LOSSY.leases, "o3", MONTH) == Units(SMALL)
  {
    hide LeaseUnits, WholeHours, Units;
    assert [M1, M2, M3] == [] + [M1] + [M2] + [M3];
    OneHourUnits(M1, BIG);
    OneHourUnits(M2, SMALL);
    OneHourUnits(M3, SMALL);
    forall id ensures OrderSum(WholeHours, [] + [M1] + [M2] + [M3], id, MONTH) ==
                      (if id == "o1" then Units(BIG) else 0) + (if id == "o2" then Units(SMALL) else 0) +
                      if id == "o3" then Units(SMALL) else 0
    {
      OneMoreLeaseSum(WholeHours, [], M1, id, MONTH);
      OneMoreLeaseSum(WholeHours, [] + [M1], M2, id, MONTH);
      OneMoreLeaseSum(WholeHours, [] + [M1] + [M2], M3, id, MONTH);
    }
  }

  lemma LossySum()
    ensures ProjectSum(WholeHours, LOSSY.orders, LOSSY.leases, "project", MONTH) == Units(BIG) + 2 * Units(SMALL)
  {
    LossyOrderSums();
    hide OrderSum, WholeHours, Units;
    assert [P1, P2, P3] == [] + [P1] + [P2] + [P3];
    OneMoreOrderSum(WholeHours, [], P1, LOSSY.leases, "project", "a", MONTH);
    OneMoreOrderSum(WholeHours, [] + [P1], P2, LOSSY.leases, "project", "a", MONTH);
    OneMoreOrderSum(WholeHours, [] + [P1] + [P2], P3, LOSSY.leases, "project", "a", MONTH);
  }

  lemma LossyRounded(big: Dec, small: Dec, p: nat, unit: nat)
    requires big == BIG && small == SMALL && p == PRECISION && unit == StoredUnit()
    ensures HalfUp(Units(big) + 2 * Units(small), unit) == Pow10(p - 1) + 3
  {
    hide Pow10, HalfUp;
    var shift: nat := small.exp - ETINY;
    TenfoldPower(shift + 1);
    Pow10Add(p, shift);
    LossyScaled(Units(big) + 2 * Units(small), p, Pow10(shift), unit);
  }

  lemma LossyScaled(sum: nat, p: nat, up: nat, unit: nat)
    requires sum == Pow10(p) * up + 28 * up && unit == 10 * up && up >= 1 && p >= 1
    ensures HalfUp(sum, unit) == Pow10(p - 1) + 3
  {
    hide Pow10, HalfUp;
    DistributePlus(Pow10(p), 28, up);
    HalfUpScaled(Pow10(p) + 28, 10, up);
    TensPlus28(p);
  }

  lemma TensPlus28(p: nat)
    requires p >= 1
    ensures HalfUp(Pow10(p) + 28, 10) == Pow10(p - 1) + 3
  {
    hide Pow10;
    TenfoldPower(p);
  }

  lemma LossyRow(env: Env, p: nat, n: nat)
    requires env == EnvOf(LOSSY, MONTH) && p == PRECISION && n == 46
    ensures Completes(env, MONTH, ONE, NO_ROWS)
    ensures Key("project", MONTH) in RowsAfter(env, MONTH, ONE, NO_ROWS).projects
    ensures RowsAfter(env, MONTH, ONE, NO_ROWS).projects[Key("project", MONTH)] == Pow10(p - 1) + 2
  {
    LossyListing(env);
    LossyLists(env);
    hide Pow10, Completes, RowsAfter, OrdersOf, TotalOf, ProjectSpends, StoredForm, OrdersFor, LeasesFor, UidOf, WholeHours,
      DistinctOrders, DistinctAccounts, AccountSpends, OrdersOk, LastOrderOk;
    LossyCompletes(env, p, n);
    LossyTotals(p, n);
    StoredLong(p, 2);
    assert [P1, P2, P3][0].projectId == "project";
    ProjectRow(env, MONTH, ONE, NO_ROWS, 0, "project");
  }

  /** The run completes without an error, and the row of the project is 10^-18 less than the stored form of its sum. */
  lemma ProjectAdditionsLoseValue(p: nat)
    requires p == PRECISION
    ensures var env := EnvOf(LOSSY, MONTH);
            && Reads(env, LOSSY, MONTH) && Completes(env, MONTH, ONE, NO_ROWS)
            && Key("project", MONTH) in RowsAfter(env, MONTH, ONE, NO_ROWS).projects
            && RowsAfter(env, MONTH, ONE, NO_ROWS).projects[Key("project", MONTH)] == Pow10(p - 1) + 2
            && HalfUp(ProjectSum(env.hours, LOSSY.orders, LOSSY.leases, "project", MONTH), StoredUnit()) == Pow10(p - 1) + 3
  {
    EnvReads(LOSSY, MONTH);
    hide Pow10, Completes, RowsAfter, ProjectSum, HalfUp, StoredUnit, Units, Reads, OrdersFor, LeasesFor, UidOf, WholeHours,
      NoneRefused;
    LossyRow(EnvOf(LOSSY, MONTH), p, 46);
    LossySum();
    LossyRounded(BIG, SMALL, p, StoredUnit());
  }
}
