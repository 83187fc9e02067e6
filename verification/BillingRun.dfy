/**
 The monthly billing run as a function of what its queries return and of the spend tables it starts from:
 accounts in listed order, each account's orders in order, each order's leases in order, rows written as it
 goes, stopping at the first error and keeping what was written.
 */
module BillingRun {
  import opened Wrappers
  import opened Decimals
  import opened Leases
  import opened LeaseTable
  import opened SpendStore

  datatype Account = Account(id: Id, createTime: int, demandEnabled: bool)

  /** The row writes of a run; a project row is written once per order. */
  datatype Write = OrderWrite(orderId: Id) | ProjectWrite(orderId: Id) | AccountWrite(accountId: Id)

  /**
   Everything a run reads from outside: the results of its queries (none when a query fails), the printed
   number of hours of a duration, the uid sent with each write, and the writes the database refuses for a
   reason of its own (a lost connection, a missing referenced row).
   */
  datatype Env = Env(
    ordersOf: Id -> Option<seq<Order>>,
    leasesOf: Id -> Option<seq<Lease>>,
    hours: int -> Dec,
    uid: Write -> Uid,
    refuses: Write -> bool)

  datatype Error =
    | ListOrdersFailed
    | ListLeasesFailed
    | LeaseSpendFailed
    | OrderSpendFailed
    | WriteFailed(write: Write)

  datatype Result<+T> = Ok(value: T) | Err(error: Error)

  // ---------- One order ----------

  /** Hours times price, or nothing if the multiplication raised a condition. */
  function LeaseSpend(env: Env, charge: Charge): Option<Dec> {
    var op := Mul(env.hours(charge.duration), charge.priceHr);
    if op.flags.Any() || op.value.Infinite? then None else Some(op.value.dec)
  }

  /** The spends of leases, up to the first failure: of a multiplication, or of adding to the order's total. */
  function SpendsOfCharges(env: Env, charges: seq<Charge>): Result<seq<Dec>> {
    if |charges| == 0 then
      Ok([])
    else
      var before := SpendsOfCharges(env, charges[..|charges| - 1]);
      if before.Err? then
        before
      else
        var spend := LeaseSpend(env, charges[|charges| - 1]);
        if spend.None? then Err(LeaseSpendFailed)
        else if CheckedTotal(before.value + [spend.value]).None? then Err(OrderSpendFailed)
        else Ok(before.value + [spend.value])
  }

  lemma {:induction false} SameHoursSameSpends(a: Env, b: Env, charges: seq<Charge>)
    requires forall d :: a.hours(d) == b.hours(d)
    ensures SpendsOfCharges(a, charges) == SpendsOfCharges(b, charges)
  {
    hide Mul, CheckedTotal;
    if |charges| > 0 {
      SameHoursSameSpends(a, b, charges[..|charges| - 1]);
    }
  }

  /** The spends of an order's leases in the window. */
  function OrderSpends(env: Env, o: Order, w: Window): Result<seq<Dec>> {
    var leases := env.leasesOf(o.id);
    if leases.None? then Err(ListLeasesFailed) else SpendsOfCharges(env, Charges(leases.value, w))
  }

  // ---------- The orders of one account ----------

  /** The account being billed: the tables as written so far and the totals kept in memory. */
  datatype Progress = Progress(tables: Tables, projects: map<Id, Decimal>, account: Decimal)

  datatype Step = Step(error: Option<Error>, progress: Progress)

  function ProjectSoFar(projects: map<Id, Decimal>, id: Id): Decimal {
    if id in projects then projects[id] else Finite(ZERO)
  }

  /** One row write: refused, or an upsert. */
  function WriteRow(env: Env, t: Table, write: Write, key: Key, spend: Decimal): Option<Table> {
    if env.refuses(write) then None else Upsert(t, key, env.uid(write), spend)
  }

  function BillOrder(env: Env, w: Window, o: Order, p: Progress): Step {
    var spends := OrderSpends(env, o, w);
    if spends.Err? then
      Step(Some(spends.error), p)
    else
      var project := Accumulate(ProjectSoFar(p.projects, o.projectId), spends.value);
      var account := Accumulate(p.account, spends.value);
      var order := Accumulate(Finite(ZERO), spends.value);
      var orders := WriteRow(env, p.tables.orders, OrderWrite(o.id), Key(o.id, w), order);
      if orders.None? then
        Step(Some(WriteFailed(OrderWrite(o.id))), p)
      else
        var tables := p.tables.(orders := orders.value);
        var projects := WriteRow(env, tables.projects, ProjectWrite(o.id), Key(o.projectId, w), project);
        if projects.None? then
          Step(Some(WriteFailed(ProjectWrite(o.id))), p.(tables := tables))
        else
          Step(None, Progress(tables.(projects := projects.value), p.projects[o.projectId := project], account))
  }

  function BillOrders(env: Env, w: Window, orders: seq<Order>, p: Progress): Step {
    if |orders| == 0 then
      Step(None, p)
    else
      var before := BillOrders(env, w, orders[..|orders| - 1], p);
      if before.error.Some? then before else BillOrder(env, w, orders[|orders| - 1], before.progress)
  }

  // ---------- The accounts ----------

  /** How a run ends: without an error or with one, and the tables it leaves either way. */
  datatype Outcome = Outcome(error: Option<Error>, tables: Tables)

  function Start(tables: Tables): Progress {
    Progress(tables, map[], Finite(ZERO))
  }

  function BillAccount(env: Env, w: Window, a: Account, tables: Tables): Outcome {
    var orders := env.ordersOf(a.id);
    if orders.None? then
      Outcome(Some(ListOrdersFailed), tables)
    else
      var step := BillOrders(env, w, orders.value, Start(tables));
      var after := step.progress;
      if step.error.Some? then
        Outcome(step.error, after.tables)
      else
        var accounts := WriteRow(env, after.tables.accounts, AccountWrite(a.id), Key(a.id, w), after.account);
        if accounts.None? then
          Outcome(Some(WriteFailed(AccountWrite(a.id))), after.tables)
        else
          Outcome(None, after.tables.(accounts := accounts.value))
  }

  function BillAccounts(env: Env, w: Window, accounts: seq<Account>, tables: Tables): Outcome {
    if |accounts| == 0 then
      Outcome(None, tables)
    else
      var before := BillAccounts(env, w, accounts[..|accounts| - 1], tables);
      if before.error.Some? then before else BillAccount(env, w, accounts[|accounts| - 1], before.tables)
  }

  predicate Completes(env: Env, w: Window, accounts: seq<Account>, tables: Tables) {
    BillAccounts(env, w, accounts, tables).error.None?
  }
}
