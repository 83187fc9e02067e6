/**
 The biller itself: three nested loops over accounts, orders and leases that add each lease's spend in place to
 the totals of its order, its project and its account, and write the rows as they go. Each method is proved to
 do what the corresponding function of the run says, on success and on every error return.
 */
module Biller {
  import opened Wrappers
  import opened Decimals
  import opened Leases
  import opened LeaseTable
  import opened SpendStore
  import opened BillingRun

  datatype ProjectSpend = ProjectSpend(spend: Decimal, orders: map<Id, Decimal>)

  /** The three totals a lease is added to, and the totals of the other projects. */
  datatype View = View(order: Decimal, projects: map<Id, Decimal>, account: Decimal)

  /** Adding a lease's spend to the three totals; only the condition of the first addition is looked at. */
  function AddToView(v: View, projectId: Id, leaseSpend: Dec): (View, bool) {
    var order := Add(v.order, leaseSpend);
    (View(order.value,
          v.projects[projectId := Add(ProjectSoFar(v.projects, projectId), leaseSpend).value],
          Add(v.account, leaseSpend).value),
     !order.flags.Any())
  }

  /** Every order but one, and every project but that order's, keeps its totals. */
  ghost predicate OthersKept(before: map<Id, ProjectSpend>, after: map<Id, ProjectSpend>, o: Order) {
    && (forall p :: p in before && p != o.projectId ==> p in after && after[p] == before[p])
    && (o.projectId in before ==>
          && o.projectId in after
          && after[o.projectId].orders.Keys == before[o.projectId].orders.Keys + {o.id}
          && forall x :: x in before[o.projectId].orders && x != o.id ==>
                           after[o.projectId].orders[x] == before[o.projectId].orders[x])
  }

  /** The totals of the account being billed, updated in place. */
  class DemandSpend {
    const accountId: Id
    var spend: Decimal
    var projects: map<Id, ProjectSpend>

    constructor (accountId: Id)
      ensures this.accountId == accountId
      ensures spend == Finite(ZERO) && Totals() == map[]
    {
      this.accountId := accountId;
      spend := Finite(ZERO);
      projects := map[];
    }

    ghost function Totals(): map<Id, Decimal>
      reads this
    {
      map p | p in projects :: projects[p].spend
    }

    predicate IsOpen(o: Order)
      reads this
    {
      o.projectId in projects && o.id in projects[o.projectId].orders
    }

    ghost function ViewOf(o: Order): View
      requires IsOpen(o)
      reads this
    {
      View(projects[o.projectId].orders[o.id], Totals(), spend)
    }

    /** Makes room for an order: a zero total for it, and one for its project if this is its first order. */
    method OpenOrder(o: Order)
      modifies this
      ensures IsOpen(o)
      ensures ViewOf(o) == View(Finite(ZERO),
                                old(Totals())[o.projectId := ProjectSoFar(old(Totals()), o.projectId)],
                                old(spend))
      ensures projects.Keys == old(projects.Keys) + {o.projectId}
      ensures OthersKept(old(projects), projects, o)
    {
      if o.projectId !in projects {
        projects := projects[o.projectId := ProjectSpend(Finite(ZERO), map[])];
      }
      var p := projects[o.projectId];
      projects := projects[o.projectId := p.(orders := p.orders[o.id := Finite(ZERO)])];
    }

    /** Adds a lease's spend to its order, project and account; only the first addition is checked. */
    method AddLease(o: Order, leaseSpend: Dec) returns (ok: bool)
      requires IsOpen(o)
      modifies this
      ensures IsOpen(o)
      ensures ok == AddToView(old(ViewOf(o)), o.projectId, leaseSpend).1
      ensures ViewOf(o) == var added := AddToView(old(ViewOf(o)), o.projectId, leaseSpend).0;
                           if ok then added else added.(account := old(spend))
      ensures OthersKept(old(projects), projects, o)
    {
      hide Add;
      var p := projects[o.projectId];
      assert Totals()[o.projectId] == p.spend;
      var order := Add(p.orders[o.id], leaseSpend);
      p := p.(orders := p.orders[o.id := order.value]);
      projects := projects[o.projectId := p];
      p := p.(spend := Add(p.spend, leaseSpend).value);
      projects := projects[o.projectId := p];
      if order.flags.Any() {
        return false;
      }
      spend := Add(spend, leaseSpend).value;
      return true;
    }
  }

  lemma {:induction false} ErrorPersists(env: Env, charges: seq<Charge>, k: nat)
    requires k <= |charges|
    requires SpendsOfCharges(env, charges[..k]).Err?
    ensures SpendsOfCharges(env, charges) == SpendsOfCharges(env, charges[..k])
  {
    if k < |charges| {
      assert charges[..|charges| - 1][..k] == charges[..k];
      ErrorPersists(env, charges[..|charges| - 1], k);
    } else {
      assert charges[..k] == charges;
    }
  }

  lemma {:induction false} ChargesPrefix(leases: seq<Lease>, w: Window, k: nat)
    requires k <= |leases|
    ensures |Charges(leases, w)| == |leases|
    ensures Charges(leases, w)[..k] == Charges(leases[..k], w)
  {
    if |leases| == 0 {
    } else if k == |leases| {
      assert leases[..k] == leases;
      ChargesPrefix(leases[..k - 1], w, k - 1);
    } else {
      assert leases[..|leases| - 1][..k] == leases[..k];
      ChargesPrefix(leases[..|leases| - 1], w, k);
    }
  }

  /** One lease more, when everything so far went well. */
  lemma OneMoreLease(env: Env, charges: seq<Charge>, charge: Charge, ys: seq<Dec>)
    requires SpendsOfCharges(env, charges) == Ok(ys)
    requires CheckedTotal(ys).Some? && Accumulate(Finite(ZERO), ys) == Finite(CheckedTotal(ys).value)
    ensures var op := Mul(env.hours(charge.duration), charge.priceHr);
            var next := SpendsOfCharges(env, charges + [charge]);
            if op.flags.Any() then
              next == Err(LeaseSpendFailed)
            else
              && op.value.Finite?
              && var sum := Add(Accumulate(Finite(ZERO), ys), op.value.dec);
                 if sum.flags.Any() then next == Err(OrderSpendFailed)
                 else
                   && next == Ok(ys + [op.value.dec])
                   && CheckedTotal(ys + [op.value.dec]).Some?
                   && sum.value == Finite(CheckedTotal(ys + [op.value.dec]).value)
  {
    hide Mul, Add, Fits, ExactProduct, ExactSum;
    var hours := env.hours(charge.duration);
    var op := Mul(hours, charge.priceHr);
    assert (charges + [charge])[..|charges + [charge]| - 1] == charges;
    MulIsQuietExactlyWhenTheProductFits(hours, charge.priceHr);
    if !op.flags.Any() {
      var zs := ys + [op.value.dec];
      assert zs[..|zs| - 1] == ys;
      AddIsQuietExactlyWhenTheSumFits(CheckedTotal(ys).value, op.value.dec);
    }
  }

  lemma AccumulateOneMore(acc: Decimal, ys: seq<Dec>, y: Dec)
    ensures Accumulate(acc, ys + [y]) == Add(Accumulate(acc, ys), y).value
  {
    assert (ys + [y])[..|ys + [y]| - 1] == ys;
  }

  /** One lease: clip it to the window, multiply, add to the totals. */
  function LeaseStep(env: Env, w: Window, projectId: Id, l: Lease, v: View): Result<View> {
    var op := Mul(env.hours(BilledDuration(l, w)), l.priceHr);
    if op.flags.Any() || op.value.Infinite? then
      Err(LeaseSpendFailed)
    else
      var (next, ok) := AddToView(v, projectId, op.value.dec);
      if ok then Ok(next) else Err(OrderSpendFailed)
  }

  lemma QuietIsFinite(x: Dec, y: Dec)
    ensures !Mul(x, y).flags.Any() ==> Mul(x, y).value.Finite?
  {
    MulIsQuietExactlyWhenTheProductFits(x, y);
  }

  /** The body of the lease loop. */
  method BillLease(env: Env, w: Window, o: Order, lease: Lease, spend: DemandSpend) returns (err: Option<Error>)
    requires spend.IsOpen(o)
    modifies spend
    ensures spend.IsOpen(o)
    ensures match LeaseStep(env, w, o.projectId, lease, old(spend.ViewOf(o)))
            case Err(e) => err == Some(e)
            case Ok(next) => err == None && spend.ViewOf(o) == next
  {
    hide Mul, Add, AddToView;
    var leaseStart := if lease.createTime > w.start then lease.createTime else w.start;
    var leaseEnd := if lease.endTime.Some? && lease.endTime.value < w.end then lease.endTime.value else w.end - 1;
    assert leaseEnd - leaseStart == BilledDuration(lease, w);
    var hours := env.hours(leaseEnd - leaseStart);
    QuietIsFinite(hours, lease.priceHr);
    var leaseSpend := Mul(hours, lease.priceHr);
    if leaseSpend.flags.Any() {
      return Some(LeaseSpendFailed);
    }
    var ok := spend.AddLease(o, leaseSpend.value.dec);
    if !ok {
      return Some(OrderSpendFailed);
    }
    return None;
  }

  /** What the totals hold once the leases with spends `ys` of an order are added. */
  predicate Holds(v: View, projectId: Id, before: Progress, ys: seq<Dec>) {
    && CheckedTotal(ys).Some?
    && v.order == Accumulate(Finite(ZERO), ys) == Finite(CheckedTotal(ys).value)
    && v.projects == before.projects[projectId := Accumulate(ProjectSoFar(before.projects, projectId), ys)]
    && v.account == Accumulate(before.account, ys)
  }

  /** The spends of the leases before index `i`, with what the totals then hold. */
  predicate Reached(env: Env, w: Window, leases: seq<Lease>, i: nat, projectId: Id, before: Progress, v: View)
    requires i <= |leases|
  {
    var spends := SpendsOfCharges(env, Charges(leases[..i], w));
    spends.Ok? && Holds(v, projectId, before, spends.value)
  }

  lemma ReachedNext(env: Env, w: Window, leases: seq<Lease>, i: nat, projectId: Id, before: Progress, v: View)
    requires i < |leases|
    requires Reached(env, w, leases, i, projectId, before, v)
    ensures match LeaseStep(env, w, projectId, leases[i], v)
            case Err(e) => SpendsOfCharges(env, Charges(leases, w)) == Err(e)
            case Ok(next) => Reached(env, w, leases, i + 1, projectId, before, next)
  {
    hide Mul, Add, Accumulate, CheckedTotal, SpendsOfCharges, Charges;
    var charge := Charge(BilledDuration(leases[i], w), leases[i].priceHr);
    var ys := SpendsOfCharges(env, Charges(leases[..i], w)).value;
    ChargesNext(leases, w, i);
    OneMoreLease(env, Charges(leases[..i], w), charge, ys);
    var step := LeaseStep(env, w, projectId, leases[i], v);
    if step.Err? {
      ChargesPrefix(leases, w, i + 1);
      ErrorPersists(env, Charges(leases, w), i + 1);
    } else {
      var y := Mul(env.hours(charge.duration), charge.priceHr).value.dec;
      var project := ProjectSoFar(before.projects, projectId);
      AccumulateOneMore(Finite(ZERO), ys, y);
      AccumulateOneMore(project, ys, y);
      AccumulateOneMore(before.account, ys, y);
      assert step.value.projects == before.projects[projectId := Accumulate(project, ys + [y])];
    }
  }

  lemma ChargesNext(leases: seq<Lease>, w: Window, i: nat)
    requires i < |leases|
    ensures Charges(leases[..i + 1], w) ==
            Charges(leases[..i], w) + [Charge(BilledDuration(leases[i], w), leases[i].priceHr)]
  {
    assert leases[..i + 1][..i] == leases[..i];
  }

  /** The lease loop of one order. */
  method BillLeases(env: Env, w: Window, o: Order, leases: seq<Lease>, spend: DemandSpend, ghost before: Progress)
    returns (err: Option<Error>)
    requires spend.IsOpen(o)
    requires Holds(spend.ViewOf(o), o.projectId, before, [])
    modifies spend
    ensures spend.IsOpen(o)
    ensures var spends := SpendsOfCharges(env, Charges(leases, w));
            match err
            case Some(e) => spends == Err(e)
            case None => spends.Ok? && Holds(spend.ViewOf(o), o.projectId, before, spends.value)
  {
    assert Reached(env, w, leases, 0, o.projectId, before, spend.ViewOf(o));
    hide LeaseStep, Reached;
    for i := 0 to |leases|
      invariant spend.IsOpen(o)
      invariant Reached(env, w, leases, i, o.projectId, before, spend.ViewOf(o))
    {
      ReachedNext(env, w, leases, i, o.projectId, before, spend.ViewOf(o));
      err := BillLease(env, w, o, leases[i], spend);
      if err.Some? {
        return;
      }
    }
    ReachedAll(env, w, leases, o.projectId, before, spend.ViewOf(o));
    return None;
  }

  lemma ReachedAll(env: Env, w: Window, leases: seq<Lease>, projectId: Id, before: Progress, v: View)
    requires Reached(env, w, leases, |leases|, projectId, before, v)
    ensures var spends := SpendsOfCharges(env, Charges(leases, w));
            spends.Ok? && Holds(v, projectId, before, spends.value)
  {
    assert leases[..|leases|] == leases;
  }

  /** The table a write leaves is the one the run's description gives, which gives none for a write that fails. */
  lemma WrittenIsWriteRow(env: Env, before: Table, after: Table, write: Write, key: Key, spend: Decimal, ok: bool)
    requires ok <==> !env.refuses(write) && Accepts(before, key, env.uid(write), spend)
    requires ok ==> Upserted(before, after, key, env.uid(write), StoredForm(spend).value)
    ensures WriteRow(env, before, write, key, spend) == if ok then Some(after) else None
  {
    hide StoredForm, Upserted;
    UpsertWritesOneRow(before, key, env.uid(write), spend);
    if ok {
      UpsertedTableIsUnique(before, Upsert(before, key, env.uid(write), spend).value, after, key, env.uid(write),
                            StoredForm(spend).value);
    }
  }

  class Biller {
    /** The spend tables behind the querier. */
    var tables: Tables

    constructor (tables: Tables)
      ensures this.tables == tables
    {
      this.tables := tables;
    }

    method CreateOrderSpend(env: Env, orderId: Id, spend: Decimal, w: Window) returns (ok: bool)
      modifies this
      ensures ok <==> !env.refuses(OrderWrite(orderId)) && Accepts(old(tables).orders, Key(orderId, w), env.uid(OrderWrite(orderId)), spend)
      ensures ok ==> Upserted(old(tables).orders, tables.orders, Key(orderId, w), env.uid(OrderWrite(orderId)), StoredForm(spend).value)
      ensures tables.projects == old(tables).projects && tables.accounts == old(tables).accounts
      ensures !ok ==> tables == old(tables)
      ensures old(tables.Valid()) ==> tables.Valid()
    {
      hide StoredForm, Upserted;
      UpsertWritesOneRow(tables.orders, Key(orderId, w), env.uid(OrderWrite(orderId)), spend);
      var row := WriteRow(env, tables.orders, OrderWrite(orderId), Key(orderId, w), spend);
      ok := row.Some?;
      if ok {
        tables := tables.(orders := row.value);
      }
    }

    method CreateProjectSpend(env: Env, o: Order, spend: Decimal, w: Window) returns (ok: bool)
      modifies this
      ensures ok <==> !env.refuses(ProjectWrite(o.id)) && Accepts(old(tables).projects, Key(o.projectId, w), env.uid(ProjectWrite(o.id)), spend)
      ensures ok ==> Upserted(old(tables).projects, tables.projects, Key(o.projectId, w), env.uid(ProjectWrite(o.id)), StoredForm(spend).value)
      ensures tables.orders == old(tables).orders && tables.accounts == old(tables).accounts
      ensures !ok ==> tables == old(tables)
      ensures old(tables.Valid()) ==> tables.Valid()
    {
      hide StoredForm, Upserted;
      UpsertWritesOneRow(tables.projects, Key(o.projectId, w), env.uid(ProjectWrite(o.id)), spend);
      var row := WriteRow(env, tables.projects, ProjectWrite(o.id), Key(o.projectId, w), spend);
      ok := row.Some?;
      if ok {
        tables := tables.(projects := row.value);
      }
    }

    method CreateBillingAccountSpend(env: Env, accountId: Id, spend: Decimal, w: Window) returns (ok: bool)
      modifies this
      ensures ok <==> !env.refuses(AccountWrite(accountId)) && Accepts(old(tables).accounts, Key(accountId, w), env.uid(AccountWrite(accountId)), spend)
      ensures ok ==> Upserted(old(tables).accounts, tables.accounts, Key(accountId, w), env.uid(AccountWrite(accountId)), StoredForm(spend).value)
      ensures tables.orders == old(tables).orders && tables.projects == old(tables).projects
      ensures !ok ==> tables == old(tables)
      ensures old(tables.Valid()) ==> tables.Valid()
    {
      hide StoredForm, Upserted;
      UpsertWritesOneRow(tables.accounts, Key(accountId, w), env.uid(AccountWrite(accountId)), spend);
      var row := WriteRow(env, tables.accounts, AccountWrite(accountId), Key(accountId, w), spend);
      ok := row.Some?;
      if ok {
        tables := tables.(accounts := row.value);
      }
    }

    /** The body of the order loop. */
    method BillOneOrder(env: Env, w: Window, o: Order, spend: DemandSpend) returns (err: Option<Error>)
      modifies this, spend
      ensures var step := BillOrder(env, w, o, Progress(old(tables), old(spend.Totals()), old(spend.spend)));
              && err == step.error
              && tables == step.progress.tables
              && (err.None? ==> step.progress == Progress(tables, spend.Totals(), spend.spend))
    {
      hide SpendsOfCharges, WriteRow, Accepts, Upserted, StoredForm;
      ghost var before := Progress(tables, spend.Totals(), spend.spend);
      spend.OpenOrder(o);
      var leases := env.leasesOf(o.id);
      if leases.None? {
        return Some(ListLeasesFailed);
      }
      err := BillLeases(env, w, o, leases.value, spend, before);
      if err.Some? {
        return;
      }
      assert spend.Totals()[o.projectId] == spend.projects[o.projectId].spend;
      var order, project := spend.projects[o.projectId].orders[o.id], spend.projects[o.projectId].spend;
      var ok := CreateOrderSpend(env, o.id, order, w);
      WrittenIsWriteRow(env, before.tables.orders, tables.orders, OrderWrite(o.id), Key(o.id, w), order, ok);
      if !ok {
        return Some(WriteFailed(OrderWrite(o.id)));
      }
      ok := CreateProjectSpend(env, o, project, w);
      WrittenIsWriteRow(env, before.tables.projects, tables.projects, ProjectWrite(o.id), Key(o.projectId, w), project, ok);
      if !ok {
        return Some(WriteFailed(ProjectWrite(o.id)));
      }
      return None;
    }

    /** The body of the account loop. */
    method BillOneAccount(env: Env, w: Window, a: Account) returns (err: Option<Error>)
      modifies this
      ensures Outcome(err, tables) == BillAccount(env, w, a, old(tables))
    {
      var spend := new DemandSpend(a.id);
      var listed := env.ordersOf(a.id);
      if listed.None? {
        return Some(ListOrdersFailed);
      }
      var orders := listed.value;
      hide BillOrder, WriteRow, Accepts, Upserted, StoredForm;
      for i := 0 to |orders|
        invariant BillOrders(env, w, orders[..i], Start(old(tables))) ==
                  Step(None, Progress(tables, spend.Totals(), spend.spend))
      {
        assert orders[..i + 1][..i] == orders[..i];
        err := BillOneOrder(env, w, orders[i], spend);
        if err.Some? {
          OrderErrorPersists(env, w, orders, Start(old(tables)), i + 1);
          return;
        }
      }
      assert orders[..|orders|] == orders;
      ghost var written := tables;
      var ok := CreateBillingAccountSpend(env, a.id, spend.spend, w);
      WrittenIsWriteRow(env, written.accounts, tables.accounts, AccountWrite(a.id), Key(a.id, w), spend.spend, ok);
      if !ok {
        return Some(WriteFailed(AccountWrite(a.id)));
      }
      return None;
    }

    /** The whole run over the listed accounts. */
    method CalculateDemandSpend(env: Env, accounts: seq<Account>, w: Window) returns (err: Option<Error>)
      modifies this
      ensures Outcome(err, tables) == BillAccounts(env, w, accounts, old(tables))
    {
      for i := 0 to |accounts|
        invariant BillAccounts(env, w, accounts[..i], old(tables)) == Outcome(None, tables)
      {
        assert accounts[..i + 1][..i] == accounts[..i];
        err := BillOneAccount(env, w, accounts[i]);
        if err.Some? {
          AccountErrorPersists(env, w, accounts, old(tables), i + 1);
          return;
        }
      }
      assert accounts[..|accounts|] == accounts;
      return None;
    }

    /**
     The scheduled task, started at time `now`, bills the month `now` is in. Its result says only whether the accounts
     could be listed: an error of the run itself is logged and dropped, so the scheduler sees a failed run as a
     successful one.
     */
    method Run(env: Env, listed: Option<seq<Account>>, clock: Clock, now: int) returns (ok: bool)
      modifies this
      ensures ok == listed.Some?
      ensures tables == if ok then BillAccounts(env, clock.WindowAt(now), listed.value, old(tables)).tables else old(tables)
    {
      if listed.None? {
        return false;
      }
      var startTime := clock.monthStart(now);
      var endTime := clock.nextMonth(startTime);
      var err := CalculateDemandSpend(env, listed.value, Window(startTime, endTime));
      return true;
    }
  }

  lemma {:induction false} OrderErrorPersists(env: Env, w: Window, orders: seq<Order>, p: Progress, k: nat)
    requires k <= |orders|
    requires BillOrders(env, w, orders[..k], p).error.Some?
    ensures BillOrders(env, w, orders, p) == BillOrders(env, w, orders[..k], p)
  {
    if k < |orders| {
      assert orders[..|orders| - 1][..k] == orders[..k];
      OrderErrorPersists(env, w, orders[..|orders| - 1], p, k);
    } else {
      assert orders[..k] == orders;
    }
  }

  lemma {:induction false} AccountErrorPersists(env: Env, w: Window, accounts: seq<Account>, tables: Tables, k: nat)
    requires k <= |accounts|
    requires BillAccounts(env, w, accounts[..k], tables).error.Some?
    ensures BillAccounts(env, w, accounts, tables) == BillAccounts(env, w, accounts[..k], tables)
  {
    if k < |accounts| {
      assert accounts[..|accounts| - 1][..k] == accounts[..k];
      AccountErrorPersists(env, w, accounts[..|accounts| - 1], tables, k);
    } else {
      assert accounts[..k] == accounts;
    }
  }
}
