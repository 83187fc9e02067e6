/** The lease and order tables: their queries, and how lease events change what a window charges. */
module LeaseTable {
  import opened Wrappers
  import opened Decimals
  import opened Leases

  /** The columns of an order that billing reads. */
  datatype Order = Order(id: Id, projectId: Id, accountId: Id)

  function LeasesFor(table: seq<Lease>, orderId: Id, w: Window): seq<Lease> {
    if |table| == 0 then []
    else
      var rest := LeasesFor(table[..|table| - 1], orderId, w);
      var l := table[|table| - 1];
      if Matches(l, orderId, w) then rest + [l] else rest
  }

  function OrdersFor(table: seq<Order>, accountId: Id): seq<Order> {
    if |table| == 0 then []
    else
      var rest := OrdersFor(table[..|table| - 1], accountId);
      var o := table[|table| - 1];
      if o.accountId == accountId then rest + [o] else rest
  }

  method ListLeasesForTimeRangeByOrderId(table: seq<Lease>, orderId: Id, w: Window) returns (items: seq<Lease>)
    ensures items == LeasesFor(table, orderId, w)
    ensures multiset(items) == multiset(table) - multiset(LeasesOutside(table, orderId, w))
    ensures forall l :: l in items <==>
                          && l in table && l.orderId == orderId
                          && l.createTime < w.end && (l.endTime.None? || w.start <= l.endTime.value)
  {
    items := [];
    for i := 0 to |table|
      invariant items == LeasesFor(table[..i], orderId, w)
    {
      assert table[..i + 1][..i] == table[..i];
      if Matches(table[i], orderId, w) {
        items := items + [table[i]];
      }
    }
    assert table[..|table|] == table;
    LeasesForIsTheSelection(table, orderId, w);
  }

  function LeasesOutside(table: seq<Lease>, orderId: Id, w: Window): seq<Lease> {
    if |table| == 0 then []
    else
      var rest := LeasesOutside(table[..|table| - 1], orderId, w);
      var l := table[|table| - 1];
      if Matches(l, orderId, w) then rest else rest + [l]
  }

  /** The query returns every matching row as often as it occurs, and no other. */
  lemma {:induction false} LeasesForIsTheSelection(table: seq<Lease>, orderId: Id, w: Window)
    ensures multiset(LeasesFor(table, orderId, w)) + multiset(LeasesOutside(table, orderId, w)) == multiset(table)
    ensures forall l :: l in LeasesFor(table, orderId, w) <==> l in table && Matches(l, orderId, w)
  {
    if |table| > 0 {
      var front := table[..|table| - 1];
      LeasesForIsTheSelection(front, orderId, w);
      assert table == front + [table[|table| - 1]];
    }
  }

  method ListOrdersByBillingAccountId(table: seq<Order>, accountId: Id) returns (items: seq<Order>)
    ensures items == OrdersFor(table, accountId)
    ensures forall o :: o in items <==> o in table && o.accountId == accountId
  {
    items := [];
    for i := 0 to |table|
      invariant items == OrdersFor(table[..i], accountId)
    {
      assert table[..i + 1][..i] == table[..i];
      if table[i].accountId == accountId {
        items := items + [table[i]];
      }
    }
    assert table[..|table|] == table;
    OrdersForIsTheSelection(table, accountId);
  }

  lemma {:induction false} OrdersForIsTheSelection(table: seq<Order>, accountId: Id)
    ensures forall o :: o in OrdersFor(table, accountId) <==> o in table && o.accountId == accountId
  {
    if |table| > 0 {
      OrdersForIsTheSelection(table[..|table| - 1], accountId);
      assert table == table[..|table| - 1] + [table[|table| - 1]];
    }
  }

  // ---------- Lease events ----------

  /** A lease is created with the current time, and ended by setting its end to the current time. */
  datatype Event = Create(id: Id, orderId: Id, priceHr: Dec, now: int) | End(id: Id, now: int)

  predicate HasLease(table: seq<Lease>, id: Id) {
    exists i :: 0 <= i < |table| && table[i].id == id
  }

  function EndOne(l: Lease, id: Id, now: int): Lease {
    if l.id == id then l.(endTime := Some(now)) else l
  }

  function EndLease(table: seq<Lease>, id: Id, now: int): seq<Lease> {
    if |table| == 0 then [] else EndLease(table[..|table| - 1], id, now) + [EndOne(table[|table| - 1], id, now)]
  }

  /** An insert of an id that is taken does nothing; ending a lease again moves its end. */
  function Apply(table: seq<Lease>, ev: Event): seq<Lease> {
    match ev
    case Create(id, orderId, price, now) =>
      if HasLease(table, id) then table else table + [Lease(id, orderId, now, None, price)]
    case End(id, now) => EndLease(table, id, now)
  }

  function ApplyAll(table: seq<Lease>, events: seq<Event>): seq<Lease> {
    if |events| == 0 then table else Apply(ApplyAll(table, events[..|events| - 1]), events[|events| - 1])
  }

  /** Ending a lease gives every row of that id the end `now`, leaves its order, start and price, and every other row. */
  lemma {:induction false} EndSetsTheEnd(table: seq<Lease>, id: Id, now: int)
    ensures |Apply(table, End(id, now))| == |table|
    ensures forall i :: 0 <= i < |table| ==>
                          var l, ended := table[i], Apply(table, End(id, now))[i];
                          && ended.id == l.id && ended.orderId == l.orderId
                          && ended.createTime == l.createTime && ended.priceHr == l.priceHr
                          && ended.endTime == if l.id == id then Some(now) else l.endTime
  {
    if |table| > 0 {
      EndSetsTheEnd(table[..|table| - 1], id, now);
    }
  }

  predicate DistinctLeases(table: seq<Lease>) {
    forall i, j :: 0 <= i < j < |table| ==> table[i].id != table[j].id
  }

  /** Creating a lease adds one open row that starts now, with its order and price, unless its id is taken. */
  lemma CreateAddsOneOpenLease(table: seq<Lease>, id: Id, orderId: Id, price: Dec, now: int)
    ensures var after := Apply(table, Create(id, orderId, price, now));
            if exists l :: l in table && l.id == id then after == table
            else
              && |after| == |table| + 1 && after[..|table|] == table
              && var l := after[|table|];
                 l.id == id && l.orderId == orderId && l.createTime == now && l.endTime.None? && l.priceHr == price
  {
    if HasLease(table, id) {
      var i :| 0 <= i < |table| && table[i].id == id;
      assert table[i] in table;
    }
  }

  /** Lease ids stay unique. */
  lemma {:induction false} EventsKeepLeasesDistinct(table: seq<Lease>, events: seq<Event>)
    requires DistinctLeases(table)
    ensures DistinctLeases(ApplyAll(table, events))
  {
    if |events| > 0 {
      var front, last := events[..|events| - 1], events[|events| - 1];
      EventsKeepLeasesDistinct(table, front);
      if last.End? {
        EndSetsTheEnd(ApplyAll(table, front), last.id, last.now);
      }
    }
  }

  /** What the biller multiplies for one lease: how long it bills, at what price. */
  datatype Charge = Charge(duration: int, priceHr: Dec)

  function ChargeOf(l: Lease, orderId: Id, w: Window): Option<Charge> {
    if Matches(l, orderId, w) then Some(Charge(BilledDuration(l, w), l.priceHr)) else None
  }

  function Charges(leases: seq<Lease>, w: Window): seq<Charge> {
    if |leases| == 0 then []
    else Charges(leases[..|leases| - 1], w) +
         [Charge(BilledDuration(leases[|leases| - 1], w), leases[|leases| - 1].priceHr)]
  }

  /** Ending a lease now would not change what the window, already over, charges for it. */
  predicate EndIsLate(l: Lease, w: Window) {
    l.createTime >= w.end || l.endTime.None? || l.endTime.value >= w.end - 1
  }

  /**
   Setting the end of a lease to a time after the window leaves the window's charge alone for exactly the
   leases that start after it, have no end, or already run to its last nanosecond.
   */
  lemma LateEndKeepsCharge(l: Lease, w: Window, now: int)
    requires w.Valid() && now >= w.end
    ensures ChargeOf(l.(endTime := Some(now)), l.orderId, w) == ChargeOf(l, l.orderId, w) <==> EndIsLate(l, w)
  {}

  /** The event happens after the window and does not shorten or revive a lease inside it. */
  predicate IsLate(table: seq<Lease>, ev: Event, w: Window) {
    && ev.now >= w.end
    && (ev.End? ==> forall i :: 0 <= i < |table| && table[i].id == ev.id ==> EndIsLate(table[i], w))
  }

  predicate AllLate(table: seq<Lease>, events: seq<Event>, w: Window) {
    |events| > 0 ==>
      && AllLate(table, events[..|events| - 1], w)
      && IsLate(ApplyAll(table, events[..|events| - 1]), events[|events| - 1], w)
  }

  lemma {:induction false} LateEndKeepsCharges(table: seq<Lease>, id: Id, now: int, orderId: Id, w: Window)
    requires w.Valid() && now >= w.end
    requires forall i :: 0 <= i < |table| && table[i].id == id ==> EndIsLate(table[i], w)
    ensures Charges(LeasesFor(EndLease(table, id, now), orderId, w), w) == Charges(LeasesFor(table, orderId, w), w)
  {
    if |table| > 0 {
      var l := table[|table| - 1];
      LateEndKeepsCharges(table[..|table| - 1], id, now, orderId, w);
      LateEndKeepsCharge(l, w, now);
      assert EndLease(table, id, now)[..|table| - 1] == EndLease(table[..|table| - 1], id, now) by {
        EndLeaseLength(table, id, now);
        EndLeaseLength(table[..|table| - 1], id, now);
      }
    }
  }

  lemma {:induction false} EndLeaseLength(table: seq<Lease>, id: Id, now: int)
    ensures |EndLease(table, id, now)| == |table|
  {
    if |table| > 0 {
      EndLeaseLength(table[..|table| - 1], id, now);
    }
  }

  /** Once only late events follow, every order's charges for the window are final. */
  lemma {:induction false} LateEventsKeepCharges(table: seq<Lease>, events: seq<Event>, orderId: Id, w: Window)
    requires w.Valid() && AllLate(table, events, w)
    ensures Charges(LeasesFor(ApplyAll(table, events), orderId, w), w) == Charges(LeasesFor(table, orderId, w), w)
  {
    if |events| > 0 {
      var before := ApplyAll(table, events[..|events| - 1]);
      LateEventsKeepCharges(table, events[..|events| - 1], orderId, w);
      match events[|events| - 1]
      case Create(id, o, price, now) =>
        if !HasLease(before, id) {
          var after := before + [Lease(id, o, now, None, price)];
          assert after[..|after| - 1] == before;
        }
      case End(id, now) =>
        LateEndKeepsCharges(before, id, now, orderId, w);
    }
  }
}
