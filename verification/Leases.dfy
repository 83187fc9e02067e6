/**
 Leases and the part of them a billing window charges. Times are whole nanoseconds; a window starts at the
 first nanosecond of a calendar month and ends at the first nanosecond of the next.
 */
module Leases {
  import opened Wrappers
  import opened Decimals

  type Id = string

  datatype Window = Window(start: int, end: int)
  {
    predicate Valid() {
      start < end
    }
  }

  /** The calendar: the first instant of the month an instant is in, and the first instant of the month after one. */
  datatype Clock = Clock(monthStart: int -> int, nextMonth: int -> int)
  {
    /** The window of a run that starts now. */
    function WindowAt(now: int): Window {
      Window(monthStart(now), nextMonth(monthStart(now)))
    }

    ghost predicate Valid() {
      && (forall t :: monthStart(t) <= t < nextMonth(monthStart(t)))
      && (forall t, u :: monthStart(t) <= u < nextMonth(monthStart(t)) ==> monthStart(u) == monthStart(t))
    }
  }

  /** Two runs have the same window exactly when they start in the same month, else windows that do not overlap. */
  lemma RunsShareWindowsWithinAMonth(c: Clock, now: int, later: int)
    requires c.Valid() && now <= later
    ensures c.WindowAt(now).Valid() && c.WindowAt(now).start <= now < c.WindowAt(now).end
    ensures c.WindowAt(later) == c.WindowAt(now) <==> later < c.WindowAt(now).end
    ensures c.WindowAt(later) != c.WindowAt(now) ==> c.WindowAt(now).end <= c.WindowAt(later).start
  {
    var w, v := c.WindowAt(now), c.WindowAt(later);
    if v.start < w.end {
      var both := if v.start < w.start then w.start else v.start;
      assert c.monthStart(both) == w.start && c.monthStart(both) == v.start;
    }
  }

  datatype Lease = Lease(id: Id, orderId: Id, createTime: int, endTime: Option<int>, priceHr: Dec)
  {
    predicate WellFormed() {
      endTime.Some? ==> createTime <= endTime.value
    }

    /** The lease is running during nanosecond `t`. */
    predicate Covers(t: int) {
      createTime <= t && (endTime.Some? ==> t < endTime.value)
    }
  }

  /** The condition of the query for the leases of an order in a window. */
  predicate Matches(l: Lease, orderId: Id, w: Window) {
    l.orderId == orderId && l.createTime < w.end && (l.endTime.None? || l.endTime.value >= w.start)
  }

  function BilledStart(l: Lease, w: Window): int {
    if l.createTime > w.start then l.createTime else w.start
  }

  function BilledEnd(l: Lease, w: Window): int {
    if l.endTime.Some? && l.endTime.value < w.end then l.endTime.value else w.end - 1
  }

  function BilledDuration(l: Lease, w: Window): int {
    BilledEnd(l, w) - BilledStart(l, w)
  }

  /** The nanoseconds a window bills: all of the window but its last, while the lease runs. */
  function BilledInstants(l: Lease, w: Window): set<int> {
    set t | w.start <= t < w.end - 1 && l.Covers(t)
  }

  function Interval(lo: int, hi: int): (s: set<int>)
    ensures forall t :: t in s <==> lo <= t < hi
    decreases hi - lo
  {
    if hi <= lo then {} else Interval(lo, hi - 1) + {hi - 1}
  }

  lemma {:induction false} IntervalSize(lo: int, hi: int)
    requires lo <= hi
    ensures |Interval(lo, hi)| == hi - lo
    decreases hi - lo
  {
    if lo < hi {
      IntervalSize(lo, hi - 1);
    }
  }

  /**
   The clipped duration of a lease the query returns is the number of nanoseconds of the window, without
   its last one, during which the lease runs; a lease the query leaves out runs in none of them. The duration
   is negative exactly for a lease that ends before it starts.
   */
  lemma ClippedDurationCountsInstants(l: Lease, w: Window)
    requires w.Valid()
    ensures Matches(l, l.orderId, w) ==> (BilledDuration(l, w) >= 0 <==> l.WellFormed())
    ensures Matches(l, l.orderId, w) && l.WellFormed() ==>
              BilledDuration(l, w) == |BilledInstants(l, w)| <= w.end - w.start - 1
    ensures !Matches(l, l.orderId, w) ==> BilledInstants(l, w) == {}
  {
    if Matches(l, l.orderId, w) && l.WellFormed() {
      assert BilledInstants(l, w) == Interval(BilledStart(l, w), BilledEnd(l, w));
      IntervalSize(BilledStart(l, w), BilledEnd(l, w));
    }
  }

  // ---------- Consecutive windows ----------

  /** Month boundaries: window `i` runs from boundary `i` to boundary `i + 1`. */
  predicate Calendar(bounds: seq<int>) {
    && |bounds| >= 1
    && forall i, j :: 0 <= i < j < |bounds| ==> bounds[i] < bounds[j]
  }

  function Month(bounds: seq<int>, i: nat): Window
    requires i + 1 < |bounds|
  {
    Window(bounds[i], bounds[i + 1])
  }

  /** What a lease is charged for in a window, nothing if the query does not return it. */
  function Charged(l: Lease, w: Window): int {
    if Matches(l, l.orderId, w) then BilledDuration(l, w) else 0
  }

  /** What a lease is charged for over all windows of a calendar. */
  function TotalCharged(l: Lease, bounds: seq<int>): int
    requires |bounds| >= 1
  {
    if |bounds| == 1 then 0
    else TotalCharged(l, bounds[..|bounds| - 1]) + Charged(l, Month(bounds, |bounds| - 2))
  }

  /** The nanoseconds between two instants during which the lease runs. */
  function RunningInstants(l: Lease, lo: int, hi: int): set<int> {
    set t | lo <= t < hi && l.Covers(t)
  }

  /** The windows whose last nanosecond the lease runs through, given by the boundary they end at. */
  function LosingBoundaries(l: Lease, bounds: seq<int>): set<int> {
    set i | 1 <= i < |bounds| && l.Covers(bounds[i] - 1)
  }

  lemma NoInstantBilledTwice(l: Lease, bounds: seq<int>, i: nat, j: nat)
    requires Calendar(bounds)
    requires i < j && j + 1 < |bounds|
    ensures BilledInstants(l, Month(bounds, i)) !! BilledInstants(l, Month(bounds, j))
  {
    assert bounds[i + 1] <= bounds[j];
  }

  /** A window bills everything that runs in it but its last nanosecond. */
  lemma OneMoreWindow(l: Lease, lo: int, w: Window)
    requires w.Valid() && lo <= w.start
    ensures |RunningInstants(l, lo, w.end)| ==
            |RunningInstants(l, lo, w.start)| + |BilledInstants(l, w)| + if l.Covers(w.end - 1) then 1 else 0
  {
    var last := if l.Covers(w.end - 1) then {w.end - 1} else {};
    var before, billed := RunningInstants(l, lo, w.start), BilledInstants(l, w);
    assert RunningInstants(l, lo, w.end) == before + billed + last;
    assert before !! billed;
    assert before + billed !! last;
  }

  lemma OneMoreBoundary(l: Lease, bounds: seq<int>)
    requires |bounds| >= 2
    ensures var n := |bounds| - 1;
            |LosingBoundaries(l, bounds)| ==
            |LosingBoundaries(l, bounds[..n])| + if l.Covers(bounds[n] - 1) then 1 else 0
  {
    var n := |bounds| - 1;
    var last := if l.Covers(bounds[n] - 1) then {n} else {};
    assert LosingBoundaries(l, bounds) == LosingBoundaries(l, bounds[..n]) + last;
  }

  /** Over consecutive windows a lease is charged for every nanosecond it runs, but one per window. */
  lemma {:induction false} ChargesTelescope(l: Lease, bounds: seq<int>)
    requires Calendar(bounds) && l.WellFormed()
    ensures TotalCharged(l, bounds) ==
            |RunningInstants(l, bounds[0], bounds[|bounds| - 1])| - |LosingBoundaries(l, bounds)|
  {
    var n := |bounds| - 1;
    if n == 0 {
      assert RunningInstants(l, bounds[0], bounds[0]) == {};
      assert LosingBoundaries(l, bounds) == {};
    } else {
      var w := Month(bounds, n - 1);
      ChargesTelescope(l, bounds[..n]);
      ClippedDurationCountsInstants(l, w);
      assert bounds[0] <= w.start;
      OneMoreWindow(l, bounds[0], w);
      OneMoreBoundary(l, bounds);
    }
  }

  /**
   A lease that starts and ends inside the calendar is charged for its whole length, less one nanosecond for
   every window end it reaches.
   */
  lemma ChargeOfAFinishedLease(l: Lease, bounds: seq<int>)
    requires Calendar(bounds) && l.WellFormed() && l.endTime.Some?
    requires bounds[0] <= l.createTime && l.endTime.value <= bounds[|bounds| - 1]
    ensures TotalCharged(l, bounds) == l.endTime.value - l.createTime -
            |set i | 1 <= i < |bounds| && l.createTime < bounds[i] <= l.endTime.value|
  {
    ChargesTelescope(l, bounds);
    assert RunningInstants(l, bounds[0], bounds[|bounds| - 1]) == Interval(l.createTime, l.endTime.value);
    IntervalSize(l.createTime, l.endTime.value);
    assert LosingBoundaries(l, bounds) == set i | 1 <= i < |bounds| && l.createTime < bounds[i] <= l.endTime.value;
  }
}
