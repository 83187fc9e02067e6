/**
 The background service as a timed state machine. It runs its task, waits in a select for the next start, for a
 signal or for the end of the metrics server, and so on. With a sleep it waits that long after each task; with an
 interval it waits for a ticker whose channel holds one tick and drops the ticks that find it full. With both it
 goes through the sleep loop first and the interval loop after that.
 */
module Scheduler {
  import opened Wrappers

  /** Durations in nanoseconds; zero means not set. */
  datatype Config = Config(interval: nat, sleep: nat, timeout: nat)

  datatype Err = NotConfigured | SignalDone | ServerDone

  datatype Mode = Sleeping | Ticking

  datatype Phase =
    | Running(start: nat, deadline: nat)      // the task executes with a context of this deadline
    | Selecting(since: nat)                   // waiting in the select
    | Returned(err: Option<Err>)              // the service ended; none is the nil error

  /** A finished execution of the task. */
  datatype Execution = Execution(start: nat, end: nat)

  datatype State = State(
    mode: Mode,
    phase: Phase,
    now: nat,
    signalled: bool,
    serverEnded: bool,
    tickerStart: nat,
    ticks: nat,                               // ticks fired so far
    pending: bool,                            // a tick is in the channel
    dropped: nat,                             // ticks that found the channel full
    starts: nat,                              // task starts in this loop
    finished: seq<Execution>,                 // finished executions, over both loops
    openContexts: nat)                        // task contexts created and not yet cancelled

  datatype Action =
    | Pass(duration: nat)                     // time passes, up to the next tick
    | Tick
    | TaskEnds(failed: bool)
    | Wake                                    // the select takes the timer or tick
    | LeaveOnSignal                           // the select takes the done signal context
    | LeaveOnServerEnd                        // the select takes the done server context
    | Signal
    | ServerEnds

  const TEN_MINUTES: nat := 600_000_000_000

  /** A missing timeout is set when a loop is entered, and stays set for the loop after it. */
  function TimeoutIn(c: Config, mode: Mode): nat {
    if c.timeout != 0 then c.timeout
    else if c.sleep != 0 then TEN_MINUTES
    else c.interval
  }

  function StartTask(c: Config, s: State): State {
    s.(phase := Running(s.now, s.now + TimeoutIn(c, s.mode)), starts := s.starts + 1, openContexts := s.openContexts + 1)
  }

  /** Entering a loop runs the task at once; entering the interval loop creates the ticker. */
  function EnterLoop(c: Config, s: State, mode: Mode): State {
    StartTask(c, s.(mode := mode, tickerStart := s.now, ticks := 0, pending := false, dropped := 0, starts := 0))
  }

  function Initial(c: Config): State {
    var s := State(Sleeping, Returned(Some(NotConfigured)), 0, false, false, 0, 0, false, 0, 0, [], 0);
    if c.sleep != 0 then EnterLoop(c, s, Sleeping)
    else if c.interval != 0 then EnterLoop(c, s, Ticking)
    else s
  }

  /** Leaving the sleep loop goes on to the interval loop if there is one; otherwise the service returns the error. */
  function LeaveLoop(c: Config, s: State, err: Err): State {
    if s.mode == Sleeping && c.interval != 0 then EnterLoop(c, s, Ticking) else s.(phase := Returned(Some(err)))
  }

  function NextTick(c: Config, s: State): nat {
    s.tickerStart + (s.ticks + 1) * c.interval
  }

  predicate Enabled(c: Config, s: State, a: Action) {
    match a
    case Pass(duration) => s.mode == Ticking ==> s.now + duration <= NextTick(c, s)
    case Tick => s.mode == Ticking && s.now == NextTick(c, s)
    case TaskEnds(_) => s.phase.Running?
    case Wake =>
      s.phase.Selecting? &&
      (match s.mode case Sleeping => s.now >= s.phase.since + c.sleep case Ticking => s.pending)
    case LeaveOnSignal => s.phase.Selecting? && s.signalled
    case LeaveOnServerEnd => s.phase.Selecting? && s.serverEnded
    case Signal => true
    case ServerEnds => true
  }

  function Apply(c: Config, s: State, a: Action): State
    requires Enabled(c, s, a)
  {
    match a
    case Pass(duration) => s.(now := s.now + duration)
    case Tick => s.(ticks := s.ticks + 1, pending := true, dropped := s.dropped + if s.pending then 1 else 0)
    case TaskEnds(_) =>
      s.(phase := Selecting(s.now), finished := s.finished + [Execution(s.phase.start, s.now)],
         openContexts := if s.openContexts == 0 then 0 else s.openContexts - 1)
    case Wake => StartTask(c, if s.mode == Ticking then s.(pending := false) else s)
    case LeaveOnSignal => LeaveLoop(c, s, SignalDone)
    case LeaveOnServerEnd => LeaveLoop(c, s, ServerDone)
    case Signal => s.(signalled := true)
    case ServerEnds => s.(serverEnded := true)
  }

  ghost predicate IsRun(c: Config, actions: seq<Action>)
    decreases |actions|, 0
  {
    |actions| > 0 ==>
      && IsRun(c, actions[..|actions| - 1])
      && Enabled(c, StateAfter(c, actions[..|actions| - 1]), actions[|actions| - 1])
  }

  ghost function StateAfter(c: Config, actions: seq<Action>): State
    requires IsRun(c, actions)
    decreases |actions|, 1
  {
    if |actions| == 0 then Initial(c)
    else Apply(c, StateAfter(c, actions[..|actions| - 1]), actions[|actions| - 1])
  }

  // ---------- Safety, for every configuration ----------

  predicate Ordered(runs: seq<Execution>, now: nat) {
    && (forall i :: 0 <= i < |runs| ==> runs[i].start <= runs[i].end <= now)
    && (forall i, j :: 0 <= i < j < |runs| ==> runs[i].end <= runs[j].start)
  }

  predicate Safe(c: Config, s: State) {
    && Ordered(s.finished, s.now)
    && s.openContexts == (if s.phase.Running? then 1 else 0)
    && (s.phase.Running? ==>
          && s.phase.start <= s.now
          && forall i :: 0 <= i < |s.finished| ==> s.finished[i].end <= s.phase.start)
    && (s.phase.Selecting? ==> s.phase.since <= s.now)
    && (s.phase.Returned? ==> s.phase.err.Some?)
    && (s.phase == Returned(Some(SignalDone)) ==> s.signalled)
    && (s.phase == Returned(Some(ServerDone)) ==> s.serverEnded)
    && (s.phase == Returned(Some(NotConfigured)) ==> c.sleep == 0 && c.interval == 0)
    && (s.mode == Ticking && c.sleep != 0 ==> s.signalled || s.serverEnded)
    && (s.mode == Ticking ==> c.interval != 0)
  }

  lemma StepKeepsSafe(c: Config, s: State, a: Action)
    requires Safe(c, s) && Enabled(c, s, a)
    ensures Safe(c, Apply(c, s, a))
  {}

  lemma {:induction false} EveryRunIsSafe(c: Config, actions: seq<Action>)
    requires IsRun(c, actions)
    ensures Safe(c, StateAfter(c, actions))
    decreases |actions|
  {
    if |actions| > 0 {
      var front := actions[..|actions| - 1];
      EveryRunIsSafe(c, front);
      StepKeepsSafe(c, StateAfter(c, front), actions[|actions| - 1]);
    }
  }

  /** Executions of the task never overlap, not even across the two loops, and each starts with the one context open. */
  lemma ExecutionsNeverOverlap(c: Config, actions: seq<Action>)
    requires IsRun(c, actions)
    ensures var s := StateAfter(c, actions);
            && (forall i, j :: 0 <= i < j < |s.finished| ==> s.finished[i].end <= s.finished[j].start)
            && (s.phase.Running? ==> forall i :: 0 <= i < |s.finished| ==> s.finished[i].end <= s.phase.start)
            && s.openContexts == if s.phase.Running? then 1 else 0
  {
    EveryRunIsSafe(c, actions);
  }

  /**
   The service returns only when it is not configured, or on a signal or the end of the metrics server, and it never
   returns the nil error: the code after its last check is not reached.
   */
  lemma ReturnsOnlyWithAnError(c: Config, actions: seq<Action>)
    requires IsRun(c, actions) && StateAfter(c, actions).phase.Returned?
    ensures var s := StateAfter(c, actions);
            && s.phase.err.Some?
            && (s.phase.err == Some(NotConfigured) ==> c.sleep == 0 && c.interval == 0)
            && (s.phase.err == Some(SignalDone) ==> s.signalled)
            && (s.phase.err == Some(ServerDone) ==> s.serverEnded)
  {
    EveryRunIsSafe(c, actions);
  }

  /** With both a sleep and an interval, the interval loop is entered only once the service has been told to stop. */
  lemma IntervalLoopAfterSleepLoopOnlyWhenStopping(c: Config, actions: seq<Action>)
    requires IsRun(c, actions) && c.sleep != 0
    requires StateAfter(c, actions).mode == Ticking
    ensures StateAfter(c, actions).signalled || StateAfter(c, actions).serverEnded
  {
    EveryRunIsSafe(c, actions);
  }

  predicate OnDeadline(c: Config, s: State) {
    && (s.mode == Sleeping && !s.phase.Returned? ==> c.sleep != 0)
    && (s.phase.Running? ==>
          s.phase.deadline - s.phase.start ==
          if c.timeout != 0 then c.timeout
          else if s.mode == Ticking && c.sleep == 0 then c.interval
          else 10 * 60 * 1_000_000_000)
  }

  lemma StepKeepsDeadline(c: Config, s: State, a: Action)
    requires OnDeadline(c, s) && Enabled(c, s, a)
    ensures OnDeadline(c, Apply(c, s, a))
  {}

  /**
   Every execution has the configured timeout, or without one the interval, but ten minutes in the sleep loop and
   in an interval loop after it.
   */
  lemma {:induction false} EveryTaskHasItsDeadline(c: Config, actions: seq<Action>)
    requires IsRun(c, actions)
    ensures OnDeadline(c, StateAfter(c, actions))
    decreases |actions|
  {
    if |actions| > 0 {
      var front := actions[..|actions| - 1];
      EveryTaskHasItsDeadline(c, front);
      StepKeepsDeadline(c, StateAfter(c, front), actions[|actions| - 1]);
    }
  }

  /** The same action, but for whether the task failed. */
  predicate SameButFailure(a: Action, b: Action) {
    if a.TaskEnds? then b.TaskEnds? else a == b
  }

  /** Two courses of events that differ only in which executions of the task fail are both runs, to the same state. */
  lemma {:induction false} TaskErrorsDoNotMatter(c: Config, actions: seq<Action>, others: seq<Action>)
    requires IsRun(c, actions)
    requires |actions| == |others| && forall i :: 0 <= i < |actions| ==> SameButFailure(actions[i], others[i])
    ensures IsRun(c, others) && StateAfter(c, others) == StateAfter(c, actions)
    decreases |actions|
  {
    if |actions| > 0 {
      TaskErrorsDoNotMatter(c, actions[..|actions| - 1], others[..|others| - 1]);
    }
  }

  // ---------- The sleep loop ----------

  /** An execution starts no earlier than the sleep after the one before it. */
  predicate SleepsBetween(runs: seq<Execution>, sleep: nat) {
    forall i :: 0 <= i < |runs| - 1 ==> runs[i].end + sleep <= runs[i + 1].start
  }

  /** The executions of the sleep loop, the first of which starts at once. */
  predicate Spaced(c: Config, s: State) {
    && s.starts == |s.finished| + (if s.phase.Running? then 1 else 0)
    && (|s.finished| > 0 ==> s.finished[0].start == 0)
    && SleepsBetween(s.finished, c.sleep)
    && (s.phase.Running? ==>
          if |s.finished| == 0 then s.phase.start == 0
          else s.finished[|s.finished| - 1].end + c.sleep <= s.phase.start)
    && (s.phase.Selecting? ==> |s.finished| > 0 && s.finished[|s.finished| - 1].end == s.phase.since)
  }

  lemma StepKeepsSpaced(c: Config, s: State, a: Action)
    requires Enabled(c, s, a)
    requires s.mode == Sleeping && Spaced(c, s)
    ensures Apply(c, s, a).mode == Sleeping ==> Spaced(c, Apply(c, s, a))
  {
    if a.TaskEnds? && s.phase.Running? {
      var runs := s.finished;
      assert Apply(c, s, a).finished == runs + [Execution(s.phase.start, s.now)];
    }
  }

  lemma StepStaysTicking(c: Config, s: State, a: Action)
    requires Enabled(c, s, a) && s.mode == Ticking
    ensures Apply(c, s, a).mode == Ticking
  {}

  /** In the sleep loop each execution starts at least the sleep after the end of the one before it, and the first at once. */
  lemma {:induction false} ExecutionsAreSpaced(c: Config, actions: seq<Action>)
    requires IsRun(c, actions) && c.sleep != 0 && StateAfter(c, actions).mode == Sleeping
    ensures Spaced(c, StateAfter(c, actions))
    decreases |actions|
  {
    if |actions| > 0 {
      var front := actions[..|actions| - 1];
      hide Spaced, Apply, Enabled;
      if StateAfter(c, front).mode == Ticking {
        StepStaysTicking(c, StateAfter(c, front), actions[|actions| - 1]);
      } else {
        ExecutionsAreSpaced(c, front);
        StepKeepsSpaced(c, StateAfter(c, front), actions[|actions| - 1]);
      }
    }
  }

  lemma {:induction false} SpacedRunsTakeTime(runs: seq<Execution>, sleep: nat, now: nat)
    requires Ordered(runs, now) && SleepsBetween(runs, sleep) && |runs| > 0
    ensures (|runs| - 1) * sleep <= runs[|runs| - 1].start
  {
    if |runs| > 1 {
      var front := runs[..|runs| - 1];
      SpacedRunsTakeTime(front, sleep, now);
      OneInterval(|runs| - 1, sleep);
    }
  }

  /** At any time the task was started at most once per elapsed sleep, plus once at the beginning. */
  lemma SleepLoopStartsAreBounded(c: Config, actions: seq<Action>)
    requires IsRun(c, actions) && c.sleep != 0 && StateAfter(c, actions).mode == Sleeping
    ensures var s := StateAfter(c, actions);
            s.starts <= s.now / c.sleep + 1
  {
    ExecutionsAreSpaced(c, actions);
    EveryRunIsSafe(c, actions);
    hide IsRun, StateAfter;
    var s := StateAfter(c, actions);
    var n := |s.finished|;
    if n > 0 {
      SpacedRunsTakeTime(s.finished, c.sleep, s.now);
      assert s.finished[n - 1].start <= s.finished[n - 1].end <= s.now;
      if s.phase.Running? {
        OneInterval(n, c.sleep);
        TicksByNow(n, c.sleep, s.now);
      } else {
        TicksByNow(n - 1, c.sleep, s.now);
      }
    } else {
      TicksByNow(0, c.sleep, s.now);
    }
  }

  // ---------- What happens next ----------

  lemma OneMoreAction(c: Config, actions: seq<Action>, a: Action)
    requires IsRun(c, actions) && Enabled(c, StateAfter(c, actions), a)
    ensures IsRun(c, actions + [a]) && StateAfter(c, actions + [a]) == Apply(c, StateAfter(c, actions), a)
  {
    assert (actions + [a])[..|actions + [a]| - 1] == actions;
  }

  /** When the next execution starts if nothing stops the service: after the sleep, or on the tick in the channel or the next. */
  function NextStart(c: Config, s: State): nat
    requires s.phase.Selecting?
  {
    if s.mode == Ticking then (if s.pending then s.now else NextTick(c, s))
    else if s.now < s.phase.since + c.sleep then s.phase.since + c.sleep
    else s.now
  }

  function UntilNextStart(c: Config, s: State): seq<Action>
    requires s.phase.Selecting? && (s.mode == Ticking ==> s.now <= NextTick(c, s))
  {
    var wait := [Pass(NextStart(c, s) - s.now)];
    if s.mode == Ticking && !s.pending then wait + [Tick, Wake] else wait + [Wake]
  }

  /** The wake-up is due in this state. */
  predicate Due(c: Config, s: State) {
    s.phase.Selecting? && if s.mode == Ticking then s.pending else s.now >= s.phase.since + c.sleep
  }

  lemma WakesWhenDue(c: Config, actions: seq<Action>)
    requires IsRun(c, actions) && Due(c, StateAfter(c, actions))
    ensures var s, more := StateAfter(c, actions), actions + [Wake];
            && IsRun(c, more)
            && StateAfter(c, more).phase.Running? && StateAfter(c, more).phase.start == s.now
            && StateAfter(c, more).starts == s.starts + 1 && StateAfter(c, more).finished == s.finished
  {
    hide IsRun, StateAfter;
    OneMoreAction(c, actions, Wake);
  }

  lemma PassingTime(c: Config, actions: seq<Action>, d: nat)
    requires IsRun(c, actions)
    requires var s := StateAfter(c, actions); s.mode == Ticking ==> s.now + d <= NextTick(c, s)
    ensures var s := StateAfter(c, actions);
            IsRun(c, actions + [Pass(d)]) && StateAfter(c, actions + [Pass(d)]) == s.(now := s.now + d)
  {
    hide IsRun, StateAfter;
    OneMoreAction(c, actions, Pass(d));
  }

  lemma TickingNow(c: Config, actions: seq<Action>)
    requires IsRun(c, actions)
    requires var s := StateAfter(c, actions); s.mode == Ticking && !s.pending && s.now == NextTick(c, s)
    ensures var s := StateAfter(c, actions);
            IsRun(c, actions + [Tick]) && StateAfter(c, actions + [Tick]) == s.(ticks := s.ticks + 1, pending := true)
  {
    hide IsRun, StateAfter;
    OneMoreAction(c, actions, Tick);
  }

  /** The run goes on to the next start of the task, at the time it is due. */
  ghost predicate StartsNext(c: Config, actions: seq<Action>)
    requires IsRun(c, actions)
    requires var s := StateAfter(c, actions); s.phase.Selecting? && (s.mode == Ticking ==> s.now <= NextTick(c, s))
  {
    var s := StateAfter(c, actions);
    var more := actions + UntilNextStart(c, s);
    && IsRun(c, more)
    && StateAfter(c, more).phase.Running? && StateAfter(c, more).phase.start == NextStart(c, s)
    && StateAfter(c, more).starts == s.starts + 1
    && StateAfter(c, more).finished == s.finished
  }

  /** From every reachable state in which the service waits, it goes on to start the task, exactly then. */
  lemma NextExecutionStarts(c: Config, actions: seq<Action>)
    requires IsRun(c, actions) && StateAfter(c, actions).phase.Selecting?
    ensures StateAfter(c, actions).mode == Ticking ==> StateAfter(c, actions).now <= NextTick(c, StateAfter(c, actions))
    ensures StartsNext(c, actions)
  {
    TickIsAhead(c, actions);
    if StateAfter(c, actions).mode == Ticking && !StateAfter(c, actions).pending {
      NextTickStarts(c, actions);
    } else {
      NextWakeStarts(c, actions);
    }
  }

  /** Time passes up to the next tick, which then fills the channel. */
  lemma NextTickComes(c: Config, actions: seq<Action>)
    requires IsRun(c, actions)
    requires var s := StateAfter(c, actions); s.mode == Ticking && !s.pending && s.now <= NextTick(c, s)
    ensures var s := StateAfter(c, actions);
            var more := actions + [Pass(NextTick(c, s) - s.now)] + [Tick];
            IsRun(c, more) && StateAfter(c, more) == s.(now := NextTick(c, s), ticks := s.ticks + 1, pending := true)
  {
    var s := StateAfter(c, actions);
    hide IsRun, StateAfter, NextTick;
    var d := NextTick(c, s) - s.now;
    PassingTime(c, actions, d);
    SameNextTick(c, s, d);
    TickingNow(c, actions + [Pass(d)]);
  }

  lemma NextTickStarts(c: Config, actions: seq<Action>)
    requires IsRun(c, actions)
    requires var s := StateAfter(c, actions);
             s.phase.Selecting? && s.mode == Ticking && !s.pending && s.now <= NextTick(c, s)
    ensures StartsNext(c, actions)
  {
    var s := StateAfter(c, actions);
    hide IsRun, StateAfter, NextTick;
    NextTickComes(c, actions);
    var ticked := actions + [Pass(NextTick(c, s) - s.now)] + [Tick];
    WakesWhenDue(c, ticked);
    assert ticked + [Wake] == actions + UntilNextStart(c, s);
  }

  lemma NextWakeStarts(c: Config, actions: seq<Action>)
    requires IsRun(c, actions)
    requires var s := StateAfter(c, actions);
             && s.phase.Selecting? && (s.mode == Ticking ==> s.pending && s.now <= NextTick(c, s))
    ensures StartsNext(c, actions)
  {
    var s := StateAfter(c, actions);
    hide IsRun, StateAfter, NextTick;
    var d := NextStart(c, s) - s.now;
    PassingTime(c, actions, d);
    WakesWhenDue(c, actions + [Pass(d)]);
    assert actions + [Pass(d)] + [Wake] == actions + UntilNextStart(c, s);
  }

  lemma SameNextTick(c: Config, s: State, d: nat)
    ensures NextTick(c, s.(now := s.now + d)) == NextTick(c, s)
  {}

  /** The ticker never lets a tick pass by. */
  lemma {:induction false} TickIsAhead(c: Config, actions: seq<Action>)
    requires IsRun(c, actions)
    ensures var s := StateAfter(c, actions); s.mode == Ticking ==> s.now <= NextTick(c, s)
    decreases |actions|
  {
    if |actions| > 0 {
      TickIsAhead(c, actions[..|actions| - 1]);
      StepKeepsTickAhead(c, StateAfter(c, actions[..|actions| - 1]), actions[|actions| - 1]);
    }
  }

  lemma StepKeepsTickAhead(c: Config, s: State, a: Action)
    requires Enabled(c, s, a) && (s.mode == Ticking ==> s.now <= NextTick(c, s))
    ensures var after := Apply(c, s, a); after.mode == Ticking ==> after.now <= NextTick(c, after)
  {
    if a.Tick? {
      assert (s.ticks + 1 + 1) * c.interval == (s.ticks + 1) * c.interval + c.interval;
    }
  }

  /** The service has been told to stop exactly when a signal arrived or the metrics server ended in the run. */
  lemma {:induction false} ToldExactlyWhen(c: Config, actions: seq<Action>)
    requires IsRun(c, actions)
    ensures StateAfter(c, actions).signalled <==> Signal in actions
    ensures StateAfter(c, actions).serverEnded <==> ServerEnds in actions
    decreases |actions|
  {
    if |actions| > 0 {
      var front, last := actions[..|actions| - 1], actions[|actions| - 1];
      assert actions == front + [last];
      ToldExactlyWhen(c, front);
      ToldStep(c, StateAfter(c, front), last);
    }
  }

  lemma ToldStep(c: Config, s: State, a: Action)
    requires Enabled(c, s, a)
    ensures Apply(c, s, a).signalled <==> s.signalled || a == Signal
    ensures Apply(c, s, a).serverEnded <==> s.serverEnded || a == ServerEnds
  {}

  /** The last loop the service goes through. */
  function LastMode(c: Config): Mode {
    if c.interval != 0 then Ticking else Sleeping
  }

  /** The select takes whatever asks the service to stop. */
  function Leave(s: State): Action {
    if s.signalled then LeaveOnSignal else LeaveOnServerEnd
  }

  function LeaveError(s: State): Err {
    if s.signalled then SignalDone else ServerDone
  }

  /**
   From every reachable state in which it waits and is told to stop, the service can return at once with the matching
   error if it is in its last loop; from a sleep loop before an interval loop it executes the task once more first.
   */
  lemma StopsWhenTold(c: Config, actions: seq<Action>, failed: bool)
    requires IsRun(c, actions)
    requires var s := StateAfter(c, actions); s.phase.Selecting? && (s.signalled || s.serverEnded)
    ensures var s := StateAfter(c, actions);
            var more := actions + if s.mode == LastMode(c) then [Leave(s)] else [Leave(s), TaskEnds(failed), Leave(s)];
            && IsRun(c, more)
            && StateAfter(c, more).phase == Returned(Some(LeaveError(s)))
            && |StateAfter(c, more).finished| == |s.finished| + if s.mode == LastMode(c) then 0 else 1
  {
    var s := StateAfter(c, actions);
    EveryRunIsSafe(c, actions);
    hide IsRun, StateAfter;
    OneMoreAction(c, actions, Leave(s));
    if s.mode != LastMode(c) {
      var left := actions + [Leave(s)];
      OneMoreAction(c, left, TaskEnds(failed));
      OneMoreAction(c, left + [TaskEnds(failed)], Leave(s));
      assert left + [TaskEnds(failed)] + [Leave(s)] == actions + [Leave(s), TaskEnds(failed), Leave(s)];
    }
  }

  /** Every service that has returned went through its last loop, and executed the task in it. */
  predicate WentThrough(c: Config, s: State) {
    && (s.phase.Returned? && (c.sleep != 0 || c.interval != 0) ==> s.mode == LastMode(c))
    && (s.phase.Running? ==> s.starts >= 1)
    && (s.phase.Selecting? ==> s.starts >= 1 && |s.finished| >= 1)
    && (s.phase.Returned? && (c.sleep != 0 || c.interval != 0) ==> s.starts >= 1 && |s.finished| >= 1)
    && (!s.phase.Returned? ==> c.sleep != 0 || c.interval != 0)
    && (s.mode == Ticking && c.sleep != 0 ==> |s.finished| >= 1)
    && (s.mode == Ticking && c.sleep != 0 && s.phase.Returned? ==> |s.finished| >= 2)
    && (s.mode == Ticking && c.sleep != 0 && s.phase.Selecting? ==> |s.finished| >= 2)
  }

  lemma StepKeepsWentThrough(c: Config, s: State, a: Action)
    requires Enabled(c, s, a) && Safe(c, s) && WentThrough(c, s)
    ensures WentThrough(c, Apply(c, s, a))
  {
    hide Ordered;
  }

  /** No service returns without an execution in each of its loops. */
  lemma {:induction false} ReturnsOnlyFromTheLastLoop(c: Config, actions: seq<Action>)
    requires IsRun(c, actions)
    ensures WentThrough(c, StateAfter(c, actions))
    decreases |actions|
  {
    hide Apply, Enabled, Safe, WentThrough;
    if |actions| == 0 {
      InitiallyWentThrough(c);
    } else {
      var front := actions[..|actions| - 1];
      ReturnsOnlyFromTheLastLoop(c, front);
      EveryRunIsSafe(c, front);
      StepKeepsWentThrough(c, StateAfter(c, front), actions[|actions| - 1]);
    }
  }

  lemma InitiallyWentThrough(c: Config)
    ensures WentThrough(c, Initial(c))
  {}

  // ---------- Tick accounting ----------

  predicate Interval(c: Config) {
    c.sleep == 0 && c.interval > 0
  }

  function InChannel(s: State): nat {
    if s.pending then 1 else 0
  }

  /** Every tick, and the first start, has led to a start, is in the channel, or was dropped. */
  predicate Accounted(c: Config, s: State) {
    && s.mode == Ticking
    && s.tickerStart == 0
    && s.starts + InChannel(s) + s.dropped == s.ticks + 1
    && s.ticks * c.interval <= s.now <= (s.ticks + 1) * c.interval
  }

  lemma StepKeepsAccount(c: Config, s: State, a: Action)
    requires Interval(c) && Accounted(c, s) && Enabled(c, s, a)
    ensures Accounted(c, Apply(c, s, a))
  {
    if a.Tick? {
      assert (s.ticks + 1 + 1) * c.interval == (s.ticks + 1) * c.interval + c.interval;
    }
  }

  lemma {:induction false} EveryRunIsAccounted(c: Config, actions: seq<Action>)
    requires Interval(c) && IsRun(c, actions)
    ensures Accounted(c, StateAfter(c, actions))
    decreases |actions|
  {
    hide Apply, Enabled, Accounted;
    if |actions| == 0 {
      InitiallyAccounted(c);
    } else {
      var front := actions[..|actions| - 1];
      EveryRunIsAccounted(c, front);
      StepKeepsAccount(c, StateAfter(c, front), actions[|actions| - 1]);
    }
  }

  lemma InitiallyAccounted(c: Config)
    requires Interval(c)
    ensures Accounted(c, Initial(c))
  {}

  lemma TicksByNow(ticks: nat, interval: nat, now: nat)
    requires interval > 0 && ticks * interval <= now
    ensures ticks <= now / interval
    ensures now < (ticks + 1) * interval ==> ticks == now / interval
  {
    var q := now / interval;
    assert now == q * interval + now % interval;
    if q + 1 <= ticks {
      MulMonotone(q + 1, ticks, interval);
    }
    if ticks + 1 <= q {
      MulMonotone(ticks + 1, q, interval);
    }
  }

  lemma MulMonotone(a: nat, b: nat, c: nat)
    requires a <= b
    ensures a * c <= b * c
  {}

  /** At any time the task was started at most once per elapsed interval, plus once at the beginning. */
  lemma StartsAreBounded(c: Config, actions: seq<Action>)
    requires Interval(c) && IsRun(c, actions)
    ensures var s := StateAfter(c, actions);
            s.starts <= s.now / c.interval + 1
  {
    EveryRunIsAccounted(c, actions);
    var s := StateAfter(c, actions);
    TicksByNow(s.ticks, c.interval, s.now);
  }

  /** No time passes while a wake-up is due, a task takes at most an interval, and nothing asks the service to stop. */
  predicate Prompt(c: Config, s: State, a: Action) {
    match a
    case Pass(duration) =>
      && !(s.phase.Selecting? && s.pending)
      && (s.phase.Running? ==> s.now + duration <= s.phase.start + c.interval)
    case Signal => false
    case ServerEnds => false
    case _ => true
  }

  ghost predicate AllPrompt(c: Config, actions: seq<Action>)
    requires IsRun(c, actions)
    decreases |actions|
  {
    |actions| > 0 ==>
      && AllPrompt(c, actions[..|actions| - 1])
      && Prompt(c, StateAfter(c, actions[..|actions| - 1]), actions[|actions| - 1])
  }

  /** In a prompt run every task starts right on a tick, so a tick never finds the channel full. */
  predicate OnTime(c: Config, s: State) {
    && Accounted(c, s)
    && s.dropped == 0
    && !s.signalled && !s.serverEnded && !s.phase.Returned?
    && (s.pending ==> s.now == s.ticks * c.interval)
    && (s.phase.Running? ==> s.phase.start == (s.starts - 1) * c.interval)
  }

  lemma PromptStepStaysOnTime(c: Config, s: State, a: Action)
    requires Interval(c) && OnTime(c, s) && Enabled(c, s, a) && Prompt(c, s, a)
    ensures OnTime(c, Apply(c, s, a))
  {
    StepKeepsAccount(c, s, a);
    match a
    case Pass(duration) =>
      if s.pending && s.phase.Running? {
        assert s.starts == s.ticks;
        OneInterval(s.ticks, c.interval);
      }
    case Tick =>
      if s.pending {
        OneInterval(s.ticks + 1, c.interval);
      }
    case _ =>
  }

  lemma OneInterval(n: nat, interval: nat)
    ensures n * interval == (n - 1) * interval + interval
  {}

  lemma {:induction false} PromptRunsStayOnTime(c: Config, actions: seq<Action>)
    requires Interval(c) && IsRun(c, actions) && AllPrompt(c, actions)
    ensures OnTime(c, StateAfter(c, actions))
    decreases |actions|
  {
    hide Apply, Enabled, OnTime, Prompt;
    if |actions| == 0 {
      InitiallyOnTime(c);
    } else {
      var front := actions[..|actions| - 1];
      PromptRunsStayOnTime(c, front);
      PromptStepStaysOnTime(c, StateAfter(c, front), actions[|actions| - 1]);
    }
  }

  lemma InitiallyOnTime(c: Config)
    requires Interval(c)
    ensures OnTime(c, Initial(c))
  {}

  /** The task has been started exactly once per elapsed interval, plus once, when everything due has happened. */
  lemma PromptRunsStartOncePerInterval(c: Config, actions: seq<Action>)
    requires Interval(c) && IsRun(c, actions) && AllPrompt(c, actions)
    requires var s := StateAfter(c, actions);
             !s.pending && s.now < NextTick(c, s)
    ensures var s := StateAfter(c, actions);
            s.starts == s.now / c.interval + 1
  {
    PromptRunsStayOnTime(c, actions);
    var s := StateAfter(c, actions);
    TicksByNow(s.ticks, c.interval, s.now);
  }

  // ---------- Overruns ----------

  /** While a task runs, only time passes and ticks fire. */
  predicate OnlyTicks(actions: seq<Action>) {
    forall i :: 0 <= i < |actions| ==> actions[i].Pass? || actions[i].Tick?
  }

  function CountTicks(actions: seq<Action>): nat {
    if |actions| == 0 then 0
    else CountTicks(actions[..|actions| - 1]) + if actions[|actions| - 1].Tick? then 1 else 0
  }

  ghost predicate Follows(c: Config, s: State, actions: seq<Action>)
    decreases |actions|, 0
  {
    |actions| > 0 ==>
      && Follows(c, s, actions[..|actions| - 1])
      && Enabled(c, Play(c, s, actions[..|actions| - 1]), actions[|actions| - 1])
  }

  ghost function Play(c: Config, s: State, actions: seq<Action>): State
    requires Follows(c, s, actions)
    decreases |actions|, 1
  {
    if |actions| == 0 then s else Apply(c, Play(c, s, actions[..|actions| - 1]), actions[|actions| - 1])
  }

  lemma {:induction false} OverrunFillsTheChannel(c: Config, s: State, actions: seq<Action>)
    requires s.phase.Running? && !s.pending
    requires Follows(c, s, actions) && OnlyTicks(actions)
    ensures var after := Play(c, s, actions);
            && after.phase == s.phase && after.mode == s.mode && after.starts == s.starts
            && after.pending == (CountTicks(actions) > 0)
            && after.dropped == s.dropped + if CountTicks(actions) > 1 then CountTicks(actions) - 1 else 0
    decreases |actions|
  {
    if |actions| > 0 {
      OverrunFillsTheChannel(c, s, actions[..|actions| - 1]);
    }
  }

  /**
   A task that runs through `m` ticks, m at least one, is followed by exactly one catch-up start: the start is
   possible as soon as the task ends, the other m - 1 ticks are dropped, and the start after it waits for a new
   tick.
   */
  lemma OneCatchUpRun(c: Config, s: State, actions: seq<Action>, failed: bool, failedAgain: bool)
    requires s.mode == Ticking && s.phase.Running? && !s.pending
    requires Follows(c, s, actions) && OnlyTicks(actions) && CountTicks(actions) >= 1
    ensures Play(c, s, actions).phase.Running?
    ensures var ended := Apply(c, Play(c, s, actions), TaskEnds(failed));
            && Enabled(c, ended, Wake)
            && var caughtUp := Apply(c, ended, Wake);
               && caughtUp.phase.Running? && caughtUp.phase.start == ended.now
               && caughtUp.starts == s.starts + 1
               && caughtUp.dropped == s.dropped + CountTicks(actions) - 1
               && !Enabled(c, Apply(c, caughtUp, TaskEnds(failedAgain)), Wake)
  {
    OverrunFillsTheChannel(c, s, actions);
  }
}
