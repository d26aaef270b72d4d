/** The polling scheduler of `useSafePolling`: one closure per run of the effect,
    driven by browser timers, environment events, `pollNow` and settling polls.

    `Poller` is the value of all closure variables together with the browser's
    timer queue for that closure and a log of what the closure did.  `Step` is
    one turn of the event loop; the adversary picks the turns, what the browser
    reports about the environment at each reading, and how each poll settles. */
module SafePolling {
  import opened Wrappers

  datatype Options = Options(intervalMs: nat, maxBackoffMs: nat, initialDelayMs: nat)

  /** What a rejected poll rejects with. `status` is the numeric `status` field, if any. */
  datatype PollError = AbortError | OtherError(status: Option<int>)

  datatype Settlement = Fulfilled | Rejected(error: PollError)

  datatype Controller = Controller(aborted: bool)

  /** What one closure does, in order.  `Discarded` is a poll that settles without a callback. */
  datatype Action =
    | Armed(delayMs: nat)
    | Started
    | Succeeded
    | Failed(nextDelayMs: nat)
    | WentTerminal
    | Discarded
    | Disposed

  datatype Poller = Poller(
    options: Options,
    disposed: bool,
    terminal: bool,
    timer: Option<nat>,             // the variable: the last handle setTimeout returned
    controller: Option<Controller>,
    failureCount: nat,
    resumePending: bool,
    armed: map<nat, nat>,           // the browser's queue: pending handle -> delay
    nextHandle: nat,
    suspended: nat,                 // runs of `run` suspended at the await
    log: seq<Action>)

  datatype Event =
    | TimerFires(handle: nat, ready: bool, paused: bool)
    | PollSettles(result: Settlement, ready: bool)
    | EnvironmentChanges(ready: bool)
    | PollNow
    | Dispose

  const TERMINAL_HTTP_STATUSES: set<int> := {401, 403}

  predicate IsTerminal(error: PollError) {
    error.OtherError? && error.status.Some? && error.status.value in TERMINAL_HTTP_STATUSES
  }

  /** `base * 2 ** n`, see `DoubledIsPower`. */
  function Doubled(base: nat, n: nat): nat {
    if n == 0 then base else 2 * Doubled(base, n - 1)
  }

  /** The delay after the `failures`-th failure in a row. */
  function Backoff(o: Options, failures: nat): nat {
    Min(o.maxBackoffMs, Doubled(o.intervalMs, failures))
  }

  function Min(a: nat, b: nat): nat {
    if a <= b then a else b
  }

  function Log(p: Poller, a: Action): Poller {
    p.(log := p.log + [a])
  }

  function ClearTimeout(p: Poller): Poller {
    if p.timer.Some? then p.(armed := p.armed - {p.timer.value}) else p
  }

  function Schedule(p: Poller, delayMs: nat): Poller {
    var q := ClearTimeout(p);
    if q.disposed || q.terminal then q
    else
      Log(q.(armed := q.armed[q.nextHandle := delayMs], timer := Some(q.nextHandle), nextHandle := q.nextHandle + 1),
          Armed(delayMs))
  }

  /** A run of the effect with `enabled`: fresh variables, first timer armed. */
  function Start(options: Options): Poller {
    Schedule(Poller(options, false, false, None, None, 0, false, map[], 0, 0, []), options.initialDelayMs)
  }

  /** `run` up to its await, called by the timer `handle`. */
  function Fire(p: Poller, handle: nat, ready: bool, paused: bool): Poller {
    var q := p.(armed := p.armed - {handle});
    if q.disposed || q.terminal || q.controller.Some? then q
    else if !ready || paused then Schedule(q, q.options.intervalMs)
    else Log(q.(controller := Some(Controller(false)), suspended := q.suspended + 1), Started)
  }

  /** `run` from its await to the end of the catch clause, and the delay it leaves for `finally`. */
  function Resume(p: Poller, result: Settlement): (Poller, nat)
    requires p.controller.Some?
  {
    if p.disposed || p.controller.value.aborted || result == Rejected(AbortError) then
      (Log(p, Discarded), p.options.intervalMs)
    else match result
      case Fulfilled => (Log(p.(failureCount := 0), Succeeded), p.options.intervalMs)
      case Rejected(error) =>
        if IsTerminal(error) then (Log(p.(terminal := true), WentTerminal), p.options.intervalMs)
        else
          var delay := Backoff(p.options, p.failureCount + 1);
          (Log(p.(failureCount := p.failureCount + 1), Failed(delay)), delay)
  }

  /** The `finally` clause of `run`. */
  function Finish(p: Poller, nextDelay: nat, ready: bool): Poller
    requires p.suspended > 0
  {
    var q := p.(controller := None, suspended := p.suspended - 1);
    if q.disposed || q.terminal then q
    else if q.resumePending && ready then Schedule(q.(resumePending := false), 0)
    else Schedule(q, nextDelay)
  }

  function Settle(p: Poller, result: Settlement, ready: bool): Poller
    requires p.controller.Some? && p.suspended > 0
  {
    var (q, nextDelay) := Resume(p, result);
    Finish(q, nextDelay, ready)
  }

  function Abort(p: Poller): Poller {
    p.(controller := if p.controller.Some? then Some(Controller(true)) else None)
  }

  function HandleEnvironmentChange(p: Poller, ready: bool): Poller {
    if !ready then Schedule(Abort(p.(resumePending := false)), p.options.intervalMs)
    else RunNow(p)
  }

  function RunNow(p: Poller): Poller {
    if p.controller.Some? then p.(resumePending := true) else Schedule(p, 0)
  }

  /** The effect's cleanup. */
  function Cleanup(p: Poller): Poller {
    Log(Abort(ClearTimeout(p.(disposed := true))), Disposed)
  }

  /** One turn of the event loop.  A timer fires only while it is queued, a poll settles only
      while one is suspended, and the cleanup removes the listeners and unhooks `pollNow`. */
  function Step(p: Poller, e: Event): Poller {
    match e
    case TimerFires(handle, ready, paused) => if handle in p.armed then Fire(p, handle, ready, paused) else p
    case PollSettles(result, ready) =>
      if p.controller.Some? && p.suspended > 0 then Settle(p, result, ready) else p
    case EnvironmentChanges(ready) => if p.disposed then p else HandleEnvironmentChange(p, ready)
    case PollNow => if p.disposed then p else RunNow(p)
    case Dispose => if p.disposed then p else Cleanup(p)
  }

  function Run(p: Poller, events: seq<Event>): Poller
    decreases |events|
  {
    if events == [] then p else Run(Step(p, events[0]), events[1..])
  }

  // ---------------------------------------------------------------- what the log means

  predicate Settling(a: Action) {
    a.Succeeded? || a.Failed? || a.WentTerminal? || a.Discarded?
  }

  /** Polls started and not yet settled. */
  function InFlight(log: seq<Action>): int {
    if log == [] then 0
    else InFlight(log[..|log| - 1])
         + (if log[|log| - 1].Started? then 1 else if Settling(log[|log| - 1]) then -1 else 0)
  }

  /** Failures since the last success. */
  function FailureRun(log: seq<Action>): nat {
    if log == [] then 0
    else match log[|log| - 1]
      case Succeeded => 0
      case Failed(_) => FailureRun(log[..|log| - 1]) + 1
      case _ => FailureRun(log[..|log| - 1])
  }

  /** The delay a timer armed next must ask for, unless it is to fire at once. */
  function DueDelay(o: Options, log: seq<Action>): nat {
    if log == [] then o.initialDelayMs
    else if log[|log| - 1].Failed? then log[|log| - 1].nextDelayMs
    else o.intervalMs
  }

  /** Nothing of this kind may follow a disposal or a terminal status. */
  predicate Live(a: Action) {
    a.Armed? || a.Started? || a.Succeeded? || a.Failed? || a.WentTerminal?
  }

  predicate Final(a: Action) {
    a.WentTerminal? || a.Disposed?
  }

  ghost predicate SettledForGood(log: seq<Action>) {
    forall i, j :: 0 <= i < j < |log| && Final(log[i]) ==> !Live(log[j])
  }

  /** At every point of the log at most one poll was in flight. */
  ghost predicate NeverOverlaps(log: seq<Action>) {
    forall i :: 0 <= i <= |log| ==> 0 <= InFlight(log[..i]) <= 1
  }

  // ---------------------------------------------------------------- reading a log step by step

  /** A summary of a log prefix; `ok` says that every action so far was allowed when it came. */
  datatype Monitor = Monitor(ok: bool, inFlight: int, failures: nat, ended: bool, due: nat)

  predicate Allowed(o: Options, m: Monitor, a: Action) {
    && (Live(a) ==> !m.ended)
    && (a.Armed? ==> a.delayMs == 0 || a.delayMs == m.due)
    && (a.Started? ==> m.inFlight == 0)
    && (Settling(a) ==> m.inFlight == 1)
    && (a.Failed? ==> a.nextDelayMs == Backoff(o, m.failures + 1))
  }

  function Next(o: Options, m: Monitor, a: Action): Monitor {
    Monitor(m.ok && Allowed(o, m, a),
            m.inFlight + (if a.Started? then 1 else if Settling(a) then -1 else 0),
            if a.Succeeded? then 0 else if a.Failed? then m.failures + 1 else m.failures,
            m.ended || Final(a),
            if a.Failed? then a.nextDelayMs else o.intervalMs)
  }

  function Observe(o: Options, log: seq<Action>): Monitor {
    if log == [] then Monitor(true, 0, 0, false, o.initialDelayMs)
    else Next(o, Observe(o, log[..|log| - 1]), log[|log| - 1])
  }

  lemma ObserveAppend(o: Options, log: seq<Action>, a: Action)
    ensures Observe(o, log + [a]) == Next(o, Observe(o, log), a)
  {
    assert (log + [a])[..|log|] == log;
  }

  /** What the summary says about the log it read, at every prefix. */
  lemma {:induction false} ObserveMeans(o: Options, log: seq<Action>, n: nat)
    requires Observe(o, log).ok && n <= |log|
    ensures Observe(o, log[..n]).ok
    ensures InFlight(log[..n]) == Observe(o, log[..n]).inFlight
    ensures FailureRun(log[..n]) == Observe(o, log[..n]).failures
    ensures 0 <= InFlight(log[..n]) <= 1
    ensures n > 0 && log[n - 1].Failed? ==> log[n - 1].nextDelayMs == Backoff(o, FailureRun(log[..n]))
    ensures DueDelay(o, log[..n]) == Observe(o, log[..n]).due
    ensures n > 0 && log[n - 1].Armed? ==> log[n - 1].delayMs in {0, DueDelay(o, log[..n - 1])}
    decreases |log|
  {
    if n == 0 {
    } else if n == |log| {
      assert log[..n] == log;
      ObserveMeans(o, log[..n - 1], n - 1);
      assert log[..n - 1][..n - 1] == log[..n - 1];
    } else {
      ObserveMeans(o, log[..|log| - 1], n);
      assert log[..|log| - 1][..n] == log[..n];
    }
  }

  lemma {:induction false} ObserveEnds(o: Options, log: seq<Action>)
    requires Observe(o, log).ok
    ensures Observe(o, log).ended <==> exists i :: 0 <= i < |log| && Final(log[i])
    ensures SettledForGood(log)
  {
    if log == [] {
    } else {
      var shorter := log[..|log| - 1];
      ObserveEnds(o, shorter);
      if Final(log[|log| - 1]) {
        assert Final(log[|log| - 1]);
      } else if i :| 0 <= i < |shorter| && Final(shorter[i]) {
        assert Final(log[i]);
      }
      forall i, j | 0 <= i < j < |log| && Final(log[i])
        ensures !Live(log[j])
      {
        assert log[i] == shorter[i];
        if j < |shorter| { assert log[j] == shorter[j]; }
      }
    }
  }

  // ---------------------------------------------------------------- the invariant

  /** The one thing a live closure waits for: its timer, or its poll. */
  predicate Wakeable(p: Poller) {
    && (p.disposed || p.terminal ==> p.armed == map[])
    && (!p.disposed && !p.terminal ==> p.armed != map[] || p.controller.Some?)
    && (p.controller.Some? && !p.controller.value.aborted ==> p.armed == map[] && !p.disposed && !p.terminal)
  }

  ghost predicate TimersTracked(p: Poller) {
    forall h :: h in p.armed ==> p.timer == Some(h) && h < p.nextHandle
  }

  predicate LogTracked(p: Poller) {
    && p.suspended == (if p.controller.Some? then 1 else 0)
    && Observe(p.options, p.log)
       == Monitor(true, p.suspended, p.failureCount, p.disposed || p.terminal, DueDelay(p.options, p.log))
  }

  ghost predicate Inv(p: Poller) {
    Wakeable(p) && TimersTracked(p) && LogTracked(p) && Rested(p)
  }

  /** The invariant without the clauses that `Schedule` re-establishes. */
  ghost predicate Unscheduled(p: Poller) {
    && TimersTracked(p)
    && LogTracked(p)
    && (p.controller.Some? ==> p.controller.value.aborted)
    && (p.disposed || p.terminal ==> p.armed == map[])
  }

  /** No timer is armed between a failure and the end of the `finally` clause. */
  ghost predicate Rested(p: Poller) {
    p.log != [] && !p.log[|p.log| - 1].Failed?
  }

  predicate Extends(p: Poller, q: Poller) {
    q.options == p.options && p.log <= q.log
  }

  lemma ScheduleKeeps(p: Poller, delayMs: nat)
    requires Unscheduled(p) && delayMs in {0, DueDelay(p.options, p.log)}
    requires p.disposed || p.terminal ==> Rested(p)
    ensures Inv(Schedule(p, delayMs)) && Extends(p, Schedule(p, delayMs))
    ensures !p.disposed && !p.terminal ==> Schedule(p, delayMs).armed == map[p.nextHandle := delayMs]
  {
    hide Observe, Doubled, Run;
    assert ClearTimeout(p).armed == map[];
    if !p.disposed && !p.terminal {
      var q := Schedule(p, delayMs);
      assert p.nextHandle in q.armed;
      ObserveAppend(p.options, p.log, Armed(delayMs));
    }
  }

  lemma FireKeeps(p: Poller, handle: nat, ready: bool, paused: bool)
    requires Inv(p) && handle in p.armed
    ensures Inv(Fire(p, handle, ready, paused)) && Extends(p, Fire(p, handle, ready, paused))
  {
    hide Observe, Doubled, Run;
    var q := p.(armed := p.armed - {handle});
    assert q.armed == map[];
    if q.disposed || q.terminal || q.controller.Some? {
    } else if !ready || paused {
      ScheduleKeeps(q, q.options.intervalMs);
    } else {
      ObserveAppend(p.options, p.log, Started);
    }
  }

  lemma ResumeKeeps(p: Poller, result: Settlement)
    requires Inv(p) && p.controller.Some?
    ensures var q := Resume(p, result).0;
            && p.suspended == 1
            && Unscheduled(q.(controller := None, suspended := 0))
            && Resume(p, result).1 == DueDelay(q.options, q.log)
            && (q.disposed || q.terminal ==> Rested(q))
            && Extends(p, q)
  {
    hide Observe, Doubled, Run;
    var q := Resume(p, result).0;
    ObserveAppend(p.options, p.log, q.log[|p.log|]);
  }

  lemma FinishKeeps(q: Poller, nextDelay: nat, ready: bool)
    requires q.suspended == 1 && Unscheduled(q.(controller := None, suspended := 0))
    requires nextDelay == DueDelay(q.options, q.log) && (q.disposed || q.terminal ==> Rested(q))
    ensures Inv(Finish(q, nextDelay, ready)) && Extends(q, Finish(q, nextDelay, ready))
    ensures Finish(q, nextDelay, ready).controller.None? && Finish(q, nextDelay, ready).suspended == 0
    ensures Finish(q, nextDelay, ready).terminal == q.terminal && Finish(q, nextDelay, ready).disposed == q.disposed
    ensures !q.disposed && !q.terminal ==>
              && Finish(q, nextDelay, ready).armed
                 == map[q.nextHandle := if q.resumePending && ready then 0 else nextDelay]
              && Finish(q, nextDelay, ready).resumePending == (q.resumePending && !ready)
  {
    hide Observe, Doubled, Run;
    var r := q.(controller := None, suspended := 0);
    if r.disposed || r.terminal {
    } else if r.resumePending && ready {
      ScheduleKeeps(r.(resumePending := false), 0);
    } else {
      ScheduleKeeps(r, nextDelay);
    }
  }

  lemma SettleKeeps(p: Poller, result: Settlement, ready: bool)
    requires Inv(p) && p.controller.Some?
    ensures p.suspended == 1 && Inv(Settle(p, result, ready)) && Extends(p, Settle(p, result, ready))
    ensures Settle(p, result, ready).controller.None?
    ensures Settle(p, result, ready).disposed == p.disposed
    ensures !Settle(p, result, ready).terminal || p.terminal || (result.Rejected? && IsTerminal(result.error))
  {
    hide Observe, Doubled, Run;
    ResumeKeeps(p, result);
    FinishKeeps(Resume(p, result).0, Resume(p, result).1, ready);
  }

  lemma CleanupKeeps(p: Poller)
    requires Inv(p)
    ensures Inv(Cleanup(p)) && Extends(p, Cleanup(p))
  {
    hide Observe, Doubled, Run;
    ObserveAppend(p.options, p.log, Disposed);
    assert ClearTimeout(p).armed == map[];
  }

  /** Every turn keeps the invariant. */
  lemma StepKeeps(p: Poller, e: Event)
    requires Inv(p)
    ensures Inv(Step(p, e)) && Extends(p, Step(p, e))
  {
    hide Observe, Doubled, Run, Schedule, Fire, Settle, Cleanup;
    match e
    case TimerFires(handle, ready, paused) => if handle in p.armed { FireKeeps(p, handle, ready, paused); }
    case PollSettles(result, ready) => if p.controller.Some? { SettleKeeps(p, result, ready); }
    case EnvironmentChanges(ready) =>
      if !p.disposed {
        if !ready { ScheduleKeeps(Abort(p.(resumePending := false)), p.options.intervalMs); }
        else if p.controller.None? { ScheduleKeeps(p, 0); }
      }
    case PollNow => if !p.disposed && p.controller.None? { ScheduleKeeps(p, 0); }
    case Dispose => if !p.disposed { CleanupKeeps(p); }
  }

  lemma StartKeeps(options: Options)
    ensures Inv(Start(options)) && Start(options).options == options
  {
    hide Doubled;
    ScheduleKeeps(Poller(options, false, false, None, None, 0, false, map[], 0, 0, []), options.initialDelayMs);
  }

  lemma {:induction false} RunKeeps(p: Poller, events: seq<Event>)
    requires Inv(p)
    ensures Inv(Run(p, events)) && Extends(p, Run(p, events))
    decreases |events|
  {
    hide Observe, Doubled;
    if events == [] {
    } else {
      StepKeeps(p, events[0]);
      RunKeeps(Step(p, events[0]), events[1..]);
    }
  }

  // ---------------------------------------------------------------- main results

  /** After any run: at most one timer is queued, at most one poll is suspended, and a closure
      that is neither disposed nor terminal has one of the two to wake it. */
  lemma NeverStuck(options: Options, events: seq<Event>)
    ensures var p := Run(Start(options), events);
            && |p.armed| <= 1
            && p.suspended <= 1
            && (p.suspended == 1 <==> p.controller.Some?)
            && (!p.disposed && !p.terminal ==> |p.armed| == 1 || p.suspended == 1)
            && (p.disposed || p.terminal ==> p.armed == map[])
  {
    hide Observe, Doubled, Run;
    StartKeeps(options);
    RunKeeps(Start(options), events);
    var p := Run(Start(options), events);
    if p.armed != map[] {
      var h :| h in p.armed;
      assert p.armed.Keys == {h};
      assert |p.armed| == |p.armed.Keys|;
    }
  }

  /** From every reachable live state, letting the outstanding poll and then the timer happen in
      a ready, unpaused page starts a poll: the scheduler can always make progress. */
  lemma AlwaysPollsAgain(options: Options, events: seq<Event>) returns (handle: nat)
    requires var p := Run(Start(options), events); !p.disposed && !p.terminal
    ensures var p := Run(Start(options), events);
            var idle := if p.controller.Some? then Step(p, PollSettles(Fulfilled, true)) else p;
            var next := Step(idle, TimerFires(handle, true, false));
            handle in idle.armed && next.log == idle.log + [Started] && next.controller == Some(Controller(false))
  {
    hide Observe, Doubled, Run, Settle;
    StartKeeps(options);
    RunKeeps(Start(options), events);
    var p := Run(Start(options), events);
    var idle := if p.controller.Some? then Step(p, PollSettles(Fulfilled, true)) else p;
    if p.controller.Some? { SettleKeeps(p, Fulfilled, true); }
    handle :| handle in idle.armed;
  }

  /** Every timer of a run asks for the delay that is due (the initial delay, the back-off of the
      failure just logged, else the interval) or for none at all. */
  lemma TimersAskForTheDueDelay(options: Options, events: seq<Event>, n: nat)
    requires var log := Run(Start(options), events).log; n < |log| && log[n].Armed?
    ensures var log := Run(Start(options), events).log;
            log[n].delayMs == 0 || log[n].delayMs == DueDelay(options, log[..n])
  {
    StartKeeps(options);
    RunKeeps(Start(options), events);
    ObserveMeans(options, Run(Start(options), events).log, n + 1);
  }

  /** At no moment of any run are two polls of one closure in flight; after a disposal or a
      terminal status no timer is armed, no poll starts and no callback fires, however late an
      old poll settles. */
  lemma OnePollAndAbsorbingEnd(options: Options, events: seq<Event>)
    ensures NeverOverlaps(Run(Start(options), events).log)
    ensures SettledForGood(Run(Start(options), events).log)
  {
    StartKeeps(options);
    RunKeeps(Start(options), events);
    var log := Run(Start(options), events).log;
    ObserveEnds(options, log);
    forall i | 0 <= i <= |log| ensures 0 <= InFlight(log[..i]) <= 1 { ObserveMeans(options, log, i); }
  }

  function Pow2(n: nat): nat {
    if n == 0 then 1 else 2 * Pow2(n - 1)
  }

  lemma {:induction false} DoubledIsPower(base: nat, n: nat)
    ensures Doubled(base, n) == base * Pow2(n)
  {
    if n == 0 {
    } else {
      DoubledIsPower(base, n - 1);
      assert base * Pow2(n) == base * (2 * Pow2(n - 1)) == 2 * (base * Pow2(n - 1));
    }
  }

  lemma {:induction false} BackoffMonotone(o: Options, m: nat, n: nat)
    requires m <= n
    ensures Doubled(o.intervalMs, m) <= Doubled(o.intervalMs, n)
    ensures Backoff(o, m) <= Backoff(o, n) <= o.maxBackoffMs
  {
    if m == n {
    } else {
      BackoffMonotone(o, m, n - 1);
    }
  }

  lemma {:induction false} FailureRunMonotone(log: seq<Action>, i: nat, j: nat)
    requires i <= j <= |log|
    requires forall k :: i <= k < j ==> !log[k].Succeeded?
    ensures FailureRun(log[..i]) <= FailureRun(log[..j])
  {
    if i == j {
    } else {
      FailureRunMonotone(log, i, j - 1);
      assert log[..j][..j - 1] == log[..j - 1];
    }
  }

  /** After any run the failure count is the number of counted failures since the last success. */
  lemma FailureCountIsTheRun(options: Options, events: seq<Event>)
    ensures var p := Run(Start(options), events); p.failureCount == FailureRun(p.log)
  {
    hide Observe, Doubled, Run, FailureRun;
    StartKeeps(options);
    RunKeeps(Start(options), events);
    var p := Run(Start(options), events);
    ObserveMeans(options, p.log, |p.log|);
    assert p.log[..|p.log|] == p.log;
  }

  /** Every failure of any run asks for interval * 2^k capped at the maximum, where k counts it and the
      failures before it since the last success. */
  lemma BackoffFollowsFailures(options: Options, events: seq<Event>, j: nat)
    requires var log := Run(Start(options), events).log; j < |log| && log[j].Failed?
    ensures var log := Run(Start(options), events).log;
            && log[j].nextDelayMs == Backoff(options, FailureRun(log[..j + 1]))
            && FailureRun(log[..j + 1]) == FailureRun(log[..j]) + 1
  {
    hide Observe, Doubled, Run;
    StartKeeps(options);
    RunKeeps(Start(options), events);
    var log := Run(Start(options), events).log;
    ObserveMeans(options, log, j + 1);
    assert log[..j + 1][..j] == log[..j];
  }

  /** Between two failures without a success the delay does not decrease, and it never exceeds the cap. */
  lemma DelaysGrowInARun(options: Options, events: seq<Event>, i: nat, j: nat)
    requires var log := Run(Start(options), events).log;
             i <= j < |log| && log[i].Failed? && log[j].Failed? && forall k :: i <= k <= j ==> !log[k].Succeeded?
    ensures var log := Run(Start(options), events).log;
            log[i].nextDelayMs <= log[j].nextDelayMs <= options.maxBackoffMs
  {
    hide Doubled, Run, FailureRun;
    var log := Run(Start(options), events).log;
    BackoffFollowsFailures(options, events, i);
    BackoffFollowsFailures(options, events, j);
    FailureRunMonotone(log, i + 1, j + 1);
    BackoffMonotone(options, FailureRun(log[..i + 1]), FailureRun(log[..j + 1]));
  }

  /** The failure count moves only when a poll that was neither aborted nor disposed settles. */
  lemma OnlySettledPollsCount(p: Poller, e: Event)
    requires Step(p, e).failureCount != p.failureCount
    ensures e.PollSettles? && p.controller.Some? && !p.controller.value.aborted && !p.disposed
    ensures Step(p, e).failureCount == if e.result.Fulfilled? then 0 else p.failureCount + 1
    ensures e.result.Rejected? ==> e.result.error != AbortError && !IsTerminal(e.result.error)
  {
    hide Observe, Doubled, Run, Min;
  }

  lemma ReachedInv(options: Options, events: seq<Event>)
    ensures Inv(Run(Start(options), events)) && Run(Start(options), events).options == options
  {
    hide Inv, Run, Start;
    StartKeeps(options);
    RunKeeps(Start(options), events);
  }

  /** A closure starts with one timer, for the initial delay. */
  lemma StartArmsTheInitialDelay(options: Options)
    ensures var p := Start(options);
            && p.log == [Armed(options.initialDelayMs)] && (exists h :: p.armed == map[h := options.initialDelayMs])
            && p.controller.None? && p.failureCount == 0 && !p.disposed && !p.terminal
  {
    var p := Start(options);
    assert p.armed == map[0 := options.initialDelayMs];
  }

  /** A timer that fires starts a poll if and only if the page is ready and polling is not paused; otherwise
      the same wait is armed again, as the only timer. */
  lemma TimerPollsExactlyWhenReady(options: Options, events: seq<Event>, handle: nat, ready: bool, paused: bool)
    requires handle in Run(Start(options), events).armed
    requires Run(Start(options), events).controller.None?
    ensures var p := Run(Start(options), events);
            var q := Step(p, TimerFires(handle, ready, paused));
            && (q.log == p.log + [Started] <==> ready && !paused)
            && (ready && !paused ==> q.controller == Some(Controller(false)) && q.armed == map[] && q.suspended == 1)
            && (!(ready && !paused) ==>
                  && q.log == p.log + [Armed(options.intervalMs)]
                  && q.controller.None? && q.armed == map[p.nextHandle := options.intervalMs])
            && q.failureCount == p.failureCount
  {
    hide Run, Start, Observe, Doubled, Rested;
    ReachedInv(options, events);
    var p := Run(Start(options), events);
    assert p.armed - {handle} == map[];
    var q := Step(p, TimerFires(handle, ready, paused));
    assert q.log[|p.log|] == if ready && !paused then Started else Armed(options.intervalMs);
  }

  /** A timer that fires while an aborted poll has not settled does nothing but go. */
  lemma TimerWaitsForAnAbortedPoll(options: Options, events: seq<Event>, handle: nat, ready: bool, paused: bool)
    requires handle in Run(Start(options), events).armed
    requires Run(Start(options), events).controller.Some?
    ensures var p := Run(Start(options), events);
            Step(p, TimerFires(handle, ready, paused)) == p.(armed := map[])
  {
    hide Run, Start, Observe, Doubled;
    ReachedInv(options, events);
    var p := Run(Start(options), events);
    assert p.armed - {handle} == map[];
  }

  /** What the page does to a live closure.  Unready, it aborts a poll under way, withdraws a request, and
      waits one interval; ready, or on `pollNow`, it notes a request while a poll is under way and otherwise
      polls at once. */
  lemma PageEventsRearm(options: Options, events: seq<Event>, e: Event)
    requires var p := Run(Start(options), events); !p.disposed && !p.terminal
    requires e.EnvironmentChanges? || e.PollNow?
    ensures var p := Run(Start(options), events);
            var q := Step(p, e);
            && q.failureCount == p.failureCount && q.suspended == p.suspended
            && (if e == EnvironmentChanges(false) then
                  && q.log == p.log + [Armed(options.intervalMs)]
                  && q.armed == map[p.nextHandle := options.intervalMs]
                  && !q.resumePending
                  && q.controller == (if p.controller.Some? then Some(Controller(true)) else None)
                else if p.controller.Some? then q == p.(resumePending := true)
                else
                  && q.log == p.log + [Armed(0)]
                  && q.armed == map[p.nextHandle := 0]
                  && q.resumePending == p.resumePending && q.controller.None?)
  {
    hide Run, Start, Observe, Doubled, LogTracked, Rested;
    ReachedInv(options, events);
    assert ClearTimeout(Run(Start(options), events)).armed == map[];
  }

  /** The cleanup ends a closure: no timer is left, and a poll under way is aborted. */
  lemma CleanupEnds(options: Options, events: seq<Event>)
    requires !Run(Start(options), events).disposed
    ensures var p := Run(Start(options), events);
            var q := Step(p, Dispose);
            && q.disposed && q.armed == map[] && q.log == p.log + [Disposed]
            && q.controller == (if p.controller.Some? then Some(Controller(true)) else None)
  {
    hide Run, Start, Observe, Doubled;
    ReachedInv(options, events);
    assert ClearTimeout(Run(Start(options), events)).armed == map[];
  }

  /** What a settling poll reports.  Disposed, aborted or rejected as an abort, nothing; else success, which
      clears the count; the end, for status 401 or 403; or a failure, which counts and backs off. */
  lemma SettledPollReports(options: Options, events: seq<Event>, result: Settlement, ready: bool)
    requires Run(Start(options), events).controller.Some?
    ensures var p := Run(Start(options), events);
            var q := Step(p, PollSettles(result, ready));
            var ignored := p.disposed || p.controller.value.aborted || result == Rejected(AbortError);
            && |q.log| > |p.log|
            && (ignored ==> q.log[|p.log|] == Discarded && q.failureCount == p.failureCount && q.terminal == p.terminal)
            && (!ignored && result == Fulfilled ==> q.log[|p.log|] == Succeeded && q.failureCount == 0)
            && (!ignored && result in {Rejected(OtherError(Some(401))), Rejected(OtherError(Some(403)))} ==>
                  && q.log == p.log + [WentTerminal] && q.terminal && q.armed == map[])
            && (!ignored && result.Rejected? && result.error.status !in {Some(401), Some(403)} ==>
                  && !q.terminal && q.failureCount == p.failureCount + 1
                  && q.log[|p.log|] == Failed(Min(options.maxBackoffMs, options.intervalMs * Pow2(p.failureCount + 1))))
  {
    hide Run, Start, Observe, Doubled, Rested, TimersTracked;
    ReachedInv(options, events);
    var p := Run(Start(options), events);
    DoubledIsPower(options.intervalMs, p.failureCount + 1);
    var (r, nextDelay) := Resume(p, result);
    FinishOutcome(r, nextDelay, ready);
    assert r.log[|p.log|] == Step(p, PollSettles(result, ready)).log[|p.log|];
  }

  lemma FinishOutcome(q: Poller, nextDelay: nat, ready: bool)
    requires q.suspended > 0
    ensures var f := Finish(q, nextDelay, ready);
            && f.failureCount == q.failureCount && f.terminal == q.terminal
            && |f.log| >= |q.log| && f.log[..|q.log|] == q.log
            && (q.disposed || q.terminal ==> f.log == q.log && f.armed == q.armed)
  {
  }

  /** The last word on an immediate follow-up among events that arrive while a poll is in flight. */
  function Requested(pending: bool, events: seq<Event>): bool
    decreases |events|
  {
    if events == [] then pending
    else match events[|events| - 1]
      case PollNow => true
      case EnvironmentChanges(ready) => ready
      case _ => Requested(pending, events[..|events| - 1])
  }

  predicate WhileInFlight(events: seq<Event>) {
    forall i :: 0 <= i < |events| ==> !events[i].PollSettles? && !events[i].Dispose?
  }

  lemma {:induction false} RunAppend(p: Poller, events: seq<Event>, e: Event)
    ensures Run(p, events + [e]) == Step(Run(p, events), e)
    decreases |events|
  {
    if events == [] {
      assert events + [e] == [e];
      assert Run(p, [e]) == Run(Step(p, e), [e][1..]);
    } else {
      RunAppend(Step(p, events[0]), events[1..], e);
      assert (events + [e])[1..] == events[1..] + [e];
    }
  }

  lemma {:induction false} RequestsAccumulate(p: Poller, events: seq<Event>)
    requires Inv(p) && p.controller.Some? && !p.disposed && !p.terminal && WhileInFlight(events)
    ensures var q := Run(p, events);
            && q.controller.Some? && !q.disposed && !q.terminal
            && q.resumePending == Requested(p.resumePending, events)
            && q.failureCount == p.failureCount
            && (q.controller.value.aborted
                <==> p.controller.value.aborted || EnvironmentChanges(false) in events)
    decreases |events|
  {
    hide Observe, Doubled, LogTracked;
    if events == [] {
    } else {
      var last := |events| - 1;
      assert events == events[..last] + [events[last]];
      RequestsAccumulate(p, events[..last]);
      RunAppend(p, events[..last], events[last]);
    }
  }

  /** Any number of `pollNow` calls and environment events during one in-flight poll collapse:
      when the poll then settles without ending the closure, exactly one timer is queued.  Its
      delay is zero, and the request is cleared, exactly when the last such event asked for a
      follow-up (a later offline or hidden event withdraws it) and the page is ready. */
  lemma RequestsCoalesce(options: Options, before: seq<Event>, events: seq<Event>, result: Settlement, ready: bool)
    requires var p := Run(Start(options), before);
             p.controller.Some? && !p.disposed && !p.terminal && WhileInFlight(events)
    requires !(result.Rejected? && IsTerminal(result.error))
    ensures var p := Run(Start(options), before);
            var busy := Run(p, events);
            var q := Step(busy, PollSettles(result, ready));
            var asked := Requested(p.resumePending, events);
            var failed := result.Rejected? && result.error != AbortError && busy.controller == Some(Controller(false));
            var regular := if failed then Backoff(options, p.failureCount + 1) else options.intervalMs;
            && q.controller.None? && q.suspended == 0
            && q.armed == map[busy.nextHandle := if asked && ready then 0 else regular]
            && q.resumePending == (asked && !ready)
  {
    hide Observe, Doubled, Run, Finish, WhileInFlight, Requested;
    StartKeeps(options);
    var p := Run(Start(options), before);
    RunKeeps(Start(options), before);
    RequestsAccumulate(p, events);
    RunKeeps(p, events);
    var busy := Run(p, events);
    ResumeKeeps(busy, result);
    FinishKeeps(Resume(busy, result).0, Resume(busy, result).1, ready);
  }
}
