/** The closure variables of one run of the polling effect as an object, and the hook that
    replaces one such closure by the next. */
module PollingEffect {
  import opened Wrappers
  import opened SafePolling

  /** One run of the effect.  `armed` is the browser's timer queue for this closure;
      `suspended` and `log` only record what happened. */
  class PollingClosure {
    const options: Options
    var disposed: bool
    var terminal: bool
    var timer: Option<nat>
    var controller: Option<Controller>
    var failureCount: nat
    var resumePending: bool
    var armed: map<nat, nat>
    var nextHandle: nat
    ghost var suspended: nat
    ghost var log: seq<Action>

    ghost function View(): Poller
      reads this
    {
      Poller(options, disposed, terminal, timer, controller, failureCount, resumePending,
             armed, nextHandle, suspended, log)
    }

    constructor (options: Options)
      ensures View() == Start(options) && Inv(View())
    {
      this.options := options;
      disposed, terminal, timer, controller := false, false, None, None;
      failureCount, resumePending, armed, nextHandle := 0, false, map[], 0;
      suspended, log := 0, [];
      new;
      ScheduleTimer(options.initialDelayMs);
      StartKeeps(options);
    }

    method ScheduleTimer(delayMs: nat)
      modifies this
      ensures View() == Schedule(old(View()), delayMs)
    {
      if timer.Some? {
        armed := armed - {timer.value};
      }
      if !disposed && !terminal {
        timer := Some(nextHandle);
        armed := armed[nextHandle := delayMs];
        nextHandle := nextHandle + 1;
        log := log + [Armed(delayMs)];
      }
    }

    /** The browser calls `run` for the queued timer `handle`; up to the await. */
    method RunFromTimer(handle: nat, ready: bool, paused: bool)
      requires Inv(View()) && handle in armed
      modifies this
      ensures View() == Step(old(View()), TimerFires(handle, ready, paused)) && Inv(View())
    {
      hide Inv, Observe, Doubled;
      FireKeeps(View(), handle, ready, paused);
      armed := armed - {handle};
      if disposed || terminal || controller.Some? {
        return;
      }
      if !ready || paused {
        ScheduleTimer(options.intervalMs);
        return;
      }
      controller := Some(Controller(false));
      suspended := suspended + 1;
      log := log + [Started];
    }

    /** The awaited poll settles: `run` from the await to the end of its catch clause. */
    method AfterAwait(result: Settlement) returns (nextDelay: nat)
      requires controller.Some?
      modifies this
      ensures (View(), nextDelay) == Resume(old(View()), result)
    {
      hide Doubled, Min;
      nextDelay := options.intervalMs;
      if disposed || controller.value.aborted || result == Rejected(AbortError) {
        log := log + [Discarded];
      } else if result.Fulfilled? {
        failureCount := 0;
        log := log + [Succeeded];
      } else if IsTerminal(result.error) {
        terminal := true;
        log := log + [WentTerminal];
      } else {
        failureCount := failureCount + 1;
        nextDelay := Backoff(options, failureCount);
        log := log + [Failed(nextDelay)];
      }
    }

    /** The finally clause of `run`. */
    method Finally(nextDelay: nat, ready: bool)
      requires suspended > 0
      modifies this
      ensures View() == Finish(old(View()), nextDelay, ready)
    {
      controller := None;
      suspended := suspended - 1;
      if !disposed && !terminal {
        if resumePending && ready {
          resumePending := false;
          ScheduleTimer(0);
        } else {
          ScheduleTimer(nextDelay);
        }
      }
    }

    method ResumeRun(result: Settlement, ready: bool)
      requires Inv(View()) && controller.Some?
      modifies this
      ensures View() == Step(old(View()), PollSettles(result, ready)) && Inv(View())
    {
      hide Inv, Observe, Finish;
      SettleKeeps(View(), result, ready);
      var nextDelay := AfterAwait(result);
      Finally(nextDelay, ready);
    }

    /** The visibility, online and offline listener; the cleanup has removed it once disposed. */
    method EnvironmentChanged(ready: bool)
      requires Inv(View())
      modifies this
      ensures View() == Step(old(View()), EnvironmentChanges(ready)) && Inv(View())
    {
      hide Inv, Observe, Doubled;
      StepKeeps(View(), EnvironmentChanges(ready));
      if disposed {
        return;
      }
      if !ready {
        resumePending := false;
        if controller.Some? {
          controller := Some(Controller(true));
        }
        ScheduleTimer(options.intervalMs);
        return;
      }
      if controller.Some? {
        resumePending := true;
        return;
      }
      ScheduleTimer(0);
    }

    method RunNowRequested()
      requires Inv(View())
      modifies this
      ensures View() == Step(old(View()), PollNow) && Inv(View())
    {
      hide Inv, Observe, Doubled;
      StepKeeps(View(), PollNow);
      if disposed {
        return;
      }
      if controller.Some? {
        resumePending := true;
        return;
      }
      ScheduleTimer(0);
    }

    method CleanUp()
      requires Inv(View())
      modifies this
      ensures View() == Step(old(View()), Dispose) && Inv(View()) && disposed
    {
      hide Inv, Observe, Doubled;
      StepKeeps(View(), Dispose);
      if disposed {
        return;
      }
      disposed := true;
      if timer.Some? {
        armed := armed - {timer.value};
      }
      if controller.Some? {
        controller := Some(Controller(true));
      }
      log := log + [Disposed];
    }
  }

  // ---------------------------------------------------------------- the hook

  /** All closures the hook ever made, oldest first; `live` says whether the last still is. */
  datatype Hook = Hook(closures: seq<Poller>, live: bool)

  /** The effect reruns (disabled or with options), or some closure, however old, has a turn. */
  datatype HookEvent = EffectReruns(options: Option<Options>) | Turn(index: nat, event: Event)

  function CleanLast(h: Hook): Hook {
    if h.live && h.closures != [] then
      var last := |h.closures| - 1;
      Hook(h.closures[last := Step(h.closures[last], Dispose)], false)
    else h.(live := false)
  }

  function HookStep(h: Hook, e: HookEvent): Hook {
    match e
    case EffectReruns(None) => CleanLast(h)
    case EffectReruns(Some(options)) => Hook(CleanLast(h).closures + [Start(options)], true)
    case Turn(index, event) =>
      // Only React runs an effect's cleanup.
      if index < |h.closures| && !event.Dispose? then
        h.(closures := h.closures[index := Step(h.closures[index], event)])
      else h
  }

  function HookRun(h: Hook, events: seq<HookEvent>): Hook
    decreases |events|
  {
    if events == [] then h else HookRun(HookStep(h, events[0]), events[1..])
  }

  ghost predicate HookInv(h: Hook) {
    && (forall i :: 0 <= i < |h.closures| ==> Inv(h.closures[i]))
    && (forall i :: 0 <= i < |h.closures| && !(h.live && i == |h.closures| - 1) ==> h.closures[i].disposed)
  }

  lemma CleanLastKeeps(h: Hook)
    requires HookInv(h)
    ensures HookInv(CleanLast(h)) && !CleanLast(h).live
  {
    if h.live && h.closures != [] {
      StepKeeps(h.closures[|h.closures| - 1], Dispose);
    }
  }

  lemma DisposedStays(p: Poller, e: Event)
    requires p.disposed
    ensures Step(p, e).disposed
  {
  }

  lemma HookStepKeeps(h: Hook, e: HookEvent)
    requires HookInv(h)
    ensures HookInv(HookStep(h, e))
  {
    hide Inv, Step, Start;
    match e
    case EffectReruns(None) => CleanLastKeeps(h);
    case EffectReruns(Some(options)) =>
      CleanLastKeeps(h);
      StartKeeps(options);
    case Turn(index, event) =>
      if index < |h.closures| && !event.Dispose? {
        StepKeeps(h.closures[index], event);
        if h.closures[index].disposed { DisposedStays(h.closures[index], event); }
      }
  }

  lemma {:induction false} HookRunKeeps(h: Hook, events: seq<HookEvent>)
    requires HookInv(h)
    ensures HookInv(HookRun(h, events))
    decreases |events|
  {
    if events == [] {
    } else {
      HookStepKeeps(h, events[0]);
      HookRunKeeps(HookStep(h, events[0]), events[1..]);
    }
  }

  /** Waiting on its timer, or on a poll that has not been aborted. */
  predicate Wakes(p: Poller) {
    p.armed != map[] || (p.controller.Some? && !p.controller.value.aborted)
  }

  /** Across every closure one use of the hook ever created, only the live one can have a timer
      queued or an unaborted poll in flight, and it never has both. */
  lemma OneActivityPerHook(events: seq<HookEvent>, i: nat)
    requires i < |HookRun(Hook([], false), events).closures|
    ensures var h := HookRun(Hook([], false), events);
            && (Wakes(h.closures[i]) ==> h.live && i == |h.closures| - 1)
            && !(h.closures[i].armed != map[] && h.closures[i].controller == Some(Controller(false)))
  {
    HookRunKeeps(Hook([], false), events);
  }

  /** When the effect reruns, the closure before is disposed, and a new one starts exactly if polling is
      enabled; all earlier ones stay as they were. */
  lemma EffectReplacesClosure(events: seq<HookEvent>, options: Option<Options>)
    ensures var h := HookRun(Hook([], false), events);
            var g := HookStep(h, EffectReruns(options));
            && g.live == options.Some?
            && |g.closures| == |h.closures| + (if options.Some? then 1 else 0)
            && (options.Some? ==> g.closures[|h.closures|] == Start(options.value))
            && (forall i :: 0 <= i < |h.closures| ==> g.closures[i].disposed)
            && (forall i :: 0 <= i < |h.closures| && h.closures[i].disposed ==> g.closures[i] == h.closures[i])
  {
    hide Inv, Step, Start;
    HookRunKeeps(Hook([], false), events);
    var h := HookRun(Hook([], false), events);
    if h.live && h.closures != [] { DisposeDisposes(h.closures[|h.closures| - 1]); }
  }

  lemma DisposeDisposes(p: Poller)
    ensures Step(p, Dispose).disposed && (p.disposed ==> Step(p, Dispose) == p)
  {
  }
}
