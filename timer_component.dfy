/** One timer row of the Timers screen (src/components/Timer.tsx): its
    play/pause and reset handlers, the one-second tick, the step that runs
    when the time left reaches zero, and the `intervalId` ref that says
    whether a tick is scheduled. The handlers are the updaters passed to
    `setProgress`: each copies the live progress, assigns fields of
    `tempArr[categoryIndex].timers[timerIndex]` and returns the copy. The
    interval itself and React's effect scheduling become explicit method
    calls on `TimerWidget`. */
module TimerComponent {
  import opened Model
  import Store

  /** Indices that pass the guard `categoryIndex !== undefined && categoryIndex >= 0`
      must address a timer; otherwise the field assignment throws. */
  predicate TargetValid(prev: seq<Category>, categoryIndex: Option<int>, timerIndex: int) {
    Selects(categoryIndex) ==> HasTimer(prev, categoryIndex.value, timerIndex)
  }

  /** `next` is `prev` with the timer at `(ci, ti)` changed by its tick: one second less, nothing else. */
  ghost predicate Ticked(prev: seq<Category>, next: seq<Category>, ci: int, ti: int)
    requires HasTimer(prev, ci, ti)
  {
    HasTimer(next, ci, ti) && OnlyTimerChanged(prev, next, ci, ti)
    && next[ci].timers[ti] == prev[ci].timers[ti].(timeLeft := prev[ci].timers[ti].timeLeft - 1)
  }

  /** `next` is `prev` after the completion step for `(ci, ti)`: that timer stopped, and
      the category's flag cleared exactly when no timer in it runs any more. */
  ghost predicate Finished(prev: seq<Category>, next: seq<Category>, ci: int, ti: int)
    requires HasTimer(prev, ci, ti)
  {
    && |next| == |prev|
    && (forall k :: 0 <= k < |prev| && k != ci ==> next[k] == prev[k])
    && next[ci].name == prev[ci].name
    && next[ci].timers == prev[ci].timers[ti := prev[ci].timers[ti].(running := false)]
    && next[ci].running == (prev[ci].running && AnyRunning(next[ci].timers))
  }

  /** `playPauseHandler`: negate the running flag of that one timer. The category's
      flag is not recomputed. */
  method PlayPause(prev: seq<Category>, categoryIndex: Option<int>, timerIndex: int) returns (next: seq<Category>)
    requires TargetValid(prev, categoryIndex, timerIndex)
    ensures !Selects(categoryIndex) ==> next == prev
    ensures Selects(categoryIndex) ==>
      var ci := categoryIndex.value;
      && HasTimer(next, ci, timerIndex) && OnlyTimerChanged(prev, next, ci, timerIndex)
      && next[ci].timers[timerIndex] == prev[ci].timers[timerIndex].(running := !prev[ci].timers[timerIndex].running)
    ensures (Selects(categoryIndex) && AllTimersConsistent(prev)
             && PlayPauseShown(Some(prev[categoryIndex.value].timers[timerIndex].timeLeft), false, true)) ==> AllTimersConsistent(next)
  {
    next := prev;
    if categoryIndex.Some? && categoryIndex.value >= 0 {
      var ci := categoryIndex.value;
      var timer := next[ci].timers[timerIndex];
      timer := timer.(running := !timer.running);
      next := WithTimer(next, ci, timerIndex, timer);
      if AllTimersConsistent(prev) && prev[ci].timers[timerIndex].timeLeft != 0 {
        assert TimerConsistent(prev[ci].timers[timerIndex]);
      }
    }
  }

  /** `resetHandler`: stop that timer and give it back `duration` seconds, the
      duration of the timer the row was rendered with. */
  method Reset(prev: seq<Category>, categoryIndex: Option<int>, timerIndex: int, duration: int) returns (next: seq<Category>)
    requires TargetValid(prev, categoryIndex, timerIndex)
    ensures !Selects(categoryIndex) ==> next == prev
    ensures Selects(categoryIndex) ==>
      var ci := categoryIndex.value;
      && HasTimer(next, ci, timerIndex) && OnlyTimerChanged(prev, next, ci, timerIndex)
      && next[ci].timers[timerIndex] == prev[ci].timers[timerIndex].(running := false, timeLeft := duration)
    ensures (Selects(categoryIndex) && AllTimersConsistent(prev)
             && duration == prev[categoryIndex.value].timers[timerIndex].duration) ==> AllTimersConsistent(next)
  {
    next := prev;
    if categoryIndex.Some? && categoryIndex.value >= 0 {
      var ci := categoryIndex.value;
      var timer := next[ci].timers[timerIndex];
      timer := timer.(running := false);
      timer := timer.(timeLeft := duration);
      next := WithTimer(next, ci, timerIndex, timer);
      if AllTimersConsistent(prev) && duration == prev[ci].timers[timerIndex].duration {
        assert TimerConsistent(prev[ci].timers[timerIndex]);
      }
    }
  }

  /** The interval callback: one second off that timer's time left, nothing else. */
  method Tick(prev: seq<Category>, categoryIndex: Option<int>, timerIndex: int) returns (next: seq<Category>)
    requires TargetValid(prev, categoryIndex, timerIndex)
    ensures !Selects(categoryIndex) ==> next == prev
    ensures Selects(categoryIndex) ==> Ticked(prev, next, categoryIndex.value, timerIndex)
  {
    next := prev;
    if categoryIndex.Some? && categoryIndex.value >= 0 {
      var ci := categoryIndex.value;
      var timer := next[ci].timers[timerIndex];
      next := WithTimer(next, ci, timerIndex, timer.(timeLeft := timer.timeLeft - 1));
    }
  }

  /** The updater of the completion step: stop the timer, count the timers of
      its category that still run, and clear the category's flag when none does. */
  method Finish(prev: seq<Category>, categoryIndex: Option<int>, timerIndex: int) returns (next: seq<Category>)
    requires TargetValid(prev, categoryIndex, timerIndex)
    ensures !Selects(categoryIndex) ==> next == prev
    ensures Selects(categoryIndex) ==> Finished(prev, next, categoryIndex.value, timerIndex)
  {
    next := prev;
    if categoryIndex.Some? && categoryIndex.value >= 0 {
      var ci := categoryIndex.value;
      next := WithTimer(next, ci, timerIndex, next[ci].timers[timerIndex].(running := false));
      var timers := next[ci].timers;
      var timersRunning := 0;
      var k := 0;
      while k < |timers|
        invariant 0 <= k <= |timers|
        invariant timersRunning == RunningCount(timers[..k])
      {
        if timers[k].running {
          timersRunning := timersRunning + 1;
        }
        RunningCountStep(timers, k);
        k := k + 1;
      }
      assert timers[..k] == timers;
      if timersRunning == 0 {
        next := next[ci := next[ci].(running := false)];
      }
    }
  }

  /** A tick on a timer with at least two seconds left keeps every timer consistent. */
  lemma TickKeepsConsistency(prev: seq<Category>, next: seq<Category>, ci: int, ti: int)
    requires HasTimer(prev, ci, ti) && AllTimersConsistent(prev)
    requires prev[ci].timers[ti].timeLeft >= 2
    requires Ticked(prev, next, ci, ti)
    ensures AllTimersConsistent(next)
  {
    forall c, j | 0 <= c < |next| && 0 <= j < |next[c].timers| ensures TimerConsistent(next[c].timers[j]) {
      assert TimerConsistent(prev[c].timers[j]);
    }
  }

  /** The last tick of a running timer leaves it running with no time left: until
      the completion effect runs, the live progress is not consistent. */
  lemma LastTickLeavesRunningAtZero(prev: seq<Category>, next: seq<Category>, ci: int, ti: int)
    requires HasTimer(prev, ci, ti)
    requires prev[ci].timers[ti].running && prev[ci].timers[ti].timeLeft == 1
    requires Ticked(prev, next, ci, ti)
    ensures next[ci].timers[ti].running && next[ci].timers[ti].timeLeft == 0
    ensures !AllTimersConsistent(next)
  {
    assert !TimerConsistent(next[ci].timers[ti]);
  }

  /** The completion step after that last tick makes the progress consistent again. */
  lemma {:induction false} LastTickThenFinishIsConsistent(prev: seq<Category>, mid: seq<Category>, next: seq<Category>, ci: int, ti: int)
    requires HasTimer(prev, ci, ti) && AllTimersConsistent(prev)
    requires prev[ci].timers[ti].timeLeft == 1
    requires Ticked(prev, mid, ci, ti) && Finished(mid, next, ci, ti)
    ensures !next[ci].timers[ti].running && next[ci].timers[ti].timeLeft == 0
    ensures AllTimersConsistent(next)
  {
    forall c, j | 0 <= c < |next| && 0 <= j < |next[c].timers| ensures TimerConsistent(next[c].timers[j]) {
      assert TimerConsistent(prev[c].timers[j]);
      if c == ci && j != ti {
        assert next[c].timers[j] == mid[c].timers[j] == prev[c].timers[j];
      }
    }
  }

  /** The Timers screen's live progress (its `progress` state), which every
      timer row updates through `setProgress`. */
  class LiveProgress {
    var categories: seq<Category>

    constructor (categories: seq<Category>)
      ensures this.categories == categories
    {
      this.categories := categories;
    }
  }

  /** Whether a row shows its play/pause control: the row is rendered only when
      its section is expanded (`expanded ? … : null`), and the control only
      outside the history list and while the time left is not zero (`timeLeft ? … : null`). */
  predicate PlayPauseShown(timeLeft: Option<int>, isHistory: bool, expanded: bool)
    ensures timeLeft == Some(0) ==> !PlayPauseShown(timeLeft, isHistory, expanded)
    ensures PlayPauseShown(timeLeft, isHistory, expanded) ==> ResetShown(isHistory, expanded)
  {
    expanded && !isHistory && timeLeft.Some? && timeLeft.value != 0
  }

  /** Whether a row shows its reset control: in every expanded row outside the
      history list, whatever the time left. */
  predicate ResetShown(isHistory: bool, expanded: bool) {
    expanded && !isHistory
  }

  /** A finished timer offers reset but no play/pause; a timer with time left offers both. */
  lemma FinishedTimerOffersOnlyReset(timeLeft: int, isHistory: bool, expanded: bool)
    requires ResetShown(isHistory, expanded)
    ensures PlayPauseShown(Some(timeLeft), isHistory, expanded) <==> timeLeft != 0
  {
  }

  /** The state one timer row keeps between renders: the `intervalId` ref. The
      ghost counters record how often an interval was started and how often the
      completion step dispatched `setComplete`. */
  class TimerWidget {
    const categoryIndex: Option<int>
    const timerIndex: int
    var intervalActive: bool
    ghost var starts: nat
    ghost var completions: nat

    /** Each completion consumes one started interval. */
    ghost predicate Valid()
      reads this
    {
      completions + (if intervalActive then 1 else 0) <= starts
    }

    constructor (categoryIndex: Option<int>, timerIndex: int)
      ensures this.categoryIndex == categoryIndex && this.timerIndex == timerIndex
      ensures Valid() && !intervalActive && starts == 0 && completions == 0
    {
      this.categoryIndex := categoryIndex;
      this.timerIndex := timerIndex;
      intervalActive := false;
      starts := 0;
      completions := 0;
    }

    /** The cleanup the running effect returns: clear an active interval. */
    method Cleanup()
      requires Valid()
      modifies this
      ensures Valid() && !intervalActive
      ensures starts == old(starts) && completions == old(completions)
    {
      if intervalActive {
        intervalActive := false;
      }
    }

    /** The body of the running effect (src/components/Timer.tsx:87-107): start ticking when
        the timer runs with time left and no interval is active; clear the interval when it stopped. */
    method StartOrStop(running: bool, timeLeft: Option<int>)
      requires Valid()
      modifies this
      ensures Valid() && completions == old(completions)
      ensures !old(intervalActive) ==> (intervalActive <==> running && timeLeft.Some? && timeLeft.value > 0)
      ensures old(intervalActive) ==> (intervalActive <==> running)
      ensures starts == old(starts) + (if intervalActive && !old(intervalActive) then 1 else 0)
    {
      if running && timeLeft.Some? && timeLeft.value > 0 && !intervalActive {
        intervalActive := true;
        starts := starts + 1;
      } else if !running && intervalActive {
        intervalActive := false;
      }
    }

    /** React re-runs the running effect when `running` changes: first the
        previous run's cleanup, then the body. Afterwards a tick is scheduled
        exactly when the timer runs with time left. */
    method RunningChanged(running: bool, timeLeft: Option<int>)
      requires Valid()
      modifies this
      ensures Valid() && completions == old(completions)
      ensures intervalActive <==> running && timeLeft.Some? && timeLeft.value > 0
    {
      Cleanup();
      StartOrStop(running, timeLeft);
    }

    /** One firing of the scheduled interval. */
    method IntervalFires(live: LiveProgress)
      requires Valid() && intervalActive
      requires TargetValid(live.categories, categoryIndex, timerIndex)
      modifies live
      ensures !Selects(categoryIndex) ==> live.categories == old(live.categories)
      ensures Selects(categoryIndex) ==> Ticked(old(live.categories), live.categories, categoryIndex.value, timerIndex)
    {
      live.categories := Tick(live.categories, categoryIndex, timerIndex);
    }

    /** The completion effect (src/components/Timer.tsx:117-140), run when the time left
        changes: once it is not positive while an interval is active, clear the
        interval, stop the timer in the live progress and dispatch `setComplete`. */
    method TimeLeftChanged(timeLeft: Option<int>, live: LiveProgress, store: Store.TimersSlice) returns (completed: bool)
      requires Valid()
      requires TargetValid(live.categories, categoryIndex, timerIndex)
      requires Store.CompleteIndicesValid(store.state, categoryIndex, timerIndex)
      modifies this, live, store
      ensures Valid() && starts == old(starts)
      ensures completed <==> old(intervalActive) && timeLeft.Some? && timeLeft.value <= 0
      ensures completed ==> !intervalActive && completions == old(completions) + 1
      ensures completed ==> store.state == Store.CompletedTimer(old(store.state), categoryIndex, timerIndex)
      ensures completed && Selects(categoryIndex) ==>
        Finished(old(live.categories), live.categories, categoryIndex.value, timerIndex)
      ensures completed && !Selects(categoryIndex) ==> live.categories == old(live.categories)
      ensures !completed ==> (intervalActive == old(intervalActive) && completions == old(completions)
                              && live.categories == old(live.categories) && store.state == old(store.state))
    {
      completed := false;
      if timeLeft.Some? {
        if timeLeft.value <= 0 && intervalActive {
          intervalActive := false;
          live.categories := Finish(live.categories, categoryIndex, timerIndex);
          store.SetComplete(categoryIndex, timerIndex);
          completions := completions + 1;
          completed := true;
        }
      }
    }
  }
}
