/** The timers slice of the application store (src/redux/Timers.ts): the
    reducers `addTimer`, `setComplete` and `loadProgress`, and the correction
    `restoreProgress` applies to saved progress for the time the application
    spent suspended. Reading and writing the key-value storage, JSON and the
    clock are outside the model: `RestoreProgress` receives what the two
    storage keys held, already parsed, and the current time. */
module Store {
  import opened Model
  import opened Text

  /** `state.findIndex(item => item.name.toLowerCase() === name.toLowerCase())`. */
  function CategoryIndex(state: seq<Category>, name: string): (i: int)
    ensures -1 <= i < |state|
    ensures 0 <= i ==> EqualsIgnoringCase(state[i].name, name)
    ensures forall k :: 0 <= k < |state| && (i == -1 || k < i) ==> !EqualsIgnoringCase(state[k].name, name)
  {
    if state == [] then -1
    else if EqualsIgnoringCase(state[0].name, name) then 0
    else
      var j := CategoryIndex(state[1..], name);
      if j == -1 then -1 else j + 1
  }

  /** The state after `addTimer({category, timer})`. */
  function AddedTimer(state: seq<Category>, category: string, timer: Timer): (r: seq<Category>)
    ensures TotalTimers(r) == TotalTimers(state) + 1
    ensures CategoryIndex(state, category) >= 0 ==>
      var i := CategoryIndex(state, category);
      && |r| == |state|
      && (forall k :: 0 <= k < |state| && k != i ==> r[k] == state[k])
      && r[i].name == state[i].name && r[i].running == state[i].running
      && r[i].timers == state[i].timers + [timer]
    ensures CategoryIndex(state, category) == -1 ==>
      r == state + [Category(category, false, [timer])]
  {
    var i := CategoryIndex(state, category);
    if i != -1 then
      var c := state[i].(timers := state[i].timers + [timer]);
      TotalTimersUpdate(state, i, c, 1);
      state[i := c]
    else
      TotalTimersAppend(state, Category(category, false, [timer]));
      state + [Category(category, false, [timer])]
  }

  /** The guard of `setComplete`: `categoryIndex !== undefined && categoryIndex >= 0 && timerIndex >= 0`. */
  predicate CompleteApplies(categoryIndex: Option<int>, timerIndex: int) {
    Selects(categoryIndex) && timerIndex >= 0
  }

  /** Indices that pass the guard of `setComplete` must address a timer; otherwise the assignment throws. */
  predicate CompleteIndicesValid(state: seq<Category>, categoryIndex: Option<int>, timerIndex: int) {
    CompleteApplies(categoryIndex, timerIndex) ==> HasTimer(state, categoryIndex.value, timerIndex)
  }

  /** The state after `setComplete({categoryIndex, timerIndex})`. */
  function CompletedTimer(state: seq<Category>, categoryIndex: Option<int>, timerIndex: int): (r: seq<Category>)
    requires CompleteIndicesValid(state, categoryIndex, timerIndex)
    ensures !CompleteApplies(categoryIndex, timerIndex) ==> r == state
    ensures CompleteApplies(categoryIndex, timerIndex) ==>
      var ci := categoryIndex.value;
      && HasTimer(r, ci, timerIndex)
      && OnlyTimerChanged(state, r, ci, timerIndex)
      && r[ci].timers[timerIndex] == state[ci].timers[timerIndex].(running := false, timeLeft := 0)
  {
    if CompleteApplies(categoryIndex, timerIndex) then
      var ci := categoryIndex.value;
      WithTimer(state, ci, timerIndex, state[ci].timers[timerIndex].(running := false, timeLeft := 0))
    else
      state
  }

  /** `Math.floor((now - saved) / 1000)` for two instants in milliseconds. */
  function ElapsedSeconds(nowMs: int, savedMs: int): (d: int)
    ensures d * 1000 <= nowMs - savedMs < d * 1000 + 1000
  {
    (nowMs - savedMs) / 1000
  }

  /** One timer after `elapsed` seconds of suspension (src/redux/Timers.ts:72-81). */
  function CorrectTimer(t: Timer, elapsed: int): (r: Timer)
    ensures r.name == t.name && r.duration == t.duration
    ensures !t.running ==> r == t
    ensures r.running ==> t.running && r.timeLeft > 0 && r.timeLeft == t.timeLeft - elapsed
    ensures t.running && !r.running ==> r.timeLeft == 0 && t.timeLeft <= elapsed
  {
    if t.running then
      var timeLeft := t.timeLeft - elapsed;
      if timeLeft > 0 then t.(timeLeft := timeLeft) else t.(timeLeft := 0, running := false)
    else
      t
  }

  function CorrectTimers(ts: seq<Timer>, elapsed: int): (r: seq<Timer>)
    ensures |r| == |ts|
    ensures forall j :: 0 <= j < |ts| ==> r[j] == CorrectTimer(ts[j], elapsed)
  {
    seq(|ts|, j requires 0 <= j < |ts| => CorrectTimer(ts[j], elapsed))
  }

  /** One category after `elapsed` seconds: its timers corrected, and its flag
      cleared when it was set and none of its timers is still running. */
  function CorrectCategory(c: Category, elapsed: int): (r: Category)
    ensures r.name == c.name && r.timers == CorrectTimers(c.timers, elapsed)
    ensures r.running ==> c.running
    ensures r.running <==> c.running && AnyRunning(r.timers)
  {
    var timers := CorrectTimers(c.timers, elapsed);
    c.(timers := timers, running := c.running && RunningCount(timers) != 0)
  }

  /** The progress `restoreProgress` loads after `elapsed` seconds of suspension. */
  function Corrected(progress: seq<Category>, elapsed: int): (r: seq<Category>)
    ensures |r| == |progress|
    ensures forall i :: 0 <= i < |progress| ==> r[i] == CorrectCategory(progress[i], elapsed)
  {
    seq(|progress|, i requires 0 <= i < |progress| => CorrectCategory(progress[i], elapsed))
  }

  /** The outer `forEach` of `restoreProgress` (src/redux/Timers.ts:69-86), run on the parsed copy. */
  method CorrectElapsed(progress: seq<Category>, elapsed: int) returns (r: seq<Category>)
    ensures r == Corrected(progress, elapsed)
  {
    r := progress;
    var ci := 0;
    while ci < |r|
      invariant 0 <= ci <= |r| == |progress|
      invariant forall k :: 0 <= k < ci ==> r[k] == CorrectCategory(progress[k], elapsed)
      invariant forall k :: ci <= k < |r| ==> r[k] == progress[k]
    {
      var category := CorrectOneCategory(r[ci], elapsed);
      r := r[ci := category];
      ci := ci + 1;
    }
  }

  /** The body of the outer `forEach`: the inner loop over the timers, then the
      category flag, cleared when it was set and no timer is still running. */
  method CorrectOneCategory(category: Category, elapsed: int) returns (r: Category)
    ensures r == CorrectCategory(category, elapsed)
  {
    var timers, timerRunnings := CorrectTimersCounting(category.timers, elapsed);
    r := category.(timers := timers);
    if r.running && timerRunnings == 0 {
      r := r.(running := false);
    }
  }

  /** The inner `forEach` (src/redux/Timers.ts:70-82): correct every timer in place,
      counting in `timerRunnings` those still running. */
  method CorrectTimersCounting(original: seq<Timer>, elapsed: int) returns (timers: seq<Timer>, timerRunnings: nat)
    ensures timers == CorrectTimers(original, elapsed)
    ensures timerRunnings == RunningCount(timers)
  {
    timers := original;
    timerRunnings := 0;
    var ti := 0;
    while ti < |timers|
      invariant 0 <= ti <= |timers| == |original|
      invariant forall j :: 0 <= j < ti ==> timers[j] == CorrectTimer(original[j], elapsed)
      invariant forall j :: ti <= j < |timers| ==> timers[j] == original[j]
      invariant timerRunnings == RunningCount(timers[..ti])
    {
      var timer, counted := CorrectOneTimer(timers[ti], elapsed);
      if counted {
        timerRunnings := timerRunnings + 1;
      }
      assert timers[ti := timer][..ti] == timers[..ti];
      RunningCountStep(timers[ti := timer], ti);
      timers := timers[ti := timer];
      ti := ti + 1;
    }
    assert timers[..ti] == timers;
  }

  /** The body of the inner `forEach` (src/redux/Timers.ts:72-81): correct one timer
      and say whether it still runs, which the caller counts in `timerRunnings`. */
  method CorrectOneTimer(timer: Timer, elapsed: int) returns (r: Timer, counted: bool)
    ensures r == CorrectTimer(timer, elapsed)
    ensures counted <==> r.running
  {
    r := timer;
    counted := false;
    if r.running {
      var timeLeft := r.timeLeft - elapsed;
      if timeLeft > 0 {
        r := r.(timeLeft := timeLeft);
        counted := true;
      } else {
        r := r.(timeLeft := 0, running := false);
      }
    }
  }

  /** Correction keeps every name, duration and count. */
  lemma CorrectedKeepsShape(progress: seq<Category>, elapsed: int, i: int, j: int)
    requires 0 <= i < |progress| && 0 <= j < |progress[i].timers|
    ensures var r := Corrected(progress, elapsed);
      && |r| == |progress| && r[i].name == progress[i].name
      && |r[i].timers| == |progress[i].timers|
      && r[i].timers[j].name == progress[i].timers[j].name
      && r[i].timers[j].duration == progress[i].timers[j].duration
  {
  }

  /** After correction every running timer has time left, whatever the input. */
  lemma CorrectedRunningHaveTimeLeft(progress: seq<Category>, elapsed: int, i: int, j: int)
    requires 0 <= i < |progress| && 0 <= j < |progress[i].timers|
    ensures Corrected(progress, elapsed)[i].timers[j].running ==> Corrected(progress, elapsed)[i].timers[j].timeLeft > 0
  {
  }

  /** The shape the correction leaves behind: running timers have time left, and a
      category flagged running holds a running timer. */
  ghost predicate Settled(progress: seq<Category>) {
    forall i :: 0 <= i < |progress| ==>
      && (progress[i].running ==> AnyRunning(progress[i].timers))
      && (forall j :: 0 <= j < |progress[i].timers| ==>
            progress[i].timers[j].running ==> progress[i].timers[j].timeLeft > 0)
  }

  lemma CorrectedIsSettled(progress: seq<Category>, elapsed: int)
    ensures Settled(Corrected(progress, elapsed))
  {
  }

  /** Correcting settled progress for zero elapsed seconds changes nothing. */
  lemma {:induction false} SettledIsFixpoint(progress: seq<Category>)
    requires Settled(progress)
    ensures Corrected(progress, 0) == progress
  {
    forall i | 0 <= i < |progress| ensures CorrectCategory(progress[i], 0) == progress[i] {
      var c := progress[i];
      assert CorrectTimers(c.timers, 0) == c.timers;
      assert c.running ==> AnyRunning(c.timers);
    }
  }

  /** A second restore with no time elapsed in between leaves the state as the first left it. */
  lemma CorrectionIdempotent(progress: seq<Category>, elapsed: int)
    ensures Corrected(Corrected(progress, elapsed), 0) == Corrected(progress, elapsed)
  {
    CorrectedIsSettled(progress, elapsed);
    SettledIsFixpoint(Corrected(progress, elapsed));
  }

  /** With a clock that does not run backwards, correction keeps every timer consistent. */
  lemma CorrectionKeepsConsistency(progress: seq<Category>, elapsed: int)
    requires AllTimersConsistent(progress) && elapsed >= 0
    ensures AllTimersConsistent(Corrected(progress, elapsed))
  {
  }

  /** Adding a consistent timer keeps the store consistent. */
  lemma AddedTimerKeepsConsistency(state: seq<Category>, category: string, timer: Timer)
    requires AllTimersConsistent(state) && TimerConsistent(timer)
    ensures AllTimersConsistent(AddedTimer(state, category, timer))
  {
    var r := AddedTimer(state, category, timer);
    forall c, j | 0 <= c < |r| && 0 <= j < |r[c].timers| ensures TimerConsistent(r[c].timers[j]) {
      if c < |state| && j < |state[c].timers| {
        assert TimerConsistent(state[c].timers[j]);
      }
    }
  }

  /** Completing a timer keeps the store consistent. */
  lemma CompletedTimerKeepsConsistency(state: seq<Category>, categoryIndex: Option<int>, timerIndex: int)
    requires CompleteIndicesValid(state, categoryIndex, timerIndex) && AllTimersConsistent(state)
    ensures AllTimersConsistent(CompletedTimer(state, categoryIndex, timerIndex))
  {
    var r := CompletedTimer(state, categoryIndex, timerIndex);
    forall c, j | 0 <= c < |r| && 0 <= j < |r[c].timers| ensures TimerConsistent(r[c].timers[j]) {
      assert TimerConsistent(state[c].timers[j]);
    }
  }

  /** The store's slice of state: the list of categories, updated in place by the reducers. */
  class TimersSlice {
    var state: seq<Category>

    /** `initialState`: no categories. */
    constructor ()
      ensures state == []
    {
      state := [];
    }

    /** `addTimer`: append the timer to the first category whose name matches
        ignoring case, or append a new stopped category holding only it. */
    method AddTimer(category: string, timer: Timer)
      modifies this
      ensures state == AddedTimer(old(state), category, timer)
      ensures TotalTimers(state) == TotalTimers(old(state)) + 1
    {
      var i := CategoryIndex(state, category);
      if i != -1 {
        state := state[i := state[i].(timers := state[i].timers + [timer])];
      } else {
        state := state + [Category(category, false, [timer])];
      }
    }

    /** `setComplete`: stop the addressed timer and set its time left to 0; the
        category's own flag is not touched. */
    method SetComplete(categoryIndex: Option<int>, timerIndex: int)
      requires CompleteIndicesValid(state, categoryIndex, timerIndex)
      modifies this
      ensures state == CompletedTimer(old(state), categoryIndex, timerIndex)
    {
      if categoryIndex.Some? && categoryIndex.value >= 0 && timerIndex >= 0 {
        var ci := categoryIndex.value;
        var timer := state[ci].timers[timerIndex];
        timer := timer.(running := false);
        timer := timer.(timeLeft := 0);
        state := WithTimer(state, ci, timerIndex, timer);
      }
    }

    /** `loadProgress`: the payload replaces the whole state. */
    method LoadProgress(payload: seq<Category>)
      modifies this
      ensures state == payload
    {
      state := payload;
    }

    /** `restoreProgress`: when both saved keys are present, correct the saved
        progress for the whole seconds elapsed since the saved timestamp and load it. */
    method RestoreProgress(storedProgress: Option<seq<Category>>, storedTimestampMs: Option<int>, nowMs: int)
      modifies this
      ensures storedProgress.None? || storedTimestampMs.None? ==> state == old(state)
      ensures storedProgress.Some? && storedTimestampMs.Some? ==>
        state == Corrected(storedProgress.value, ElapsedSeconds(nowMs, storedTimestampMs.value))
      ensures storedProgress.Some? && storedTimestampMs.Some? ==> Settled(state)
    {
      if storedProgress.Some? && storedTimestampMs.Some? {
        var diffInSeconds := ElapsedSeconds(nowMs, storedTimestampMs.value);
        var progress := CorrectElapsed(storedProgress.value, diffInSeconds);
        CorrectedIsSettled(storedProgress.value, diffInSeconds);
        LoadProgress(progress);
      }
    }
  }
}
