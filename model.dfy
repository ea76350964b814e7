/** The entities of the progress model (src/redux/store.types.ts) and the
    facts about them that several components share. */
module Model {

  /** A named countdown: `duration` and `timeLeft` are in seconds. */
  datatype Timer = Timer(name: string, duration: int, timeLeft: int, running: bool)

  /** A named group of timers with its own play/pause flag. */
  datatype Category = Category(name: string, running: bool, timers: seq<Timer>)

  /** An optional value; `None` stands for JavaScript's `undefined`. */
  datatype Option<T> = None | Some(value: T)

  /** The guard `index !== undefined && index >= 0` that every live-progress handler tests. */
  predicate Selects(index: Option<int>) {
    index.Some? && index.value >= 0
  }

  /** `cats[ci].timers[ti]` exists. */
  predicate HasTimer(cats: seq<Category>, ci: int, ti: int) {
    0 <= ci < |cats| && 0 <= ti < |cats[ci].timers|
  }

  /** Some timer of `ts` is running. */
  predicate AnyRunning(ts: seq<Timer>) {
    exists j :: 0 <= j < |ts| && ts[j].running
  }

  /** The number of running timers, counted front to back as the source's `forEach` loops do. */
  function RunningCount(ts: seq<Timer>): (n: nat)
    ensures n <= |ts|
    ensures n == 0 <==> !AnyRunning(ts)
  {
    if ts == [] then 0
    else
      var last := ts[|ts| - 1];
      assert forall j :: 0 <= j < |ts| - 1 ==> ts[..|ts| - 1][j] == ts[j];
      RunningCount(ts[..|ts| - 1]) + (if last.running then 1 else 0)
  }

  /** Counting one more timer of a prefix adds one exactly when that timer runs. */
  lemma RunningCountStep(ts: seq<Timer>, k: int)
    requires 0 <= k < |ts|
    ensures RunningCount(ts[..k + 1]) == RunningCount(ts[..k]) + (if ts[k].running then 1 else 0)
  {
    assert ts[..k + 1][..k] == ts[..k];
  }

  /** The number of timers over all categories. */
  function TotalTimers(cats: seq<Category>): nat {
    if cats == [] then 0 else TotalTimers(cats[..|cats| - 1]) + |cats[|cats| - 1].timers|
  }

  /** Replacing the timers of one category by `k` more timers adds `k` to the total. */
  lemma {:induction false} TotalTimersUpdate(cats: seq<Category>, i: int, c: Category, k: nat)
    requires 0 <= i < |cats| && |c.timers| == |cats[i].timers| + k
    ensures TotalTimers(cats[i := c]) == TotalTimers(cats) + k
  {
    var n := |cats| - 1;
    if i < n {
      TotalTimersUpdate(cats[..n], i, c, k);
      assert cats[i := c][..n] == cats[..n][i := c];
    } else {
      assert cats[i := c][..n] == cats[..n];
    }
  }

  /** Appending a category adds its timers to the total. */
  lemma TotalTimersAppend(cats: seq<Category>, c: Category)
    ensures TotalTimers(cats + [c]) == TotalTimers(cats) + |c.timers|
  {
  }

  /** `next` differs from `prev` at most in the timer `prev[ci].timers[ti]`:
      same categories in the same order, same names and flags, same timer counts. */
  ghost predicate OnlyTimerChanged(prev: seq<Category>, next: seq<Category>, ci: int, ti: int)
    requires HasTimer(prev, ci, ti)
  {
    && |next| == |prev|
    && (forall c :: 0 <= c < |prev| && c != ci ==> next[c] == prev[c])
    && next[ci].name == prev[ci].name
    && next[ci].running == prev[ci].running
    && |next[ci].timers| == |prev[ci].timers|
    && (forall j :: 0 <= j < |prev[ci].timers| && j != ti ==> next[ci].timers[j] == prev[ci].timers[j])
  }

  /** `cats` with the timer at `(ci, ti)` replaced by `t` (the field assignments on `tempArr[ci].timers[ti]`). */
  function WithTimer(cats: seq<Category>, ci: int, ti: int, t: Timer): (r: seq<Category>)
    requires HasTimer(cats, ci, ti)
    ensures HasTimer(r, ci, ti) && OnlyTimerChanged(cats, r, ci, ti)
    ensures r[ci].timers[ti] == t
  {
    cats[ci := cats[ci].(timers := cats[ci].timers[ti := t])]
  }

  /** A timer that is running still has time left, and time left lies within the duration. */
  predicate TimerConsistent(t: Timer) {
    0 <= t.timeLeft <= t.duration && (t.running ==> t.timeLeft > 0)
  }

  /** Every timer of every category is consistent. */
  ghost predicate AllTimersConsistent(cats: seq<Category>) {
    forall c, j :: 0 <= c < |cats| && 0 <= j < |cats[c].timers| ==> TimerConsistent(cats[c].timers[j])
  }
}
