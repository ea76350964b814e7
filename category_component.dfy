/** The play/pause and reset buttons of a category header
    (src/components/Category.tsx). Each handler is the updater passed to
    `setProgress`: it copies the live progress, changes one category of the
    copy and returns it. */
module CategoryComponent {
  import opened Model

  /** An index that passes the handlers' guard must address a category; otherwise the assignment throws. */
  predicate IndexValid(prev: seq<Category>, index: Option<int>) {
    Selects(index) ==> index.value < |prev|
  }

  /** The `map` over the timers in `playPauseHandler`: a timer with time left takes the new flag, a finished one stops. */
  function PlayPauseTimers(ts: seq<Timer>, flag: bool): (r: seq<Timer>)
    ensures |r| == |ts|
    ensures forall j :: 0 <= j < |ts| ==>
      && r[j].name == ts[j].name && r[j].duration == ts[j].duration && r[j].timeLeft == ts[j].timeLeft
      && r[j].running == (ts[j].timeLeft != 0 && flag)
  {
    seq(|ts|, j requires 0 <= j < |ts| => ts[j].(running := if ts[j].timeLeft != 0 then flag else false))
  }

  /** `playPauseHandler`: negate the category's flag and hand it to every timer that has time left. */
  function PlayPause(prev: seq<Category>, index: Option<int>): (next: seq<Category>)
    requires IndexValid(prev, index)
    ensures |next| == |prev|
    ensures !Selects(index) ==> next == prev
    ensures Selects(index) ==>
      var i := index.value;
      && (forall k :: 0 <= k < |prev| && k != i ==> next[k] == prev[k])
      && next[i].name == prev[i].name
      && next[i].running == !prev[i].running
      && |next[i].timers| == |prev[i].timers|
      && (forall j :: 0 <= j < |prev[i].timers| ==>
            var t, u := prev[i].timers[j], next[i].timers[j];
            && u.name == t.name && u.duration == t.duration && u.timeLeft == t.timeLeft
            && u.running == (t.timeLeft != 0 && next[i].running))
  {
    if Selects(index) then
      var i := index.value;
      var tempRunning := prev[i].running;
      prev[i := prev[i].(running := !tempRunning, timers := PlayPauseTimers(prev[i].timers, !tempRunning))]
    else
      prev
  }

  /** `resetHandler`: stop the category and put every timer in it back to its full duration. */
  function Reset(prev: seq<Category>, index: Option<int>): (next: seq<Category>)
    requires IndexValid(prev, index)
    ensures |next| == |prev|
    ensures !Selects(index) ==> next == prev
    ensures Selects(index) ==>
      var i := index.value;
      && (forall k :: 0 <= k < |prev| && k != i ==> next[k] == prev[k])
      && next[i].name == prev[i].name
      && !next[i].running
      && |next[i].timers| == |prev[i].timers|
      && (forall j :: 0 <= j < |prev[i].timers| ==>
            next[i].timers[j] == prev[i].timers[j].(running := false, timeLeft := prev[i].timers[j].duration))
  {
    if Selects(index) then
      var i := index.value;
      var ts := prev[i].timers;
      prev[i := prev[i].(running := false,
                         timers := seq(|ts|, j requires 0 <= j < |ts| => ts[j].(running := false, timeLeft := ts[j].duration)))]
    else
      prev
  }

  /** Pressing play/pause twice gives the category its flag back; every timer
      with time left then runs exactly when the category did before, and no
      time left, name, duration or other category has changed. */
  lemma PlayPauseTwice(prev: seq<Category>, index: Option<int>)
    requires IndexValid(prev, index) && Selects(index)
    ensures var i, twice := index.value, PlayPause(PlayPause(prev, index), index);
      && |twice| == |prev|
      && (forall k :: 0 <= k < |prev| && k != i ==> twice[k] == prev[k])
      && twice[i].name == prev[i].name
      && twice[i].running == prev[i].running
      && |twice[i].timers| == |prev[i].timers|
      && (forall j :: 0 <= j < |prev[i].timers| ==>
            var t, u := prev[i].timers[j], twice[i].timers[j];
            u == t.(running := t.timeLeft != 0 && prev[i].running))
  {
  }

  /** When the category still has a timer with time left, play/pause leaves its
      flag equal to "some timer in it runs". */
  lemma PlayPauseFlagMatchesTimers(prev: seq<Category>, index: Option<int>, j: int)
    requires IndexValid(prev, index) && Selects(index)
    requires 0 <= j < |prev[index.value].timers| && prev[index.value].timers[j].timeLeft != 0
    ensures PlayPause(prev, index)[index.value].running <==> AnyRunning(PlayPause(prev, index)[index.value].timers)
  {
  }

  /** Play/pause never starts a finished timer, so consistent progress stays consistent. */
  lemma PlayPauseKeepsConsistency(prev: seq<Category>, index: Option<int>)
    requires IndexValid(prev, index) && AllTimersConsistent(prev)
    ensures AllTimersConsistent(PlayPause(prev, index))
  {
  }

  /** Resetting twice is the same as resetting once. */
  lemma ResetIdempotent(prev: seq<Category>, index: Option<int>)
    requires IndexValid(prev, index)
    ensures Reset(Reset(prev, index), index) == Reset(prev, index)
  {
    if Selects(index) {
      var once := Reset(prev, index);
      var i := index.value;
      assert Reset(once, index)[i].timers == once[i].timers;
    }
  }

  /** After a reset nothing in the category runs, and every timer with a
      non-negative duration is consistent again. */
  lemma ResetStopsEverything(prev: seq<Category>, index: Option<int>)
    requires IndexValid(prev, index) && Selects(index)
    requires forall j :: 0 <= j < |prev[index.value].timers| ==> prev[index.value].timers[j].duration >= 0
    ensures var c := Reset(prev, index)[index.value];
      && !c.running && !AnyRunning(c.timers)
      && forall j :: 0 <= j < |c.timers| ==> TimerConsistent(c.timers[j])
  {
  }
}
