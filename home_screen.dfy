/** The create form of the Home screen (src/screens/App/BottomTabs/Home.tsx):
    what `submitHandler` builds from the validated fields and dispatches.
    Submission only happens once every field passed its rules: each field is
    required, and the duration field matches `NaturalNumber`. Dismissing the
    keyboard, resetting the form and the toast are outside the model. */
module HomeScreen {
  import opened Model
  import opened Text
  import opened Constants
  import InputSelect
  import Store

  /** The payload of the one `addTimer` action a submit dispatches. */
  datatype AddTimerPayload = AddTimerPayload(category: string, timer: Timer)

  /** The timer object literal: trimmed name, `Number(duration)` as both duration
      and time left, not running. */
  function NewTimer(name: string, duration: string): (t: Timer)
    requires IsNaturalNumber(duration)
    ensures !t.running && t.timeLeft == t.duration >= 1
    ensures TimerConsistent(t)
    ensures t.name == [] || (!IsSpace(t.name[0]) && !IsSpace(t.name[|t.name| - 1]))
    ensures exists i :: CutsOnlySpace(name, t.name, i)
  {
    NaturalNumberValue(duration);
    var value := DecimalValue(duration);
    Timer(Trim(name), value, value, false)
  }

  /** The category name sent with the timer: a picked category's `name`, typed text trimmed.
      The `required` rule keeps an unset field from being submitted. */
  function CategoryName(category: InputSelect.FieldValue<Category>): (name: string)
    requires !category.Unset?
    ensures category.Picked? ==> name == category.item.name
    ensures category.Typed? ==> exists i :: CutsOnlySpace(category.text, name, i)
    ensures category.Typed? ==> name == [] || (!IsSpace(name[0]) && !IsSpace(name[|name| - 1]))
  {
    match category
    case Picked(c) => c.name
    case Typed(text) => Trim(text)
  }

  /** `submitHandler` (src/screens/App/BottomTabs/Home.tsx:39-61) up to its dispatch. */
  function Submit(name: string, duration: string, category: InputSelect.FieldValue<Category>): (p: AddTimerPayload)
    requires IsNaturalNumber(duration) && !category.Unset?
    ensures p.timer.timeLeft == p.timer.duration >= 1 && !p.timer.running
    ensures p.timer.duration == DecimalValue(duration)
  {
    AddTimerPayload(CategoryName(category), NewTimer(name, duration))
  }

  /** The store after a submit holds exactly one more timer, a stopped one with its
      full duration left, at the end of the category it was filed under. A picked
      category, or typed text naming an existing category in any case and with
      surrounding white space, adds no category. */
  lemma SubmitAddsOneTimer(state: seq<Category>, name: string, duration: string,
                           category: InputSelect.FieldValue<Category>, i: int)
    requires IsNaturalNumber(duration) && !category.Unset?
    requires 0 <= i < |state|
    ensures var p := Submit(name, duration, category);
      var next := Store.AddedTimer(state, p.category, p.timer);
      && TotalTimers(next) == TotalTimers(state) + 1
      && ((category == InputSelect.Picked(state[i])
           || (category.Typed? && EqualsIgnoringCase(state[i].name, Trim(category.text)))) ==>
            && |next| == |state|
            && exists k :: 0 <= k <= i && next[k].timers == state[k].timers + [p.timer])
  {
  }

  /** Durations the form lets through are exactly the strings `NaturalNumber` matches,
      and each of them gives a timer that can run. */
  lemma SubmittedDurationIsPositive(name: string, duration: string)
    requires Matches(NaturalNumber, duration)
    ensures IsNaturalNumber(duration)
    ensures NewTimer(name, duration).timeLeft > 0
  {
    NaturalNumberMeaning(duration);
  }
}
