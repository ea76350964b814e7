# Timer app core, modelled in Dafny

This project models the timekeeping core of a React Native timer app. The
user creates named countdown timers and files them under categories. Timers
are started, paused and reset one at a time or a whole category at once.
The Timers screen counts running timers down once a second. A timer that
reaches zero is marked complete in the Redux store. Finished timers are
listed on the History screen, which can also export them as a JSON document.
When the app comes back from the background, the saved progress is
corrected for the whole seconds that passed while it was suspended.

Modules, one per source file:

- `Model`: the `Timer` and `Category` records (src/redux/store.types.ts), the
  index guard `categoryIndex !== undefined && categoryIndex >= 0`, and the
  count of running timers.
- `Store`: the Redux slice (src/redux/Timers.ts). The class `TimersSlice`
  holds the list of categories. Its reducers `addTimer`, `setComplete` and
  `loadProgress` update it in place. The `restoreProgress` thunk is split in
  two. Storage and clock values become parameters. The correction loop is a
  method proved against the function `Corrected`.
- `CategoryComponent`: the play/pause and reset handlers of a category
  header (src/components/Category.tsx).
- `TimerComponent`: one timer row (src/components/Timer.tsx). It covers the
  play/pause, reset, tick and completion updaters. The class `TimerWidget`
  holds the `intervalId` ref and the two effects that start, clear and
  finish the interval.
- `TimersScreen`: the Timers screen (src/screens/App/BottomTabs/Timers.tsx).
  It covers rebuilding the live progress, the category filter and collapse,
  and the "completed" flag of a section header. The History screen repeats
  the filter, selection and collapse code verbatim, so this module's
  `DropdownData`, `ChangeSelection` and `Collapse` model both screens.
- `HistoryScreen`: the sections of finished timers and the exported
  document (src/screens/App/BottomTabs/History.tsx).
- `HomeScreen`: the timer and category name that the create form dispatches
  (src/screens/App/BottomTabs/Home.tsx).
- `InputSelect`: the category field with its case-insensitive suggestions
  (src/components/InputSelect.tsx).
- `Constants`: the `NaturalNumber` pattern `/^[1-9][0-9]*$/`
  (src/constants/index.ts), as a small regular expression with an anchored
  match.
- `Seqs` and `Text`: the JavaScript array and string operations the code
  relies on. These are `filter`, `findIndex`, `splice`, `toLowerCase`,
  `trim` and `includes`.

Modelling conventions:

- JavaScript truthiness is written out. `timer.timeLeft ? … : …` is
  `timeLeft != 0`, and `!item.value` is `value == ""`.
- `Math.floor(ms / 1000)` is Dafny's `/`. The divisor is positive, so
  Euclidean and floor division agree.
- An index that passes the source's guard but lies outside the array makes
  the JavaScript throw. Such an index is excluded by a precondition
  (`TargetValid`, `IndexValid`, `CompleteIndicesValid`).
- React re-runs an effect by first running the previous run's cleanup. So
  the running effect is `Cleanup` followed by `StartOrStop`.

## Model

| member | source | states |
|---|---|---|
| Store.CategoryIndex | src/redux/Timers.ts:16-18 | the first category whose name equals the given one ignoring case, or -1 when none does |
| Store.AddedTimer | src/redux/Timers.ts:15-27 | addTimer files the timer at the end of the first case-insensitive match, or appends a new stopped category holding only it; either way one more timer in total |
| Store.TimersSlice.constructor | src/redux/Timers.ts:5-9 | the slice starts with no categories |
| Store.TimersSlice.AddTimer | src/redux/Timers.ts:11-28 | the in-place reducer yields `AddedTimer` of the old state and adds exactly one timer |
| Store.CompletedTimer | src/redux/Timers.ts:35-42 | under the guard, setComplete stops the addressed timer with 0 time left and changes nothing else, the category flag included; otherwise the state is unchanged |
| Store.TimersSlice.SetComplete | src/redux/Timers.ts:29-43 | the in-place reducer yields `CompletedTimer` of the old state |
| Store.TimersSlice.LoadProgress | src/redux/Timers.ts:44-46 | the payload replaces the state |
| Store.ElapsedSeconds | src/redux/Timers.ts:66-68 | the whole seconds elapsed, rounded down: `d*1000 <= now - saved < d*1000 + 1000` |
| Store.CorrectTimer | src/redux/Timers.ts:72-81 | a stopped timer is untouched; a running one keeps running with `timeLeft - elapsed` if that is positive, else stops at 0 |
| Store.CorrectCategory | src/redux/Timers.ts:69-86 | the category flag ends set exactly when it was set and one of the corrected timers still runs |
| Store.Corrected | src/redux/Timers.ts:69-86 | every category corrected in place, same count and order |
| Store.CorrectTimers | src/redux/Timers.ts:71-82 | the inner `forEach` corrects every timer of a category on its own, keeping count and order |
| Store.CorrectElapsed | src/redux/Timers.ts:69-86 | the outer loop computes `Corrected` |
| Store.CorrectOneCategory | src/redux/Timers.ts:69-86 | one pass of the outer loop computes `CorrectCategory`: the timers corrected, then the flag cleared when set and no timer still runs |
| Store.CorrectTimersCounting | src/redux/Timers.ts:70-82 | the inner loop corrects every timer in place and its `timerRunnings` counter ends equal to the number still running |
| Store.CorrectOneTimer | src/redux/Timers.ts:72-81 | one timer is corrected as `CorrectTimer` says, and it is counted exactly when it still runs |
| Store.CorrectedKeepsShape | src/redux/Timers.ts:69-86 | correction keeps every name, duration and count |
| Store.CorrectedRunningHaveTimeLeft | src/redux/Timers.ts:72-81 | after correction no running timer has time left 0 or less |
| Store.CorrectedIsSettled | src/redux/Timers.ts:69-86 | the corrected progress is settled: running timers have time left, running categories hold a running timer |
| Store.SettledIsFixpoint | src/redux/Timers.ts:69-86 | correcting settled progress by 0 seconds changes nothing |
| Store.CorrectionIdempotent | src/redux/Timers.ts:60-92 | a second restore with no time elapsed leaves the first restore's result |
| Store.CorrectionKeepsConsistency | src/redux/Timers.ts:72-81 | for non-negative elapsed time, consistent timers stay consistent (0 <= timeLeft <= duration, running ones have time left) |
| Store.AddedTimerKeepsConsistency | src/redux/Timers.ts:15-27 | adding a consistent timer keeps every timer of the store consistent |
| Store.CompletedTimerKeepsConsistency | src/redux/Timers.ts:35-42 | completing a timer keeps every timer of the store consistent |
| Store.TimersSlice.RestoreProgress | src/redux/Timers.ts:60-92 | with either saved key missing the state is unchanged; otherwise it becomes the saved progress corrected by the elapsed seconds, and it is settled |
| Model.RunningCount | src/components/Timer.tsx:127-132 | the number of running timers is zero exactly when no timer runs |
| CategoryComponent.PlayPauseTimers | src/components/Category.tsx:47-52 | every timer keeps name, duration and time left; it runs exactly when it has time left and the new flag is set |
| CategoryComponent.PlayPause | src/components/Category.tsx:41-56 | under the guard, the category flag is negated and handed to each timer with time left; other categories are unchanged |
| CategoryComponent.Reset | src/components/Category.tsx:58-73 | under the guard, the category is stopped and every timer is stopped with its full duration left; other categories are unchanged |
| CategoryComponent.PlayPauseTwice | src/components/Category.tsx:41-56 | pressing twice restores the flag; each timer with time left then runs exactly when the category did |
| CategoryComponent.PlayPauseFlagMatchesTimers | src/components/Category.tsx:41-56 | when some timer has time left, the new flag equals "some timer runs" |
| CategoryComponent.PlayPauseKeepsConsistency | src/components/Category.tsx:47-52 | play/pause never starts a finished timer, so consistent progress stays consistent |
| CategoryComponent.ResetIdempotent | src/components/Category.tsx:58-73 | resetting twice equals resetting once |
| CategoryComponent.ResetStopsEverything | src/components/Category.tsx:58-73 | after a reset nothing in the category runs and its timers are consistent |
| TimerComponent.PlayPause | src/components/Timer.tsx:64-73 | under the guard, only the addressed timer's flag is negated (the category flag is not recomputed); pressed where the control is shown, consistency is kept |
| TimerComponent.Reset | src/components/Timer.tsx:75-84 | under the guard, only the addressed timer is stopped with the row's duration left; consistency is kept when that is the timer's own duration |
| TimerComponent.Tick | src/components/Timer.tsx:93-101 | one interval tick takes one second off the addressed timer and changes nothing else |
| TimerComponent.Finish | src/components/Timer.tsx:122-139 | the addressed timer is stopped and the category flag is cleared exactly when no timer in it still runs |
| TimerComponent.TickKeepsConsistency | src/components/Timer.tsx:93-101 | a tick on a timer with at least two seconds left keeps every timer consistent |
| TimerComponent.LastTickLeavesRunningAtZero | src/components/Timer.tsx:96-98 | the last tick of a running timer leaves it running with 0 left, so the live progress is briefly inconsistent |
| TimerComponent.LastTickThenFinishIsConsistent | src/components/Timer.tsx:117-139 | the completion step after that last tick stops the timer at 0 and makes every timer consistent again |
| TimerComponent.PlayPauseShown | src/components/Timer.tsx:183-191 | a row with 0 time left shows no play/pause control, and a row showing one also shows reset |
| TimerComponent.FinishedTimerOffersOnlyReset | src/components/Timer.tsx:157-205 | in an expanded row outside the history list, reset is always shown and play/pause exactly when time is left |
| TimerComponent.LiveProgress.constructor | src/screens/App/BottomTabs/Timers.tsx:42 | the live progress holds the categories it is given |
| TimerComponent.TimerWidget.constructor | src/components/Timer.tsx:56 | a new row has no interval scheduled |
| TimerComponent.TimerWidget.Cleanup | src/components/Timer.tsx:108-113 | the effect cleanup leaves no interval active |
| TimerComponent.TimerWidget.StartOrStop | src/components/Timer.tsx:86-107 | an interval starts only when none is active and the timer runs with time left; an active one is cleared exactly when the timer stopped; each start is counted |
| TimerComponent.TimerWidget.RunningChanged | src/components/Timer.tsx:86-115 | after the effect re-runs, an interval is scheduled exactly when the timer runs with time left |
| TimerComponent.TimerWidget.IntervalFires | src/components/Timer.tsx:93-102 | a firing interval applies one `Tick` to the live progress |
| TimerComponent.TimerWidget.TimeLeftChanged | src/components/Timer.tsx:117-145 | completion happens exactly when an interval is active and the time left is at most 0; it clears the interval, applies `Finish` to the live progress and `setComplete` to the store, at most once per started interval; otherwise nothing changes |
| TimersScreen.MergeTimers | src/screens/App/BottomTabs/Timers.tsx:53-64 | the live timer is kept where its name matches the store's timer at that position, the store's timer is taken otherwise |
| TimersScreen.Reconciled | src/screens/App/BottomTabs/Timers.tsx:47-75 | the live progress follows the store's categories and timers in names and counts; live state survives only where the names match position by position |
| TimersScreen.Reconcile | src/screens/App/BottomTabs/Timers.tsx:47-75 | the effect's nested loops compute `Reconciled` |
| TimersScreen.ReconcileTimers | src/screens/App/BottomTabs/Timers.tsx:52-64 | the inner loop computes `MergeTimers` |
| TimersScreen.ReconcileWithItself | src/screens/App/BottomTabs/Timers.tsx:47-75 | reconciling the store's categories with themselves gives them back |
| TimersScreen.ReconcileIdempotent | src/screens/App/BottomTabs/Timers.tsx:47-75 | reconciling twice against the same store equals reconciling once |
| Seqs.IndexOf | src/screens/App/BottomTabs/Timers.tsx:106 | the first position of the value, or -1 exactly when it is absent |
| Seqs.RemoveFirstAt | src/screens/App/BottomTabs/Timers.tsx:110 | `splice(index, 1)` at the first occurrence removes that first occurrence |
| Seqs.RemoveFirst | src/screens/App/BottomTabs/Timers.tsx:110 | removing a present value shortens by one, an absent one changes nothing, and no new value appears |
| TimersScreen.ChangeSelection | src/screens/App/BottomTabs/Timers.tsx:98-114 | an empty value clears the selection; an absent value is appended; a present one loses its first occurrence |
| TimersScreen.Toggled | src/screens/App/BottomTabs/Timers.tsx:98-114 | the new selection: empty for the placeholder value, the old one plus the value when absent, one shorter when present, and never a value from elsewhere |
| TimersScreen.ToggleTwice | src/screens/App/BottomTabs/Timers.tsx:98-114 | picking the same value twice restores a selection without it, or moves it to the end, with the same members either way |
| TimersScreen.ToggleFlipsMembership | src/screens/App/BottomTabs/Timers.tsx:98-114 | toggling flips the value's membership, keeps every other value and never selects a value twice |
| Seqs.RemoveFirstNoDuplicates | src/screens/App/BottomTabs/Timers.tsx:104-113 | removing a value from a selection without repeats removes it entirely and keeps the rest distinct |
| TimersScreen.Collapse | src/screens/App/BottomTabs/Timers.tsx:184-196 | same keys; unselected categories collapse; selected ones keep their state |
| TimersScreen.DropdownData | src/screens/App/BottomTabs/Timers.tsx:87-96 | one entry per category, in order, behind a "Select Category" entry exactly when something is selected |
| TimersScreen.PlaceholderClearsSelection | src/screens/App/BottomTabs/Timers.tsx:87-114 | picking the first entry while something is selected clears the selection |
| TimersScreen.IndexOfName | src/screens/App/BottomTabs/Timers.tsx:122 | the first live category with that title, or -1 |
| TimersScreen.IsCompleted | src/screens/App/BottomTabs/Timers.tsx:122-125 | a header is completed exactly when no timer of that category has time left, or when the category is not in the live progress |
| HistoryScreen.FinishedTimers | src/screens/App/BottomTabs/History.tsx:44 | only timers with no time left are listed |
| HistoryScreen.AllSections | src/screens/App/BottomTabs/History.tsx:42-46 | one section per category, in order |
| HistoryScreen.HistorySections | src/screens/App/BottomTabs/History.tsx:39-49 | at most one section per category and none empty; the two lemmas below say which |
| HistoryScreen.SectionsHoldOnlyFinishedTimers | src/screens/App/BottomTabs/History.tsx:39-49 | every listed section is non-empty and lists finished timers of its category, in their order |
| HistoryScreen.SectionsFollowCategories | src/screens/App/BottomTabs/History.tsx:39-49 | a category is listed exactly when it has a finished timer; sections keep the category order |
| Seqs.FilterMembership | src/screens/App/BottomTabs/History.tsx:47 | an element survives `filter` exactly when it is present and passes the test |
| Seqs.Filter | src/screens/App/BottomTabs/History.tsx:44 | `filter` keeps no more elements than it is given, and only ones that pass the test |
| Seqs.FilterIsSubsequence | src/screens/App/BottomTabs/History.tsx:47 | `filter` keeps the order of the elements |
| Seqs.FilterEmpty | src/screens/App/BottomTabs/Timers.tsx:123-125 | `filter` is empty exactly when nothing passes the test |
| Seqs.FilterAppend | src/screens/App/BottomTabs/History.tsx:93-97 | a `forEach` that pushes the passing elements builds the filter one element at a time |
| HistoryScreen.Project | src/screens/App/BottomTabs/History.tsx:95 | each exported timer is the timer's `{name, duration}` |
| HistoryScreen.ExportDocument | src/screens/App/BottomTabs/History.tsx:91-99 | every category is exported in order, with the `{name, duration}` of its finished timers |
| HistoryScreen.Export | src/screens/App/BottomTabs/History.tsx:91-99 | the outer `forEach` computes `ExportDocument` |
| HistoryScreen.ExportTimers | src/screens/App/BottomTabs/History.tsx:92-97 | the inner `forEach` pushes exactly the finished timers, in order |
| HistoryScreen.ExportMatchesSections | src/screens/App/BottomTabs/History.tsx:91-99 | the export agrees with the list; a category the list omits is exported with no timers |
| HomeScreen.NewTimer | src/screens/App/BottomTabs/Home.tsx:42-47 | a created timer is stopped with its full duration left, at least 1 second; its name is the input with surrounding white space cut |
| HomeScreen.CategoryName | src/screens/App/BottomTabs/Home.tsx:50-53 | a picked category contributes its name; typed text contributes its trimmed form |
| HomeScreen.Submit | src/screens/App/BottomTabs/Home.tsx:42-56 | the one payload dispatched carries a stopped timer whose duration and time left equal the typed number |
| HomeScreen.SubmitAddsOneTimer | src/screens/App/BottomTabs/Home.tsx:48-56 | the dispatch adds exactly one timer; a picked category, or typed text matching one ignoring case and white space, gets it at its end without a new category |
| HomeScreen.SubmittedDurationIsPositive | src/components/Input.tsx:53-59 | a duration that passes the pattern gives a timer with time left |
| Text.ToLower | src/redux/Timers.ts:17 | `toLowerCase` keeps the length and lowers each ASCII capital |
| Text.Trim | src/screens/App/BottomTabs/Home.tsx:43 | `trim` cuts only white space from the ends and leaves none at either end |
| Text.TrimIdempotent | src/screens/App/BottomTabs/Home.tsx:43 | trimming twice equals trimming once |
| Text.IncludesIffOccurs | src/components/InputSelect.tsx:66 | `includes` holds exactly when the text occurs at some position |
| Text.Includes | src/components/InputSelect.tsx:66 | `includes` holds only for a text no longer than the string; `IncludesIffOccurs` states exactly when |
| Text.IncludesEmpty | src/components/InputSelect.tsx:66 | every string includes the empty string |
| InputSelect.Initial | src/components/InputSelect.tsx:60-61 | the field starts with no value, empty input and no focus |
| InputSelect.FilteredData | src/components/InputSelect.tsx:63-69 | suggestions are drawn from the data and all have a label |
| InputSelect.SuggestionsKeepOrder | src/components/InputSelect.tsx:65-67 | the suggestions keep the order of the data |
| InputSelect.SuggestionMembership | src/components/InputSelect.tsx:66 | an item is suggested exactly when its lowercased label contains the lowercased input |
| InputSelect.EmptyInputSuggestsAll | src/components/InputSelect.tsx:66 | with empty input every item with a label is suggested |
| InputSelect.ChangeText | src/components/InputSelect.tsx:71-77 | typed text becomes both the form value and the filter input |
| InputSelect.Pick | src/components/InputSelect.tsx:95 | a pressed suggestion becomes the form value; the filter input is untouched |
| InputSelect.ToggleFocus | src/components/InputSelect.tsx:79-84 | losing focus clears the input; gaining focus keeps it |
| InputSelect.ShowsSuggestionsIff | src/components/InputSelect.tsx:128 | the list is shown exactly when the field has focus and some item matches the input |
| InputSelect.ShowsSuggestions | src/components/InputSelect.tsx:128 | the list is only shown when the field has focus and there is data |
| InputSelect.RefocusShowsAll | src/components/InputSelect.tsx:79-84 | after leaving and re-entering the field the input is empty and every labelled item is offered |
| InputSelect.DisplayedValue | src/components/InputSelect.tsx:118 | a picked item shows its label, typed text shows itself, an unset value shows nothing |
| InputSelect.DisplayFollowsEdits | src/components/InputSelect.tsx:118 | after typing the field shows the text, after picking the item's label; blurring does not change it |
| InputSelect.TypedPrefixSuggestsCategory | src/screens/App/BottomTabs/Home.tsx:88-96 | typing a prefix of a category's name, in any mix of upper and lower case, suggests that category |
| Constants.DigitsMatch | src/constants/index.ts:12 | `[0-9]*` matches exactly the strings of digits |
| Constants.NaturalNumberMeaning | src/constants/index.ts:12 | the pattern accepts exactly the non-empty digit strings whose first digit is 1-9 |
| Constants.NaturalNumberEdges | src/constants/index.ts:12 | "", "0" and every leading-zero string are rejected; every single digit 1-9 is accepted |
| Constants.NaturalNumberExtends | src/constants/index.ts:12 | appending a digit to an accepted string keeps it accepted |
| Constants.NaturalNumberValue | src/constants/index.ts:12 | an accepted string denotes a number of at least 1 |
| Constants.DecimalValue | src/screens/App/BottomTabs/Home.tsx:44-45 | `Number(duration)` of a digit string, exactly: a value below 10 to the power of its length |
| Constants.NaturalNumberExactAsDouble | src/screens/App/BottomTabs/Home.tsx:44-45 | an accepted duration of at most 15 digits is below 2^53, where `Number` is exact |

## Left out

- Storage I/O is not modelled: the AsyncStorage reads and writes, `saveProgress`, and the logging of storage errors. `RestoreProgress` takes the two stored values as options and the current time as a parameter.
- JSON is not modelled. `JSON.parse(JSON.stringify(…))` copies are value semantics in Dafny, and the exported document is a value rather than text.
- Parsing the stored ISO timestamp is not modelled; timestamps are integer milliseconds. An unparseable timestamp gives `NaN` elapsed seconds in the source, which stops every running timer. That path is not modelled.
- Store.TimersSlice.RestoreProgress: a stored empty string counts as present. In the source it is falsy, so such a string makes the restore do nothing.
- The timing of `setInterval` and of React renders is not modelled. Ticks, effect runs and completions are explicit method calls, and several ticks between two renders are not represented.
- The app-state listener, the focus-driven reload and the save-on-background in the Timers screen are not modelled. They are I/O and scheduling around `RestoreProgress` and `LoadProgress`.
- Not modelled: animations, percentage labels, icons, styles, toasts, keyboard dismissal, form reset, the export's date stamp and file write.
- `toggleExpand` is not modelled. It only flips a UI expansion flag, and the model keeps only `Collapse`, which the selection drives.
- Unicode is not modelled. `toLowerCase` and `trim` act on ASCII only; other characters are left unchanged.
- The reducer `addTimer` validates nothing. Validation is the form's `required` and `NaturalNumber` rules, which become preconditions of `HomeScreen.Submit`. A typed name or category made only of white space passes `required` and is dispatched as "".
- `setComplete` leaves the category flag as it is (`Store.CompletedTimer`); only the Timer row's own `Finish` clears it.
- Restoring only ever clears a category flag and never sets it, even when a timer of a stopped category still runs (`Store.CorrectCategory`).
- A single timer's play/pause does not recompute its category's flag (`TimerComponent.PlayPause`), so the flag can disagree with the timers.
- HomeScreen.NewTimer: the duration is `Constants.DecimalValue`, the exact value of the digits. JavaScript's `Number` is exact only below 2^53 (15 digits always are, `NaturalNumberExactAsDouble`); the pattern accepts longer strings, which `Number` rounds, and from about 309 digits gives `Infinity`, a timer that never finishes. Rounding and `Infinity` are not modelled.
- TimerComponent.Tick: the last tick of a running timer leaves it running with 0 left until the completion effect runs `Finish`; the model has no invariant across that gap and instead proves both steps (`LastTickLeavesRunningAtZero`, `LastTickThenFinishIsConsistent`).
