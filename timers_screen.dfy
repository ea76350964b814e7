/** The Timers screen (src/screens/App/BottomTabs/Timers.tsx): how its live
    progress is rebuilt when the store's categories change, the category
    filter of its dropdown, the collapsing of filtered-out sections and the
    "completed" flag of a section header. The History screen repeats the
    selection and collapse code verbatim, so it uses these members too. */
module TimersScreen {
  import opened Model
  import opened Seqs

  /** The timer at position `j` after reconciliation: the live one when its name
      still matches the store's timer at that position, the store's otherwise. */
  function MergeTimer(live: seq<Timer>, stored: seq<Timer>, j: int): Timer
    requires 0 <= j < |stored|
  {
    if j < |live| && live[j].name == stored[j].name then live[j] else stored[j]
  }

  function MergeTimers(live: seq<Timer>, stored: seq<Timer>): (r: seq<Timer>)
    ensures |r| == |stored|
    ensures forall j :: 0 <= j < |stored| ==> r[j] == MergeTimer(live, stored, j)
  {
    seq(|stored|, j requires 0 <= j < |stored| => MergeTimer(live, stored, j))
  }

  /** The category at position `i` after reconciliation. */
  function MergeCategory(prev: seq<Category>, i: int, stored: Category): Category
    requires 0 <= i
  {
    if i < |prev| && prev[i].name == stored.name
    then prev[i].(timers := MergeTimers(prev[i].timers, stored.timers))
    else stored
  }

  /** The live progress the reconciliation effect (src/screens/App/BottomTabs/Timers.tsx:47-75)
      builds from the previous live progress and the store's categories. */
  function Reconciled(prev: seq<Category>, categories: seq<Category>): (r: seq<Category>)
    ensures |r| == |categories|
    ensures forall i :: 0 <= i < |categories| ==>
      && r[i].name == categories[i].name
      && |r[i].timers| == |categories[i].timers|
      && (forall j :: 0 <= j < |categories[i].timers| ==> r[i].timers[j].name == categories[i].timers[j].name)
    ensures forall i :: 0 <= i < |categories| && (i >= |prev| || prev[i].name != categories[i].name) ==>
      r[i] == categories[i]
    ensures forall i :: 0 <= i < |categories| && i < |prev| && prev[i].name == categories[i].name ==>
      && r[i].running == prev[i].running
      && (forall j :: 0 <= j < |categories[i].timers| ==>
            r[i].timers[j] == (if j < |prev[i].timers| && prev[i].timers[j].name == categories[i].timers[j].name
                               then prev[i].timers[j] else categories[i].timers[j]))
  {
    seq(|categories|, i requires 0 <= i < |categories| => MergeCategory(prev, i, categories[i]))
  }

  /** The effect's nested `forEach` loops, pushing into `tempCategoryArr`. */
  method Reconcile(prev: seq<Category>, categories: seq<Category>) returns (r: seq<Category>)
    ensures r == Reconciled(prev, categories)
  {
    r := [];
    var ci := 0;
    while ci < |categories|
      invariant 0 <= ci <= |categories| && |r| == ci
      invariant forall k :: 0 <= k < ci ==> r[k] == MergeCategory(prev, k, categories[k])
    {
      var category := categories[ci];
      if ci < |prev| && prev[ci].name == category.name {
        var timers := ReconcileTimers(prev[ci].timers, category.timers);
        r := r + [prev[ci].(timers := timers)];
      } else {
        r := r + [category];
      }
      ci := ci + 1;
    }
  }

  /** The inner `forEach`, pushing into `tempTimerArr`. */
  method ReconcileTimers(live: seq<Timer>, stored: seq<Timer>) returns (timers: seq<Timer>)
    ensures timers == MergeTimers(live, stored)
  {
    timers := [];
    var ti := 0;
    while ti < |stored|
      invariant 0 <= ti <= |stored| && |timers| == ti
      invariant forall j :: 0 <= j < ti ==> timers[j] == MergeTimer(live, stored, j)
    {
      if ti < |live| && live[ti].name == stored[ti].name {
        timers := timers + [live[ti]];
      } else {
        timers := timers + [stored[ti]];
      }
      ti := ti + 1;
    }
  }

  /** Reconciling the store's categories with themselves gives them back. */
  lemma ReconcileWithItself(categories: seq<Category>)
    ensures Reconciled(categories, categories) == categories
  {
    var r := Reconciled(categories, categories);
    forall i | 0 <= i < |categories| ensures r[i] == categories[i] {
      assert r[i].timers == categories[i].timers;
    }
  }

  /** Once reconciled, reconciling again against the same store changes nothing. */
  lemma ReconcileIdempotent(prev: seq<Category>, categories: seq<Category>)
    ensures Reconciled(Reconciled(prev, categories), categories) == Reconciled(prev, categories)
  {
    var r := Reconciled(prev, categories);
    var rr := Reconciled(r, categories);
    forall i | 0 <= i < |categories| ensures rr[i] == r[i] {
      assert rr[i].timers == r[i].timers;
    }
  }

  /** The selection after `changeHandler` picks the dropdown entry with `value`:
      an empty value clears it; otherwise the value is appended when absent and its
      first occurrence removed when present. */
  function Toggled(selected: seq<string>, value: string): (r: seq<string>)
    ensures value == "" ==> r == []
    ensures value != "" && value !in selected ==> r == selected + [value]
    ensures value != "" && value in selected ==> |r| == |selected| - 1
    ensures forall v :: v in r ==> v in selected || v == value
  {
    if value == "" then []
    else if value in selected then RemoveFirst(selected, value)
    else selected + [value]
  }

  /** `changeHandler` (src/screens/App/BottomTabs/Timers.tsx:98-114): `findIndex`, then `push` or `splice`. */
  method ChangeSelection(prev: seq<string>, value: string) returns (next: seq<string>)
    ensures next == Toggled(prev, value)
    ensures value != "" && value !in prev ==> next == prev + [value]
    ensures value != "" && value in prev ==> |next| == |prev| - 1
  {
    if value == "" {
      return [];
    }
    var tempArr := prev;
    var index := IndexOf(tempArr, value);
    if index == -1 {
      tempArr := tempArr + [value];
    } else {
      RemoveFirstAt(tempArr, value, index);
      tempArr := tempArr[..index] + tempArr[index + 1..];
    }
    next := tempArr;
  }

  /** Picking the same non-empty value twice gives back a selection without it
      unchanged; a selection holding it once ends with the same values, that one
      moved to the end. */
  lemma ToggleTwice(selected: seq<string>, value: string)
    requires value != "" && NoDuplicates(selected)
    ensures value !in selected ==> Toggled(Toggled(selected, value), value) == selected
    ensures value in selected ==>
      Toggled(Toggled(selected, value), value) == RemoveFirst(selected, value) + [value]
    ensures forall v :: v in Toggled(Toggled(selected, value), value) <==> v in selected
  {
    if value !in selected {
      RemoveFirstAppended(selected, value);
    } else {
      RemoveFirstNoDuplicates(selected, value);
    }
  }

  /** Toggling a value flips whether it is selected, keeps every other value,
      and never selects a value twice. */
  lemma ToggleFlipsMembership(selected: seq<string>, value: string)
    requires value != "" && NoDuplicates(selected)
    ensures var next := Toggled(selected, value);
      && (value in next <==> value !in selected)
      && (forall v :: v != value ==> (v in next <==> v in selected))
      && NoDuplicates(next)
  {
    if value in selected {
      RemoveFirstNoDuplicates(selected, value);
    }
  }

  /** The collapse effect (src/screens/App/BottomTabs/Timers.tsx:184-196): every expanded-state key
      that is not selected is set to `false`; selected keys keep their value. */
  method Collapse(expanded: map<string, bool>, selected: seq<string>) returns (updated: map<string, bool>)
    ensures updated.Keys == expanded.Keys
    ensures forall k :: k in expanded && k in selected ==> updated[k] == expanded[k]
    ensures forall k :: k in expanded && k !in selected ==> !updated[k]
  {
    updated := expanded;
    var keys := expanded.Keys;
    while keys != {}
      invariant keys <= expanded.Keys && updated.Keys == expanded.Keys
      invariant forall k :: k in keys ==> updated[k] == expanded[k]
      invariant forall k :: k in expanded && k !in keys ==>
        updated[k] == (if k in selected then expanded[k] else false)
      decreases keys
    {
      var category :| category in keys;
      if category !in selected {
        updated := updated[category := false];
      }
      keys := keys - {category};
    }
  }

  /** One entry of the category dropdown. */
  datatype DropdownItem = DropdownItem(labelText: string, value: string)

  /** `dropdownData`: every category as `{label: name, value: name}` in store order,
      behind a `{'Select Category', ''}` entry when something is selected. */
  function DropdownData(categories: seq<Category>, selected: seq<string>): (r: seq<DropdownItem>)
    ensures var offset := if |selected| > 0 then 1 else 0;
      && |r| == |categories| + offset
      && (|selected| > 0 ==> r[0] == DropdownItem("Select Category", ""))
      && (forall i :: 0 <= i < |categories| ==>
            r[offset + i] == DropdownItem(categories[i].name, categories[i].name))
  {
    var tempArr := seq(|categories|, i requires 0 <= i < |categories| => DropdownItem(categories[i].name, categories[i].name));
    if |selected| > 0 then [DropdownItem("Select Category", "")] + tempArr else tempArr
  }

  /** Picking the first dropdown entry while something is selected clears the selection. */
  lemma PlaceholderClearsSelection(categories: seq<Category>, selected: seq<string>)
    requires |selected| > 0
    ensures Toggled(selected, DropdownData(categories, selected)[0].value) == []
  {
  }

  /** `progress.findIndex(item => item.name === title)`. */
  function IndexOfName(progress: seq<Category>, title: string): (i: int)
    ensures -1 <= i < |progress|
    ensures 0 <= i ==> progress[i].name == title
    ensures forall k :: 0 <= k < |progress| && (i == -1 || k < i) ==> progress[k].name != title
  {
    if progress == [] then -1
    else if progress[0].name == title then 0
    else
      var j := IndexOfName(progress[1..], title);
      if j == -1 then -1 else j + 1
  }

  /** `isCompleted` of a section header: no timer of the first live category with
      that title has time left. With no such category `progress[-1]` is undefined
      and the header counts as completed. */
  function IsCompleted(progress: seq<Category>, title: string): (completed: bool)
    ensures var i := IndexOfName(progress, title);
      completed <==> i == -1 || forall j :: 0 <= j < |progress[i].timers| ==> progress[i].timers[j].timeLeft == 0
  {
    var index := IndexOfName(progress, title);
    if index == -1 then true
    else
      var withTimeLeft := Filter(progress[index].timers, (t: Timer) => t.timeLeft != 0);
      FilterEmpty(progress[index].timers, (t: Timer) => t.timeLeft != 0);
      |withTimeLeft| == 0
  }
}
