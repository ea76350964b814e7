/** The History screen (src/screens/App/BottomTabs/History.tsx): the list of
    finished timers grouped by category, and the document its export button
    writes. The date stamp and the file write are outside the model. Its
    dropdown, selection toggle and collapse effect are the Timers screen's
    code repeated (`TimersScreen.DropdownData`, `TimersScreen.ChangeSelection`,
    `TimersScreen.Collapse`). */
module HistoryScreen {
  import opened Model
  import opened Seqs

  /** A finished timer: `!timer.timeLeft`. */
  predicate IsFinished(t: Timer) {
    t.timeLeft == 0
  }

  /** `timers.filter(timer => !timer.timeLeft)`. */
  function FinishedTimers(ts: seq<Timer>): (r: seq<Timer>)
    ensures |r| <= |ts|
    ensures forall j :: 0 <= j < |r| ==> IsFinished(r[j])
  {
    Filter(ts, IsFinished)
  }

  /** One section of the list: a category title with the timers shown under it. */
  datatype Section = Section(title: string, data: seq<Timer>, running: bool)

  function ToSection(c: Category): Section {
    Section(c.name, FinishedTimers(c.timers), c.running)
  }

  /** The `map` step of `data`: one section per category, in order. */
  function AllSections(categories: seq<Category>): (r: seq<Section>)
    ensures |r| == |categories|
    ensures forall i :: 0 <= i < |categories| ==> r[i] == ToSection(categories[i])
  {
    seq(|categories|, i requires 0 <= i < |categories| => ToSection(categories[i]))
  }

  predicate HasData(s: Section) {
    |s.data| > 0
  }

  /** `data` (src/screens/App/BottomTabs/History.tsx:39-49): sections of finished timers, empty sections dropped. */
  function HistorySections(categories: seq<Category>): (r: seq<Section>)
    ensures |r| <= |categories|
    ensures forall s :: s in r ==> HasData(s)
  {
    Filter(AllSections(categories), HasData)
  }

  /** Every section lists only finished timers, in the order of its category,
      and no section is empty. */
  lemma SectionsHoldOnlyFinishedTimers(categories: seq<Category>, s: Section)
    requires s in HistorySections(categories)
    ensures |s.data| > 0
    ensures forall j :: 0 <= j < |s.data| ==> s.data[j].timeLeft == 0
    ensures exists i :: 0 <= i < |categories| && categories[i].name == s.title
              && IsSubsequence(s.data, categories[i].timers)
  {
    FilterMembership(AllSections(categories), HasData, s);
    var i :| 0 <= i < |categories| && AllSections(categories)[i] == s;
    FilterIsSubsequence(categories[i].timers, IsFinished);
  }

  /** A category gets a section exactly when it has a finished timer; sections
      keep the order of the categories. */
  lemma SectionsFollowCategories(categories: seq<Category>, i: int)
    requires 0 <= i < |categories|
    ensures ToSection(categories[i]) in HistorySections(categories) <==>
              exists j :: 0 <= j < |categories[i].timers| && categories[i].timers[j].timeLeft == 0
    ensures IsSubsequence(HistorySections(categories), AllSections(categories))
  {
    FilterMembership(AllSections(categories), HasData, ToSection(categories[i]));
    FilterEmpty(categories[i].timers, IsFinished);
    FilterIsSubsequence(AllSections(categories), HasData);
  }

  /** A timer as the export lists it. */
  datatype ExportedTimer = ExportedTimer(name: string, duration: int)

  /** A category as the export lists it. */
  datatype ExportedCategory = ExportedCategory(name: string, timers: seq<ExportedTimer>)

  function Project(ts: seq<Timer>): (r: seq<ExportedTimer>)
    ensures |r| == |ts|
    ensures forall j :: 0 <= j < |ts| ==> r[j] == ExportedTimer(ts[j].name, ts[j].duration)
  {
    seq(|ts|, j requires 0 <= j < |ts| => ExportedTimer(ts[j].name, ts[j].duration))
  }

  /** The `categories` of the exported document: every category in order, each
      with its finished timers as `{name, duration}`. */
  function ExportDocument(categories: seq<Category>): (r: seq<ExportedCategory>)
    ensures |r| == |categories|
    ensures forall i :: 0 <= i < |categories| ==>
      r[i].name == categories[i].name && r[i].timers == Project(FinishedTimers(categories[i].timers))
  {
    seq(|categories|, i requires 0 <= i < |categories| =>
      ExportedCategory(categories[i].name, Project(FinishedTimers(categories[i].timers))))
  }

  /** The `forEach` loops of `exportDataHandler` (src/screens/App/BottomTabs/History.tsx:91-99). */
  method Export(categories: seq<Category>) returns (exported: seq<ExportedCategory>)
    ensures exported == ExportDocument(categories)
  {
    exported := [];
    var i := 0;
    while i < |categories|
      invariant 0 <= i <= |categories| && |exported| == i
      invariant forall k :: 0 <= k < i ==>
        exported[k] == ExportedCategory(categories[k].name, Project(FinishedTimers(categories[k].timers)))
    {
      var timers := ExportTimers(categories[i].timers);
      exported := exported + [ExportedCategory(categories[i].name, timers)];
      i := i + 1;
    }
  }

  /** The inner `forEach`: push `{name, duration}` of every timer without time left. */
  method ExportTimers(ts: seq<Timer>) returns (timers: seq<ExportedTimer>)
    ensures timers == Project(FinishedTimers(ts))
  {
    timers := [];
    var k := 0;
    while k < |ts|
      invariant 0 <= k <= |ts|
      invariant timers == Project(FinishedTimers(ts[..k]))
    {
      assert ts[..k + 1] == ts[..k] + [ts[k]];
      FilterAppend(ts[..k], ts[k], IsFinished);
      if ts[k].timeLeft == 0 {
        timers := timers + [ExportedTimer(ts[k].name, ts[k].duration)];
      }
      k := k + 1;
    }
    assert ts[..k] == ts;
  }

  /** The export and the list agree: each category's exported timers are the
      timers of its section, and the categories the list omits are exported with
      no timers. */
  lemma ExportMatchesSections(categories: seq<Category>, i: int)
    requires 0 <= i < |categories|
    ensures var e, s := ExportDocument(categories)[i], AllSections(categories)[i];
      && e.name == s.title
      && e.timers == Project(s.data)
      && (e.timers == [] <==> s !in HistorySections(categories))
  {
    FilterMembership(AllSections(categories), HasData, AllSections(categories)[i]);
  }
}
