/** The category field of the create form (src/components/InputSelect.tsx):
    a text input whose form value is either the typed text or an item picked
    from a list of suggestions, and the suggestions themselves, which are the
    items whose label contains the typed text, ignoring case. */
module InputSelect {
  import opened Model
  import opened Seqs
  import opened Text

  /** The form value of the field: nothing yet, the typed text, or a picked item. */
  datatype FieldValue<T> = Unset | Typed(text: string) | Picked(item: T)

  /** The component's state: the form value, the `input` state and the `focused` state. */
  datatype FieldState<T> = FieldState(value: FieldValue<T>, input: string, focused: bool)

  /** The state before the user touches the field. */
  function Initial<T>(): (s: FieldState<T>)
    ensures s.value.Unset? && s.input == "" && !s.focused
  {
    FieldState(Unset, "", false)
  }

  /** The test `item?.[labelField]?.toLowerCase()?.includes(input?.toLowerCase())`;
      `labelOf` gives an item's label field, `None` when it has none (the test is then
      `undefined`, which `filter` treats as false). */
  predicate Suggests<T>(labelOf: T -> Option<string>, input: string, item: T) {
    labelOf(item).Some? && Includes(ToLower(labelOf(item).value), ToLower(input))
  }

  function SuggestionTest<T>(labelOf: T -> Option<string>, input: string): T -> bool {
    item => Suggests(labelOf, input, item)
  }

  /** `filteredData` (src/components/InputSelect.tsx:63-69). */
  function FilteredData<T>(data: seq<T>, labelOf: T -> Option<string>, input: string): (r: seq<T>)
    ensures |r| <= |data|
    ensures forall x :: x in r ==> labelOf(x).Some?
  {
    Filter(data, SuggestionTest(labelOf, input))
  }

  /** The suggestions keep the order of `data`. */
  lemma SuggestionsKeepOrder<T>(data: seq<T>, labelOf: T -> Option<string>, input: string)
    ensures IsSubsequence(FilteredData(data, labelOf, input), data)
  {
    FilterIsSubsequence(data, SuggestionTest(labelOf, input));
  }

  /** An item is suggested exactly when it is in `data` and its lowercased label
      contains the lowercased input at some position. */
  lemma SuggestionMembership<T>(data: seq<T>, labelOf: T -> Option<string>, input: string, x: T)
    ensures x in FilteredData(data, labelOf, input) <==>
      x in data && labelOf(x).Some? && exists k :: OccursAt(ToLower(labelOf(x).value), ToLower(input), k)
  {
    FilterMembership(data, SuggestionTest(labelOf, input), x);
    if labelOf(x).Some? {
      IncludesIffOccurs(ToLower(labelOf(x).value), ToLower(input));
    }
  }

  /** With nothing typed every item that has a label is suggested, and when all
      items have one the list is `data` itself. */
  lemma EmptyInputSuggestsAll<T>(data: seq<T>, labelOf: T -> Option<string>, x: T)
    ensures x in FilteredData(data, labelOf, "") <==> x in data && labelOf(x).Some?
    ensures (forall i :: 0 <= i < |data| ==> labelOf(data[i]).Some?) ==> FilteredData(data, labelOf, "") == data
  {
    FilterMembership(data, SuggestionTest(labelOf, ""), x);
    if labelOf(x).Some? {
      IncludesEmpty(ToLower(labelOf(x).value));
    }
    if forall i :: 0 <= i < |data| ==> labelOf(data[i]).Some? {
      forall i | 0 <= i < |data| ensures SuggestionTest(labelOf, "")(data[i]) {
        IncludesEmpty(ToLower(labelOf(data[i]).value));
      }
      FilterKeepsAll(data, SuggestionTest(labelOf, ""));
    }
  }

  /** `inputChangeHandler`: the typed text becomes both the form value and the filter input. */
  function ChangeText<T>(s: FieldState<T>, text: string): (r: FieldState<T>)
    ensures r.value == Typed(text) && r.input == text && r.focused == s.focused
  {
    s.(value := Typed(text), input := text)
  }

  /** Pressing a suggestion: the item becomes the form value; the filter input is not touched. */
  function Pick<T>(s: FieldState<T>, item: T): (r: FieldState<T>)
    ensures r.value == Picked(item) && r.input == s.input && r.focused == s.focused
  {
    s.(value := Picked(item))
  }

  /** `toggleFocusHandler` (src/components/InputSelect.tsx:79-84). */
  function ToggleFocus<T>(s: FieldState<T>, isFocused: bool): (r: FieldState<T>)
    ensures r.focused == isFocused && r.value == s.value
    ensures !isFocused ==> r.input == ""
    ensures isFocused ==> r.input == s.input
  {
    var input := if !isFocused then "" else s.input;
    s.(input := input, focused := isFocused)
  }

  /** Whether the suggestion list is rendered (src/components/InputSelect.tsx:128). */
  predicate ShowsSuggestions<T>(s: FieldState<T>, data: seq<T>, labelOf: T -> Option<string>)
    ensures ShowsSuggestions(s, data, labelOf) ==> s.focused && |data| > 0
  {
    s.focused && |FilteredData(data, labelOf, s.input)| > 0
  }

  /** The list is shown exactly when the field has focus and some item of `data` matches the input. */
  lemma ShowsSuggestionsIff<T>(s: FieldState<T>, data: seq<T>, labelOf: T -> Option<string>)
    ensures ShowsSuggestions(s, data, labelOf) <==> s.focused && exists i :: 0 <= i < |data| && Suggests(labelOf, s.input, data[i])
  {
    var r := FilteredData(data, labelOf, s.input);
    if |r| > 0 {
      FilterMembership(data, SuggestionTest(labelOf, s.input), r[0]);
    }
    if exists i :: 0 <= i < |data| && Suggests(labelOf, s.input, data[i]) {
      var i :| 0 <= i < |data| && Suggests(labelOf, s.input, data[i]);
      FilterMembership(data, SuggestionTest(labelOf, s.input), data[i]);
    }
  }

  /** Leaving the field and coming back shows every item that has a label:
      the blur cleared the filter input. */
  lemma RefocusShowsAll<T>(s: FieldState<T>, data: seq<T>, labelOf: T -> Option<string>)
    ensures var back := ToggleFocus(ToggleFocus(s, false), true);
      && back.input == ""
      && (ShowsSuggestions(back, data, labelOf) <==> exists i :: 0 <= i < |data| && labelOf(data[i]).Some?)
  {
    var back := ToggleFocus(ToggleFocus(s, false), true);
    ShowsSuggestionsIff(back, data, labelOf);
    forall i | 0 <= i < |data| && labelOf(data[i]).Some? ensures Suggests(labelOf, "", data[i]) {
      IncludesEmpty(ToLower(labelOf(data[i]).value));
    }
  }

  /** The text the input shows (src/components/InputSelect.tsx:118): a picked item shows
      its label, typed text shows itself, and an unset value shows nothing. */
  function DisplayedValue<T>(value: FieldValue<T>, labelOf: T -> Option<string>): (shown: Option<string>)
    ensures value.Picked? ==> shown == labelOf(value.item)
    ensures value.Typed? ==> shown == Some(value.text)
    ensures value.Unset? ==> shown.None?
  {
    match value
    case Picked(item) => labelOf(item)
    case Typed(text) => Some(text)
    case Unset => None
  }

  /** After typing, the input shows what was typed; after picking, the item's label. */
  lemma DisplayFollowsEdits<T>(s: FieldState<T>, text: string, item: T, labelOf: T -> Option<string>)
    ensures DisplayedValue(ChangeText(s, text).value, labelOf) == Some(text)
    ensures DisplayedValue(Pick(s, item).value, labelOf) == labelOf(item)
    ensures DisplayedValue(ToggleFocus(s, false).value, labelOf) == DisplayedValue(s.value, labelOf)
  {
  }

  /** The create form's field lists the store's categories by `name`. */
  function CategoryLabel(c: Category): (r: Option<string>)
    ensures r == Some(c.name)
  {
    Some(c.name)
  }

  /** Typing part of an existing category's name, in any mix of upper and lower
      case, suggests that category. */
  lemma TypedPrefixSuggestsCategory(categories: seq<Category>, i: int, n: nat, typed: string)
    requires 0 <= i < |categories| && n <= |categories[i].name|
    requires ToLower(typed) == ToLower(categories[i].name[..n])
    ensures categories[i] in FilteredData(categories, CategoryLabel, typed)
  {
    var name := categories[i].name;
    SuggestionMembership(categories, CategoryLabel, typed, categories[i]);
    assert ToLower(name)[..n] == ToLower(name[..n]);
    assert OccursAt(ToLower(name), ToLower(typed), 0);
  }
}
