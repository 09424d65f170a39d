/** The searchable dropdown (`components/dropdown/dropdown.component.ts`).
    Its inputs are the options, the selected value and the disabled flag;
    its state is whether it is open, the search text, the options currently
    listed, the highlighted position (-1 for none) and the label shown. The
    debounced search is modelled as the event `SearchSettled`, fired with
    the settled text; emitted outputs are returned beside the new state. */
module Dropdown {
  import opened Wrappers
  import opened Text
  import opened DropdownCore

  datatype State<V> = State(
    options: seq<DropdownOption<V>>,
    selectedValue: V,
    disabled: bool,
    isOpen: bool,
    searchTerm: string,
    filtered: seq<DropdownOption<V>>,
    highlight: int,
    displayValue: string,
    lastSearch: Option<string>)

  /** The keys `onKeyDown` reacts to; every other key is `OtherKey`. */
  datatype Key = ArrowDown | ArrowUp | Escape | OtherKey

  /** The highlight is none or a listed position. */
  predicate HighlightValid<V>(st: State<V>) {
    HighlightOk(st.highlight, |st.filtered|)
  }

  /** The state after construction: both effects have run once. */
  function Init<V(==)>(options: seq<DropdownOption<V>>, selectedValue: V, disabled: bool): (r: State<V>)
    ensures !r.isOpen && r.highlight == -1 && r.filtered == options && r.searchTerm == ""
    ensures r.displayValue == DisplayLabel(options, selectedValue)
    ensures HighlightValid(r)
  {
    State(options, selectedValue, disabled, false, "", options, -1, DisplayLabel(options, selectedValue), None)
  }

  /** A change of the options input. Both effects read it, so all options
      are listed again and the label is looked up anew; the highlight is kept. */
  function OptionsChanged<V(==)>(st: State<V>, options: seq<DropdownOption<V>>): (r: State<V>)
    ensures r.options == options && r.filtered == options
    ensures r.displayValue == DisplayLabel(options, st.selectedValue)
    ensures r.(options := st.options, filtered := st.filtered, displayValue := st.displayValue) == st
  {
    st.(options := options, filtered := options, displayValue := DisplayLabel(options, st.selectedValue))
  }

  /** A change of the selected value input. Both effects read it through the
      label lookup, so the first effect also lists all options again. */
  function SelectedValueChanged<V(==)>(st: State<V>, v: V): (r: State<V>)
    ensures r.selectedValue == v && r.displayValue == DisplayLabel(st.options, v)
    ensures r.filtered == st.options
    ensures r.(selectedValue := st.selectedValue, displayValue := st.displayValue, filtered := st.filtered) == st
  {
    st.(selectedValue := v, displayValue := DisplayLabel(st.options, v), filtered := st.options)
  }

  /** `openDropdown`: nothing when disabled; otherwise open, no highlight, every option listed. */
  function Open<V>(st: State<V>): (r: State<V>)
    ensures st.disabled ==> r == st
    ensures !st.disabled ==> r == st.(isOpen := true, highlight := -1, filtered := st.options)
  {
    if st.disabled then st else st.(isOpen := true, highlight := -1, filtered := st.options)
  }

  /** `closeDropdown`: closed, search text cleared, no highlight. */
  function Close<V>(st: State<V>): (r: State<V>)
    ensures !r.isOpen && r.searchTerm == "" && r.highlight == -1
    ensures r.(isOpen := st.isOpen, searchTerm := st.searchTerm, highlight := st.highlight) == st
  {
    st.(isOpen := false, searchTerm := "", highlight := -1)
  }

  /** `toggleDropdown` and `onWrapperClick`: nothing when disabled; else close an open dropdown, open a closed one. */
  function Toggle<V>(st: State<V>): (r: State<V>)
    ensures st.disabled ==> r == st
    ensures !st.disabled ==> r.isOpen == !st.isOpen
  {
    if st.disabled then st else if st.isOpen then Close(st) else Open(st)
  }

  /** `navigateOptions`: a closed dropdown opens instead; an open one moves the highlight with wrap-around. */
  function Navigate<V>(st: State<V>, down: bool): (r: State<V>)
    ensures !st.isOpen ==> r == Open(st)
    ensures st.isOpen ==> r == st.(highlight := NextHighlight(st.highlight, |st.filtered|, down))
  {
    if !st.isOpen then Open(st)
    else st.(highlight := NextHighlight(st.highlight, |st.filtered|, down))
  }

  /** `onKeyDown`: the arrows navigate, Escape closes, other keys do nothing. */
  function KeyDown<V>(st: State<V>, key: Key): (r: State<V>)
    ensures key == ArrowDown ==> r == Navigate(st, true)
    ensures key == ArrowUp ==> r == Navigate(st, false)
    ensures key == Escape ==> r == Close(st)
    ensures key == OtherKey ==> r == st
  {
    match key
    case ArrowDown => Navigate(st, true)
    case ArrowUp => Navigate(st, false)
    case Escape => Close(st)
    case OtherKey => st
  }

  /** `onSearchInput`: the search text follows the input; the list waits for the settled text. */
  function SearchInput<V>(st: State<V>, value: string): (r: State<V>)
    ensures r == st.(searchTerm := value)
  {
    st.(searchTerm := value)
  }

  /** The debounced search, fired with the settled text. A text equal to the
      last one that got through is dropped (`distinctUntilChanged`); any other
      filters the options, resets the highlight and is emitted as `searchChange`. */
  function SearchSettled<V(!new)>(st: State<V>, term: string): (r: (State<V>, Option<string>))
    ensures st.lastSearch == Some(term) ==> r == (st, None)
    ensures st.lastSearch != Some(term) ==>
      && r.1 == Some(term)
      && r.0.highlight == -1
      && r.0.filtered == FilterOptions(st.options, term)
      && r.0.lastSearch == Some(term)
      && r.0.(filtered := st.filtered, highlight := st.highlight, lastSearch := st.lastSearch) == st
  {
    if st.lastSearch == Some(term) then (st, None)
    else (st.(filtered := FilterOptions(st.options, term), highlight := -1, lastSearch := Some(term)), Some(term))
  }

  /** `selectOption`: a disabled option does nothing; otherwise its value is
      emitted as `selectionChange` and the dropdown closes. The selected
      value itself is the parent's input and is not changed here. */
  function SelectOption<V>(st: State<V>, o: DropdownOption<V>): (r: (State<V>, Option<V>))
    ensures o.disabled ==> r == (st, None)
    ensures !o.disabled ==> r == (Close(st), Some(o.value))
  {
    if o.disabled then (st, None) else (Close(st), Some(o.value))
  }

  /** `isSelected`. */
  predicate IsSelected<V(==)>(st: State<V>, o: DropdownOption<V>) {
    st.selectedValue == o.value
  }

  /** `handleOutsideClick`: a document click closes an open dropdown. The
      `clickInside` flag it consults is never set, so it is always false. */
  function OutsideClick<V>(st: State<V>): (r: State<V>)
    ensures st.isOpen ==> r == Close(st)
    ensures !st.isOpen ==> r == st
  {
    if st.isOpen then Close(st) else st
  }

  // ----- properties across events -----

  /** Every event but an options change keeps the highlight valid. */
  lemma EventsKeepHighlightValid<V(!new)>(st: State<V>, key: Key, term: string, o: DropdownOption<V>)
    requires HighlightValid(st)
    ensures HighlightValid(Open(st)) && HighlightValid(Close(st)) && HighlightValid(Toggle(st))
    ensures HighlightValid(KeyDown(st, key))
    ensures HighlightValid(SearchSettled(st, term).0)
    ensures HighlightValid(SelectOption(st, o).0) && HighlightValid(OutsideClick(st))
  {
    NextHighlightInRange(st.highlight, |st.filtered|, true);
    NextHighlightInRange(st.highlight, |st.filtered|, false);
  }

  /** With at least one listed option, an arrow key on an open dropdown always highlights one of them. */
  lemma ArrowOnOpenHighlightsAnOption<V>(st: State<V>, down: bool)
    requires st.isOpen && HighlightValid(st) && |st.filtered| > 0
    ensures 0 <= Navigate(st, down).highlight < |st.filtered|
  {
    NextHighlightInRange(st.highlight, |st.filtered|, down);
  }

  /** The options input changing while an option far down is highlighted
      leaves the highlight past the end, and an up key then stays past it. */
  lemma OptionsChangeMayStrandHighlight()
    ensures
      var a := DropdownOption("Action", 1, false);
      var st := State([a, a, a], 0, false, true, "", [a, a, a], 2, "", None);
      var st' := OptionsChanged(st, [a]);
      && HighlightValid(st) && !HighlightValid(st')
      && Navigate(st', false).highlight == 1
  {
  }

  /** While disabled, no click or key opens the dropdown. */
  lemma DisabledNeverOpens<V>(st: State<V>, key: Key)
    requires st.disabled && !st.isOpen
    ensures !Open(st).isOpen && !Toggle(st).isOpen && !KeyDown(st, key).isOpen
  {
  }

  /** Choosing an enabled option after a search leaves a closed dropdown with
      no search text, no highlight, and the option's value emitted. */
  lemma SearchThenSelect<V(!new)>(st: State<V>, term: string, o: DropdownOption<V>)
    requires !o.disabled
    ensures var (st1, _) := SearchSettled(SearchInput(Open(st), term), term);
      var (st2, emitted) := SelectOption(st1, o);
      && !st2.isOpen && st2.searchTerm == "" && st2.highlight == -1 && emitted == Some(o.value)
  {
  }

  /** A settled text repeated straight away is dropped: the second firing
      changes nothing and emits nothing. */
  lemma RepeatedSearchDropped<V(!new)>(st: State<V>, term: string)
    ensures var (st1, e1) := SearchSettled(st, term);
      && e1 == (if st.lastSearch == Some(term) then None else Some(term))
      && SearchSettled(st1, term) == (st1, None)
  {
  }

  /** A parent that feeds the emitted value back as the selected value sees
      the chosen option's label, when option values are distinct. */
  lemma SelectionRoundTrip<V>(st: State<V>, i: nat)
    requires i < |st.options| && !st.options[i].disabled
    requires forall j, k :: 0 <= j < k < |st.options| ==> st.options[j].value != st.options[k].value
    ensures var (st1, emitted) := SelectOption(st, st.options[i]);
      && emitted.Some?
      && SelectedValueChanged(st1, emitted.value).displayValue == st.options[i].caption
  {
    DisplayLabelOfMember(st.options, i);
  }
}
