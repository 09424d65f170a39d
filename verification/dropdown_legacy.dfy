/** The earlier dropdown (`components/dropdown.component.ts`), kept beside
    the signal-based one. Opening, closing, toggling, keys, navigation,
    searching and the outside click are line for line those of `Dropdown`
    and reuse its members. It differs in three places: the state is set up in
    `ngOnInit`; `ngOnChanges` reacts only to a present options input, so a
    new selected value from the parent does not refresh the label; and
    `selectOption` stores the chosen value and its label itself. */
module DropdownLegacy {
  import opened Wrappers
  import opened DropdownCore
  import opened Dropdown

  /** `ngOnInit`: every option listed and the label of the selected value shown. */
  function OnInit<V(==)>(st: State<V>): (r: State<V>)
    ensures r.filtered == st.options
    ensures r.displayValue == DisplayLabel(st.options, st.selectedValue)
    ensures r.(filtered := st.filtered, displayValue := st.displayValue) == st
  {
    st.(filtered := st.options, displayValue := DisplayLabel(st.options, st.selectedValue))
  }

  /** `ngOnChanges` for the options input: a null new value (`None`) is
      ignored; a present one is listed in full and the label is looked up again. */
  function OnOptionsChange<V(==)>(st: State<V>, options: Option<seq<DropdownOption<V>>>): (r: State<V>)
    ensures options.None? ==> r == st
    ensures options.Some? ==> r == OnInit(st.(options := options.value))
  {
    if options.None? then st else OnInit(st.(options := options.value))
  }

  /** A new selected value from the parent: no hook reacts to it, so only the input changes. */
  function OnSelectedValueInput<V>(st: State<V>, v: V): (r: State<V>)
    ensures r.selectedValue == v && r.(selectedValue := st.selectedValue) == st
  {
    st.(selectedValue := v)
  }

  /** `selectOption`: a disabled option does nothing; otherwise its value
      becomes the selected value, its label is shown, the value is emitted
      and the dropdown closes. */
  function SelectOption<V(==)>(st: State<V>, o: DropdownOption<V>): (r: (State<V>, Option<V>))
    ensures o.disabled ==> r == (st, None)
    ensures !o.disabled ==>
      && r.1 == Some(o.value)
      && r.0 == Close(st).(selectedValue := o.value, displayValue := DisplayLabel(st.options, o.value))
  {
    if o.disabled then (st, None)
    else (Close(st.(selectedValue := o.value, displayValue := DisplayLabel(st.options, o.value))), Some(o.value))
  }

  /** Selecting a listed option shows its own label when option values are
      distinct; the signal-based dropdown shows it only once the parent feeds
      the value back. */
  lemma SelectShowsLabel<V>(st: State<V>, i: nat)
    requires i < |st.options| && !st.options[i].disabled
    requires forall j, k :: 0 <= j < k < |st.options| ==> st.options[j].value != st.options[k].value
    ensures var (st1, emitted) := SelectOption(st, st.options[i]);
      && st1.displayValue == st.options[i].caption
      && IsSelected(st1, st.options[i])
      && emitted == Dropdown.SelectOption(st, st.options[i]).1
  {
    DisplayLabelOfMember(st.options, i);
  }

  /** Both selections leave the same closed dropdown apart from the stored value and label. */
  lemma SelectAgreesWithSignalVersion<V>(st: State<V>, o: DropdownOption<V>)
    ensures var (a, ea) := SelectOption(st, o);
      var (b, eb) := Dropdown.SelectOption(st, o);
      && ea == eb && a.(selectedValue := b.selectedValue, displayValue := b.displayValue) == b
  {
  }

  /** A parent that sets a new selected value leaves the old label shown. */
  lemma SelectedValueInputLeavesLabelStale()
    ensures
      var a := DropdownOption("Action", 1, false);
      var b := DropdownOption("Drama", 2, false);
      var st := OnInit(State([a, b], 1, false, false, "", [], -1, "", None));
      var st' := OnSelectedValueInput(st, 2);
      && st.displayValue == "Action"
      && st'.displayValue == "Action"
      && DisplayLabel(st'.options, st'.selectedValue) == "Drama"
      && SelectedValueChanged(st, 2).displayValue == "Drama"
  {
    var a := DropdownOption("Action", 1, false);
    var b := DropdownOption("Drama", 2, false);
    assert FirstWithValue([a, b], 1) == Some(0);
    assert FirstWithValue([a, b], 2) == Some(1);
  }
}
