/** The generic create/edit page (`base-media-form.component.ts`): the item
    id read from the route, edit mode, the genre choices, when the form is
    filled from the loaded item, which request a save sends, the toast
    texts of its answer, and when a control shows its error. The create and
    update bodies come from the concrete form and are parameters here. */
module BaseMediaForm {
  import opened Wrappers
  import opened Text
  import opened DropdownCore

  /** A genre as the genre list endpoint returns it. */
  datatype Genre = Genre(id: int, name: string)

  /** The page's signals and the form's genre control. */
  datatype FormState<D> = FormState(
    itemId: int,
    selectedGenre: Option<int>,
    genres: seq<Genre>,
    item: Option<D>,
    formGenreId: Option<int>)

  /** What a save does: refuse (error toast and every control touched), or send a request. */
  datatype Save<C, U> = Refused | SendUpdate(id: int, update: U) | SendCreate(create: C)

  /** One form control's flags. */
  datatype Control = Control(invalid: bool, dirty: bool, touched: bool, isNull: bool)

  /** An already trimmed text as a decimal integer: empty is 0, an
      optionally signed digit string is its value, anything else is NaN (`None`). */
  function ReadInteger(t: string): (r: Option<int>)
    ensures |t| == 0 ==> r == Some(0)
    ensures AllDigits(t) ==> r == Some(DecimalValue(t))
    ensures |t| > 0 && !IsDigit(t[0]) && t[0] != '-' && t[0] != '+' ==> r.None?
    ensures |t| > 1 && t[0] == '-' && AllDigits(t[1..]) ==> r == Some(-(DecimalValue(t[1..]) as int))
    ensures |t| > 1 && t[0] == '+' && AllDigits(t[1..]) ==> r == Some(DecimalValue(t[1..]))
  {
    if AllDigits(t) then Some(DecimalValue(t))
    else if |t| > 1 && (t[0] == '-' || t[0] == '+') && AllDigits(t[1..]) then
      var v: int := DecimalValue(t[1..]);
      Some(if t[0] == '-' then -v else v)
    else None
  }

  /** JavaScript `Number` of a route parameter, as far as decimal integers
      go: surrounding white space is ignored and the rest read by `ReadInteger`. */
  function NumberOf(s: string): (r: Option<int>)
    ensures IsBlank(s) ==> r == Some(0)
    ensures r == ReadInteger(Trim(s))
  {
    BlankIffTrimEmpty(s);
    ReadInteger(Trim(s))
  }

  /** `initializeItemId`: `+param || 0`, so a missing, blank, zero or
      non-numeric id is 0; a negative number is kept. */
  function ItemIdFromRoute(param: Option<string>): (r: int)
    ensures param.None? ==> r == 0
    ensures param.Some? && NumberOf(param.value).None? ==> r == 0
    ensures param.Some? && NumberOf(param.value).Some? ==> r == NumberOf(param.value).value
  {
    if param.None? then 0
    else match NumberOf(param.value)
      case None => 0
      case Some(n) => n
  }

  /** `editingMode`. */
  predicate EditingMode<D>(st: FormState<D>) {
    st.itemId > 0
  }

  /** The signals on construction. */
  function Initial<D>(): (r: FormState<D>)
    ensures r.itemId == 0 && r.selectedGenre.None? && r.genres == [] && r.item.None?
  {
    FormState(0, None, [], None, None)
  }

  /** `ngOnInit`: the id is read from the route; the item is fetched
      (`loadItemIfEditing`) exactly in edit mode. The genre load is `GenresLoaded`. */
  function OnInit<D>(st: FormState<D>, param: Option<string>): (r: (FormState<D>, Option<int>))
    ensures r.0 == st.(itemId := ItemIdFromRoute(param))
    ensures r.1.Some? <==> EditingMode(r.0)
    ensures r.1.Some? ==> r.1.value == r.0.itemId
  {
    var st' := st.(itemId := ItemIdFromRoute(param));
    (st', if st'.itemId > 0 then Some(st'.itemId) else None)
  }

  /** A successful genre load. */
  function GenresLoaded<D>(st: FormState<D>, genres: seq<Genre>): (r: FormState<D>)
    ensures r == st.(genres := genres)
  {
    st.(genres := genres)
  }

  /** A successful item load. */
  function ItemLoaded<D>(st: FormState<D>, item: D): (r: FormState<D>)
    ensures r == st.(item := Some(item))
  {
    st.(item := Some(item))
  }

  /** The patch effect fires when an item is loaded and the genre list is non-empty. */
  predicate PatchDue<D>(st: FormState<D>) {
    st.item.Some? && |st.genres| > 0
  }

  /** `genreDropdown`: one choice per genre, in order. */
  function GenreDropdown(genres: seq<Genre>): (r: seq<DropdownOption<int>>)
    ensures |r| == |genres|
    ensures forall i :: 0 <= i < |genres| ==> r[i] == DropdownOption(genres[i].name, genres[i].id, false)
  {
    seq(|genres|, i requires 0 <= i < |genres| => DropdownOption(genres[i].name, genres[i].id, false))
  }

  /** `onGenreChange`: the chosen genre goes to both the signal and the form control. */
  function OnGenreChange<D>(st: FormState<D>, value: int): (r: FormState<D>)
    ensures r.selectedGenre == Some(value) && r.formGenreId == Some(value)
    ensures r.(selectedGenre := st.selectedGenre, formGenreId := st.formGenreId) == st
  {
    st.(selectedGenre := Some(value), formGenreId := Some(value))
  }

  /** `saveItem`: an invalid form is refused; a valid one is sent as an
      update of the item in edit mode and as a create otherwise. */
  function SaveItem<D, C, U>(st: FormState<D>, formValid: bool, create: C, update: U): (r: Save<C, U>)
    ensures !formValid ==> r == Refused
    ensures formValid && EditingMode(st) ==> r == SendUpdate(st.itemId, update)
    ensures formValid && !EditingMode(st) ==> r == SendCreate(create)
  {
    if !formValid then Refused
    else if st.itemId > 0 then SendUpdate(st.itemId, update)
    else SendCreate(create)
  }

  const RefusedText := "Please fill all required fields correctly"

  /** The toast after a saved item: emoji, name, then "updated" in edit
      mode or "added" otherwise, then " successfully!". */
  function SavedText(editing: bool, singularName: string, createEmoji: string, updateEmoji: string): (r: string)
    ensures var verb := if editing then "updated" else "added";
      var tail := " " + verb + " successfully!";
      var emoji := if editing then updateEmoji else createEmoji;
      && |r| == |emoji| + 1 + |singularName| + |tail|
      && r[..|emoji|] == emoji
      && r[|emoji|..|emoji| + 1 + |singularName|] == " " + singularName
      && r[|r| - |tail|..] == tail
  {
    (if editing then updateEmoji else createEmoji) + " " + singularName + " "
      + (if editing then "updated" else "added") + " successfully!"
  }

  /** The toast after a failed save: "Failed to update" in edit mode or
      "Failed to add" otherwise, the lower-cased name, and a period. */
  function FailedText(editing: bool, singularName: string): (r: string)
    ensures var head := if editing then "Failed to update " else "Failed to add ";
      |r| == |head| + |singularName| + 1 && r[..|head|] == head
      && r[|head|..|r| - 1] == Lower(singularName) && r[|r| - 1] == '.'
  {
    (if editing then "Failed to update " else "Failed to add ") + Lower(singularName) + "."
  }

  /** `hasError`: the control exists, is invalid, and is dirty or touched. */
  predicate HasError(control: Option<Control>) {
    control.Some? && control.value.invalid && (control.value.dirty || control.value.touched)
  }

  /** `hasErrorWithValue`: as `hasError`, and the value is not null. */
  predicate HasErrorWithValue(control: Option<Control>) {
    HasError(control) && !control.value.isNull
  }

  /** `markAllAsTouched` on one control. */
  function MarkTouched(c: Control): (r: Control)
    ensures r.touched && r.(touched := c.touched) == c
  {
    c.(touched := true)
  }

  // ----- properties -----

  /** The edit route of an item reads back as that item's id, so the page
      opens in edit mode and fetches it; the new-item route has no id. */
  lemma EditRouteRoundTrip<D>(st: FormState<D>, id: nat)
    requires id > 0
    ensures ItemIdFromRoute(Some(NatToString(id))) == id
    ensures OnInit(st, Some(NatToString(id))).1 == Some(id)
    ensures OnInit(st, None).1.None?
  {
    var t := NatToString(id);
    DecimalValueOfNatToString(id);
    DigitRoute(st, t);
  }

  /** A route id made of digits is read as its decimal value. */
  lemma DigitRoute<D>(st: FormState<D>, t: string)
    requires |t| > 0 && AllDigits(t)
    ensures ItemIdFromRoute(Some(t)) == DecimalValue(t)
    ensures OnInit(st, Some(t)).1 == (if DecimalValue(t) > 0 then Some(DecimalValue(t) as int) else None)
  {
    assert IsDigit(t[0]) && IsDigit(t[|t| - 1]);
    UnpaddedRoute(st, t);
  }

  /** A route id without surrounding white space is read as it stands: the
      page keeps its number, or 0 for NaN, and fetches only a positive one. */
  lemma UnpaddedRoute<D>(st: FormState<D>, t: string)
    requires |t| > 0 && !IsWhite(t[0]) && !IsWhite(t[|t| - 1])
    ensures ItemIdFromRoute(Some(t)) == (if ReadInteger(t).Some? then ReadInteger(t).value else 0)
    ensures OnInit(st, Some(t)).1.Some? <==> ReadInteger(t).Some? && ReadInteger(t).value > 0
  {
    TrimUnpadded(t);
  }

  /** A non-numeric id opens a create page and fetches nothing. */
  lemma NonNumericRouteCreates<D>(st: FormState<D>)
    ensures ItemIdFromRoute(Some("abc")) == 0 && OnInit(st, Some("abc")).1.None?
  {
    var t := "abc";
    assert t[0] == 'a' && t[|t| - 1] == 'c';
    assert ReadInteger(t).None?;
    UnpaddedRoute(st, t);
  }

  /** A zero id opens a create page. */
  lemma ZeroRouteCreates<D>(st: FormState<D>)
    ensures ItemIdFromRoute(Some("0")) == 0 && OnInit(st, Some("0")).1.None?
  {
    var t := "0";
    assert t[0] == '0' && t[|t| - 1] == '0';
    assert DecimalValue(t) == 0 by { assert t[..0] == ""; }
    assert ReadInteger(t) == Some(0);
    UnpaddedRoute(st, t);
  }

  /** A negative id is kept as the item id, yet opens a create page. */
  lemma NegativeRouteCreates<D>(st: FormState<D>)
    ensures ItemIdFromRoute(Some("-3")) == -3 && OnInit(st, Some("-3")).1.None?
  {
    var t := "-3";
    assert t[0] == '-' && t[|t| - 1] == '3';
    assert !AllDigits(t) by { assert !IsDigit(t[0]); }
    assert t[1..] == "3";
    assert DecimalValue("3") == 3 by { assert "3"[..0] == ""; }
    assert ReadInteger(t) == Some(-3);
    UnpaddedRoute(st, t);
  }

  /** The form is filled only once both the item and a non-empty genre list
      have arrived, whichever arrives first. */
  lemma PatchWaitsForBoth<D>(st: FormState<D>, item: D, genres: seq<Genre>)
    requires st.item.None? && st.genres == [] && |genres| > 0
    ensures !PatchDue(ItemLoaded(st, item)) && !PatchDue(GenresLoaded(st, genres))
    ensures PatchDue(GenresLoaded(ItemLoaded(st, item), genres))
    ensures PatchDue(ItemLoaded(GenresLoaded(st, genres), item))
    ensures !PatchDue(GenresLoaded(ItemLoaded(st, item), []))
  {
  }

  /** A refused save marks every control touched, so each invalid one shows its error. */
  lemma RefusedSaveShowsErrors(controls: seq<Control>)
    ensures forall i :: 0 <= i < |controls| && controls[i].invalid ==> HasError(Some(MarkTouched(controls[i])))
  {
  }

  /** A page opened for an existing item updates that item and never
      creates; a page opened without an id creates. */
  lemma SaveTargetsRoute<D, C, U>(st: FormState<D>, id: nat, create: C, update: U)
    requires id > 0
    ensures SaveItem(OnInit(st, Some(NatToString(id))).0, true, create, update) == SendUpdate(id, update)
    ensures SaveItem(OnInit(st, None).0, true, create, update) == SendCreate(create)
  {
    EditRouteRoundTrip(st, id);
  }

  /** Choosing a genre in the dropdown and showing it again gives its name back, when ids are distinct. */
  lemma GenreDropdownShowsChoice<D>(st: FormState<D>, i: nat)
    requires i < |st.genres|
    requires forall j, k :: 0 <= j < k < |st.genres| ==> st.genres[j].id != st.genres[k].id
    ensures var st' := OnGenreChange(st, st.genres[i].id);
      DisplayLabel(GenreDropdown(st'.genres), st'.selectedGenre.value) == st.genres[i].name
  {
    DisplayLabelOfMember(GenreDropdown(st.genres), i);
  }
}
