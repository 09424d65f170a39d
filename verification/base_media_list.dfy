/** The generic media list page (`base-media-list.component.ts`): the
    settled search text, the selected genre and status filter, the genre
    choices offered, the two-step delete, and the empty-state banners. Each
    signal write is an event function; the reload effect is `ReloadRequest`,
    the request the effect issues for the current state (none while no
    filter is selected). Items are generic; the concrete lists supply them. */
module BaseMediaList {
  import opened Wrappers
  import opened Text
  import opened DropdownCore

  /** A genre as the genre list endpoint returns it. */
  datatype GenreItem = GenreItem(id: string, name: string)

  /** The arguments of one `loadItems` call. */
  datatype Request<F> = Request(search: string, genreId: Option<string>, filter: F)

  /** The page's signals; `searchTerm` is `None` until the debounced search
      first delivers. */
  datatype ListState<T, F> = ListState(
    isLoading: bool,
    items: seq<T>,
    genres: seq<DropdownOption<Option<string>>>,
    selectedGenre: Option<string>,
    selectedFilter: Option<F>,
    itemIdToDelete: Option<int>,
    searchTerm: Option<string>)

  const AllGenresCaption := "All genres"

  /** The signals on construction. */
  function Initial<T, F>(): (r: ListState<T, F>)
    ensures r.isLoading && r.items == [] && r.genres == []
    ensures r.selectedGenre.None? && r.selectedFilter.None? && r.itemIdToDelete.None? && r.searchTerm.None?
  {
    ListState(true, [], [], None, None, None, None)
  }

  /** The search pipeline delivers the typed text trimmed. */
  function SettledSearch(raw: string): (r: string)
    ensures |r| == 0 <==> IsBlank(raw)
    ensures |r| > 0 ==> !IsWhite(r[0]) && !IsWhite(r[|r| - 1])
    ensures Trim(r) == r
  {
    BlankIffTrimEmpty(raw);
    TrimIdempotent(raw);
    Trim(raw)
  }

  /** `currentSearch`: the settled text, or empty before the first delivery. */
  function CurrentSearch<T, F>(st: ListState<T, F>): (r: string)
    ensures st.searchTerm.None? ==> r == ""
    ensures st.searchTerm.Some? ==> r == st.searchTerm.value
  {
    st.searchTerm.GetOr("")
  }

  /** The reload effect: with a selected filter it loads the current
      search, genre and filter; with none it loads nothing. */
  function ReloadRequest<T, F>(st: ListState<T, F>): (r: Option<Request<F>>)
    ensures r.None? <==> st.selectedFilter.None?
    ensures r.Some? ==> r.value == Request(CurrentSearch(st), st.selectedGenre, st.selectedFilter.value)
  {
    if st.selectedFilter.Some? then Some(Request(CurrentSearch(st), st.selectedGenre, st.selectedFilter.value))
    else None
  }

  /** `ngOnInit`: the configured default filter is selected (the genre load is `GenresLoaded`). */
  function OnInit<T, F>(st: ListState<T, F>, defaultFilter: F): (r: ListState<T, F>)
    ensures r.selectedFilter == Some(defaultFilter)
    ensures r.(selectedFilter := st.selectedFilter) == st
  {
    st.(selectedFilter := Some(defaultFilter))
  }

  /** A delivery of the search pipeline. */
  function SearchDelivered<T, F>(st: ListState<T, F>, raw: string): (r: ListState<T, F>)
    ensures CurrentSearch(r) == SettledSearch(raw)
    ensures r.(searchTerm := st.searchTerm) == st
  {
    st.(searchTerm := Some(SettledSearch(raw)))
  }

  /** `onGenreSelected`. */
  function OnGenreSelected<T, F>(st: ListState<T, F>, value: Option<string>): (r: ListState<T, F>)
    ensures r.selectedGenre == value && r.(selectedGenre := st.selectedGenre) == st
  {
    st.(selectedGenre := value)
  }

  /** `setFilter`. */
  function SetFilter<T, F>(st: ListState<T, F>, filter: F): (r: ListState<T, F>)
    ensures r.selectedFilter == Some(filter) && r.(selectedFilter := st.selectedFilter) == st
  {
    st.(selectedFilter := Some(filter))
  }

  /** The genre choices: "All genres" with a null value, then each genre in order. */
  function GenreOptions(genres: seq<GenreItem>): (r: seq<DropdownOption<Option<string>>>)
    ensures |r| == |genres| + 1
    ensures r[0] == DropdownOption(AllGenresCaption, None, false)
    ensures forall i :: 0 <= i < |genres| ==> r[i + 1] == DropdownOption(genres[i].name, Some(genres[i].id), false)
  {
    [DropdownOption(AllGenresCaption, None, false)]
      + seq(|genres|, i requires 0 <= i < |genres| => DropdownOption(genres[i].name, Some(genres[i].id), false))
  }

  /** A successful genre load; a failed one only logs, so it has no event. */
  function GenresLoaded<T, F>(st: ListState<T, F>, genres: seq<GenreItem>): (r: ListState<T, F>)
    ensures r.genres == GenreOptions(genres) && r.(genres := st.genres) == st
  {
    st.(genres := GenreOptions(genres))
  }

  /** `openDeleteModal`: remembers which item is to be deleted (the modal itself is not modelled). */
  function OpenDeleteModal<T, F>(st: ListState<T, F>, id: int): (r: ListState<T, F>)
    ensures r.itemIdToDelete == Some(id) && r.(itemIdToDelete := st.itemIdToDelete) == st
  {
    st.(itemIdToDelete := Some(id))
  }

  /** `confirmDelete`: deletes the remembered item, if any, and forgets it.
      The id returned is the one `deleteItem` is called with. */
  function ConfirmDelete<T, F>(st: ListState<T, F>): (r: (ListState<T, F>, Option<int>))
    ensures r.1 == st.itemIdToDelete
    ensures r.0 == st.(itemIdToDelete := None)
  {
    (st.(itemIdToDelete := None), st.itemIdToDelete)
  }

  /** `showEmptySearch`: loaded, nothing found, and a search is active. */
  predicate ShowEmptySearch<T, F>(st: ListState<T, F>) {
    !st.isLoading && |st.items| == 0 && |CurrentSearch(st)| > 0
  }

  /** `showEmptyState`: loaded, nothing found, and no search. */
  predicate ShowEmptyState<T, F>(st: ListState<T, F>) {
    !st.isLoading && |st.items| == 0 && |CurrentSearch(st)| == 0
  }

  /** A property value of a list item, as the templates read it by name. */
  datatype Value = Undefined | Null | Flag(b: bool) | Date(t: nat) | Str(s: string)

  /** `getItemDate`: null when no date property is configured (an empty
      name counts as none), else the item's value under it. */
  function GetItemDate(item: map<string, Value>, dateProperty: Option<string>): (r: Value)
    ensures dateProperty.None? || dateProperty.value == "" ==> r == Null
    ensures dateProperty.Some? && dateProperty.value != "" ==>
      r == (if dateProperty.value in item then item[dateProperty.value] else Undefined)
  {
    if dateProperty.None? || dateProperty.value == "" then Null
    else if dateProperty.value in item then item[dateProperty.value] else Undefined
  }

  /** `getItemStatus`: the item's value under the configured status
      property; the cast to boolean converts nothing. */
  function GetItemStatus(item: map<string, Value>, statusProperty: string): (r: Value)
    ensures statusProperty in item ==> r == item[statusProperty]
    ensures statusProperty !in item ==> r == Undefined
  {
    if statusProperty in item then item[statusProperty] else Undefined
  }

  // ----- properties across events -----

  /** After init the effect loads with the default filter; before it, nothing is loaded. */
  lemma InitStartsLoading<T, F>(defaultFilter: F)
    ensures ReloadRequest(Initial<T, F>()).None?
    ensures ReloadRequest(OnInit(Initial<T, F>(), defaultFilter)) == Some(Request("", None, defaultFilter))
  {
  }

  /** Once a filter is selected, every change of search, genre or filter
      makes the effect load with exactly the new combination. */
  lemma ReloadFollowsInputs<T, F>(st: ListState<T, F>, raw: string, genre: Option<string>, filter: F)
    requires st.selectedFilter.Some?
    ensures ReloadRequest(SearchDelivered(st, raw)) == Some(Request(SettledSearch(raw), st.selectedGenre, st.selectedFilter.value))
    ensures ReloadRequest(OnGenreSelected(st, genre)) == Some(Request(CurrentSearch(st), genre, st.selectedFilter.value))
    ensures ReloadRequest(SetFilter(st, filter)) == Some(Request(CurrentSearch(st), st.selectedGenre, filter))
  {
  }

  /** The two-step delete deletes the chosen id exactly once: a second
      confirmation deletes nothing, and a confirmation with nothing chosen
      deletes nothing. */
  lemma DeleteOnceConfirmed<T, F>(st: ListState<T, F>, id: int)
    ensures var (st1, first) := ConfirmDelete(OpenDeleteModal(st, id));
      var (st2, second) := ConfirmDelete(st1);
      && first == Some(id) && second.None? && st2 == st1
      && st1 == st.(itemIdToDelete := None)
  {
  }

  /** The banners: never both; neither while loading or with results; one
      of them whenever loading is over and nothing was found. As the settled
      search is trimmed, the search banner shows exactly for a non-blank search. */
  lemma EmptyBannersExclusive<T, F>(st: ListState<T, F>)
    requires st.searchTerm.Some? ==> Trim(st.searchTerm.value) == st.searchTerm.value
    ensures !(ShowEmptySearch(st) && ShowEmptyState(st))
    ensures st.isLoading || |st.items| > 0 ==> !ShowEmptySearch(st) && !ShowEmptyState(st)
    ensures !st.isLoading && |st.items| == 0 ==> ShowEmptySearch(st) || ShowEmptyState(st)
    ensures ShowEmptySearch(st) <==> !st.isLoading && |st.items| == 0 && !IsBlank(CurrentSearch(st)) && st.searchTerm.Some?
  {
    if st.searchTerm.Some? {
      var t := st.searchTerm.value;
      if |t| > 0 {
        assert !IsWhite(Trim(t)[0]);
      }
    }
  }

  /** Choosing "All genres" in the dropdown clears the genre; choosing a
      genre selects its id; with distinct ids, the dropdown then shows that
      genre's name. */
  lemma GenreChoiceRoundTrip(genres: seq<GenreItem>, i: nat)
    requires i < |genres|
    requires forall j, k :: 0 <= j < k < |genres| ==> genres[j].id != genres[k].id
    ensures DisplayLabel(GenreOptions(genres), None) == AllGenresCaption
    ensures DisplayLabel(GenreOptions(genres), Some(genres[i].id)) == genres[i].name
  {
    var opts := GenreOptions(genres);
    forall j, k | 0 <= j < k < |opts| ensures opts[j].value != opts[k].value {
      if j > 0 {
        assert opts[j] == DropdownOption(genres[j - 1].name, Some(genres[j - 1].id), false);
      }
      assert opts[k] == DropdownOption(genres[k - 1].name, Some(genres[k - 1].id), false);
    }
    DisplayLabelOfMember(opts, 0);
    assert opts[i + 1].value == Some(genres[i].id);
    DisplayLabelOfMember(opts, i + 1);
  }
}
