/** The game list page (`games/games-list/games-list.component.ts`): the
    load, toggle and delete actions of the generic list for games. Each
    action is split into the step that issues the request and the step that
    handles its answer; no guard discards a stale answer, so answers apply in
    whatever order they are delivered. */
module GamesList {
  import opened Wrappers
  import opened Seqs
  import opened BaseMediaList
  import opened GamesQuery
  import GameService

  type Item = GameService.GameListDto
  type State = ListState<Item, PlayFilter>

  /** The argument object `loadItems` passes, as written: a null genre
      becomes undefined, and the filter goes under the key `watchFilter`,
      which `getGamesList` does not read, so the play filter is absent. */
  function LoadParamsAsWritten(req: Request<PlayFilter>): (p: ListParams)
    ensures p.search == Some(req.search) && p.genreId == req.genreId
    ensures p.playFilter.None?
  {
    ListParams(Some(req.search), req.genreId, None)
  }

  /** The argument object with the filter under `playFilter`, the key the service reads. */
  function LoadParams(req: Request<PlayFilter>): (p: ListParams)
    ensures p.search == Some(req.search) && p.genreId == req.genreId
    ensures p.playFilter == Some(req.filter)
  {
    ListParams(Some(req.search), req.genreId, Some(req.filter))
  }

  /** `loadItems` as written: loading starts and the query is sent. */
  function LoadItemsAsWritten(st: State, req: Request<PlayFilter>): (r: (State, Query))
    ensures r.0 == st.(isLoading := true)
    ensures r.1 == BuildQuery(Some(LoadParamsAsWritten(req)))
  {
    (st.(isLoading := true), BuildQuery(Some(LoadParamsAsWritten(req))))
  }

  /** `loadItems` with the play filter passed under its own key. */
  function LoadItems(st: State, req: Request<PlayFilter>): (r: (State, Query))
    ensures r.0 == st.(isLoading := true)
    ensures r.1 == BuildQuery(Some(LoadParams(req)))
  {
    (st.(isLoading := true), BuildQuery(Some(LoadParams(req))))
  }

  /** A list answer replaces the items and ends loading. */
  function LoadSucceeded(st: State, data: seq<Item>): (r: State)
    ensures !r.isLoading && r.items == data
    ensures r.(isLoading := st.isLoading, items := st.items) == st
  {
    st.(items := data, isLoading := false)
  }

  /** A failed list request empties the items and ends loading. */
  function LoadFailed(st: State): (r: State)
    ensures !r.isLoading && r.items == []
    ensures r.(isLoading := st.isLoading, items := st.items) == st
  {
    st.(items := [], isLoading := false)
  }

  /** The local update after a successful toggle: the played flag flips on
      every item with the id; the rest, the length and the order stay. */
  function Toggled(items: seq<Item>, id: int): (r: seq<Item>)
    ensures |r| == |items|
    ensures forall i :: 0 <= i < |items| && items[i].id == id ==>
      r[i] == items[i].(isPlayed := !items[i].isPlayed)
    ensures forall i :: 0 <= i < |items| && items[i].id != id ==> r[i] == items[i]
  {
    Map(items, (x: Item) => if x.id == id then x.(isPlayed := !x.isPlayed) else x)
  }

  /** The local update after a successful delete: the items with the id go, the rest keep their order. */
  function Deleted(items: seq<Item>, id: int): (r: seq<Item>)
    ensures forall x :: x in r <==> x in items && x.id != id
    ensures |r| <= |items|
  {
    Filter(items, (x: Item) => x.id != id)
  }

  /** A successful toggle answer for the item with `id`; a failed one changes nothing. */
  function ToggleAnswered(st: State, id: int, ok: bool): (r: State)
    ensures ok ==> r == st.(items := Toggled(st.items, id))
    ensures !ok ==> r == st
  {
    if ok then st.(items := Toggled(st.items, id)) else st
  }

  /** A successful delete answer for `id`; a failed one changes nothing. */
  function DeleteAnswered(st: State, id: int, ok: bool): (r: State)
    ensures ok ==> r == st.(items := Deleted(st.items, id))
    ensures !ok ==> r == st
  {
    if ok then st.(items := Deleted(st.items, id)) else st
  }

  // ----- properties -----

  /** As written, no list request carries the play filter, whatever filter is selected. */
  lemma FilterNeverSentAsWritten(st: State, req: Request<PlayFilter>)
    ensures Lookup(LoadItemsAsWritten(st, req).1, "filter").None?
  {
    QueryReadsBack(LoadParamsAsWritten(req));
  }

  /** The concrete case: choosing "Played" in the game list sends no filter. */
  lemma PlayedFilterDroppedAsWritten()
    ensures var req := Request("", None, GameService.Played);
      && LoadItemsAsWritten(BaseMediaList.Initial(), req).1 == []
      && LoadItems(BaseMediaList.Initial(), req).1 == [("filter", FilterValue(GameService.Played))]
  {
  }

  /** With the filter passed under `playFilter`, the request carries the
      search and genre exactly when non-empty and the filter exactly when it is not `All`. */
  lemma LoadSendsSelection(st: State, req: Request<PlayFilter>)
    ensures var q := LoadItems(st, req).1;
      && Lookup(q, "search") == (if req.search != "" then Some(TextValue(req.search)) else None)
      && Lookup(q, "genreId") == (if Truthy(req.genreId) then Some(TextValue(req.genreId.value)) else None)
      && Lookup(q, "filter") == (if req.filter != GameService.All then Some(FilterValue(req.filter)) else None)
  {
    QueryReadsBack(LoadParams(req));
  }

  /** Each load ends with loading over, and a failure shows one empty banner. */
  lemma LoadCycle(st: State, req: Request<PlayFilter>, data: seq<Item>)
    requires st.searchTerm.Some? ==> Text.Trim(st.searchTerm.value) == st.searchTerm.value
    ensures LoadItems(st, req).0.isLoading
    ensures !LoadSucceeded(LoadItems(st, req).0, data).isLoading
    ensures var failed := LoadFailed(LoadItems(st, req).0);
      ShowEmptySearch(failed) || ShowEmptyState(failed)
  {
    EmptyBannersExclusive(LoadFailed(LoadItems(st, req).0));
  }

  /** Two successful toggles of one id restore the list. */
  lemma ToggleTwiceRestores(items: seq<Item>, id: int)
    ensures Toggled(Toggled(items, id), id) == items
  {
    var r := Toggled(Toggled(items, id), id);
    assert forall i :: 0 <= i < |items| ==> r[i] == items[i];
  }

  /** After a delete no item has the id, and a later toggle of that id changes nothing. */
  lemma DeleteThenToggle(items: seq<Item>, id: int)
    ensures forall i :: 0 <= i < |Deleted(items, id)| ==> Deleted(items, id)[i].id != id
    ensures Toggled(Deleted(items, id), id) == Deleted(items, id)
  {
    var d := Deleted(items, id);
    assert forall i :: 0 <= i < |d| ==> d[i] in d;
  }

  /** Deleting keeps the survivors in their order: deleting from a
      concatenation is deleting from each part. */
  lemma DeleteKeepsOrder(a: seq<Item>, b: seq<Item>, id: int)
    ensures Deleted(a + b, id) == Deleted(a, id) + Deleted(b, id)
  {
    FilterConcat(a, b, (x: Item) => x.id != id);
  }
}
