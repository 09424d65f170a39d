/** The generic media service (`BaseMediaService`): list, detail, create,
    update, toggle-status and delete for one media kind, written once over
    the entity-specific hooks that `MovieService` and `GameService` supply
    (the template-method extension points of the source). The database is a
    `Table` of entities plus the genre names the services can join to;
    `DateTime.UtcNow` is the parameter `now`, and the outcome of
    `SaveChangesAsync` is the parameter `commit`. */
module MediaStore {
  import opened Wrappers
  import opened Text
  import opened Seqs
  import opened Table
  import opened Outcomes

  /** A point in time; `DateTime.UtcNow` is passed in as a value of this type. */
  type Time = nat

  /** Genre names by genre id: the part of the genre table the media services read. */
  type GenreNames = map<Id, string>

  /** The media table of one kind, and the genres it may reference. */
  datatype Store<E> = Store(table: Table<E>, genres: GenreNames)

  /** The extension points a concrete media service supplies, for entity `E`,
      form DTO `F`, list DTO `L` and detail DTO `D`:
      - `title`, `genreOf`: the `Title` and `GenreId` properties the base
        queries read by name;
      - `formGenre`: the DTO's `IHasGenre.GenreId`;
      - `mapToListDto`, `mapToDetailDto`: projections, given the row id and the
        name of the joined genre;
      - `mapToEntity`, `updateEntityFromDto`, `toggleEntityStatus`: the mapping
        and status hooks;
      - `setCreatedAt`: the `IHasCreatedAt` stamp;
      - `clearGenre`: the entity with its `GenreId` set to null, as the
        database's `ON DELETE SET NULL` leaves it when its genre is deleted. */
  datatype Hooks<!E, !F, L, D> = Hooks(
    title: E -> string,
    genreOf: E -> Option<Id>,
    formGenre: F -> Option<Id>,
    mapToListDto: (Id, E, Option<string>) -> L,
    mapToDetailDto: (Id, E, Option<string>) -> D,
    mapToEntity: F -> E,
    updateEntityFromDto: (E, F) -> E,
    toggleEntityStatus: (E, Time) -> E,
    setCreatedAt: (E, Time) -> E,
    clearGenre: E -> E)

  /** The message of the exception an unknown genre id raises. */
  const InvalidGenreMessage: string := "Invalid Genre ID"

  /** The genre navigation loaded with the entity: the genre's name when the
      entity references a stored genre, null otherwise. */
  function GenreNameOf<E, F, L, D>(h: Hooks<E, F, L, D>, genres: GenreNames, e: E): (r: Option<string>)
    ensures r.Some? <==> h.genreOf(e).Some? && h.genreOf(e).value in genres
    ensures r.Some? ==> r.value == genres[h.genreOf(e).value]
  {
    match h.genreOf(e)
    case Some(g) => if g in genres then Some(genres[g]) else None
    case None => None
  }

  // ----- query composition -----

  /** The search narrowing: a null or blank search matches everything;
      otherwise the lower-cased title must contain the lower-cased, trimmed search. */
  predicate SearchMatches<E, F, L, D>(h: Hooks<E, F, L, D>, e: E, search: Option<string>) {
    IsNullOrWhiteSpace(search) || Contains(Lower(h.title(e)), Trim(Lower(search.value)))
  }

  /** The genre narrowing: no genre id matches everything; otherwise the
      entity's genre id must equal it. */
  predicate GenreMatches<E, F, L, D>(h: Hooks<E, F, L, D>, e: E, genreId: Option<Id>) {
    genreId.None? || h.genreOf(e) == genreId
  }

  /** Both narrowings, composed conjunctively. */
  predicate Matches<E, F, L, D>(h: Hooks<E, F, L, D>, e: E, search: Option<string>, genreId: Option<Id>) {
    SearchMatches(h, e, search) && GenreMatches(h, e, genreId)
  }

  /** `ApplySearchFilter`. */
  function ApplySearchFilter<E(!new), F, L, D>(h: Hooks<E, F, L, D>, rows: seq<Row<E>>, search: Option<string>): (r: seq<Row<E>>)
    ensures IsNullOrWhiteSpace(search) ==> r == rows
    ensures forall row :: row in r <==> row in rows && SearchMatches(h, row.entity, search)
    ensures forall row :: multiset(r)[row] <= multiset(rows)[row]
  {
    if IsNullOrWhiteSpace(search) then rows
    else Filter(rows, (row: Row<E>) => SearchMatches(h, row.entity, search))
  }

  /** `ApplyGenreFilter`. */
  function ApplyGenreFilter<E(!new), F, L, D>(h: Hooks<E, F, L, D>, rows: seq<Row<E>>, genreId: Option<Id>): (r: seq<Row<E>>)
    ensures genreId.None? ==> r == rows
    ensures forall row :: row in r <==> row in rows && GenreMatches(h, row.entity, genreId)
    ensures forall row :: multiset(r)[row] <= multiset(rows)[row]
  {
    if genreId.None? then rows
    else Filter(rows, (row: Row<E>) => GenreMatches(h, row.entity, genreId))
  }

  /** `ApplyCustomFilter`: the base hook returns the query unchanged, and
      neither concrete service overrides it, so the status filter never narrows. */
  function ApplyCustomFilter<E, Flt>(rows: seq<Row<E>>, filter: Option<Flt>): (r: seq<Row<E>>)
    ensures r == rows
  {
    rows
  }

  /** The ids of the stored records that pass both narrowings. */
  function MatchingIds<E, F, L, D>(s: Store<E>, h: Hooks<E, F, L, D>, search: Option<string>, genreId: Option<Id>): set<Id> {
    set id | id in s.table.rows && Matches(h, s.table.rows[id], search, genreId)
  }

  /** The list projection of the stored record `id`. */
  function ListItem<E, F, L, D>(s: Store<E>, h: Hooks<E, F, L, D>, id: Id): L
    requires id in s.table.rows
  {
    h.mapToListDto(id, s.table.rows[id], GenreNameOf(h, s.genres, s.table.rows[id]))
  }

  /** The narrowings drop rows but never reorder the ones they keep. */
  lemma NarrowingKeepsOrder<E(!new), F, L, D>(h: Hooks<E, F, L, D>, rows: seq<Row<E>>, search: Option<string>, genreId: Option<Id>)
    requires forall i, j :: 0 <= i < j < |rows| ==> rows[i].id < rows[j].id
    ensures var r := ApplyGenreFilter(h, ApplySearchFilter(h, rows, search), genreId);
      forall i, j :: 0 <= i < j < |r| ==> r[i].id < r[j].id
  {
    var inc := (a: Row<E>, b: Row<E>) => a.id < b.id;
    assert Pairwise(rows, inc);
    var bySearch := ApplySearchFilter(h, rows, search);
    if !IsNullOrWhiteSpace(search) {
      FilterPairwise(rows, (row: Row<E>) => SearchMatches(h, row.entity, search), inc);
    }
    assert Pairwise(bySearch, inc);
    var byGenre := ApplyGenreFilter(h, bySearch, genreId);
    if genreId.Some? {
      FilterPairwise(bySearch, (row: Row<E>) => GenreMatches(h, row.entity, genreId), inc);
    }
    assert Pairwise(byGenre, inc);
  }

  /** The rows of the model's ascending-id enumeration that survive the
      search and genre narrowings, in that same order. */
  function Selected<E(!new), F, L, D>(s: Store<E>, h: Hooks<E, F, L, D>, search: Option<string>, genreId: Option<Id>): (r: seq<Row<E>>)
    requires Valid(s.table)
    ensures forall row :: row in r <==> row.id in s.table.rows && s.table.rows[row.id] == row.entity && Matches(h, row.entity, search, genreId)
    ensures forall i, j :: 0 <= i < j < |r| ==> r[i].id < r[j].id
  {
    var all := Rows(s.table);
    NarrowingKeepsOrder(h, all, search, genreId);
    ApplyGenreFilter(h, ApplySearchFilter(h, all, search), genreId)
  }

  /** The ids of the selected rows are the matching ids. */
  lemma SelectedIds<E(!new), F, L, D>(s: Store<E>, h: Hooks<E, F, L, D>, search: Option<string>, genreId: Option<Id>)
    requires Valid(s.table)
    ensures (set row | row in Selected(s, h, search, genreId) :: row.id) == MatchingIds(s, h, search, genreId)
  {
    var keep := (e: E) => Matches(h, e, search, genreId);
    SelectionIds(s.table, Selected(s, h, search, genreId), keep);
    assert MatchingIds(s, h, search, genreId) == set id | id in s.table.rows && keep(s.table.rows[id]);
  }

  /** The selected rows are exactly one per matching id. */
  lemma SelectedCount<E(!new), F, L, D>(s: Store<E>, h: Hooks<E, F, L, D>, search: Option<string>, genreId: Option<Id>)
    requires Valid(s.table)
    ensures |Selected(s, h, search, genreId)| == |MatchingIds(s, h, search, genreId)|
  {
    RowCount(Selected(s, h, search, genreId));
    SelectedIds(s, h, search, genreId);
  }

  /** The list projection of each selected row, in order. */
  function Project<E, F, L, D>(s: Store<E>, h: Hooks<E, F, L, D>, sel: seq<Row<E>>): (r: seq<L>)
    requires forall row :: row in sel ==> row.id in s.table.rows
    ensures |r| == |sel|
    ensures forall i :: 0 <= i < |sel| ==> r[i] == ListItem(s, h, sel[i].id)
  {
    seq(|sel|, i requires 0 <= i < |sel| => ListItem(s, h, sel[i].id))
  }

  /** The projections of the selected rows are the projections of the matching ids. */
  lemma ProjectSelected<E(!new), F, L, D>(s: Store<E>, h: Hooks<E, F, L, D>, search: Option<string>, genreId: Option<Id>)
    requires Valid(s.table)
    ensures var r := Project(s, h, Selected(s, h, search, genreId));
      && (forall id :: id in MatchingIds(s, h, search, genreId) ==> ListItem(s, h, id) in r)
      && (forall x :: x in r ==> exists id :: id in MatchingIds(s, h, search, genreId) && x == ListItem(s, h, id))
  {
    var sel := Selected(s, h, search, genreId);
    var keep := (e: E) => Matches(h, e, search, genreId);
    var items := map id | id in s.table.rows :: ListItem(s, h, id);
    SelectionItems(s.table, sel, keep, items, Project(s, h, sel));
  }

  /** `GetAllAsync(search, genreId, filter)`: one list projection per stored
      record passing the search AND genre narrowings, every such record
      included; the status filter plays no part. The model lists records in ascending id
      order; the source fixes no order. */
  function GetAll<E(!new), F, L, D, Flt>(s: Store<E>, h: Hooks<E, F, L, D>, search: Option<string>, genreId: Option<Id>, filter: Option<Flt>): (r: seq<L>)
    requires Valid(s.table)
    ensures |r| == |MatchingIds(s, h, search, genreId)|
    ensures forall id :: id in MatchingIds(s, h, search, genreId) ==> ListItem(s, h, id) in r
    ensures forall x :: x in r ==> exists id :: id in MatchingIds(s, h, search, genreId) && x == ListItem(s, h, id)
  {
    SelectedCount(s, h, search, genreId);
    ProjectSelected(s, h, search, genreId);
    Project(s, h, ApplyCustomFilter(Selected(s, h, search, genreId), filter))
  }

  /** The status filter argument never changes the list. */
  lemma StatusFilterNeverNarrows<E(!new), F, L, D, Flt>(s: Store<E>, h: Hooks<E, F, L, D>, search: Option<string>, genreId: Option<Id>, f1: Option<Flt>, f2: Option<Flt>)
    requires Valid(s.table)
    ensures GetAll(s, h, search, genreId, f1) == GetAll(s, h, search, genreId, f2)
  {
  }

  /** Without a search and a genre id, the list has one item per stored record. */
  lemma {:induction false} UnfilteredListsEverything<E(!new), F, L, D, Flt>(s: Store<E>, h: Hooks<E, F, L, D>, filter: Option<Flt>)
    requires Valid(s.table)
    ensures |GetAll(s, h, None, None, filter)| == |s.table.rows|
  {
    assert MatchingIds(s, h, None, None) == s.table.rows.Keys;
  }

  // ----- single-record operations -----

  /** `GetByIdAsync`: the detail projection of the stored record, or null. */
  function GetById<E, F, L, D>(s: Store<E>, h: Hooks<E, F, L, D>, id: Id): (r: Option<D>)
    ensures r.None? <==> id !in s.table.rows
    ensures r.Some? ==> r.value == h.mapToDetailDto(id, s.table.rows[id], GenreNameOf(h, s.genres, s.table.rows[id]))
  {
    match Find(s.table, id)
    case None => None
    case Some(e) => Some(h.mapToDetailDto(id, e, GenreNameOf(h, s.genres, e)))
  }

  /** `ValidateGenreAsync`: an id no stored genre has raises an argument error. */
  function ValidateGenre(genres: GenreNames, genreId: Id): (r: Option<Failure>)
    ensures r.None? <==> genreId in genres
    ensures r.Some? ==> r.value == ArgumentError(InvalidGenreMessage)
  {
    if genreId in genres then None else Some(ArgumentError(InvalidGenreMessage))
  }

  /** `ValidateCreateDto` / `ValidateUpdateDto`: the genre id is checked only
      when the DTO carries one. */
  function ValidateFormDto<E, F, L, D>(s: Store<E>, h: Hooks<E, F, L, D>, dto: F): (r: Option<Failure>)
    ensures r.None? <==> h.formGenre(dto).None? || h.formGenre(dto).value in s.genres
    ensures r.Some? ==> r.value == ArgumentError(InvalidGenreMessage)
  {
    match h.formGenre(dto)
    case None => None
    case Some(g) => ValidateGenre(s.genres, g)
  }

  /** `CreateAsync`: validate, map, stamp `CreatedAt`, insert, and return the
      detail projection of the new id. A failed validation or commit throws
      and stores nothing. */
  function Create<E, F, L, D>(s: Store<E>, h: Hooks<E, F, L, D>, dto: F, now: Time, commit: Commit): (r: (Outcome<D>, Store<E>))
    requires Valid(s.table)
    ensures Valid(r.1.table) && r.1.genres == s.genres
    ensures ValidateFormDto(s, h, dto).Some? ==> r == (Threw(ArgumentError(InvalidGenreMessage)), s)
    ensures ValidateFormDto(s, h, dto).None? && !commit.Saved? ==> r == (Threw(CommitFailure(commit)), s)
    ensures ValidateFormDto(s, h, dto).None? && commit.Saved? ==>
      var id := s.table.nextId;
      && id !in s.table.rows
      && r.1.table.rows == s.table.rows[id := h.setCreatedAt(h.mapToEntity(dto), now)]
      && |r.1.table.rows| == |s.table.rows| + 1
      && r.0 == Returned(GetById(r.1, h, id).value)
  {
    match ValidateFormDto(s, h, dto)
    case Some(f) => (Threw(f), s)
    case None =>
      if !commit.Saved? then (Threw(CommitFailure(commit)), s)
      else
        var entity := h.setCreatedAt(h.mapToEntity(dto), now);
        var (t, id) := Insert(s.table, entity);
        var s' := Store(t, s.genres);
        (Returned(GetById(s', h, id).value), s')
  }

  /** `UpdateAsync`: an absent id answers false before the DTO is validated;
      otherwise a valid DTO overwrites the record and answers true. A failed
      validation or commit throws and changes nothing. */
  function Update<E, F, L, D>(s: Store<E>, h: Hooks<E, F, L, D>, id: Id, dto: F, commit: Commit): (r: (Outcome<bool>, Store<E>))
    requires Valid(s.table)
    ensures Valid(r.1.table) && r.1.genres == s.genres
    ensures id !in s.table.rows ==> r == (Returned(false), s)
    ensures id in s.table.rows && ValidateFormDto(s, h, dto).Some? ==> r == (Threw(ArgumentError(InvalidGenreMessage)), s)
    ensures id in s.table.rows && ValidateFormDto(s, h, dto).None? && !commit.Saved? ==> r == (Threw(CommitFailure(commit)), s)
    ensures id in s.table.rows && ValidateFormDto(s, h, dto).None? && commit.Saved? ==>
      && r.0 == Returned(true)
      && r.1.table.rows == s.table.rows[id := h.updateEntityFromDto(s.table.rows[id], dto)]
      && r.1.table.nextId == s.table.nextId
  {
    match Find(s.table, id)
    case None => (Returned(false), s)
    case Some(e) =>
      match ValidateFormDto(s, h, dto)
      case Some(f) => (Threw(f), s)
      case None =>
        if !commit.Saved? then (Threw(CommitFailure(commit)), s)
        else (Returned(true), Store(Put(s.table, id, h.updateEntityFromDto(e, dto)), s.genres))
  }

  /** `ToggleStatusAsync`: an absent id answers false and changes nothing;
      otherwise only that record passes through the status hook. */
  function ToggleStatus<E, F, L, D>(s: Store<E>, h: Hooks<E, F, L, D>, id: Id, now: Time): (r: (bool, Store<E>))
    requires Valid(s.table)
    ensures Valid(r.1.table) && r.1.genres == s.genres && r.1.table.nextId == s.table.nextId
    ensures !r.0 <==> id !in s.table.rows
    ensures !r.0 ==> r.1 == s
    ensures r.0 ==> r.1.table.rows == s.table.rows[id := h.toggleEntityStatus(s.table.rows[id], now)]
  {
    match Find(s.table, id)
    case None => (false, s)
    case Some(e) => (true, Store(Put(s.table, id, h.toggleEntityStatus(e, now)), s.genres))
  }

  /** `DeleteAsync`: an absent id answers false and changes nothing;
      otherwise exactly that record goes and every other stays as it was. */
  function Delete<E>(s: Store<E>, id: Id): (r: (bool, Store<E>))
    requires Valid(s.table)
    ensures Valid(r.1.table) && r.1.genres == s.genres && r.1.table.nextId == s.table.nextId
    ensures !r.0 <==> id !in s.table.rows
    ensures !r.0 ==> r.1 == s
    ensures r.0 ==> r.1.table.rows.Keys == s.table.rows.Keys - {id} && |r.1.table.rows| == |s.table.rows| - 1
    ensures forall other :: other in r.1.table.rows ==> r.1.table.rows[other] == s.table.rows[other]
  {
    match Find(s.table, id)
    case None => (false, s)
    case Some(_) => (true, Store(Remove(s.table, id), s.genres))
  }

  /** The foreign key's `ON DELETE SET NULL` when genre `g` is deleted: every
      record referencing `g` loses its genre, every other record stays as it
      was, no record comes or goes, and `g` is no longer a genre to join to. */
  function GenreDeleted<E, F, L, D>(s: Store<E>, h: Hooks<E, F, L, D>, g: Id): (r: Store<E>)
    requires Valid(s.table)
    ensures Valid(r.table) && r.table.nextId == s.table.nextId
    ensures r.table.rows.Keys == s.table.rows.Keys
    ensures g !in r.genres && forall k :: k in r.genres <==> k in s.genres && k != g
    ensures forall k :: k in r.genres ==> r.genres[k] == s.genres[k]
    ensures forall id :: id in s.table.rows && h.genreOf(s.table.rows[id]) != Some(g) ==> r.table.rows[id] == s.table.rows[id]
    ensures forall id :: id in s.table.rows && h.genreOf(s.table.rows[id]) == Some(g) ==> r.table.rows[id] == h.clearGenre(s.table.rows[id])
  {
    var rows := map id | id in s.table.rows ::
      if h.genreOf(s.table.rows[id]) == Some(g) then h.clearGenre(s.table.rows[id]) else s.table.rows[id];
    Store(Table(rows, s.table.nextId), s.genres - {g})
  }

  /** When `clearGenre` really drops the reference, no record references a
      deleted genre any more, so listing by that genre gives nothing, and a
      record that referenced it now joins to no genre name. */
  lemma {:induction false} GenreDeletedUnlinks<E(!new), F, L, D, Flt>(s: Store<E>, h: Hooks<E, F, L, D>, g: Id, filter: Option<Flt>)
    requires Valid(s.table)
    requires forall e :: h.genreOf(h.clearGenre(e)) == None
    ensures var r := GenreDeleted(s, h, g);
      && (forall id :: id in r.table.rows ==> h.genreOf(r.table.rows[id]) != Some(g))
      && MatchingIds(r, h, None, Some(g)) == {}
      && GetAll(r, h, None, Some(g), filter) == []
      && (forall id :: id in s.table.rows && h.genreOf(s.table.rows[id]) == Some(g) ==> GenreNameOf(h, r.genres, r.table.rows[id]).None?)
  {
    var r := GenreDeleted(s, h, g);
    forall id | id in r.table.rows ensures h.genreOf(r.table.rows[id]) != Some(g) {
      if h.genreOf(s.table.rows[id]) == Some(g) {
        assert h.genreOf(h.clearGenre(s.table.rows[id])) == None;
      }
    }
    assert forall id :: id in r.table.rows ==> !GenreMatches(h, r.table.rows[id], Some(g));
  }

  /** A record, once created, is found by its new id, and its detail is the
      one `Create` returned. */
  lemma CreateThenGetById<E, F, L, D>(s: Store<E>, h: Hooks<E, F, L, D>, dto: F, now: Time)
    requires Valid(s.table) && ValidateFormDto(s, h, dto).None?
    ensures var (o, s') := Create(s, h, dto, now, Saved);
      o.Returned? && GetById(s', h, s.table.nextId) == Some(o.value)
  {
  }

  /** A deleted id is gone: reading it answers null and every later
      update, toggle or delete of it answers false without a change. */
  lemma {:induction false} DeletedIdIsAbsent<E, F, L, D>(s: Store<E>, h: Hooks<E, F, L, D>, id: Id, dto: F, now: Time, commit: Commit)
    requires Valid(s.table) && id in s.table.rows
    ensures var (_, s') := Delete(s, id);
      && GetById(s', h, id).None?
      && Update(s', h, id, dto, commit) == (Returned(false), s')
      && ToggleStatus(s', h, id, now) == (false, s')
      && Delete(s', id) == (false, s')
  {
    var (_, s') := Delete(s, id);
    assert id !in s'.table.rows;
  }
}
