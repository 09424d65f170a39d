/** `GenreService`: the genre directory. Genres carry a display order and an
    active flag and are associated with media types ("movie", "game", …)
    through numbered links. Listing narrows by active flag and media type and
    orders by the genre order; create and update validate the requested media
    type ids by count and rebuild the links numbered 1..n in request order. */
module GenreService {
  import opened Wrappers
  import opened Text
  import opened Seqs
  import opened Table
  import opened Outcomes

  type Time = nat

  /** The id of a media type (a short string key). */
  type MediaTypeId = string

  /** A genre–media-type association: the media type and its position. */
  datatype Link = Link(mediaTypeId: MediaTypeId, order: int)

  /** A stored genre together with its associations, in the order they were added. */
  datatype Genre = Genre(
    name: string,
    order: int,
    isActive: bool,
    createdAt: Time,
    updatedAt: Option<Time>,
    links: seq<Link>)

  /** The genre table, and the media types by id with their names. */
  datatype Directory = Directory(genres: Table<Genre>, mediaTypes: map<MediaTypeId, string>)

  /** The create and update request body. */
  datatype GenreDto = GenreDto(name: string, order: int, isActive: bool, mediaTypeIds: seq<MediaTypeId>)

  datatype GenreListDto = GenreListDto(id: Id, name: string, order: int, isActive: bool, mediaTypes: seq<string>)

  datatype MediaTypeAssociationDto = MediaTypeAssociationDto(mediaTypeId: MediaTypeId, mediaTypeName: string, order: int)

  datatype GenreDetailDto = GenreDetailDto(
    id: Id,
    name: string,
    order: int,
    isActive: bool,
    createdAt: Time,
    updatedAt: Option<Time>,
    mediaTypes: seq<MediaTypeAssociationDto>)

  /** The message of the exception a bad media type id list raises. */
  const InvalidMediaTypesMessage: string := "One or more invalid MediaType IDs"

  /** What the database guarantees: identity ids below the counter, and every
      association referencing a stored media type (a foreign key). */
  ghost predicate ValidDirectory(d: Directory) {
    && Valid(d.genres)
    && forall id :: id in d.genres.rows ==> LinksKnown(d.genres.rows[id], d.mediaTypes)
  }

  /** Every association of the genre references a stored media type. */
  ghost predicate LinksKnown(g: Genre, mediaTypes: map<MediaTypeId, string>) {
    forall k :: 0 <= k < |g.links| ==> g.links[k].mediaTypeId in mediaTypes
  }

  /** The genre names the media services join to. */
  function GenreNames(d: Directory): (r: map<Id, string>)
    ensures r.Keys == d.genres.rows.Keys
    ensures forall id :: id in r ==> r[id] == d.genres.rows[id].name
  {
    map id | id in d.genres.rows :: d.genres.rows[id].name
  }

  // ----- media type validation -----

  /** The stored media types whose id the request mentions (what the
      validation query selects). */
  function KnownAmong(mediaTypes: map<MediaTypeId, string>, ids: seq<MediaTypeId>): set<MediaTypeId> {
    set k | k in mediaTypes && k in ids
  }

  /** The validation: as many stored media types match as ids were sent. */
  predicate MediaTypesValid(mediaTypes: map<MediaTypeId, string>, ids: seq<MediaTypeId>) {
    |KnownAmong(mediaTypes, ids)| == |ids|
  }

  /** The count check passes exactly when the ids are all known and none repeats. */
  lemma MediaTypesValidIff(mediaTypes: map<MediaTypeId, string>, ids: seq<MediaTypeId>)
    ensures MediaTypesValid(mediaTypes, ids) <==> Distinct(ids) && forall i :: 0 <= i < |ids| ==> ids[i] in mediaTypes
  {
    var K := KnownAmong(mediaTypes, ids);
    var E := Elements(ids);
    ElementsCount(ids);
    assert K <= E;
    SubsetCardinality(K, E);
    if MediaTypesValid(mediaTypes, ids) {
      assert K == E;
      forall i | 0 <= i < |ids| ensures ids[i] in mediaTypes {
        assert ids[i] in E;
      }
    }
    if Distinct(ids) && forall i :: 0 <= i < |ids| ==> ids[i] in mediaTypes {
      forall x | x in E ensures x in K {
        var i :| 0 <= i < |ids| && ids[i] == x;
      }
      assert K == E;
    }
  }

  /** A repeated id fails validation even when it is known. */
  lemma DuplicateRejected(mediaTypes: map<MediaTypeId, string>)
    requires "movie" in mediaTypes
    ensures !MediaTypesValid(mediaTypes, ["movie", "movie"])
  {
    var ids: seq<MediaTypeId> := ["movie", "movie"];
    MediaTypesValidIff(mediaTypes, ids);
    assert ids[0] == ids[1];
  }

  /** The links built from a request: one per id, in request order, numbered from 1. */
  function NumberedLinks(ids: seq<MediaTypeId>): (r: seq<Link>)
    ensures |r| == |ids|
    ensures forall i :: 0 <= i < |r| ==> r[i] == Link(ids[i], i + 1)
  {
    seq(|ids|, i requires 0 <= i < |ids| => Link(ids[i], i + 1))
  }

  /** Numbered links are strictly increasing in order, so sorting them by
      order keeps them as built. */
  lemma NumberedLinksSorted(ids: seq<MediaTypeId>)
    ensures SortBy(NumberedLinks(ids), (l: Link) => l.order) == NumberedLinks(ids)
  {
    SortBySorted(NumberedLinks(ids), (l: Link) => l.order);
  }

  // ----- reads -----

  /** The genre has an association with the media type. */
  predicate HasMediaType(g: Genre, mediaTypeId: MediaTypeId) {
    exists k :: 0 <= k < |g.links| && g.links[k].mediaTypeId == mediaTypeId
  }

  /** Both narrowings of the list query. */
  predicate GenreMatches(g: Genre, mediaTypeId: Option<MediaTypeId>, isActive: Option<bool>) {
    && (isActive.None? || g.isActive == isActive.value)
    && (IsNullOrWhiteSpace(mediaTypeId) || HasMediaType(g, mediaTypeId.value))
  }

  /** The ids of the stored genres passing both narrowings. */
  function MatchingIds(d: Directory, mediaTypeId: Option<MediaTypeId>, isActive: Option<bool>): set<Id> {
    set id | id in d.genres.rows && GenreMatches(d.genres.rows[id], mediaTypeId, isActive)
  }

  /** The active-flag narrowing: a given flag keeps the genres with that flag. */
  function ApplyActiveFilter(rows: seq<Row<Genre>>, isActive: Option<bool>): (r: seq<Row<Genre>>)
    ensures isActive.None? ==> r == rows
    ensures forall row :: row in r <==> row in rows && (isActive.None? || row.entity.isActive == isActive.value)
  {
    if isActive.None? then rows else Filter(rows, (row: Row<Genre>) => row.entity.isActive == isActive.value)
  }

  /** The media-type narrowing: a non-blank id keeps the genres associated with it. */
  function ApplyMediaTypeFilter(rows: seq<Row<Genre>>, mediaTypeId: Option<MediaTypeId>): (r: seq<Row<Genre>>)
    ensures IsNullOrWhiteSpace(mediaTypeId) ==> r == rows
    ensures forall row :: row in r <==> row in rows && (IsNullOrWhiteSpace(mediaTypeId) || HasMediaType(row.entity, mediaTypeId.value))
  {
    if IsNullOrWhiteSpace(mediaTypeId) then rows
    else Filter(rows, (row: Row<Genre>) => HasMediaType(row.entity, mediaTypeId.value))
  }

  /** The narrowings keep the order of the model's ascending-id enumeration. */
  lemma GenreNarrowingKeepsOrder(rows: seq<Row<Genre>>, mediaTypeId: Option<MediaTypeId>, isActive: Option<bool>)
    requires forall i, j :: 0 <= i < j < |rows| ==> rows[i].id < rows[j].id
    ensures var r := ApplyMediaTypeFilter(ApplyActiveFilter(rows, isActive), mediaTypeId);
      forall i, j :: 0 <= i < j < |r| ==> r[i].id < r[j].id
  {
    var inc := (a: Row<Genre>, b: Row<Genre>) => a.id < b.id;
    assert Pairwise(rows, inc);
    var byActive := ApplyActiveFilter(rows, isActive);
    if isActive.Some? {
      FilterPairwise(rows, (row: Row<Genre>) => row.entity.isActive == isActive.value, inc);
    }
    assert Pairwise(byActive, inc);
    var byType := ApplyMediaTypeFilter(byActive, mediaTypeId);
    if !IsNullOrWhiteSpace(mediaTypeId) {
      FilterPairwise(byActive, (row: Row<Genre>) => HasMediaType(row.entity, mediaTypeId.value), inc);
    }
    assert Pairwise(byType, inc);
  }

  /** The stored genres passing both narrowings, in the model's ascending-id enumeration. */
  function SelectedGenres(d: Directory, mediaTypeId: Option<MediaTypeId>, isActive: Option<bool>): (r: seq<Row<Genre>>)
    requires Valid(d.genres)
    ensures forall row :: row in r <==> row.id in d.genres.rows && d.genres.rows[row.id] == row.entity && GenreMatches(row.entity, mediaTypeId, isActive)
    ensures forall i, j :: 0 <= i < j < |r| ==> r[i].id < r[j].id
    ensures |r| == |MatchingIds(d, mediaTypeId, isActive)|
  {
    var all := Rows(d.genres);
    GenreNarrowingKeepsOrder(all, mediaTypeId, isActive);
    var r := ApplyMediaTypeFilter(ApplyActiveFilter(all, isActive), mediaTypeId);
    SelectedGenresCount(d, mediaTypeId, isActive, r);
    r
  }

  /** Selected rows with increasing ids number exactly the matching ids. */
  lemma SelectedGenresCount(d: Directory, mediaTypeId: Option<MediaTypeId>, isActive: Option<bool>, r: seq<Row<Genre>>)
    requires forall row :: row in r <==> row.id in d.genres.rows && d.genres.rows[row.id] == row.entity && GenreMatches(row.entity, mediaTypeId, isActive)
    requires forall i, j :: 0 <= i < j < |r| ==> r[i].id < r[j].id
    ensures |r| == |MatchingIds(d, mediaTypeId, isActive)|
  {
    var M := MatchingIds(d, mediaTypeId, isActive);
    RowCount(r);
    var ids := set row | row in r :: row.id;
    forall id | id in ids ensures id in M {
      var row :| row in r && row.id == id;
    }
    forall id | id in M ensures id in ids {
      assert Row(id, d.genres.rows[id]) in r;
    }
    assert ids == M;
  }

  /** The list projection of a stored genre: its media type names in link order. */
  function ListItem(d: Directory, id: Id): (r: GenreListDto)
    requires ValidDirectory(d) && id in d.genres.rows
    ensures r.id == id && r.name == d.genres.rows[id].name
    ensures r.order == d.genres.rows[id].order && r.isActive == d.genres.rows[id].isActive
    ensures |r.mediaTypes| == |d.genres.rows[id].links|
    ensures forall k :: 0 <= k < |r.mediaTypes| ==>
      d.genres.rows[id].links[k].mediaTypeId in d.mediaTypes
      && r.mediaTypes[k] == d.mediaTypes[d.genres.rows[id].links[k].mediaTypeId]
  {
    var g := d.genres.rows[id];
    GenreListDto(id, g.name, g.order, g.isActive,
                 seq(|g.links|, k requires 0 <= k < |g.links| => d.mediaTypes[g.links[k].mediaTypeId]))
  }

  /** The sorted selection: the selected rows ordered by genre order. */
  function SortedGenres(d: Directory, mediaTypeId: Option<MediaTypeId>, isActive: Option<bool>): (r: seq<Row<Genre>>)
    requires Valid(d.genres)
    ensures |r| == |MatchingIds(d, mediaTypeId, isActive)|
    ensures forall row :: row in r <==> row.id in d.genres.rows && d.genres.rows[row.id] == row.entity && GenreMatches(row.entity, mediaTypeId, isActive)
    ensures forall i, j :: 0 <= i < j < |r| ==> r[i].entity.order <= r[j].entity.order
  {
    var sel := SelectedGenres(d, mediaTypeId, isActive);
    var r := SortBy(sel, (row: Row<Genre>) => row.entity.order);
    assert forall row :: row in r <==> row in sel by {
      forall row ensures row in r <==> row in sel {
        assert row in r <==> row in multiset(r);
        assert row in sel <==> row in multiset(sel);
      }
    }
    r
  }

  /** The list items of the given rows, in order. */
  function ListItems(d: Directory, rows: seq<Row<Genre>>): (r: seq<GenreListDto>)
    requires ValidDirectory(d) && forall row :: row in rows ==> row.id in d.genres.rows
    ensures |r| == |rows|
    ensures forall i :: 0 <= i < |rows| ==> r[i] == ListItem(d, rows[i].id)
  {
    seq(|rows|, i requires 0 <= i < |rows| => ListItem(d, rows[i].id))
  }

  /** The list items of rows holding exactly one row per id of `ids` are
      exactly the list items of those ids. */
  lemma ListItemsCover(d: Directory, rows: seq<Row<Genre>>, ids: set<Id>)
    requires ValidDirectory(d)
    requires forall row :: row in rows ==> row.id in ids
    requires forall id :: id in ids ==> id in d.genres.rows && Row(id, d.genres.rows[id]) in rows
    ensures forall row :: row in rows ==> row.id in d.genres.rows
    ensures var r := ListItems(d, rows);
      && (forall id :: id in ids ==> ListItem(d, id) in r)
      && (forall x :: x in r ==> exists id :: id in ids && x == ListItem(d, id))
  {
    var r := ListItems(d, rows);
    forall id | id in ids ensures ListItem(d, id) in r {
      var k :| 0 <= k < |rows| && rows[k] == Row(id, d.genres.rows[id]);
      assert r[k] == ListItem(d, id);
    }
    forall x | x in r ensures exists id :: id in ids && x == ListItem(d, id) {
      var k :| 0 <= k < |r| && r[k] == x;
      assert rows[k] in rows;
    }
  }

  /** The list items of the sorted selection are those of the matching ids. */
  lemma ListItemsOfSorted(d: Directory, mediaTypeId: Option<MediaTypeId>, isActive: Option<bool>)
    requires ValidDirectory(d)
    ensures var r := ListItems(d, SortedGenres(d, mediaTypeId, isActive));
      && (forall id :: id in MatchingIds(d, mediaTypeId, isActive) ==> ListItem(d, id) in r)
      && (forall x :: x in r ==> exists id :: id in MatchingIds(d, mediaTypeId, isActive) && x == ListItem(d, id))
      && (forall i, j :: 0 <= i < j < |r| ==> r[i].order <= r[j].order)
  {
    var sorted := SortedGenres(d, mediaTypeId, isActive);
    var M := MatchingIds(d, mediaTypeId, isActive);
    forall id | id in M ensures id in d.genres.rows && Row(id, d.genres.rows[id]) in sorted {
    }
    forall row | row in sorted ensures row.id in M {
    }
    ListItemsCover(d, sorted, M);
    var r := ListItems(d, sorted);
    forall i, j | 0 <= i < j < |r| ensures r[i].order <= r[j].order {
      assert sorted[i] in sorted && sorted[j] in sorted;
      assert r[i].order == sorted[i].entity.order;
      assert r[j].order == sorted[j].entity.order;
    }
  }

  /** `GetAllAsync(mediaTypeId, isActive)`: one list item per stored genre
      passing both narrowings, every such genre included, non-decreasing in
      order; genres of equal order, which the source leaves unordered, come
      in the model's ascending id order. */
  function GetAll(d: Directory, mediaTypeId: Option<MediaTypeId>, isActive: Option<bool>): (r: seq<GenreListDto>)
    requires ValidDirectory(d)
    ensures |r| == |MatchingIds(d, mediaTypeId, isActive)|
    ensures forall id :: id in MatchingIds(d, mediaTypeId, isActive) ==> ListItem(d, id) in r
    ensures forall x :: x in r ==> exists id :: id in MatchingIds(d, mediaTypeId, isActive) && x == ListItem(d, id)
    ensures forall i, j :: 0 <= i < j < |r| ==> r[i].order <= r[j].order
  {
    ListItemsOfSorted(d, mediaTypeId, isActive);
    ListItems(d, SortedGenres(d, mediaTypeId, isActive))
  }

  /** The detail of a stored genre: its media types sorted by link order. */
  function Detail(d: Directory, id: Id): (r: GenreDetailDto)
    requires ValidDirectory(d) && id in d.genres.rows
    ensures |r.mediaTypes| == |d.genres.rows[id].links|
    ensures forall i, j :: 0 <= i < j < |r.mediaTypes| ==> r.mediaTypes[i].order <= r.mediaTypes[j].order
    ensures multiset(Map(r.mediaTypes, (a: MediaTypeAssociationDto) => Link(a.mediaTypeId, a.order))) == multiset(d.genres.rows[id].links)
    ensures forall i :: 0 <= i < |r.mediaTypes| ==>
      r.mediaTypes[i].mediaTypeId in d.mediaTypes && r.mediaTypes[i].mediaTypeName == d.mediaTypes[r.mediaTypes[i].mediaTypeId]
  {
    var g := d.genres.rows[id];
    var sorted := SortBy(g.links, (l: Link) => l.order);
    forall l | l in sorted ensures l.mediaTypeId in d.mediaTypes {
      assert l in multiset(sorted);
      var k :| 0 <= k < |g.links| && g.links[k] == l;
    }
    var assocs := seq(|sorted|, i requires 0 <= i < |sorted| =>
      MediaTypeAssociationDto(sorted[i].mediaTypeId, d.mediaTypes[sorted[i].mediaTypeId], sorted[i].order));
    assert Map(assocs, (a: MediaTypeAssociationDto) => Link(a.mediaTypeId, a.order)) == sorted;
    GenreDetailDto(id, g.name, g.order, g.isActive, g.createdAt, g.updatedAt, assocs)
  }

  /** `GetByIdAsync`: the detail, or null for an absent id. */
  function GetById(d: Directory, id: Id): (r: Option<GenreDetailDto>)
    requires ValidDirectory(d)
    ensures r.None? <==> id !in d.genres.rows
    ensures r.Some? ==> r.value == Detail(d, id)
  {
    if id in d.genres.rows then Some(Detail(d, id)) else None
  }

  // ----- writes -----

  /** A new genre from a request, with the given associations. */
  function NewGenre(dto: GenreDto, now: Time, links: seq<Link>): Genre {
    Genre(dto.name, dto.order, dto.isActive, now, None, links)
  }

  /** The first save of a create: the genre without associations, under the next id. */
  function AddGenre(d: Directory, dto: GenreDto, now: Time): (r: (Directory, Id))
    requires ValidDirectory(d)
    ensures ValidDirectory(r.0) && r.0.mediaTypes == d.mediaTypes
    ensures r.1 == d.genres.nextId && r.1 !in d.genres.rows
    ensures r.0.genres.rows == d.genres.rows[r.1 := NewGenre(dto, now, [])]
  {
    var (t, id) := Insert(d.genres, NewGenre(dto, now, []));
    (Directory(t, d.mediaTypes), id)
  }

  /** The second save of a create: the links of a validated request. */
  function AttachLinks(d: Directory, id: Id, ids: seq<MediaTypeId>): (r: Directory)
    requires ValidDirectory(d) && id in d.genres.rows && MediaTypesValid(d.mediaTypes, ids)
    ensures ValidDirectory(r) && r.mediaTypes == d.mediaTypes
    ensures r.genres.rows == d.genres.rows[id := d.genres.rows[id].(links := NumberedLinks(ids))]
  {
    MediaTypesValidIff(d.mediaTypes, ids);
    Directory(Put(d.genres, id, d.genres.rows[id].(links := NumberedLinks(ids))), d.mediaTypes)
  }

  /** `CreateAsync`. The media type ids are validated first; then the genre is
      saved (`first`), and then its links numbered 1..n (`second`). A failure
      of the second save leaves the genre stored without links. */
  function Create(d: Directory, dto: GenreDto, now: Time, first: Commit, second: Commit): (r: (Outcome<GenreDetailDto>, Directory))
    requires ValidDirectory(d)
    ensures ValidDirectory(r.1) && r.1.mediaTypes == d.mediaTypes
    ensures !MediaTypesValid(d.mediaTypes, dto.mediaTypeIds) ==> r == (Threw(ArgumentError(InvalidMediaTypesMessage)), d)
    ensures MediaTypesValid(d.mediaTypes, dto.mediaTypeIds) && !first.Saved? ==> r == (Threw(CommitFailure(first)), d)
    ensures MediaTypesValid(d.mediaTypes, dto.mediaTypeIds) && first.Saved? && !second.Saved? ==>
      && r.0 == Threw(CommitFailure(second))
      && d.genres.nextId !in d.genres.rows
      && r.1.genres.rows == d.genres.rows[d.genres.nextId := NewGenre(dto, now, [])]
    ensures MediaTypesValid(d.mediaTypes, dto.mediaTypeIds) && first.Saved? && second.Saved? ==>
      && d.genres.nextId !in d.genres.rows
      && r.1.genres.rows == d.genres.rows[d.genres.nextId := NewGenre(dto, now, NumberedLinks(dto.mediaTypeIds))]
      && r.0 == Returned(Detail(r.1, d.genres.nextId))
  {
    if !MediaTypesValid(d.mediaTypes, dto.mediaTypeIds) then (Threw(ArgumentError(InvalidMediaTypesMessage)), d)
    else if !first.Saved? then (Threw(CommitFailure(first)), d)
    else
      var (d1, id) := AddGenre(d, dto, now);
      if !second.Saved? then (Threw(CommitFailure(second)), d1)
      else
        var d2 := AttachLinks(d1, id, dto.mediaTypeIds);
        assert d2.genres.rows == d.genres.rows[id := NewGenre(dto, now, NumberedLinks(dto.mediaTypeIds))];
        (Returned(Detail(d2, id)), d2)
  }

  /** `UpdateAsync`: an absent id answers false before the media types are
      validated; otherwise a valid request replaces name, order, active flag and
      every association, stamps `UpdatedAt`, and keeps `CreatedAt`. */
  function Update(d: Directory, id: Id, dto: GenreDto, now: Time, commit: Commit): (r: (Outcome<bool>, Directory))
    requires ValidDirectory(d)
    ensures ValidDirectory(r.1) && r.1.mediaTypes == d.mediaTypes
    ensures id !in d.genres.rows ==> r == (Returned(false), d)
    ensures id in d.genres.rows && !MediaTypesValid(d.mediaTypes, dto.mediaTypeIds) ==> r == (Threw(ArgumentError(InvalidMediaTypesMessage)), d)
    ensures id in d.genres.rows && MediaTypesValid(d.mediaTypes, dto.mediaTypeIds) && !commit.Saved? ==> r == (Threw(CommitFailure(commit)), d)
    ensures id in d.genres.rows && MediaTypesValid(d.mediaTypes, dto.mediaTypeIds) && commit.Saved? ==>
      && r.0 == Returned(true)
      && r.1.genres.rows == d.genres.rows[id := Genre(dto.name, dto.order, dto.isActive, d.genres.rows[id].createdAt,
                                                       Some(now), NumberedLinks(dto.mediaTypeIds))]
      && r.1.genres.nextId == d.genres.nextId
  {
    if id !in d.genres.rows then (Returned(false), d)
    else if !MediaTypesValid(d.mediaTypes, dto.mediaTypeIds) then (Threw(ArgumentError(InvalidMediaTypesMessage)), d)
    else if !commit.Saved? then (Threw(CommitFailure(commit)), d)
    else
      MediaTypesValidIff(d.mediaTypes, dto.mediaTypeIds);
      var g := d.genres.rows[id];
      var g' := Genre(dto.name, dto.order, dto.isActive, g.createdAt, Some(now), NumberedLinks(dto.mediaTypeIds));
      (Returned(true), Directory(Put(d.genres, id, g'), d.mediaTypes))
  }

  /** `DeleteAsync`: an absent id answers false; otherwise that genre and its
      associations go and every other genre stays as it was. */
  function Delete(d: Directory, id: Id): (r: (bool, Directory))
    requires ValidDirectory(d)
    ensures ValidDirectory(r.1) && r.1.mediaTypes == d.mediaTypes && r.1.genres.nextId == d.genres.nextId
    ensures !r.0 <==> id !in d.genres.rows
    ensures !r.0 ==> r.1 == d
    ensures r.1.genres.rows.Keys == d.genres.rows.Keys - {id}
    ensures forall other :: other in r.1.genres.rows ==> r.1.genres.rows[other] == d.genres.rows[other]
  {
    if id !in d.genres.rows then (false, d) else (true, Directory(Remove(d.genres, id), d.mediaTypes))
  }

  /** `ExistsAsync`. */
  function Exists(d: Directory, id: Id): (r: bool)
    ensures r <==> id in GenreNames(d)
  {
    id in d.genres.rows
  }

  // ----- properties across operations -----

  /** After a fully committed create, the detail lists the requested media
      types in request order, numbered 1..n. */
  lemma {:induction false} CreateKeepsRequestOrder(d: Directory, dto: GenreDto, now: Time)
    requires ValidDirectory(d) && MediaTypesValid(d.mediaTypes, dto.mediaTypeIds)
    ensures var (o, _) := Create(d, dto, now, Saved, Saved);
      && o.Returned?
      && |o.value.mediaTypes| == |dto.mediaTypeIds|
      && forall i :: 0 <= i < |dto.mediaTypeIds| ==>
           o.value.mediaTypes[i].mediaTypeId == dto.mediaTypeIds[i] && o.value.mediaTypes[i].order == i + 1
  {
    var (o, d2) := Create(d, dto, now, Saved, Saved);
    var id := d.genres.nextId;
    NumberedLinksSorted(dto.mediaTypeIds);
    assert d2.genres.rows[id].links == NumberedLinks(dto.mediaTypeIds);
  }

  /** An update makes the genre read back exactly like a genre created from the
      same request, apart from the time stamps: the prior associations are gone. */
  lemma {:induction false} UpdateReplacesAssociations(d: Directory, id: Id, dto: GenreDto, now: Time)
    requires ValidDirectory(d) && id in d.genres.rows && MediaTypesValid(d.mediaTypes, dto.mediaTypeIds)
    ensures var (_, d2) := Update(d, id, dto, now, Saved);
      && |Detail(d2, id).mediaTypes| == |dto.mediaTypeIds|
      && forall i :: 0 <= i < |dto.mediaTypeIds| ==>
           Detail(d2, id).mediaTypes[i].mediaTypeId == dto.mediaTypeIds[i] && Detail(d2, id).mediaTypes[i].order == i + 1
  {
    var (_, d2) := Update(d, id, dto, now, Saved);
    NumberedLinksSorted(dto.mediaTypeIds);
    assert d2.genres.rows[id].links == NumberedLinks(dto.mediaTypeIds);
  }
}
