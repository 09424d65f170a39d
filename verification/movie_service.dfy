/** `MovieService`: the movie specialisation of the generic media service.
    It supplies the five hooks (list and detail projections, entity mapping,
    full-replace update, watched toggle) and reuses every operation of
    `MediaStore` unchanged; it has no status-filter override. */
module MovieService {
  import opened Wrappers
  import opened Table
  import opened Outcomes
  import MediaStore

  type Time = MediaStore.Time

  /** The status filter a movie list request may carry. */
  datatype WatchFilter = All | Watched | Queue

  /** A stored movie; the id is the key it is stored under. Ratings are in
      tenths (the column is DECIMAL(3,1)). */
  datatype Movie = Movie(
    title: string,
    review: Option<string>,
    director: Option<string>,
    genreId: Option<Id>,
    duration: Option<int>,
    rating: Option<int>,
    premiereDate: Option<Time>,
    watchDate: Option<Time>,
    isWatched: bool,
    createdAt: Time)

  /** The create/update request body. */
  datatype MovieFormDto = MovieFormDto(
    title: string,
    review: Option<string>,
    director: Option<string>,
    genreId: Option<Id>,
    duration: Option<int>,
    rating: Option<int>,
    premiereDate: Option<Time>,
    watchDate: Option<Time>,
    isWatched: bool)

  datatype MovieListDto = MovieListDto(
    id: Id,
    title: string,
    watchDate: Option<Time>,
    isWatched: bool,
    genreName: Option<string>)

  datatype MovieDetailDto = MovieDetailDto(
    id: Id,
    title: string,
    review: Option<string>,
    director: Option<string>,
    genreId: Option<Id>,
    genreName: Option<string>,
    duration: Option<int>,
    rating: Option<int>,
    premiereDate: Option<Time>,
    watchDate: Option<Time>,
    isWatched: bool)

  /** The list projection, given the name of the joined genre (null when there is none). */
  function MapToListDto(id: Id, m: Movie, genreName: Option<string>): MovieListDto {
    MovieListDto(id, m.title, m.watchDate, m.isWatched, genreName)
  }

  /** The detail projection, given the name of the joined genre. */
  function MapToDetailDto(id: Id, m: Movie, genreName: Option<string>): MovieDetailDto {
    MovieDetailDto(id, m.title, m.review, m.director, m.genreId, genreName,
                   m.duration, m.rating, m.premiereDate, m.watchDate, m.isWatched)
  }

  /** A new entity from a request; `CreatedAt` is stamped afterwards by the base service. */
  function MapToEntity(dto: MovieFormDto): Movie {
    Movie(dto.title, dto.review, dto.director, dto.genreId, dto.duration, dto.rating,
          dto.premiereDate, dto.watchDate, dto.isWatched, 0)
  }

  /** The request's fields as an entity, keeping the creation stamp `createdAt`. */
  function FromForm(dto: MovieFormDto, createdAt: Time): (m: Movie)
    ensures m.createdAt == createdAt
    ensures MapToDetailDto(0, m, None) == MapToDetailDto(0, MapToEntity(dto), None)
  {
    MapToEntity(dto).(createdAt := createdAt)
  }

  /** `UpdateEntityFromDto`: every mutable field comes from the request; only
      the creation stamp survives from the stored movie. */
  function UpdateEntityFromDto(m: Movie, dto: MovieFormDto): (r: Movie)
    ensures r == FromForm(dto, m.createdAt)
  {
    m.(title := dto.title, review := dto.review, director := dto.director, genreId := dto.genreId,
       duration := dto.duration, rating := dto.rating, premiereDate := dto.premiereDate,
       watchDate := dto.watchDate, isWatched := dto.isWatched)
  }

  /** `ToggleEntityStatus`: the watched flag flips; a movie that becomes
      watched without a watch date is stamped with `now`; nothing else changes. */
  function ToggleEntityStatus(m: Movie, now: Time): (r: Movie)
    ensures r.isWatched == !m.isWatched
    ensures m.watchDate.Some? ==> r.watchDate == m.watchDate
    ensures m.watchDate.None? ==> r.watchDate == (if r.isWatched then Some(now) else None)
    ensures r.(isWatched := m.isWatched, watchDate := m.watchDate) == m
  {
    var flipped := m.(isWatched := !m.isWatched);
    if flipped.isWatched && flipped.watchDate.None? then flipped.(watchDate := Some(now)) else flipped
  }

  /** `SetCreatedAt`. */
  function SetCreatedAt(m: Movie, now: Time): (r: Movie)
    ensures r.createdAt == now && r.(createdAt := m.createdAt) == m
  {
    m.(createdAt := now)
  }

  /** `ON DELETE SET NULL` on the genre foreign key: only the genre reference changes, to null. */
  function ClearGenre(m: Movie): (r: Movie)
    ensures r.genreId.None? && r.(genreId := m.genreId) == m
  {
    m.(genreId := None)
  }

  /** The hooks the generic service is instantiated with. */
  const Hooks: MediaStore.Hooks<Movie, MovieFormDto, MovieListDto, MovieDetailDto> :=
    MediaStore.Hooks(
      (m: Movie) => m.title,
      (m: Movie) => m.genreId,
      (dto: MovieFormDto) => dto.genreId,
      MapToListDto,
      MapToDetailDto,
      MapToEntity,
      UpdateEntityFromDto,
      ToggleEntityStatus,
      SetCreatedAt,
      ClearGenre)

  type MovieStore = MediaStore.Store<Movie>

  // ----- properties of the hooks -----

  /** Toggling twice restores the flag. Marking an unwatched movie watched
      always leaves a date, and a date the first toggle left is kept by the second. */
  lemma ToggleTwice(m: Movie, t1: Time, t2: Time)
    ensures ToggleEntityStatus(ToggleEntityStatus(m, t1), t2).isWatched == m.isWatched
    ensures !m.isWatched ==> ToggleEntityStatus(m, t1).watchDate.Some?
    ensures ToggleEntityStatus(m, t1).watchDate.Some? ==>
      ToggleEntityStatus(ToggleEntityStatus(m, t1), t2).watchDate == ToggleEntityStatus(m, t1).watchDate
  {
  }

  /** A watch date, once set, is never changed or cleared by a toggle. */
  lemma ToggleNeverMovesDate(m: Movie, now: Time)
    requires m.watchDate.Some?
    ensures ToggleEntityStatus(m, now).watchDate == m.watchDate
  {
  }

  /** "Watched ⇒ has a watch date" holds after every toggle, whatever held before. */
  lemma ToggleEstablishesDateInvariant(m: Movie, now: Time)
    ensures ToggleEntityStatus(m, now).isWatched ==> ToggleEntityStatus(m, now).watchDate.Some?
  {
  }

  /** Create and update do not enforce that invariant: a request may mark a
      movie watched without a watch date, and it is stored as given. */
  lemma FormMayBreakDateInvariant(dto: MovieFormDto, now: Time)
    requires dto.isWatched && dto.watchDate.None?
    ensures var m := SetCreatedAt(MapToEntity(dto), now); m.isWatched && m.watchDate.None?
  {
  }

  /** The detail of a freshly mapped movie echoes the request on every shared field. */
  lemma DetailEchoesForm(id: Id, dto: MovieFormDto, genreName: Option<string>, now: Time)
    ensures var d := MapToDetailDto(id, SetCreatedAt(MapToEntity(dto), now), genreName);
      && d.id == id && d.title == dto.title && d.review == dto.review && d.director == dto.director
      && d.genreId == dto.genreId && d.genreName == genreName && d.duration == dto.duration
      && d.rating == dto.rating && d.premiereDate == dto.premiereDate
      && d.watchDate == dto.watchDate && d.isWatched == dto.isWatched
  {
  }

  /** Update is a full replace: its result does not depend on the stored
      fields other than `CreatedAt`, and applying it twice is applying it once. */
  lemma UpdateIsFullReplace(m1: Movie, m2: Movie, dto: MovieFormDto)
    requires m1.createdAt == m2.createdAt
    ensures UpdateEntityFromDto(m1, dto) == UpdateEntityFromDto(m2, dto)
    ensures UpdateEntityFromDto(UpdateEntityFromDto(m1, dto), dto) == UpdateEntityFromDto(m1, dto)
    ensures UpdateEntityFromDto(m1, dto).createdAt == m1.createdAt
  {
  }

  /** An updated movie reads back exactly as a movie created from the same request. */
  lemma UpdateAgreesWithCreate(id: Id, m: Movie, dto: MovieFormDto, genreName: Option<string>, now: Time)
    ensures MapToDetailDto(id, UpdateEntityFromDto(m, dto), genreName)
         == MapToDetailDto(id, SetCreatedAt(MapToEntity(dto), now), genreName)
  {
  }

  /** The list and detail projections of one movie agree on every field they share. */
  lemma ListAgreesWithDetail(id: Id, m: Movie, genreName: Option<string>)
    ensures var l := MapToListDto(id, m, genreName);
      var d := MapToDetailDto(id, m, genreName);
      l.id == d.id && l.title == d.title && l.watchDate == d.watchDate
      && l.isWatched == d.isWatched && l.genreName == d.genreName
  {
  }

  /** A listed movie's genre name is null exactly when it references no stored
      genre, and otherwise is that genre's name. */
  lemma ListGenreName(s: MovieStore, id: Id)
    requires id in s.table.rows
    ensures var l := MediaStore.ListItem(s, Hooks, id);
      var m := s.table.rows[id];
      && (l.genreName.None? <==> m.genreId.None? || m.genreId.value !in s.genres)
      && (l.genreName.Some? ==> l.genreName.value == s.genres[m.genreId.value])
  {
  }

  /** The watch filter never changes the movie list. */
  lemma WatchFilterNeverNarrows(s: MovieStore, search: Option<string>, genreId: Option<Id>, f: WatchFilter)
    requires Valid(s.table)
    ensures MediaStore.GetAll(s, Hooks, search, genreId, Some(f)) == MediaStore.GetAll<Movie, MovieFormDto, MovieListDto, MovieDetailDto, WatchFilter>(s, Hooks, search, genreId, None)
  {
  }

  /** The lifecycle scenario: create an unwatched "Matrix" in an empty store,
      toggle it at time t1 and again at t2. The first toggle marks it watched
      and stamps t1; the second unmarks it and keeps t1. */
  lemma MatrixScenario(t0: Time, t1: Time, t2: Time)
    ensures
      var dto := MovieFormDto("Matrix", None, None, None, None, None, None, None, false);
      var s0: MovieStore := MediaStore.Store(Table(map[], 1), map[]);
      var (created, s1) := MediaStore.Create(s0, Hooks, dto, t0, Saved);
      var (ok1, s2) := MediaStore.ToggleStatus(s1, Hooks, 1, t1);
      var (ok2, s3) := MediaStore.ToggleStatus(s2, Hooks, 1, t2);
      && created.Returned? && created.value.id == 1
      && !created.value.isWatched && created.value.watchDate.None?
      && ok1 && MediaStore.GetById(s2, Hooks, 1).value.isWatched
      && MediaStore.GetById(s2, Hooks, 1).value.watchDate == Some(t1)
      && ok2 && !MediaStore.GetById(s3, Hooks, 1).value.isWatched
      && MediaStore.GetById(s3, Hooks, 1).value.watchDate == Some(t1)
  {
  }

  /** Deleting a genre leaves every movie that referenced it with no genre and
      the rest as it was, so listing by that genre gives nothing. */
  lemma GenreDeleteNullsMovies(s: MovieStore, genreId: Id, f: Option<WatchFilter>)
    requires Valid(s.table)
    ensures var r := MediaStore.GenreDeleted(s, Hooks, genreId);
      && r.table.rows.Keys == s.table.rows.Keys
      && (forall id :: id in s.table.rows && s.table.rows[id].genreId == Some(genreId) ==>
            r.table.rows[id] == s.table.rows[id].(genreId := None))
      && (forall id :: id in s.table.rows && s.table.rows[id].genreId != Some(genreId) ==>
            r.table.rows[id] == s.table.rows[id])
      && MediaStore.GetAll(r, Hooks, None, Some(genreId), f) == []
  {
    MediaStore.GenreDeletedUnlinks(s, Hooks, genreId, f);
  }
}
