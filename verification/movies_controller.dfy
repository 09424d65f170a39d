/** `MoviesController`: the REST actions over the movie service. It reads like
    the generic base controller but sends exception messages as plain text,
    answers a concurrency failure of an update with 404 "Movie not found",
    and passes a watch filter (default `All`) to the list query. */
module MoviesController {
  import opened Wrappers
  import opened Table
  import opened Outcomes
  import opened Http
  import opened MovieService
  import MediaStore
  import DtoValidation
  import PlainAnswers

  /** The request's genre id is absent or names a stored genre. */
  predicate GenreKnown(s: MovieStore, dto: MovieFormDto) {
    dto.genreId.None? || dto.genreId.value in s.genres
  }

  /** The detail a stored movie reads back as. */
  function DetailOf(s: MovieStore, id: Id): MovieDetailDto
    requires id in s.table.rows
  {
    MapToDetailDto(id, s.table.rows[id], MediaStore.GenreNameOf(Hooks, s.genres, s.table.rows[id]))
  }

  /** `GET /api/movies`: always 200; an absent `watchFilter` binds to `All`.
      The list holds one item per movie passing the search and genre narrowings. */
  function GetAll(s: MovieStore, search: Option<string>, genreId: Option<Id>, watchFilter: Option<WatchFilter>): (r: Response<seq<MovieListDto>>)
    requires Valid(s.table)
    ensures r.status == Ok && r.body.Json?
    ensures |r.body.value| == |MediaStore.MatchingIds(s, Hooks, search, genreId)|
    ensures forall id :: id in MediaStore.MatchingIds(s, Hooks, search, genreId) ==> MediaStore.ListItem(s, Hooks, id) in r.body.value
    ensures forall x :: x in r.body.value ==> exists id :: id in MediaStore.MatchingIds(s, Hooks, search, genreId) && x == MediaStore.ListItem(s, Hooks, id)
  {
    Response(Ok, Json(MediaStore.GetAll(s, Hooks, search, genreId, Some(watchFilter.GetOr(All)))))
  }

  /** `GET /api/movies/{id}`: 404 for an absent id, else 200 with the detail. */
  function GetById(s: MovieStore, id: Id): (r: Response<MovieDetailDto>)
    ensures r.status == NotFound <==> id !in s.table.rows
    ensures id !in s.table.rows ==> r.body == Empty
    ensures id in s.table.rows ==> r == Response(Ok, Json(DetailOf(s, id)))
  {
    PlainAnswers.FindAnswer(MediaStore.GetById(s, Hooks, id))
  }

  /** `POST /api/movies`. An invalid model answers 400 naming the failing
      fields; an unknown genre 400 with the service's message; a failed commit
      500 with its message; all three leave the store as it was. Otherwise the
      movie is stored under the next id and the answer is 201 with its detail. */
  function Create(s: MovieStore, dto: MovieFormDto, now: Time, commit: Commit): (r: (Response<MovieDetailDto>, MovieStore))
    requires Valid(s.table)
    ensures Valid(r.1.table) && r.1.genres == s.genres
    ensures !DtoValidation.MovieFormValid(dto) ==> r == (Response(BadRequest, ModelStateErrors(DtoValidation.MovieFormErrors(dto))), s)
    ensures DtoValidation.MovieFormValid(dto) && !GenreKnown(s, dto) ==>
      r == (Response(BadRequest, Text(MediaStore.InvalidGenreMessage)), s)
    ensures DtoValidation.MovieFormValid(dto) && GenreKnown(s, dto) && !commit.Saved? ==>
      r == (Response(InternalServerError, Text(commit.message)), s)
    ensures DtoValidation.MovieFormValid(dto) && GenreKnown(s, dto) && commit.Saved? ==>
      var id := s.table.nextId;
      && id !in s.table.rows
      && r.1.table.rows == s.table.rows[id := SetCreatedAt(MapToEntity(dto), now)]
      && r.0 == Response(Created, CreatedAt(id, DetailOf(r.1, id)))
  {
    var errors := DtoValidation.MovieFormErrors(dto);
    if errors != [] then (Response(BadRequest, ModelStateErrors(errors)), s)
    else
      var (o, s') := MediaStore.Create(s, Hooks, dto, now, commit);
      (PlainAnswers.CreateAnswer(o, (d: MovieDetailDto) => d.id), s')
  }

  /** `PUT /api/movies/{id}`. An invalid model answers 400; an absent id 404;
      an unknown genre 400 with the service's message; a concurrency conflict
      404 "Movie not found"; any other failed commit 500 with a fixed text. Only
      a 204 answer changes the store, by overwriting that one movie. */
  function Update(s: MovieStore, id: Id, dto: MovieFormDto, commit: Commit): (r: (Response<()>, MovieStore))
    requires Valid(s.table)
    ensures Valid(r.1.table) && r.1.genres == s.genres
    ensures !DtoValidation.MovieFormValid(dto) ==> r == (Response(BadRequest, ModelStateErrors(DtoValidation.MovieFormErrors(dto))), s)
    ensures DtoValidation.MovieFormValid(dto) && id !in s.table.rows ==> r == (Response(NotFound, Empty), s)
    ensures DtoValidation.MovieFormValid(dto) && id in s.table.rows && !GenreKnown(s, dto) ==>
      r == (Response(BadRequest, Text(MediaStore.InvalidGenreMessage)), s)
    ensures DtoValidation.MovieFormValid(dto) && id in s.table.rows && GenreKnown(s, dto) && commit.ConcurrencyConflict? ==>
      r == (Response(NotFound, Text("Movie not found")), s)
    ensures DtoValidation.MovieFormValid(dto) && id in s.table.rows && GenreKnown(s, dto) && commit.DatabaseError? ==>
      r == (Response(InternalServerError, Text("Internal server error")), s)
    ensures DtoValidation.MovieFormValid(dto) && id in s.table.rows && GenreKnown(s, dto) && commit.Saved? ==>
      && r.0 == Response(NoContent, Empty)
      && r.1.table.rows == s.table.rows[id := UpdateEntityFromDto(s.table.rows[id], dto)]
  {
    var errors := DtoValidation.MovieFormErrors(dto);
    if errors != [] then (Response(BadRequest, ModelStateErrors(errors)), s)
    else
      var (o, s') := MediaStore.Update(s, Hooks, id, dto, commit);
      assert PlainAnswers.NotFoundText("Movie") == "Movie not found";
      (PlainAnswers.UpdateAnswer(o, PlainAnswers.NotFoundText("Movie")), s')
  }

  /** `PATCH /api/movies/{id}/watched`: 404 and no change for an absent id;
      otherwise 204 and only that movie passes through the watched toggle. */
  function ToggleWatchStatus(s: MovieStore, id: Id, now: Time): (r: (Response<()>, MovieStore))
    requires Valid(s.table)
    ensures r.0.body == Empty
    ensures r.0.status == NotFound <==> id !in s.table.rows
    ensures id !in s.table.rows ==> r.1 == s
    ensures id in s.table.rows ==>
      r.0.status == NoContent && r.1.table.rows == s.table.rows[id := ToggleEntityStatus(s.table.rows[id], now)]
  {
    var (done, s') := MediaStore.ToggleStatus(s, Hooks, id, now);
    (PlainAnswers.FlagAnswer(done), s')
  }

  /** `DELETE /api/movies/{id}`: 404 and no change for an absent id; otherwise
      204 and exactly that movie is gone. */
  function Delete(s: MovieStore, id: Id): (r: (Response<()>, MovieStore))
    requires Valid(s.table)
    ensures r.0.body == Empty
    ensures r.0.status == NotFound <==> id !in s.table.rows
    ensures id !in s.table.rows ==> r.1 == s
    ensures id in s.table.rows ==> r.0.status == NoContent && r.1.table.rows == map k | k in s.table.rows && k != id :: s.table.rows[k]
  {
    var (done, s') := MediaStore.Delete(s, id);
    (PlainAnswers.FlagAnswer(done), s')
  }

  // ----- properties across the actions -----

  /** The watch filter chosen by the client never changes the answer. */
  lemma WatchFilterIgnored(s: MovieStore, search: Option<string>, genreId: Option<Id>, f: Option<WatchFilter>)
    requires Valid(s.table)
    ensures GetAll(s, search, genreId, f) == GetAll(s, search, genreId, None)
  {
  }

  /** A created movie is served by the location the 201 answer points at,
      with the body the 201 answer carried, and then listed. */
  lemma {:induction false} CreatedMovieIsServed(s: MovieStore, dto: MovieFormDto, now: Time)
    requires Valid(s.table) && DtoValidation.MovieFormValid(dto) && GenreKnown(s, dto)
    ensures var (resp, s') := Create(s, dto, now, Saved);
      && resp.status == Created
      && GetById(s', resp.body.id) == Response(Ok, Json(resp.body.value))
      && |GetAll(s', None, None, None).body.value| == |s.table.rows| + 1
  {
    var (resp, s') := Create(s, dto, now, Saved);
    MediaStore.UnfilteredListsEverything<Movie, MovieFormDto, MovieListDto, MovieDetailDto, WatchFilter>(s', Hooks, Some(All));
    assert s'.table.rows.Keys == s.table.rows.Keys + {s.table.nextId};
  }

  /** Marking a movie watched through the controller stamps the watch date
      only when it had none, and the detail read afterwards shows it. */
  lemma {:induction false} ToggleShowsWatchDate(s: MovieStore, id: Id, now: Time)
    requires Valid(s.table) && id in s.table.rows && !s.table.rows[id].isWatched
    ensures var (resp, s') := ToggleWatchStatus(s, id, now);
      && resp.status == NoContent
      && GetById(s', id).body.value.isWatched
      && GetById(s', id).body.value.watchDate ==
           (if s.table.rows[id].watchDate.Some? then s.table.rows[id].watchDate else Some(now))
  {
    var (resp, s') := ToggleWatchStatus(s, id, now);
    assert s'.table.rows[id] == ToggleEntityStatus(s.table.rows[id], now);
  }
}
