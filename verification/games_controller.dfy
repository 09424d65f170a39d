/** `GamesController`: the REST actions over the game service. The list takes
    no status filter. `UpdateAsWritten` answers a concurrency failure with the
    movie controller's text "Movie not found"; `Update` is the corrected
    action, answering "Game not found". */
module GamesController {
  import opened Wrappers
  import opened Table
  import opened Outcomes
  import opened Http
  import opened GameService
  import MediaStore
  import DtoValidation
  import PlainAnswers
  import Chars = Text

  /** The request's genre id is absent or names a stored genre. */
  predicate GenreKnown(s: GameStore, dto: GameFormDto) {
    dto.genreId.None? || dto.genreId.value in s.genres
  }

  /** The detail a stored game reads back as. */
  function DetailOf(s: GameStore, id: Id): GameDetailDto
    requires id in s.table.rows
  {
    MapToDetailDto(id, s.table.rows[id], MediaStore.GenreNameOf(Hooks, s.genres, s.table.rows[id]))
  }

  /** `GET /api/games`: always 200 with one item per game passing the search
      and genre narrowings; no status filter reaches the service. */
  function GetAll(s: GameStore, search: Option<string>, genreId: Option<Id>): (r: Response<seq<GameListDto>>)
    requires Valid(s.table)
    ensures r.status == Ok && r.body.Json?
    ensures |r.body.value| == |MediaStore.MatchingIds(s, Hooks, search, genreId)|
    ensures forall id :: id in MediaStore.MatchingIds(s, Hooks, search, genreId) ==> MediaStore.ListItem(s, Hooks, id) in r.body.value
    ensures forall x :: x in r.body.value ==> exists id :: id in MediaStore.MatchingIds(s, Hooks, search, genreId) && x == MediaStore.ListItem(s, Hooks, id)
  {
    Response(Ok, Json(MediaStore.GetAll<Game, GameFormDto, GameListDto, GameDetailDto, PlayFilter>(s, Hooks, search, genreId, None)))
  }

  /** `GET /api/games/{id}`: 404 for an absent id, else 200 with the detail. */
  function GetById(s: GameStore, id: Id): (r: Response<GameDetailDto>)
    ensures r.status == NotFound <==> id !in s.table.rows
    ensures id !in s.table.rows ==> r.body == Empty
    ensures id in s.table.rows ==> r == Response(Ok, Json(DetailOf(s, id)))
  {
    PlainAnswers.FindAnswer(MediaStore.GetById(s, Hooks, id))
  }

  /** `POST /api/games`: as for movies, 400 for an invalid model or an unknown
      genre, 500 with the commit's message for a failed commit, and 201 with
      the new game's detail otherwise; only a 201 changes the store. */
  function Create(s: GameStore, dto: GameFormDto, now: Time, commit: Commit): (r: (Response<GameDetailDto>, GameStore))
    requires Valid(s.table)
    ensures Valid(r.1.table) && r.1.genres == s.genres
    ensures !DtoValidation.GameFormValid(dto) ==> r == (Response(BadRequest, ModelStateErrors(DtoValidation.GameFormErrors(dto))), s)
    ensures DtoValidation.GameFormValid(dto) && !GenreKnown(s, dto) ==>
      r == (Response(BadRequest, Text(MediaStore.InvalidGenreMessage)), s)
    ensures DtoValidation.GameFormValid(dto) && GenreKnown(s, dto) && !commit.Saved? ==>
      r == (Response(InternalServerError, Text(commit.message)), s)
    ensures DtoValidation.GameFormValid(dto) && GenreKnown(s, dto) && commit.Saved? ==>
      var id := s.table.nextId;
      && id !in s.table.rows
      && r.1.table.rows == s.table.rows[id := SetCreatedAt(MapToEntity(dto), now)]
      && r.0 == Response(Created, CreatedAt(id, DetailOf(r.1, id)))
  {
    var errors := DtoValidation.GameFormErrors(dto);
    if errors != [] then (Response(BadRequest, ModelStateErrors(errors)), s)
    else
      var (o, s') := MediaStore.Create(s, Hooks, dto, now, commit);
      (PlainAnswers.CreateAnswer(o, (d: GameDetailDto) => d.id), s')
  }

  /** The update action with the concurrency answer text as a parameter. */
  function UpdateAnswering(s: GameStore, id: Id, dto: GameFormDto, commit: Commit, notFoundText: string): (r: (Response<()>, GameStore))
    requires Valid(s.table)
    ensures Valid(r.1.table) && r.1.genres == s.genres
    ensures !DtoValidation.GameFormValid(dto) ==> r == (Response(BadRequest, ModelStateErrors(DtoValidation.GameFormErrors(dto))), s)
    ensures DtoValidation.GameFormValid(dto) && id !in s.table.rows ==> r == (Response(NotFound, Empty), s)
    ensures DtoValidation.GameFormValid(dto) && id in s.table.rows && !GenreKnown(s, dto) ==>
      r == (Response(BadRequest, Text(MediaStore.InvalidGenreMessage)), s)
    ensures DtoValidation.GameFormValid(dto) && id in s.table.rows && GenreKnown(s, dto) && commit.ConcurrencyConflict? ==>
      r == (Response(NotFound, Text(notFoundText)), s)
    ensures DtoValidation.GameFormValid(dto) && id in s.table.rows && GenreKnown(s, dto) && commit.DatabaseError? ==>
      r == (Response(InternalServerError, Text(PlainAnswers.InternalErrorText)), s)
    ensures DtoValidation.GameFormValid(dto) && id in s.table.rows && GenreKnown(s, dto) && commit.Saved? ==>
      && r.0 == Response(NoContent, Empty)
      && r.1.table.rows == s.table.rows[id := UpdateEntityFromDto(s.table.rows[id], dto)]
  {
    var errors := DtoValidation.GameFormErrors(dto);
    if errors != [] then (Response(BadRequest, ModelStateErrors(errors)), s)
    else
      var (o, s') := MediaStore.Update(s, Hooks, id, dto, commit);
      (PlainAnswers.UpdateAnswer(o, notFoundText), s')
  }

  /** `PUT /api/games/{id}` as written: a concurrency conflict answers 404
      "Movie not found"; every other outcome is that of the corrected `Update`. */
  function UpdateAsWritten(s: GameStore, id: Id, dto: GameFormDto, commit: Commit): (r: (Response<()>, GameStore))
    requires Valid(s.table)
    ensures DtoValidation.GameFormValid(dto) && id in s.table.rows && GenreKnown(s, dto) && commit.ConcurrencyConflict? ==>
      r == (Response(NotFound, Text("Movie not found")), s)
    ensures !(DtoValidation.GameFormValid(dto) && id in s.table.rows && GenreKnown(s, dto) && commit.ConcurrencyConflict?) ==>
      r == Update(s, id, dto, commit)
  {
    UpdateAnswering(s, id, dto, commit, "Movie not found")
  }

  /** `PUT /api/games/{id}`, corrected: 400 for an invalid model or an
      unknown genre, 404 for an absent id, 404 "Game not found" on a
      concurrency conflict, 500 with a fixed text on another failed commit,
      and 204 after overwriting that one game. */
  function Update(s: GameStore, id: Id, dto: GameFormDto, commit: Commit): (r: (Response<()>, GameStore))
    requires Valid(s.table)
    ensures Valid(r.1.table) && r.1.genres == s.genres
    ensures r.0.status != NoContent ==> r.1 == s
    ensures !DtoValidation.GameFormValid(dto) ==> r == (Response(BadRequest, ModelStateErrors(DtoValidation.GameFormErrors(dto))), s)
    ensures DtoValidation.GameFormValid(dto) && id !in s.table.rows ==> r == (Response(NotFound, Empty), s)
    ensures DtoValidation.GameFormValid(dto) && id in s.table.rows && !GenreKnown(s, dto) ==>
      r == (Response(BadRequest, Text(MediaStore.InvalidGenreMessage)), s)
    ensures DtoValidation.GameFormValid(dto) && id in s.table.rows && GenreKnown(s, dto) && commit.ConcurrencyConflict? ==>
      r == (Response(NotFound, Text("Game not found")), s)
    ensures DtoValidation.GameFormValid(dto) && id in s.table.rows && GenreKnown(s, dto) && commit.DatabaseError? ==>
      r == (Response(InternalServerError, Text(PlainAnswers.InternalErrorText)), s)
    ensures DtoValidation.GameFormValid(dto) && id in s.table.rows && GenreKnown(s, dto) && commit.Saved? ==>
      && r.0 == Response(NoContent, Empty)
      && r.1.table.rows == s.table.rows[id := UpdateEntityFromDto(s.table.rows[id], dto)]
  {
    assert PlainAnswers.NotFoundText("Game") == "Game not found";
    UpdateAnswering(s, id, dto, commit, PlainAnswers.NotFoundText("Game"))
  }

  /** `PATCH /api/games/{id}/played`: 404 and no change for an absent id;
      otherwise 204 and only that game passes through the played toggle. */
  function TogglePlayStatus(s: GameStore, id: Id, now: Time): (r: (Response<()>, GameStore))
    requires Valid(s.table)
    ensures r.0.body == Empty
    ensures r.0.status == NotFound <==> id !in s.table.rows
    ensures id !in s.table.rows ==> r.1 == s
    ensures id in s.table.rows ==>
      r.0.status == NoContent && r.1.table.rows == s.table.rows[id := ToggleEntityStatus(s.table.rows[id], now)]
  {
    var (done, s') := MediaStore.ToggleStatus(s, Hooks, id, now);
    (PlainAnswers.FlagAnswer(done), s')
  }

  /** `DELETE /api/games/{id}`: 404 and no change for an absent id; otherwise
      204 and exactly that game is gone. */
  function Delete(s: GameStore, id: Id): (r: (Response<()>, GameStore))
    requires Valid(s.table)
    ensures r.0.body == Empty
    ensures r.0.status == NotFound <==> id !in s.table.rows
    ensures id !in s.table.rows ==> r.1 == s
    ensures id in s.table.rows ==> r.0.status == NoContent && r.1.table.rows == map k | k in s.table.rows && k != id :: s.table.rows[k]
  {
    var (done, s') := MediaStore.Delete(s, id);
    (PlainAnswers.FlagAnswer(done), s')
  }

  // ----- the concurrency answer -----

  /** As written, a concurrency conflict while updating a stored game answers
      with the movie text: for game 1 titled "Zelda" the answer names a movie. */
  lemma UpdateAsWrittenNamesMovie()
    ensures
      var s: GameStore := MediaStore.Store(Table(map[1 := Game("Zelda", None, None, None, None, None, None, false, 0)], 2), map[]);
      var dto := GameFormDto("Zelda", None, None, None, None, None, None, true);
      var (resp, _) := UpdateAsWritten(s, 1, dto, ConcurrencyConflict("row changed"));
      && resp == Response(NotFound, Text("Movie not found"))
      && resp.body.text[..5] == "Movie"
      && resp != Update(s, 1, dto, ConcurrencyConflict("row changed")).0
  {
    var dto := GameFormDto("Zelda", None, None, None, None, None, None, true);
    DtoValidation.GameFormValidIff(dto);
    assert !Chars.IsWhite(dto.title[0]);
  }

  /** Corrected, every concurrency conflict while updating a stored game with
      a valid request answers 404 with the game's own not-found text, the
      same shape as the movie controller's "Movie not found". */
  lemma UpdateNamesGame(s: GameStore, id: Id, dto: GameFormDto, message: string)
    requires Valid(s.table) && id in s.table.rows && DtoValidation.GameFormValid(dto) && GenreKnown(s, dto)
    ensures var (resp, s') := Update(s, id, dto, ConcurrencyConflict(message));
      && resp == Response(NotFound, Text(PlainAnswers.NotFoundText("Game")))
      && s' == s
  {
    assert PlainAnswers.NotFoundText("Game") == "Game not found";
  }

  /** A created game is served by the location the 201 answer points at, with
      the body the 201 answer carried. */
  lemma {:induction false} CreatedGameIsServed(s: GameStore, dto: GameFormDto, now: Time)
    requires Valid(s.table) && DtoValidation.GameFormValid(dto) && GenreKnown(s, dto)
    ensures var (resp, s') := Create(s, dto, now, Saved);
      && resp.status == Created
      && GetById(s', resp.body.id) == Response(Ok, Json(resp.body.value))
      && |GetAll(s', None, None).body.value| == |s.table.rows| + 1
  {
    var (resp, s') := Create(s, dto, now, Saved);
    MediaStore.UnfilteredListsEverything<Game, GameFormDto, GameListDto, GameDetailDto, PlayFilter>(s', Hooks, None);
    assert s'.table.rows.Keys == s.table.rows.Keys + {s.table.nextId};
  }
}
