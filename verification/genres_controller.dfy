/** `GenresController`: the REST actions over the genre directory. Exception
    messages go out as plain text; unlike the media controllers an update has
    no concurrency branch, so a concurrency failure answers 500 with the
    exception's own message. The request is validated by the annotations on
    the genre request body: a required name of at most 50 characters. */
module GenresController {
  import opened Wrappers
  import opened Table
  import opened Outcomes
  import opened Http
  import opened GenreService
  import DtoValidation
  import PlainAnswers

  const NameMaxLength: nat := 50

  /** The fields of a genre request that fail their annotations. */
  function GenreFormErrors(dto: GenreDto): (r: seq<string>)
    ensures |r| <= 1
    ensures "Name" in r <==> !(DtoValidation.RequiredOk(dto.name) && |dto.name| <= NameMaxLength)
  {
    if DtoValidation.RequiredOk(dto.name) && |dto.name| <= NameMaxLength then [] else ["Name"]
  }

  /** `GET /api/genres`: always 200 with the service's list, the two query
      narrowings passed through unchanged. */
  function GetAll(d: Directory, mediaTypeId: Option<MediaTypeId>, isActive: Option<bool>): (r: Response<seq<GenreListDto>>)
    requires ValidDirectory(d)
    ensures r.status == Ok && r.body.Json?
    ensures |r.body.value| == |MatchingIds(d, mediaTypeId, isActive)|
    ensures forall id :: id in MatchingIds(d, mediaTypeId, isActive) ==> ListItem(d, id) in r.body.value
    ensures forall x :: x in r.body.value ==> exists id :: id in MatchingIds(d, mediaTypeId, isActive) && x == ListItem(d, id)
    ensures forall i, j :: 0 <= i < j < |r.body.value| ==> r.body.value[i].order <= r.body.value[j].order
  {
    Response(Ok, Json(GenreService.GetAll(d, mediaTypeId, isActive)))
  }

  /** `GET /api/genres/{id}`: 404 for an absent id, else 200 with the detail. */
  function GetById(d: Directory, id: Id): (r: Response<GenreDetailDto>)
    requires ValidDirectory(d)
    ensures r.status == NotFound <==> id !in d.genres.rows
    ensures id !in d.genres.rows ==> r.body == Empty
    ensures id in d.genres.rows ==> r == Response(Ok, Json(Detail(d, id)))
  {
    PlainAnswers.FindAnswer(GenreService.GetById(d, id))
  }

  /** `POST /api/genres`. An invalid model or an invalid media type list
      answers 400 and changes nothing; a failed first save answers 500 and
      changes nothing; a failed second save answers 500 although the genre
      stays stored without associations; otherwise 201 with the new detail. */
  function Create(d: Directory, dto: GenreDto, now: Time, first: Commit, second: Commit): (r: (Response<GenreDetailDto>, Directory))
    requires ValidDirectory(d)
    ensures ValidDirectory(r.1) && r.1.mediaTypes == d.mediaTypes
    ensures GenreFormErrors(dto) != [] ==> r == (Response(BadRequest, ModelStateErrors(GenreFormErrors(dto))), d)
    ensures GenreFormErrors(dto) == [] && !MediaTypesValid(d.mediaTypes, dto.mediaTypeIds) ==>
      r == (Response(BadRequest, Text(InvalidMediaTypesMessage)), d)
    ensures GenreFormErrors(dto) == [] && MediaTypesValid(d.mediaTypes, dto.mediaTypeIds) && !first.Saved? ==>
      r == (Response(InternalServerError, Text(first.message)), d)
    ensures GenreFormErrors(dto) == [] && MediaTypesValid(d.mediaTypes, dto.mediaTypeIds) && first.Saved? && !second.Saved? ==>
      && r.0 == Response(InternalServerError, Text(second.message))
      && r.1.genres.rows == d.genres.rows[d.genres.nextId := NewGenre(dto, now, [])]
    ensures GenreFormErrors(dto) == [] && MediaTypesValid(d.mediaTypes, dto.mediaTypeIds) && first.Saved? && second.Saved? ==>
      var id := d.genres.nextId;
      && id !in d.genres.rows
      && r.1.genres.rows == d.genres.rows[id := NewGenre(dto, now, NumberedLinks(dto.mediaTypeIds))]
      && r.0 == Response(Created, CreatedAt(id, Detail(r.1, id)))
  {
    var errors := GenreFormErrors(dto);
    if errors != [] then (Response(BadRequest, ModelStateErrors(errors)), d)
    else
      var (o, d') := GenreService.Create(d, dto, now, first, second);
      (PlainAnswers.CreateAnswer(o, (x: GenreDetailDto) => x.id), d')
  }

  /** The answer to a genre update: 204 on true, 404 on false, 400 with the
      text of an argument error, and 500 with the text of any other failure,
      a concurrency failure included. */
  function UpdateAnswer(o: Outcome<bool>): (r: Response<()>)
    ensures r.status == NoContent <==> o == Returned(true)
    ensures o == Returned(false) ==> r == Response(NotFound, Empty)
    ensures o.Threw? && o.failure.ArgumentError? ==> r == Response(BadRequest, Text(o.failure.message))
    ensures o.Threw? && !o.failure.ArgumentError? ==> r == Response(InternalServerError, Text(o.failure.message))
  {
    match o
    case Returned(updated) => if updated then Response(NoContent, Empty) else Response(NotFound, Empty)
    case Threw(ArgumentError(m)) => Response(BadRequest, Text(m))
    case Threw(f) => Response(InternalServerError, Text(f.message))
  }

  /** `PUT /api/genres/{id}`. An invalid model answers 400; an absent id 404
      before the media types are looked at; an invalid media type list 400; a
      failed commit 500 with its message. Only a 204 changes the directory. */
  function Update(d: Directory, id: Id, dto: GenreDto, now: Time, commit: Commit): (r: (Response<()>, Directory))
    requires ValidDirectory(d)
    ensures ValidDirectory(r.1) && r.1.mediaTypes == d.mediaTypes
    ensures GenreFormErrors(dto) != [] ==> r == (Response(BadRequest, ModelStateErrors(GenreFormErrors(dto))), d)
    ensures GenreFormErrors(dto) == [] && id !in d.genres.rows ==> r == (Response(NotFound, Empty), d)
    ensures GenreFormErrors(dto) == [] && id in d.genres.rows && !MediaTypesValid(d.mediaTypes, dto.mediaTypeIds) ==>
      r == (Response(BadRequest, Text(InvalidMediaTypesMessage)), d)
    ensures GenreFormErrors(dto) == [] && id in d.genres.rows && MediaTypesValid(d.mediaTypes, dto.mediaTypeIds) && !commit.Saved? ==>
      r == (Response(InternalServerError, Text(commit.message)), d)
    ensures GenreFormErrors(dto) == [] && id in d.genres.rows && MediaTypesValid(d.mediaTypes, dto.mediaTypeIds) && commit.Saved? ==>
      && r.0 == Response(NoContent, Empty)
      && r.1.genres.rows == d.genres.rows[id := Genre(dto.name, dto.order, dto.isActive, d.genres.rows[id].createdAt,
                                                       Some(now), NumberedLinks(dto.mediaTypeIds))]
  {
    var errors := GenreFormErrors(dto);
    if errors != [] then (Response(BadRequest, ModelStateErrors(errors)), d)
    else
      var (o, d') := GenreService.Update(d, id, dto, now, commit);
      (UpdateAnswer(o), d')
  }

  /** `DELETE /api/genres/{id}`: 404 and no change for an absent id; otherwise
      204 and exactly that genre is gone. */
  function Delete(d: Directory, id: Id): (r: (Response<()>, Directory))
    requires ValidDirectory(d)
    ensures r.0.body == Empty
    ensures r.0.status == NotFound <==> id !in d.genres.rows
    ensures id !in d.genres.rows ==> r.1 == d
    ensures id in d.genres.rows ==>
      r.0.status == NoContent && r.1.genres.rows == map k | k in d.genres.rows && k != id :: d.genres.rows[k]
  {
    var (done, d') := GenreService.Delete(d, id);
    (PlainAnswers.FlagAnswer(done), d')
  }

  // ----- properties across the actions -----

  /** A concurrency failure of a genre update is a server error carrying the
      exception text, where a media update answers 404 with a fixed text. */
  lemma ConcurrencyIsServerError(message: string)
    ensures UpdateAnswer(Threw(ConcurrencyError(message))) == Response(InternalServerError, Text(message))
    ensures PlainAnswers.UpdateAnswer(Threw(ConcurrencyError(message)), "Movie not found").status == NotFound
  {
  }

  /** A genre request naming a media type twice is refused with 400 and the
      directory is left alone, whatever the name. */
  lemma {:induction false} DuplicateMediaTypeRefused(d: Directory, dto: GenreDto, now: Time, first: Commit, second: Commit)
    requires ValidDirectory(d) && GenreFormErrors(dto) == []
    requires |dto.mediaTypeIds| == 2 && dto.mediaTypeIds[0] == dto.mediaTypeIds[1]
    ensures Create(d, dto, now, first, second) == (Response(BadRequest, Text(InvalidMediaTypesMessage)), d)
  {
    MediaTypesValidIff(d.mediaTypes, dto.mediaTypeIds);
  }

  /** After a fully committed create, the location the 201 answer points at
      serves the request's media types in request order, numbered from 1. */
  lemma {:induction false} CreatedGenreIsServed(d: Directory, dto: GenreDto, now: Time)
    requires ValidDirectory(d) && GenreFormErrors(dto) == [] && MediaTypesValid(d.mediaTypes, dto.mediaTypeIds)
    ensures var (resp, d') := Create(d, dto, now, Saved, Saved);
      && resp.status == Created
      && GetById(d', resp.body.id) == Response(Ok, Json(resp.body.value))
      && |resp.body.value.mediaTypes| == |dto.mediaTypeIds|
      && forall i :: 0 <= i < |dto.mediaTypeIds| ==>
           resp.body.value.mediaTypes[i].mediaTypeId == dto.mediaTypeIds[i] && resp.body.value.mediaTypes[i].order == i + 1
  {
    CreateKeepsRequestOrder(d, dto, now);
  }
}
