/** `BaseMediaController`: the generic REST controller over the generic media
    service. Each action turns the service's outcome into a status and body;
    create and update first reject an invalid model state without calling
    the service. The concrete pieces a derived controller supplies are the
    id of a detail DTO (`GetIdFromDetailDto`), the media type name used in
    the concurrency answer (`GetMediaTypeName`), and the request validation. */
module BaseMediaController {
  import opened Wrappers
  import opened Table
  import opened Outcomes
  import opened Http
  import MediaStore

  /** What a derived controller supplies. */
  datatype Kind<!E, !F, L, !D> = Kind(
    hooks: MediaStore.Hooks<E, F, L, D>,
    idOf: D -> Id,
    mediaTypeName: string,
    modelErrors: F -> seq<string>)

  /** The fixed text of the catch-all update answer. */
  const InternalErrorMessage: string := "Internal server error"

  /** The text of the concurrency answer for a media type. */
  function NotFoundText(mediaTypeName: string): (r: string)
    ensures |r| == |mediaTypeName| + |" not found."|
    ensures r[..|mediaTypeName|] == mediaTypeName && r[|mediaTypeName|..] == " not found."
  {
    mediaTypeName + " not found."
  }

  // ----- outcome → answer tables -----

  /** The answer to a create, from what the service did. */
  function CreateAnswer<D>(o: Outcome<D>, idOf: D -> Id): (r: Response<D>)
    ensures o.Returned? <==> r.status == Created
    ensures o.Returned? ==> r.body == CreatedAt(idOf(o.value), o.value)
    ensures o.Threw? && o.failure.ArgumentError? ==> r == Response(BadRequest, MessageJson(o.failure.message))
    ensures o.Threw? && !o.failure.ArgumentError? ==> r == Response(InternalServerError, MessageJson(o.failure.message))
  {
    match o
    case Returned(created) => Response(Created, CreatedAt(idOf(created), created))
    case Threw(ArgumentError(m)) => Response(BadRequest, MessageJson(m))
    case Threw(f) => Response(InternalServerError, MessageJson(f.message))
  }

  /** The answer to an update, from what the service did. */
  function UpdateAnswer(o: Outcome<bool>, mediaTypeName: string): (r: Response<()>)
    ensures r.status == NoContent <==> o == Returned(true)
    ensures o == Returned(false) ==> r == Response(NotFound, Empty)
    ensures o.Threw? && o.failure.ArgumentError? ==> r == Response(BadRequest, MessageJson(o.failure.message))
    ensures o.Threw? && o.failure.ConcurrencyError? ==> r == Response(NotFound, Text(NotFoundText(mediaTypeName)))
    ensures o.Threw? && o.failure.OtherError? ==> r == Response(InternalServerError, MessageJson(InternalErrorMessage))
  {
    match o
    case Returned(updated) => if updated then Response(NoContent, Empty) else Response(NotFound, Empty)
    case Threw(ArgumentError(m)) => Response(BadRequest, MessageJson(m))
    case Threw(ConcurrencyError(_)) => Response(NotFound, Text(NotFoundText(mediaTypeName)))
    case Threw(OtherError(_)) => Response(InternalServerError, MessageJson(InternalErrorMessage))
  }

  /** The answer to a toggle or delete: 204 on true, 404 on false. */
  function FlagAnswer(done: bool): (r: Response<()>)
    ensures done <==> r.status == NoContent
    ensures !done <==> r.status == NotFound
    ensures r.body == Empty
  {
    if done then Response(NoContent, Empty) else Response(NotFound, Empty)
  }

  // ----- the actions over the store -----

  /** `GET /api/{kind}`: always 200 with the service's list. */
  function GetAll<E(!new), F, L, D, Flt>(s: MediaStore.Store<E>, k: Kind<E, F, L, D>, search: Option<string>, genreId: Option<Id>, filter: Option<Flt>): (r: Response<seq<L>>)
    requires Valid(s.table)
    ensures r.status == Ok && r.body.Json?
    ensures |r.body.value| == |MediaStore.MatchingIds(s, k.hooks, search, genreId)|
  {
    Response(Ok, Json(MediaStore.GetAll(s, k.hooks, search, genreId, filter)))
  }

  /** `GET /api/{kind}/{id}`: 404 for an absent id, else 200 with the detail. */
  function GetById<E, F, L, D>(s: MediaStore.Store<E>, k: Kind<E, F, L, D>, id: Id): (r: Response<D>)
    ensures r.status == NotFound <==> id !in s.table.rows
    ensures r.status == NotFound ==> r.body == Empty
    ensures r.status != NotFound ==> r.status == Ok && r.body == Json(MediaStore.GetById(s, k.hooks, id).value)
  {
    match MediaStore.GetById(s, k.hooks, id)
    case None => Response(NotFound, Empty)
    case Some(item) => Response(Ok, Json(item))
  }

  /** `POST /api/{kind}`. */
  function Create<E, F, L, D>(s: MediaStore.Store<E>, k: Kind<E, F, L, D>, dto: F, now: MediaStore.Time, commit: Commit): (r: (Response<D>, MediaStore.Store<E>))
    requires Valid(s.table)
    ensures k.modelErrors(dto) != [] ==> r == (Response(BadRequest, ModelStateErrors(k.modelErrors(dto))), s)
    ensures k.modelErrors(dto) == [] ==>
      var (o, s') := MediaStore.Create(s, k.hooks, dto, now, commit);
      r == (CreateAnswer(o, k.idOf), s')
  {
    if k.modelErrors(dto) != [] then (Response(BadRequest, ModelStateErrors(k.modelErrors(dto))), s)
    else
      var (o, s') := MediaStore.Create(s, k.hooks, dto, now, commit);
      (CreateAnswer(o, k.idOf), s')
  }

  /** `PUT /api/{kind}/{id}`. */
  function Update<E, F, L, D>(s: MediaStore.Store<E>, k: Kind<E, F, L, D>, id: Id, dto: F, commit: Commit): (r: (Response<()>, MediaStore.Store<E>))
    requires Valid(s.table)
    ensures k.modelErrors(dto) != [] ==> r == (Response(BadRequest, ModelStateErrors(k.modelErrors(dto))), s)
    ensures k.modelErrors(dto) == [] ==>
      var (o, s') := MediaStore.Update(s, k.hooks, id, dto, commit);
      r == (UpdateAnswer(o, k.mediaTypeName), s')
  {
    if k.modelErrors(dto) != [] then (Response(BadRequest, ModelStateErrors(k.modelErrors(dto))), s)
    else
      var (o, s') := MediaStore.Update(s, k.hooks, id, dto, commit);
      (UpdateAnswer(o, k.mediaTypeName), s')
  }

  /** `PATCH /api/{kind}/{id}/status`. */
  function ToggleStatus<E, F, L, D>(s: MediaStore.Store<E>, k: Kind<E, F, L, D>, id: Id, now: MediaStore.Time): (r: (Response<()>, MediaStore.Store<E>))
    requires Valid(s.table)
    ensures r.0.status == NoContent <==> id in s.table.rows
    ensures r.0.status == NotFound <==> id !in s.table.rows
    ensures r.1 == MediaStore.ToggleStatus(s, k.hooks, id, now).1
  {
    var (done, s') := MediaStore.ToggleStatus(s, k.hooks, id, now);
    (FlagAnswer(done), s')
  }

  /** `DELETE /api/{kind}/{id}`. */
  function Delete<E, F, L, D>(s: MediaStore.Store<E>, k: Kind<E, F, L, D>, id: Id): (r: (Response<()>, MediaStore.Store<E>))
    requires Valid(s.table)
    ensures r.0.status == NoContent <==> id in s.table.rows
    ensures r.0.status == NotFound <==> id !in s.table.rows
    ensures r.1 == MediaStore.Delete(s, id).1
  {
    var (done, s') := MediaStore.Delete(s, id);
    (FlagAnswer(done), s')
  }

  // ----- properties across the actions -----

  /** A create changes the store exactly when it answers 201, and then by
      exactly one new record, which the answer's location and body describe. */
  lemma {:induction false} CreateChangesStoreIffCreated<E, F, L, D>(s: MediaStore.Store<E>, k: Kind<E, F, L, D>, dto: F, now: MediaStore.Time, commit: Commit)
    requires Valid(s.table)
    requires forall id, e, g :: k.idOf(k.hooks.mapToDetailDto(id, e, g)) == id
    ensures var (resp, s') := Create(s, k, dto, now, commit);
      && (resp.status != Created ==> s' == s)
      && (resp.status == Created ==>
            && |s'.table.rows| == |s.table.rows| + 1
            && resp.body.id == s.table.nextId
            && GetById(s', k, resp.body.id) == Response(Ok, Json(resp.body.value)))
  {
    var (resp, s') := Create(s, k, dto, now, commit);
    if k.modelErrors(dto) == [] {
      var (o, s2) := MediaStore.Create(s, k.hooks, dto, now, commit);
      if o.Returned? {
        var id := s.table.nextId;
        assert o.value == MediaStore.GetById(s2, k.hooks, id).value;
        assert k.idOf(o.value) == id;
      }
    }
  }

  /** An update changes the store only when it answers 204. */
  lemma {:induction false} UpdateChangesStoreOnlyOnNoContent<E, F, L, D>(s: MediaStore.Store<E>, k: Kind<E, F, L, D>, id: Id, dto: F, commit: Commit)
    requires Valid(s.table)
    ensures var (resp, s') := Update(s, k, id, dto, commit);
      && (resp.status != NoContent ==> s' == s)
      && (resp.status == NoContent ==> id in s.table.rows && s'.table.rows.Keys == s.table.rows.Keys)
  {
    var (resp, s') := Update(s, k, id, dto, commit);
    if k.modelErrors(dto) == [] {
      var (o, s2) := MediaStore.Update(s, k.hooks, id, dto, commit);
      assert resp == UpdateAnswer(o, k.mediaTypeName);
      if resp.status == NoContent {
        assert o == Returned(true);
      }
    }
  }

  /** Every failure an update can raise gets a 4xx or 5xx answer, never a success. */
  lemma UpdateFailuresAreErrors(f: Failure, mediaTypeName: string)
    ensures UpdateAnswer(Threw(f), mediaTypeName).status in {BadRequest, NotFound, InternalServerError}
  {
  }
}
