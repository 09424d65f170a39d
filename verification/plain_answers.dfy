/** The answer tables the concrete controllers (`MoviesController`,
    `GamesController`, `GenresController`) share. Unlike the generic base
    controller they send exception messages as plain text rather than as a
    `{ message }` object. */
module PlainAnswers {
  import opened Table
  import opened Outcomes
  import opened Http

  /** The fixed text of the catch-all update answer. */
  const InternalErrorText: string := "Internal server error"

  /** The concurrency answer text naming a media kind, as in "Movie not found". */
  function NotFoundText(kind: string): (r: string)
    ensures |r| == |kind| + |" not found"|
    ensures r[..|kind|] == kind && r[|kind|..] == " not found"
  {
    kind + " not found"
  }

  /** The answer to a create: 201 pointing at the new id, 400 with the text
      of an argument error, 500 with the text of any other failure. */
  function CreateAnswer<D>(o: Outcome<D>, idOf: D -> Id): (r: Response<D>)
    ensures o.Returned? <==> r.status == Created
    ensures o.Returned? ==> r.body == CreatedAt(idOf(o.value), o.value)
    ensures o.Threw? && o.failure.ArgumentError? ==> r == Response(BadRequest, Text(o.failure.message))
    ensures o.Threw? && !o.failure.ArgumentError? ==> r == Response(InternalServerError, Text(o.failure.message))
  {
    match o
    case Returned(created) => Response(Created, CreatedAt(idOf(created), created))
    case Threw(ArgumentError(m)) => Response(BadRequest, Text(m))
    case Threw(f) => Response(InternalServerError, Text(f.message))
  }

  /** The answer to a media update: 204 on true, 404 on false, 400 with the
      text of an argument error, 404 with `notFoundText` on a concurrency
      failure, 500 with a fixed text otherwise. */
  function UpdateAnswer(o: Outcome<bool>, notFoundText: string): (r: Response<()>)
    ensures r.status == NoContent <==> o == Returned(true)
    ensures o == Returned(false) ==> r == Response(NotFound, Empty)
    ensures o.Threw? && o.failure.ArgumentError? ==> r == Response(BadRequest, Text(o.failure.message))
    ensures o.Threw? && o.failure.ConcurrencyError? ==> r == Response(NotFound, Text(notFoundText))
    ensures o.Threw? && o.failure.OtherError? ==> r == Response(InternalServerError, Text(InternalErrorText))
  {
    match o
    case Returned(updated) => if updated then Response(NoContent, Empty) else Response(NotFound, Empty)
    case Threw(ArgumentError(m)) => Response(BadRequest, Text(m))
    case Threw(ConcurrencyError(_)) => Response(NotFound, Text(notFoundText))
    case Threw(OtherError(_)) => Response(InternalServerError, Text(InternalErrorText))
  }

  /** The answer to a toggle or delete: 204 on true, 404 on false. */
  function FlagAnswer(done: bool): (r: Response<()>)
    ensures done <==> r.status == NoContent
    ensures !done <==> r.status == NotFound
    ensures r.body == Empty
  {
    if done then Response(NoContent, Empty) else Response(NotFound, Empty)
  }

  /** The answer to a lookup: 404 for null, else 200 with the item. */
  function FindAnswer<D>(item: Option<D>): (r: Response<D>)
    ensures item.None? <==> r.status == NotFound
    ensures item.None? ==> r.body == Empty
    ensures item.Some? ==> r == Response(Ok, Json(item.value))
  {
    match item
    case None => Response(NotFound, Empty)
    case Some(x) => Response(Ok, Json(x))
  }

  import opened Wrappers
}
