/** The HTTP answers the controllers produce: a status code and a body. */
module Http {
  import opened Table

  const Ok: nat := 200
  const Created: nat := 201
  const NoContent: nat := 204
  const BadRequest: nat := 400
  const NotFound: nat := 404
  const InternalServerError: nat := 500

  /** The body kinds the controllers send:
      - `Empty`: `NoContent()` and bare `NotFound()`;
      - `Json(value)`: `Ok(value)`;
      - `CreatedAt(id, value)`: `CreatedAtAction` pointing at the detail route of `id`;
      - `ModelStateErrors(fields)`: `BadRequest(ModelState)`, naming the failing fields;
      - `MessageJson(message)`: an anonymous `{ message }` object;
      - `Text(text)`: a plain string. */
  datatype Body<T> =
    | Empty
    | Json(value: T)
    | CreatedAt(id: Id, value: T)
    | ModelStateErrors(fields: seq<string>)
    | MessageJson(message: string)
    | Text(text: string)

  datatype Response<T> = Response(status: nat, body: Body<T>)

  /** A 2xx answer. */
  predicate IsSuccess<T>(r: Response<T>) {
    200 <= r.status < 300
  }
}
