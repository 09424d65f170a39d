/** How server operations end: with a value, or by throwing one of the
    exception kinds the controllers tell apart. */
module Outcomes {

  /** The exception kinds the controllers catch separately. */
  datatype Failure =
    | ArgumentError(message: string)     // System.ArgumentException
    | ConcurrencyError(message: string)  // DbUpdateConcurrencyException
    | OtherError(message: string)        // any other exception

  /** A service call either returns a value or throws. */
  datatype Outcome<+T> = Returned(value: T) | Threw(failure: Failure)

  /** What `SaveChangesAsync` does, decided by the persistence layer outside
      this model: it commits, or throws a concurrency or other database error. */
  datatype Commit = Saved | ConcurrencyConflict(message: string) | DatabaseError(message: string)

  /** The exception a failed commit throws. */
  function CommitFailure(c: Commit): (f: Failure)
    requires !c.Saved?
    ensures c.ConcurrencyConflict? <==> f.ConcurrencyError?
    ensures !f.ArgumentError?
    ensures f.message == c.message
  {
    match c
    case ConcurrencyConflict(m) => ConcurrencyError(m)
    case DatabaseError(m) => OtherError(m)
  }
}
