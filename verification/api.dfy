/** What a handler hands back: the document store after the call and either a
    success status with its payload or the error it throws. */
module Api {

  /** MongoDB document identifiers. */
  type ObjectId = nat

  /** An error a handler throws: either the application's own `ApiError`
      carrying an HTTP status and a message, or an exception raised by a
      library (database driver, token verifier) that carries no status. */
  datatype Failure =
    | ApiError(status: int, message: string)
    | Rejection(cause: string)

  datatype Reply<+T> = Ok(status: int, data: T) | Err(failure: Failure)

  datatype Step<+S, +T> = Step(store: S, reply: Reply<T>)

  /** Inserting a document whose `_id` is already taken makes the driver
      throw its duplicate-key error. Newly generated identifiers never collide
      in practice; the model keeps the branch rather than assuming freshness. */
  const DuplicateKey := Rejection("E11000 duplicate key error")
}
