/** Values shared by the message and item halves of the lost-and-found backend. */
module Common {

  datatype Option<+T> = None | Some(value: T)

  datatype Result<+T, +E> = Ok(value: T) | Err(error: E)

  /** A reading of the server clock (`LocalDateTime.now()`); the model takes it as a parameter. */
  type Timestamp = int

  /** The authenticated caller: `None` stands for a request without a principal. */
  type Principal = Option<string>

  /** Why a repository `save` refused an entity. */
  datatype StoreError =
    | NullColumn    // a `nullable = false` column would hold null
    | StaleEntity   // the entity carries an id that names no stored row

  /** An HTTP response: status code and body. */
  datatype Response<+B> = Response(status: nat, body: B)

  const OK: nat := 200
  const CREATED: nat := 201
  const NO_CONTENT: nat := 204
  const BAD_REQUEST: nat := 400
  const UNAUTHORIZED: nat := 401
  const FORBIDDEN: nat := 403
  const NOT_FOUND: nat := 404
  const SERVER_ERROR: nat := 500

  const UNAUTHENTICATED: string := "Unauthenticated"
}
