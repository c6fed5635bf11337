/** Results, options and the error vocabulary shared by every other module. */
module Basics {
  datatype Option<+T> = None | Some(value: T)

  /** Go's `(value, err)` pairs. The members make `:-` propagate an error to the caller. */
  datatype Result<+T> = Ok(value: T) | Err(error: Error) {
    predicate IsFailure() {
      Err?
    }

    function PropagateFailure<U>(): Result<U>
      requires Err?
    {
      Err(error)
    }

    function Extract(): T
      requires Ok?
    {
      value
    }
  }

  datatype Error =
    | ItemNotFound | ValueFieldNotFound | UserAlreadyHasWallet | WalletAlreadyUsed
    | BadSignature | MalformedSignature | RuntimePanic
    | ArticleNotFound | Unauthenticated(cause: Error) | Unauthorized
    | TokenMissing | RemoteFailure | Conflict
}
