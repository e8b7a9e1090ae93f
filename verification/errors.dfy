/** Go's error values as this code creates and passes them on, plus the
    Option and Result shapes used throughout the model. */
module Errors {

  datatype Option<T> = None | Some(value: T)

  /** An error value.
      - `Foreign`: an error produced by a collaborator (database driver,
        OAuth2 library, Gmail client); this code never inspects its text.
      - `New`: `errors.New(text)`, or `fmt.Errorf` without a `%w` verb, which
        yields a plain error with the formatted text and no cause.
      - `Wrap`: `fmt.Errorf("context: %w", cause)`, which keeps its cause. */
  datatype Error =
    | Foreign(text: string)
    | New(text: string)
    | Wrap(context: string, cause: Error)

  /** A Go `(value, error)` pair where the value is meaningful only when the
      error is nil. */
  datatype Result<T> = Ok(value: T) | Err(error: Error)

  /** The text `err.Error()` returns. */
  function Message(e: Error): string
  {
    match e
    case Foreign(t) => t
    case New(t) => t
    case Wrap(c, inner) => c + ": " + Message(inner)
  }

  /** `errors.Unwrap`. */
  function Unwrap(e: Error): Option<Error>
  {
    if e.Wrap? then Some(e.cause) else None
  }

  /** `fmt.Errorf(context + ": %v", cause)`: the cause's text is kept, the
      cause itself is not. */
  function Flatten(context: string, cause: Error): (e: Error)
    ensures Message(e) == context + ": " + Message(cause)
    ensures Unwrap(e) == None
  {
    New(context + ": " + Message(cause))
  }

  /** `fmt.Errorf(context + ": %w", cause)`: same text as `Flatten`, but the
      cause stays reachable through `Unwrap`. */
  function Wrapf(context: string, cause: Error): (e: Error)
    ensures Message(e) == context + ": " + Message(cause)
    ensures Unwrap(e) == Some(cause)
  {
    Wrap(context, cause)
  }
}
