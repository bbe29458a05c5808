/** Shared vocabulary: optional values, fallible steps and the toasts of the generation buttons. */
module Common {

  /** A value that may be absent: TypeScript's `T | null` and optional properties. */
  datatype Option<T> = None | Some(value: T) {

    /** `x || default`-style fallback used by the forms. */
    function GetOr(default: T): T {
      match this
      case Some(v) => v
      case None => default
    }
  }

  /** The outcome of a call that can fail with a message (the text-generation service). */
  datatype Result<T> = Success(value: T) | Failure(message: string)

  /** What a generation button reports to the user. */
  datatype Notice =
    | ApiKeyNotSet
    | MissingInformation
    | Generated
    | GenerationFailed(message: string)

  /**
   * The guard in front of a generation request: return silently, refuse with a
   * notice, or go ahead with the request.
   */
  datatype Gate<R> = Silent | Refused(notice: Notice) | Proceed(request: R)

  /** `error.message || 'An error occurred'`. */
  function FailureNotice(message: string): (n: Notice)
    ensures n.GenerationFailed? && n.message != ""
    ensures message != "" ==> n.message == message
  {
    GenerationFailed(if message == "" then "An error occurred" else message)
  }
}
