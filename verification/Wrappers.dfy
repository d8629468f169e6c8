/** Results of operations that can fail. */
module Wrappers {

  datatype Option<+T> = None | Some(value: T)

  /** `SelectorsOverrun` is no error the decoder reports: it says that a selector was to be
      written behind the end of its array, after which nothing is known. */
  datatype Error =
    | DataErrorMagic
    | DataError
    | UnexpectedEnd
    | Randomised
    | SelectorsOverrun

  datatype Result<+T> = Success(value: T) | Failure(error: Error) {
    predicate IsFailure() {
      Failure?
    }

    function PropagateFailure<U>(): Result<U>
      requires Failure?
    {
      Failure(error)
    }

    function Extract(): T
      requires Success?
    {
      value
    }
  }

  /** The outcome of reading a value from the front of a bit string: the value
      and the bits that follow it. */
  datatype Parse<+T> = Ok(value: T, rest: seq<bool>) | Fail(error: Error) {
    predicate IsFailure() {
      Fail?
    }

    function PropagateFailure<U>(): Parse<U>
      requires Fail?
    {
      Fail(error)
    }

    function Extract(): (T, seq<bool>)
      requires Ok?
    {
      (value, rest)
    }
  }

  /** A reader returned `r` and left `rest`, as `p` prescribes. */
  ghost predicate Agrees<T>(r: Result<T>, rest: seq<bool>, p: Parse<T>) {
    match p
    case Ok(value, left) => r == Success(value) && rest == left
    case Fail(error) => r == Failure(error)
  }

  /** Different objects, where their types do not tell. */
  ghost predicate Separate(a: object, b: object) {
    a != b
  }
}
