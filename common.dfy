/** Values shared by the whole model: optional values, the exceptions the
    builder raises, results that carry them, and bytes. */
module Common {

  datatype Option<T> = None | Some(value: T)

  /** AptRepoException carries a message and, where the source wraps another
      AptRepoException, that exception as its cause. Causes that are library
      exceptions are not kept. NullPointerException is the one JDK exception
      the builder lets escape unwrapped. */
  datatype Exception =
    | AptRepoException(message: string, cause: Option<Exception>)
    | NullPointerException

  /** An AptRepoException without a cause (or with a dropped library cause). */
  function Raise(message: string): Exception
  {
    AptRepoException(message, None)
  }

  /** The value of a call that either returns or throws. */
  datatype Result<T> = Ok(value: T) | Err(error: Exception)

  /** The value of a void call that either returns or throws. */
  datatype Outcome = Pass | Fail(error: Exception)

  newtype byte = x: int | 0 <= x < 256

  type Bytes = seq<byte>
}
