/**
 Shared vocabulary of the model: bytes, the errors the store and the
 operating system report, and the result shapes every operation returns.
 */
module Common {

  /** One octet of a file's contents. */
  newtype byte = x: int | 0 <= x < 256

  type Bytes = seq<byte>

  datatype Option<+T> = None | Some(value: T)

  /** The part of an OS error a caller can inspect (the errno of a PathError). */
  datatype Errno =
    | NoEntry        // ENOENT: os.IsNotExist is true only for this one
    | AlreadyExists  // EEXIST
    | NotADirectory  // ENOTDIR
    | IsADirectory   // EISDIR
    | NotEmpty       // ENOTEMPTY
    | LinkLoop       // ELOOP: more than MaxHops symbolic links on the way
    | Invalid        // EINVAL

  datatype Error =
    | PathError(path: string, errno: Errno)  // an error of an os call on `path`
    | Message(text: string)                  // an error built with fmt.Errorf
    | Json(detail: string)                   // an error of the JSON codec or the field lookup

  /** os.IsNotExist */
  predicate IsNotExist(e: Error) {
    e.PathError? && e.errno == NoEntry
  }

  datatype Result<+T> = Ok(value: T) | Err(error: Error)

  /** What an operation that returns only `error` in Go reports: nil or an error. */
  datatype Outcome = Pass | Fail(error: Error)

  /** An operation on a state `S` (a filesystem, a database, a pair of stores):
      the error it reports together with the state it leaves behind. */
  datatype Change<S> = Change(outcome: Outcome, state: S)
}
