/** Small types that several parts share. */
module Wrappers {

  datatype Option<+T> = None | Some(value: T)

  datatype Result<+T, +E> = Ok(value: T) | Err(error: E)

  /** What a database does with a statement or a commit: it takes effect, it fails, or it takes effect
      although the client sees an error. */
  datatype CommitAnswer = Commits | Fails | CommitsUnseen

  function Elements<T>(s: seq<T>): set<T> {
    set x | x in s
  }
}
