/** Optional values, fatal outcomes and a sequence fact shared by the CSV
    parser modules. */
module Results {

  /** A value that may be absent (the parser's "no weight seen" state). */
  datatype Option<T> = None | Some(value: T)

  /** The outcome of an operation whose failure the source reports with
      CHECK or LOG(FATAL), which abort the parse. */
  datatype Result<T, E> = Ok(value: T) | Err(error: E)

  /** Concatenation is associative (the solver needs this step spelled out
      in the inductions over appended label columns and weights). */
  lemma AppendAssoc<T>(a: seq<T>, b: seq<T>, c: seq<T>)
    ensures a + b + c == a + (b + c)
  {
  }
}
