/** The two kinds of exception the evaluator raises, and an optional value. */
module Results {

  /** FormatError: the expression failed the syntactic check.
      DomainError: a field value lies outside its bounds, or a range is inverted. */
  datatype CronError = FormatError | DomainError

  datatype Result<T> = Ok(value: T) | Err(error: CronError)

  datatype Option<T> = None | Some(value: T)
}
