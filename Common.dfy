/** Types shared by the histogram estimator and the relational operators. */
module Common {

  /** The comparison operators of a selection, join or cardinality query. */
  datatype PredicateOp = EQ | NE | LT | LE | GT | GE

  /** The two exception kinds the core raises: std::invalid_argument, and a failed
      schema lookup by name. */
  datatype Error = InvalidArgument(message: string) | UnknownField(name: string)

  datatype Option<T> = None | Some(value: T)

  /** A value, or the exception that aborted its computation. */
  datatype Result<T> = Ok(value: T) | Err(error: Error)
}
