/** The two failure-carrying shapes the model uses in place of Java's null
    references and thrown exceptions. */
module Results {

  /** An optional value: `None` stands for a Java `null`. */
  datatype Option<T> = None | Some(value: T)

  /** The outcome of an operation that throws a Java exception on bad input. */
  datatype Result<T, E> = Success(value: T) | Failure(error: E)
}
