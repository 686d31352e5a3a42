/** Values standing in for Java's `null` and for the exceptions the engine throws. */
module Wrappers {

  /** A value that may be absent (`null` in the Java code). */
  datatype Option<+T> = None | Some(value: T)

  /** Either a value, or the failure the Java code reports by throwing; `message`
      is the message the Java code gives the exception, or the exception's
      class name where the code gives none or the JDK builds it. */
  datatype Result<+T> = Ok(value: T) | Err(message: string) {
    predicate IsFailure() { Err? }

    function PropagateFailure<U>(): Result<U>
      requires Err?
    {
      Err(message)
    }

    function Extract(): T
      requires Ok?
    {
      value
    }
  }
}
