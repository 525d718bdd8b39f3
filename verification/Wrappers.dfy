/** The two result types shared by every module. */
module Wrappers {

  datatype Option<+T> = None | Some(value: T)

  /** The outcome of code that holds C `assert`s: either it ran to its end, or an assert stopped it. */
  datatype Result<+T> = Ok(value: T) | Aborted {

    predicate IsFailure() {
      Aborted?
    }

    function PropagateFailure<U>(): Result<U>
      requires Aborted?
    {
      Aborted
    }

    function Extract(): T
      requires Ok?
    {
      value
    }
  }
}
