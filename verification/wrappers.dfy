/** Failure-carrying datatypes shared by the whole model.
    - Option: a value that may be missing (Python's None).
    - Result: a value or the exception that replaced it.
    - Outcome: what a rule evaluator does when called: return normally, raise the
      domain fault signal, or raise any other error. */
module Wrappers {

  datatype Option<+T> = None | Some(value: T)

  datatype Result<+T, +E> = Success(value: T) | Failure(error: E)

  datatype Outcome<+F, +E> = Passed | Raised(fault: F) | Failed(error: E)

  /** Strictly increasing sequences of indices. */
  ghost predicate StrictlyIncreasing(s: seq<int>)
  {
    forall i, j :: 0 <= i < j < |s| ==> s[i] < s[j]
  }
}
