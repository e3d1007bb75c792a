/** Failure-carrying results shared by every module of the model. Go's
    `(value, error)` pairs become `Result`, and "value or nothing" lookups
    become `Option`. */
module Wrappers {

  datatype Option<+T> = None | Some(value: T)

  /** An operation that either produced a value or failed with a message. */
  datatype Result<+T> = Ok(value: T) | Err(error: string) {
    predicate IsFailure() { Err? }

    function PropagateFailure<U>(): Result<U>
      requires Err?
    {
      Err(error)
    }

    function Extract(): T
      requires Ok?
    {
      value
    }
  }

  /** A Go function that returns only an `error`: nil becomes `Pass`. */
  datatype Outcome = Pass | Fail(error: string)

  /** A non-empty set has a member to pick, as a Go map range does. */
  lemma SomeMember(s: set<int>)
    requires s != {}
    ensures exists k :: k in s
  {
    if forall k :: k !in s {
      assert false;
    }
  }
}
