// Results of operations that may have no value, or that throw.
module Options {
  datatype Option<+T> = None | Some(value: T) {
    predicate IsFailure() {
      None?
    }

    function PropagateFailure<U>(): Option<U>
      requires None?
    {
      None
    }

    function Extract(): T
      requires Some?
    {
      value
    }
  }

  // `Threw` stands for an exception that leaves the operation.
  datatype Outcome<+T> = Returned(value: T) | Threw
}
