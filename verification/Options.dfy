/** Results that may be absent. */
module Options {

  datatype Option<+T> = None | Some(value: T) {
    predicate IsFailure() {
      None?
    }

    function PropagateFailure<U>(): (r: Option<U>)
      requires None?
    {
      None
    }

    function Extract(): (t: T)
      requires Some?
    {
      value
    }
  }
}
