/** Optional values, used for the source's nullable fields and for readers
    that may reject their input. */
module Options {

  /** The three members below are what Dafny's `:-` needs: the readers
      stop at the first `None` and hand it on, retyped, to their caller. */
  datatype Option<+T> = None | Some(value: T) {

    predicate IsFailure() {
      None?
    }

    function PropagateFailure<U>(): Option<U>
      requires None?
    {
      None
    }

    function Extract(): T
      requires Some?
    {
      value
    }
  }
}
