module Wrappers {

  datatype Option<+T> = None | Some(value: T)

  /** How a step ends: in the ordinary way, by raising an exception, or never, waiting for a reply. */
  datatype Status = Done | Raised | Stuck
  {
    predicate IsFailure() {
      !Done?
    }

    function PropagateFailure(): Status {
      this
    }
  }
}
