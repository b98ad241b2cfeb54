/** The one way preprocessing can abort: an `unreachable!()` panic raised when
    the font source hands the recorder a cubic segment. */
module Panics {

  datatype Fault = CubicSegment

  /** A computation that either completes or panics. Usable with `:-`. */
  datatype Result<+T> = Done(value: T) | Panicked(fault: Fault) {

    predicate IsFailure() {
      Panicked?
    }

    function PropagateFailure<U>(): Result<U>
      requires Panicked?
    {
      Panicked(fault)
    }

    function Extract(): T
      requires Done?
    {
      value
    }
  }
}
