/** The optional value used wherever the C code returns or accepts a
    possibly-NULL pointer. */
module Wrappers {

  datatype Option<+T> = None | Some(value: T) {

    /** The first present value of `this` and `other`. */
    function OrElse(other: Option<T>): Option<T> {
      match this
      case Some(_) => this
      case None => other
    }
  }
}
