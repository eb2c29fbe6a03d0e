/** Outcome types shared by every module of the model. */
module Base {

  datatype Option<+T> = None | Some(value: T)

  /** The value of a Python call that either returns or raises. */
  datatype Result<+T, +E> = Success(value: T) | Failure(error: E)

  /** The uncaught Python exceptions the modelled code can raise. */
  datatype PyError =
    | StopIteration  // next() on an exhausted line iterator
    | ValueError     // float()/int() of a malformed token, unpacking of the wrong arity, max([])
    | IndexError     // a list index outside the list

  /** Python's float() on one token: the model does not fix the float syntax, it takes the
      conversion as a parameter and reads None as a ValueError. */
  type FloatParser = string -> Option<real>
}
