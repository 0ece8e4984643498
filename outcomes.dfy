/** The optional value (`Maybe`) and the thrown-or-returned outcome used by
    the model where the source either returns a value or raises. */
module Outcomes {

  datatype Option<+T> = None | Some(value: T)

  /** `Ok` for a returned value, `Err` for a thrown `LogicException` with its message. */
  datatype Result<+T> = Ok(value: T) | Err(message: string)
}
