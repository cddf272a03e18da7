/** The driver's error type and the result wrappers it is returned in. */
module Errors {

  /**
   * A failure of the bus transport (Comm) or of the chip-select pin (Pin).
   * The two causes stay apart and each carries the collaborator's own error value.
   */
  datatype Error<CommE, PinE> = Comm(comm: CommE) | Pin(pin: PinE)

  datatype Result<+T, +E> = Ok(value: T) | Err(error: E)

  datatype Option<+T> = None | Some(value: T)
}
