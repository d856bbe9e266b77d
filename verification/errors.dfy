/** Error codes and results shared by the kernel components. */
module Errors {

  datatype Error =
    | Success
    | Full
    | NoEnoughMemory
    | IndexOutOfRange
    | InvalidSlotID
    | AlreadyAllocated
    | InvalidPhase
    | UnknownXHCISpeedID
    | NoSuchTask
    | NoSuchEntry

  /** A value paired with an error code; the value is meaningful when the error is Success. */
  datatype WithError<+T> = WithError(value: T, error: Error)

  datatype Option<+T> = None | Some(value: T)
}
