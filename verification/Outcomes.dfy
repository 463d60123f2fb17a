/** The exceptions of the QR Code encoder as values. */
module Outcomes {

  datatype Error =
    | DegreeOutOfRange
    | NotNumeric
    | NotAlphanumeric
    | EciOutOfRange
    | DataTooLong
    | VersionOutOfRange
    | MaskOutOfRange
    | InvalidArgument
    | AssertionError

  datatype Result<+T> = Success(value: T) | Failure(error: Error)
}
