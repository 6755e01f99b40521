/** Option and Result types used across the model: `None` stands for a Java `null`,
    `Failure` for an exception the modelled code raises. */
module Wrappers {

  datatype Option<+T> = None | Some(value: T) {

    /** Returns the value held by Some, or `default` for None. */
    function GetOr(default: T): T {
      match this
      case Some(v) => v
      case None => default
    }
  }

  datatype Result<+R, +E> = Success(value: R) | Failure(error: E)

  /** The Java runtime exceptions that the modelled value code can raise. */
  datatype JavaError = NullPointer

  /** Java's signed 32-bit `int`. */
  type Int32 = x: int | -0x8000_0000 <= x < 0x8000_0000

  /** Java's signed 64-bit `long`. */
  type Int64 = x: int | -0x8000_0000_0000_0000 <= x < 0x8000_0000_0000_0000
}
