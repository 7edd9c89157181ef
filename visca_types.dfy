/** Value types shared by the VISCA camera model: the fixed-width integers of
    C#, nullable references, and the exceptions the modelled code throws. */
module ViscaTypes {

  /** C#'s `byte`: an unsigned 8-bit value. */
  newtype byte = x: int | 0 <= x < 0x100

  /** C#'s `int`: a signed 32-bit value. */
  newtype int32 = x: int | -0x8000_0000 <= x < 0x8000_0000

  /** A C# reference that may be null. */
  datatype Option<+T> = None | Some(value: T)

  /** The exceptions thrown by the modelled code, one per message it builds. */
  datatype Error =
    | KeyNotFound(name: string)      // a dictionary lookup found no entry for `name`
    | NotValidForInt(name: string)   // the entry cannot be reshaped into 'int' range limits
    | NotUsableAsByte(name: string)  // the entry cannot be reshaped into 'byte' range limits
    | UnsupportedType(name: string)  // the value added under `name` is not range limits
    | PeriodOutOfRange(period: int32) // `Timer.Change` was given a negative period other than infinite

  /** The result of an operation that returns a value or throws. */
  datatype Result<+T> = Ok(value: T) | Err(error: Error)

  /** The result of an operation that returns nothing or throws. */
  datatype Outcome = Pass | Fail(error: Error)

  /** C#'s unchecked `(byte)` cast of an `int`: it keeps the low eight bits
      of the two's-complement representation, so the byte is congruent to
      the value modulo 256, and a value already in [0, 255] is unchanged. */
  function ToByte(x: int32): (b: byte)
    ensures (x as int - b as int) % 0x100 == 0
    ensures 0 <= x < 0x100 ==> b as int == x as int
  {
    (x as int % 0x100) as byte
  }
}
