/** Small value types shared by the rest of the model. */
module Types {

  /** One byte on the MIDI wire, as an unsigned value. */
  type Byte = x: int | 0 <= x < 0x100

  /** The low eight bits of an int: what a store of an int into a `char` keeps. */
  function LowByte(x: int): (b: Byte)
    ensures 0 <= x < 0x100 ==> b == x
    ensures (b - x) % 0x100 == 0
  {
    x % 0x100
  }

  datatype Option<+T> = None | Some(value: T)

  /** An `MMRESULT` of the multimedia driver: `MMSYSERR_NOERROR` or an error code. */
  datatype Status = NoError | Error(code: int)
}
