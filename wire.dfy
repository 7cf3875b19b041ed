/** Fixed-width integers and the optional value used throughout the model.
    Go's uint8, uint16 and uint32 wrap around; the model keeps integers
    unbounded and writes every wrap-around out with the helpers below. */
module Wire {

  type uint8 = x: int | 0 <= x < 0x100
  type uint16 = x: int | 0 <= x < 0x1_0000
  type uint32 = x: int | 0 <= x < 0x1_0000_0000

  /** A byte slice ([]byte); nil and empty are not told apart. */
  type Bytes = seq<uint8>

  datatype Option<+T> = None | Some(value: T)

  /** Go's uint16 addition and conversion: the value modulo 2^16. */
  function Wrap16(x: nat): (r: uint16)
    ensures x < 0x1_0000 ==> r == x
  {
    x % 0x1_0000
  }

  /** Go's uint32 addition and conversion: the value modulo 2^32. */
  function Wrap32(x: nat): (r: uint32)
    ensures x < 0x1_0000_0000 ==> r == x
  {
    x % 0x1_0000_0000
  }
}
