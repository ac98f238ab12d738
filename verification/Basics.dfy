/** Types and helpers shared by every component of the stack. */
module Basics {

  const TWO16 := 0x1_0000
  const TWO31 := 0x8000_0000
  const TWO32 := 0x1_0000_0000
  const TWO63 := 0x8000_0000_0000_0000
  const TWO64 := 0x1_0000_0000_0000_0000

  newtype Byte = x: int | 0 <= x < 256
  type Bytes = seq<Byte>

  type U16 = x: int | 0 <= x < 0x1_0000
  type U32 = x: int | 0 <= x < 0x1_0000_0000

  /** The outcome of a call that may run for ever. `Hang` is the value of a call whose loop
      comes back to a configuration it has already been in, so that it never returns. */
  datatype Outcome<+T> = Done(value: T) | Hang

  datatype Option<+T> = None | Some(value: T)

  function Min(a: int, b: int): (m: int)
  {
    if a <= b then a else b
  }

  function Max(a: int, b: int): (m: int)
  {
    if a >= b then a else b
  }
}
