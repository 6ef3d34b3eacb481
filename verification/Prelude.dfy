/** Types and sequence facts shared by every component of the model. */
module Prelude {

  type byte = x: int | 0 <= x < 256

  type Bytes = seq<byte>

  /** What is left of a number in 32 and in 64 bits. */
  function Wrap32(n: int): nat {
    n % 0x1_0000_0000
  }

  function Wrap64(n: int): nat {
    n % 0x1_0000_0000_0000_0000
  }

  function Min(a: nat, b: nat): nat {
    if a <= b then a else b
  }

  const TWO_TO_THE_32 := 0x1_0000_0000
  const TWO_TO_THE_64 := 0x1_0000_0000_0000_0000

  datatype Option<+T> = None | Some(value: T)

  datatype Result<+T> = Ok(value: T) | Err(error: string)
}
