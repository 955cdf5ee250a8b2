/** What every part of the model shares. */
module Basics {

  datatype Option<+T> = None | Some(value: T)

  const U64_RANGE: nat := 0x1_0000_0000_0000_0000
  const U256_RANGE: nat := 0x1_0000000000000000_0000000000000000_0000000000000000_0000000000000000
}
