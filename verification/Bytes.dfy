/** Types shared by the whole model. */
module Bytes {
  newtype byte = x: int | 0 <= x < 256

  type Bytes = seq<byte>

  datatype Option<+T> = None | Some(value: T)

  function Min(a: nat, b: nat): (r: nat) {
    if a <= b then a else b
  }
}
