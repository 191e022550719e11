/** Byte strings. */
module Octets {

  type Byte = x: nat | x < 256

  type Bytes = seq<Byte>
}
