/** Octets as small naturals. Bytes are kept in integer arithmetic (rather than as bit-vectors)
    so that the encoders' divisions and remainders by constants stay cheap to reason about. */
module Octets {

  type Byte = b: nat | b < 0x100

  type Bytes = seq<Byte>
}
