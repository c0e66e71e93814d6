/** Parsed IP addresses. The text forms of addresses are not part of the model. */
module Addresses {
  type U8 = x: nat | x < 0x100
  type U16 = x: nat | x < 0x1_0000
  type U32 = x: nat | x < 0x1_0000_0000
  type U128 = x: nat | x < 0x1_0000_0000_0000_0000_0000_0000_0000_0000

  datatype Ip = V4(v4: U32) | V6(v6: U128)
}
