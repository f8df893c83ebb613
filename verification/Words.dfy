/** 64-bit quantities. */
module Words {
  const U64: nat := 0x1_0000_0000_0000_0000

  type Word = w: nat | w < U64

  type Address = a: nat | a < U64
}
