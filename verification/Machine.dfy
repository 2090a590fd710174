/**
 Bytes and the sizes of machine words.
 */
module Machine {
  type byte = x: int | 0 <= x < 256

  const TWO32: int := 0x1_0000_0000
  const TWO64: int := 0x1_0000_0000_0000_0000
}
