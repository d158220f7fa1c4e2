/** The machine types that several parts of the model share. */
module Machine {
  newtype byte = x: int | 0 <= x < 256

  /** One more than the largest uint32_t. */
  const TWO32 := 0x1_0000_0000
}
