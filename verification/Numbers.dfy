/** Units and number ranges that several modules share. */
module Numbers {
  const NANOS_PER_SECOND: int := 1_000_000_000
  const INT_MAX: nat := 0x7FFF_FFFF
}
