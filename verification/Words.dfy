/** The width of Go's uint64. */
module Words {
  const UINT64: nat := 0x1_0000_0000_0000_0000
}
