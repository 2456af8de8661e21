module Common {
  /** Bytes in a page. */
  const PAGE: nat := 4096

  /** Addresses and sizes are 64-bit words. */
  const WORD_LIMIT: nat := 0x1_0000_0000_0000_0000

  datatype Option<+T> = None | Some(value: T)
}
