module Bytes {
  type byte = x: int | 0 <= x < 256

  /** Length of an AES-256 key. */
  const KEY_LEN := 32
}
