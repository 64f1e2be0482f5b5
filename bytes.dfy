/** Octets, as Java's byte values read unsigned. */
module Bytes {
  type byte = x: int | 0 <= x < 256
}
