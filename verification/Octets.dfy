/** Bytes as numbers, for the formats that count with them. */
module Octets {
  type octet = x: int | 0 <= x < 256
}
