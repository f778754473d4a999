/** The values of an unsigned char. */
module Octets {
  type Byte = x: int | 0 <= x < 256
}
