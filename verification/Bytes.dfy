/** Raw bytes, for the parts of the program that work below characters. */
module Bytes {
  type Byte = b: int | 0 <= b < 256
}
