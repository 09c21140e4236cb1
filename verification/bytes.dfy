/** Octets, as carried by Go's `[]byte`. */
module Bytes {

  type byte = b: int | 0 <= b < 256
}
