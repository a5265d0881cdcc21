/** The octets read from and written to a serial device. */
module Bytes {

  type byte = b: int | 0 <= b < 256
}
