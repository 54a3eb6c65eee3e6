/** The bytes of files, packets and buffers. */
module Bytes {

  type byte = b: int | 0 <= b < 256
}
