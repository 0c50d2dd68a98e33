/** Go's byte. */
module Bytes {
  type byte = bv8
}
