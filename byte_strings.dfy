/** Byte strings, as requests, responses and log frames carry them. */
module ByteStrings {
  type BytesValue = seq<bv8>
}
