/** SHA-256 is symbolic: a digest is its preimage, so equal digests mean equal input. */
module Hashing {
  type Bytes = seq<bv8>

  datatype Digest = OfText(text: string) | OfBytes(bytes: Bytes)
}
