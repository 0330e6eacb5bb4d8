/** SHA-256 as an injective function: a digest is the text it was made from, wrapped. */
module Hashing {
  datatype Digest = Sha256(text: string)
}
