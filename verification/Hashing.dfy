/** The 64-byte digest as an arbitrary function: nothing is assumed about it, least of all injectivity. */
module Hashing {
  import opened Bytes

  const DIGEST_LEN := 64
  type Hash = s: Bytes | |s| == DIGEST_LEN witness seq(DIGEST_LEN, _ => 0)
  type Digest = Bytes -> Hash

  predicate Collision(H: Digest, x: Bytes, y: Bytes) {
    x != y && H(x) == H(y)
  }
}
