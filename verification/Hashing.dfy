/** Byte strings as digits, and what is assumed of the hashes this model does not look into. */
module Hashing {
  import opened Radix

  predicate AreBytes(data: seq<nat>) {
    AreDigits(256, data)
  }

  /** A hash of 32 bytes. */
  ghost predicate IsHash(hash: seq<nat> -> seq<nat>) {
    forall data :: |hash(data)| == 32 && AreBytes(hash(data))
  }
}
