/** Byte strings and the numbers they denote. */
module Bytes {
  import opened Radix

  type Byte = x: int | 0 <= x < 256

  function LittleEndian(bytes: seq<Byte>): nat {
    if bytes == [] then 0 else bytes[0] + 256 * LittleEndian(bytes[1..])
  }

  /** The low `size` bytes of a number, least significant first. */
  function ToLittleEndian(v: nat, size: nat): (bytes: seq<Byte>)
    ensures |bytes| == size
  {
    if size == 0 then [] else [v % 256] + ToLittleEndian(v / 256, size - 1)
  }

  lemma {:induction false} LittleEndianBack(v: nat, size: nat)
    requires v < Pow(256, size)
    ensures LittleEndian(ToLittleEndian(v, size)) == v
  {
    if size > 0 {
      QuotientBound(v, 256, Pow(256, size - 1));
      LittleEndianBack(v / 256, size - 1);
      assert ToLittleEndian(v, size)[1..] == ToLittleEndian(v / 256, size - 1);
    }
  }
}
