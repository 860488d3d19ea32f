// Shared value types: optional values, results carrying the text of the
// exception the C++ code would throw, and bytes.
module Wrappers {

  datatype Option<T> = None | Some(value: T)

  /** A call that either yields a value or fails the way the C++ code throws:
    * `Err` carries the message of the `std::runtime_error`. */
  datatype Result<T> = Ok(value: T) | Err(msg: string)

  /** An unsigned 8-bit value. */
  type Byte = x: int | 0 <= x < 256

  /** An unsigned 16-bit value. */
  type Word = x: int | 0 <= x < 0x1_0000

  /** An unsigned 32-bit value. */
  type U32 = x: int | 0 <= x < 0x1_0000_0000

  function Min(a: int, b: int): int { if a <= b then a else b }

  /** The bytes as the characters a `std::string` built from them holds. */
  function BytesToString(bs: seq<Byte>): (s: string)
    ensures |s| == |bs|
    ensures forall i :: 0 <= i < |bs| ==> s[i] as int == bs[i]
  {
    seq(|bs|, i requires 0 <= i < |bs| => bs[i] as char)
  }

  /** Big-endian encoding of the low `n` bytes of `x` (what `htonl`/`htons`
    * followed by a byte copy produce). */
  function BigEndian(x: nat, n: nat): (bs: seq<Byte>)
    ensures |bs| == n
    decreases n
  {
    if n == 0 then [] else BigEndian(x / 256, n - 1) + [x % 256]
  }

  /** The number a big-endian byte string stands for. */
  function FromBigEndian(bs: seq<Byte>): nat
  {
    if bs == [] then 0 else FromBigEndian(bs[..|bs| - 1]) * 256 + bs[|bs| - 1]
  }

  function Pow256(n: nat): (p: nat)
    ensures p >= 1
  {
    if n == 0 then 1 else 256 * Pow256(n - 1)
  }

  /** Decoding an encoding of a value that fits in `n` bytes gives it back. */
  lemma {:induction false} BigEndianRoundTrip(x: nat, n: nat)
    requires x < Pow256(n)
    ensures FromBigEndian(BigEndian(x, n)) == x
    decreases n
  {
    if n > 0 {
      var bs := BigEndian(x, n);
      assert bs[..|bs| - 1] == BigEndian(x / 256, n - 1);
      assert x / 256 < Pow256(n - 1);
      BigEndianRoundTrip(x / 256, n - 1);
    }
  }
}
