/**
 Octets and little-endian integers, as the Cortex-M core lays them out in
 memory. The CDC line-coding structure is read and written as raw bytes, so
 the model spells out the byte order explicitly.
 */
module Bytes {

  /** An unsigned 8-bit value (`uint8_t`). */
  type byte = x: int | 0 <= x < 256

  /** An unsigned 32-bit value (`uint32_t`). */
  type u32 = x: int | 0 <= x < 0x1_0000_0000

  /** 256 to the power n: the number of values an n-byte integer can hold. */
  function Pow256(n: nat): nat
  {
    if n == 0 then 1 else 256 * Pow256(n - 1)
  }

  /** The n-byte little-endian representation of x, least significant byte first. */
  function ToLe(x: nat, n: nat): (bs: seq<byte>)
    requires x < Pow256(n)
    ensures |bs| == n
    ensures n > 0 ==> bs[0] == x % 256
  {
    if n == 0 then [] else [x % 256] + ToLe(x / 256, n - 1)
  }

  /** The value of a little-endian byte string; it always fits in |bs| bytes. */
  function FromLe(bs: seq<byte>): (x: nat)
    ensures x < Pow256(|bs|)
  {
    if bs == [] then 0 else bs[0] + 256 * FromLe(bs[1..])
  }

  /** Decoding an encoded value gives the value back. */
  lemma {:induction false} FromLeToLe(x: nat, n: nat)
    requires x < Pow256(n)
    ensures FromLe(ToLe(x, n)) == x
  {
    if n > 0 {
      var bs := ToLe(x, n);
      assert bs[1..] == ToLe(x / 256, n - 1);
      FromLeToLe(x / 256, n - 1);
      assert x == x % 256 + 256 * (x / 256);
    }
  }

  /** Encoding a decoded byte string gives the byte string back. */
  lemma {:induction false} ToLeFromLe(bs: seq<byte>)
    ensures ToLe(FromLe(bs), |bs|) == bs
  {
    if bs != [] {
      var rest := FromLe(bs[1..]);
      var x := FromLe(bs);
      assert x == bs[0] + 256 * rest;
      assert x % 256 == bs[0] && x / 256 == rest;
      ToLeFromLe(bs[1..]);
      assert ToLe(x, |bs|) == [bs[0]] + ToLe(rest, |bs| - 1);
      assert bs == [bs[0]] + bs[1..];
    }
  }

  /** Pow256(4) is the size of the 32-bit range. */
  lemma Pow256Four()
    ensures Pow256(4) == 0x1_0000_0000
  {
    assert Pow256(2) == 65536;
  }
}
