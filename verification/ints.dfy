/** Fixed-width integers and their little-endian byte encoding.

    The format stores every scalar little-endian. Dafny integers are
    unbounded, so each C# width is a subset type and the byte encoding is
    written out explicitly (two's complement for signed widths). 32-bit
    floats are kept as their raw IEEE-754 bit patterns: the codec never does
    arithmetic on them, it only moves them. */
module Ints {

  type byte = x: int | 0 <= x < 0x100
  type sbyte = x: int | -0x80 <= x < 0x80
  type uint16 = x: int | 0 <= x < 0x1_0000
  type int16 = x: int | -0x8000 <= x < 0x8000
  type uint32 = x: int | 0 <= x < 0x1_0000_0000
  type int32 = x: int | -0x8000_0000 <= x < 0x8000_0000
  type int64 = x: int | -0x8000_0000_0000_0000 <= x < 0x8000_0000_0000_0000

  /** A 32-bit float, as the four bytes the file holds. */
  type FloatBits = uint32

  const ONE_F32: FloatBits := 0x3F80_0000
  const MINUS_ONE_F32: FloatBits := 0xBF80_0000

  function Pow256(k: nat): (r: nat)
    ensures r >= 1
  {
    if k == 0 then 1 else 256 * Pow256(k - 1)
  }

  /** The low `k` bytes of `n`, least significant first. */
  function ToLE(n: nat, k: nat): (r: seq<byte>)
    ensures |r| == k
  {
    if k == 0 then [] else [n % 256] + ToLE(n / 256, k - 1)
  }

  /** The unsigned number whose little-endian bytes are `bs`. */
  function FromLE(bs: seq<byte>): (n: nat)
    ensures n < Pow256(|bs|)
  {
    if |bs| == 0 then 0 else bs[0] + 256 * FromLE(bs[1..])
  }

  lemma {:induction false} FromToLE(n: nat, k: nat)
    requires n < Pow256(k)
    ensures FromLE(ToLE(n, k)) == n
  {
    if k > 0 {
      var bs := ToLE(n, k);
      assert bs[1..] == ToLE(n / 256, k - 1);
      FromToLE(n / 256, k - 1);
    }
  }

  lemma {:induction false} ToFromLE(bs: seq<byte>)
    ensures ToLE(FromLE(bs), |bs|) == bs
  {
    if |bs| > 0 {
      var n := FromLE(bs);
      assert n % 256 == bs[0];
      assert n / 256 == FromLE(bs[1..]);
      ToFromLE(bs[1..]);
    }
  }

  /** Little-endian encoding is injective on numbers below 256^k. */
  lemma ToLEInjective(m: nat, n: nat, k: nat)
    requires m < Pow256(k) && n < Pow256(k)
    requires ToLE(m, k) == ToLE(n, k)
    ensures m == n
  {
    FromToLE(m, k);
    FromToLE(n, k);
  }
}
