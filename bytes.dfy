/** Fixed-width unsigned integers, their little-endian byte images
    (`to_le_bytes` / `from_le_bytes`) and the three bit operations the
    chunk descriptor uses, written as arithmetic on the value modulo 2^32
    (a u32 shift discards the bits pushed past bit 31). */
module Bytes {

  type u8 = x: int | 0 <= x < 0x100
  type u32 = x: int | 0 <= x < 0x1_0000_0000
  type u64 = x: int | 0 <= x < 0x1_0000_0000_0000_0000
  type i32 = x: int | -0x8000_0000 <= x < 0x8000_0000

  /** 256^n: one more than the largest value n bytes can hold. */
  function Pow256(n: nat): (r: nat)
    ensures r > 0
  {
    if n == 0 then 1 else 256 * Pow256(n - 1)
  }

  /** The n least significant bytes of x, least significant first. */
  function LeBytes(x: nat, n: nat): (r: seq<u8>)
    ensures |r| == n
  {
    if n == 0 then [] else [x % 256] + LeBytes(x / 256, n - 1)
  }

  /** The unsigned integer whose little-endian byte image is s. */
  function LeValue(s: seq<u8>): (r: nat)
    ensures r < Pow256(|s|)
  {
    if s == [] then 0 else s[0] + 256 * LeValue(s[1..])
  }

  /** A byte placed below a multiple of 256 is recovered by `%` and `/`.
      Stated on its own so that the inductive step below stays cheap. */
  lemma JoinLowByte(low: u8, q: nat)
    ensures (low + 256 * q) % 256 == low
    ensures (low + 256 * q) / 256 == q
  {
  }

  /** Reading back the n-byte image of a value that fits in n bytes gives the value. */
  lemma {:induction false} LeValueOfLeBytes(x: nat, n: nat)
    requires x < Pow256(n)
    ensures LeValue(LeBytes(x, n)) == x
  {
    if n > 0 {
      var q := x / 256;
      LeValueOfLeBytes(q, n - 1);
      var image := LeBytes(x, n);
      assert image[1..] == LeBytes(q, n - 1);
    }
  }

  /** Re-encoding the value of a byte sequence at its own width gives the same bytes. */
  lemma {:induction false} LeBytesOfLeValue(s: seq<u8>)
    ensures LeBytes(LeValue(s), |s|) == s
  {
    if s != [] {
      JoinLowByte(s[0], LeValue(s[1..]));
      LeBytesOfLeValue(s[1..]);
    }
  }

  /** `u32::to_le_bytes`: four bytes, least significant first. */
  function U32ToLe(x: u32): (r: seq<u8>)
    ensures |r| == 4 && U32FromLe(r) == x
  {
    assert Pow256(4) == 0x1_0000_0000;
    LeValueOfLeBytes(x, 4);
    LeBytes(x, 4)
  }

  /** `u32::from_le_bytes`: the u32 whose image is b. */
  function U32FromLe(b: seq<u8>): (r: u32)
    requires |b| == 4
    ensures LeBytes(r, 4) == b
  {
    assert Pow256(4) == 0x1_0000_0000;
    LeBytesOfLeValue(b);
    LeValue(b)
  }

  /** `u64::to_le_bytes`: eight bytes, least significant first. */
  function U64ToLe(x: u64): (r: seq<u8>)
    ensures |r| == 8 && U64FromLe(r) == x
  {
    assert Pow256(8) == 0x1_0000_0000_0000_0000;
    LeValueOfLeBytes(x, 8);
    LeBytes(x, 8)
  }

  /** `u64::from_le_bytes`: the u64 whose image is b. */
  function U64FromLe(b: seq<u8>): (r: u64)
    requires |b| == 8
    ensures LeBytes(r, 8) == b
  {
    assert Pow256(8) == 0x1_0000_0000_0000_0000;
    LeBytesOfLeValue(b);
    LeValue(b)
  }

  /** `x << 1` on a u32: the top bit is shifted out and lost. */
  function Shl1(x: u32): (r: u32)
    ensures r % 2 == 0
    ensures r / 2 == x % 0x8000_0000
    ensures x < 0x8000_0000 <==> r == 2 * x
  {
    if x < 0x8000_0000 then 2 * x else 2 * x - 0x1_0000_0000
  }

  /** `x >> 1` on a u32. */
  function Shr1(x: u32): (r: u32)
    ensures 2 * r <= x <= 2 * r + 1
  {
    x / 2
  }

  /** `x & 0x01` on a u32. */
  function LowBit(x: u32): (r: u32)
    ensures r <= 1 && (x - r) % 2 == 0
  {
    x % 2
  }
}
