/**
 SHA-1 of FIPS 180-4 as functions on byte sequences: padding (section 5.1.1), the message
 schedule and the compression function (section 6.1.2).
 */
module Sha1Spec {
  import opened Common

  type Byte = bv8

  // ---------- Section 4.1.1 and 4.2.1: functions and constants ----------

  function RotateLeft(x: bv32, n: bv6): bv32
    requires n <= 32
  {
    (x << n) | (x >> (32 - n))
  }

  function Ch(x: bv32, y: bv32, z: bv32): bv32 { (x & y) ^ (!x & z) }

  function Parity(x: bv32, y: bv32, z: bv32): bv32 { x ^ y ^ z }

  function Maj(x: bv32, y: bv32, z: bv32): bv32 { (x & y) ^ (x & z) ^ (y & z) }

  function F(t: nat, x: bv32, y: bv32, z: bv32): bv32 {
    if t < 20 then Ch(x, y, z) else if t < 40 then Parity(x, y, z) else if t < 60 then Maj(x, y, z) else Parity(x, y, z)
  }

  function K(t: nat): bv32 {
    if t < 20 then 0x5a827999 else if t < 40 then 0x6ed9eba1 else if t < 60 then 0x8f1bbcdc else 0xca62c1d6
  }

  // ---------- Section 5.1.1: padding ----------

  // The k low bytes of n, most significant first.
  function BigEndian(n: nat, k: nat): (r: seq<Byte>)
    ensures |r| == k
  {
    if k == 0 then [] else BigEndian(n / 256, k - 1) + [(n % 256) as Byte]
  }

  function Zeros(n: nat): (r: seq<Byte>)
    ensures |r| == n
  {
    seq(n, _ => 0 as Byte)
  }

  // The number of zero bytes between the byte 0x80 and the length field.
  function ZeroBytes(length: nat): (z: nat)
    ensures z < 64 && (length + 1 + z) % 64 == 56
  {
    (119 - length % 64) % 64
  }

  // It is the least number that leaves eight bytes for the length.
  lemma ZeroBytesLeast(length: nat, z: nat)
    requires (length + 1 + z) % 64 == 56
    ensures ZeroBytes(length) <= z
  {}

  // The message length in bits, as eight bytes. For messages shorter than 2^61 bytes, as
  // the standard requires, the remainder is the length itself.
  function LengthField(length: nat): (r: seq<Byte>)
    ensures |r| == 8
  {
    BigEndian(8 * length % TWO_TO_THE_64, 8)
  }

  function Padding(length: nat): (p: seq<Byte>)
    ensures |p| == 9 + ZeroBytes(length)
  {
    [0x80] + Zeros(ZeroBytes(length)) + LengthField(length)
  }

  function Pad(m: seq<Byte>): (p: seq<Byte>)
    ensures |p| % 64 == 0
  {
    WholeBlocks(|m|, ZeroBytes(|m|));
    m + Padding(|m|)
  }

  lemma WholeBlocks(length: nat, z: nat)
    requires (length + 1 + z) % 64 == 56
    ensures (length + 9 + z) % 64 == 0
  {}

  // ---------- Section 6.1.2: the schedule and the rounds ----------

  function Word(block: seq<Byte>, t: nat): bv32
    requires |block| == 64 && t < 16
  {
    (block[4 * t] as bv32 << 24) | (block[4 * t + 1] as bv32 << 16)
    | (block[4 * t + 2] as bv32 << 8) | block[4 * t + 3] as bv32
  }

  function W(block: seq<Byte>, t: nat): bv32
    requires |block| == 64
  {
    if t < 16 then Word(block, t)
    else RotateLeft(W(block, t - 3) ^ W(block, t - 8) ^ W(block, t - 14) ^ W(block, t - 16), 1)
  }

  // Addition modulo 2^32.
  function Add(x: bv32, y: bv32): bv32 { x + y }

  datatype Working = Working(a: bv32, b: bv32, c: bv32, d: bv32, e: bv32)

  function Round(t: nat, v: Working, w: bv32): Working {
    Working(Add(Add(Add(Add(RotateLeft(v.a, 5), F(t, v.b, v.c, v.d)), v.e), K(t)), w),
            v.a, RotateLeft(v.b, 30), v.c, v.d)
  }

  function Rounds(h: Working, block: seq<Byte>, t: nat): Working
    requires |block| == 64
  {
    if t == 0 then h else Round(t - 1, Rounds(h, block, t - 1), W(block, t - 1))
  }

  function Compress(h: Working, block: seq<Byte>): Working
    requires |block| == 64
  {
    var v := Rounds(h, block, 80);
    Working(Add(h.a, v.a), Add(h.b, v.b), Add(h.c, v.c), Add(h.d, v.d), Add(h.e, v.e))
  }

  const INITIAL := Working(0x67452301, 0xefcdab89, 0x98badcfe, 0x10325476, 0xc3d2e1f0)

  // The hash value after all blocks.
  function Hash(h: Working, m: seq<Byte>): Working
    requires |m| % 64 == 0
    decreases |m|
  {
    if |m| == 0 then h else Hash(Compress(h, m[..64]), m[64..])
  }

  lemma {:induction false} HashAppend(h: Working, m: seq<Byte>, block: seq<Byte>)
    requires |m| % 64 == 0 && |block| == 64
    ensures Hash(h, m + block) == Compress(Hash(h, m), block)
    decreases |m|
  {
    hide Compress;
    if |m| == 0 {
      assert (m + block)[..64] == block && (m + block)[64..] == [];
    } else {
      assert (m + block)[..64] == m[..64] && (m + block)[64..] == m[64..] + block;
      HashAppend(Compress(h, m[..64]), m[64..], block);
    }
  }
}
