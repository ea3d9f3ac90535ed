/**
 The constants of SHA-1 as what they are made of, and the hash of "abc" (section A.1 of
 FIPS 180-2), computed step by step from the definitions.
 */
module Sha1Vector {
  import opened Common
  import opened Sha1Spec

  // ---------- The constants ----------

  // The round constants are 2^30 times the square roots of 2, 3, 5 and 10, rounded down.
  lemma KIsRoot(t: nat)
    requires t < 80
    ensures var n, k := if t < 20 then 2 else if t < 40 then 3 else if t < 60 then 5 else 10, K(t) as int;
            k * k <= n * 0x1000_0000_0000_0000 < (k + 1) * (k + 1)
  {}

  // ---------- One step with its shifts ----------

  function Left5(x: bv32): bv32 { (x << 5) | (x >> 27) }

  function Left30(x: bv32): bv32 { (x << 30) | (x >> 2) }

  function Left1(x: bv32): bv32 { (x << 1) | (x >> 31) }

  lemma RotateFive(x: bv32)
    ensures RotateLeft(x, 5) == Left5(x)
  {}

  lemma RotateThirty(x: bv32)
    ensures RotateLeft(x, 30) == Left30(x)
  {}

  lemma RotateOne(x: bv32)
    ensures RotateLeft(x, 1) == Left1(x)
  {}

  lemma Turn(m: seq<Byte>, t: nat)
    requires |m| == 64
    ensures var v := Rounds(INITIAL, m, t);
            Rounds(INITIAL, m, t + 1)
              == Working(Add(Add(Add(Add(Left5(v.a), F(t, v.b, v.c, v.d)), v.e), K(t)), W(m, t)),
                         v.a, Left30(v.b), v.c, v.d)
  {
    hide F, K, W, Add, RotateLeft, Left5, Left30;
    var v := Rounds(INITIAL, m, t);
    RotateFive(v.a);
    RotateThirty(v.b);
  }

  lemma Mix(m: seq<Byte>, t: nat)
    requires |m| == 64 && t >= 16
    ensures W(m, t) == Left1(W(m, t - 3) ^ W(m, t - 8) ^ W(m, t - 14) ^ W(m, t - 16))
  {
    hide RotateLeft, Left1;
    RotateOne(W(m, t - 3) ^ W(m, t - 8) ^ W(m, t - 14) ^ W(m, t - 16));
  }

  // ---------- The one block of "abc" ----------

  const ABC: seq<Byte> := [0x61, 0x62, 0x63]

  lemma AbcBlock()
    ensures |Pad(ABC)| == 64
    ensures Pad(ABC)[..4] == [0x61, 0x62, 0x63, 0x80] && Pad(ABC)[63] == 24
    ensures forall i :: 4 <= i < 63 ==> Pad(ABC)[i] == 0
  {
    AbcLength();
    assert ZeroBytes(3) == 52;
    var zeros, length := Zeros(52), LengthField(3);
    assert Pad(ABC) == ABC + ([0x80] + zeros + length);
  }

  lemma AbcLength()
    ensures LengthField(3) == [0, 0, 0, 0, 0, 0, 0, 24]
  {
    assert 8 * 3 % TWO_TO_THE_64 == 24;
    assert BigEndian(0, 7) == [0, 0, 0, 0, 0, 0, 0] by {
      assert BigEndian(0, 3) == [0, 0, 0];
      assert BigEndian(0, 6) == [0, 0, 0, 0, 0, 0];
    }
    assert BigEndian(24, 8) == BigEndian(0, 7) + [24];
  }

  lemma Abc0(m: seq<Byte>)
    requires m == Pad(ABC)
    ensures |m| == 64 && W(m, 0) == 0x61626380 && W(m, 15) == 0x18
    ensures W(m, 1) == 0 && W(m, 2) == 0 && W(m, 3) == 0 && W(m, 4) == 0 && W(m, 5) == 0
    ensures W(m, 6) == 0 && W(m, 7) == 0 && W(m, 8) == 0 && W(m, 9) == 0 && W(m, 10) == 0
    ensures W(m, 11) == 0 && W(m, 12) == 0 && W(m, 13) == 0 && W(m, 14) == 0
  {
    AbcBlock();
  }

  lemma Abc16(m: seq<Byte>)
    requires m == Pad(ABC)
    ensures |m| == 64
    ensures W(m, 16) == 0xc2c4c700 && W(m, 17) == 0 && W(m, 18) == 0x00000030 && W(m, 19) == 0x85898e01
    ensures W(m, 20) == 0 && W(m, 21) == 0x00000060 && W(m, 22) == 0x0b131c03 && W(m, 23) == 0x00000030
    ensures W(m, 24) == 0x85898ec1 && W(m, 25) == 0x16263806 && W(m, 26) == 0 && W(m, 27) == 0x00000180
    ensures W(m, 28) == 0x2c4c700c && W(m, 29) == 0x000000f0 && W(m, 30) == 0x93afb507 && W(m, 31) == 0x5898e048
  {
    hide W, Pad;
    Abc0(m);
    Mix(m, 16); Mix(m, 17); Mix(m, 18); Mix(m, 19);
    Mix(m, 20); Mix(m, 21); Mix(m, 22); Mix(m, 23);
    Mix(m, 24); Mix(m, 25); Mix(m, 26); Mix(m, 27);
    Mix(m, 28); Mix(m, 29); Mix(m, 30); Mix(m, 31);
  }

  lemma Abc32(m: seq<Byte>)
    requires m == Pad(ABC)
    ensures |m| == 64
    ensures W(m, 32) == 0x8e9a9202 && W(m, 33) == 0x00000600 && W(m, 34) == 0xb131c0f0 && W(m, 35) == 0x16263bc6
    ensures W(m, 36) == 0x4ebed41e && W(m, 37) == 0x626380a1 && W(m, 38) == 0x16263806 && W(m, 39) == 0x000018c0
    ensures W(m, 40) == 0xd2e138c4 && W(m, 41) == 0x00000f00 && W(m, 42) == 0x3afb5079 && W(m, 43) == 0x898e04e5
    ensures W(m, 44) == 0xe2ba3c2b && W(m, 45) == 0x000060c0 && W(m, 46) == 0x053a37cd && W(m, 47) == 0x74458547
  {
    hide W, Pad;
    Abc16(m);
    Mix(m, 32); Mix(m, 33); Mix(m, 34); Mix(m, 35);
    Mix(m, 36); Mix(m, 37); Mix(m, 38); Mix(m, 39);
    Mix(m, 40); Mix(m, 41); Mix(m, 42); Mix(m, 43);
    Mix(m, 44); Mix(m, 45); Mix(m, 46); Mix(m, 47);
  }

  lemma Abc48(m: seq<Byte>)
    requires m == Pad(ABC)
    ensures |m| == 64
    ensures W(m, 48) == 0xda9415ed && W(m, 49) == 0x26380a16 && W(m, 50) == 0x626383a1 && W(m, 51) == 0x4ebf54de
    ensures W(m, 52) == 0x3835b44b && W(m, 53) == 0x0000f600 && W(m, 54) == 0x1e84c7a3 && W(m, 55) == 0x98e04d98
    ensures W(m, 56) == 0x651d16a0 && W(m, 57) == 0x62658ca1 && W(m, 58) == 0x458544d6 && W(m, 59) == 0x44584cb7
    ensures W(m, 60) == 0x7ba06619 && W(m, 61) == 0x6380aea2 && W(m, 62) == 0x0ae55269 && W(m, 63) == 0x627b49a1
  {
    hide W, Pad;
    Abc32(m);
    Mix(m, 48); Mix(m, 49); Mix(m, 50); Mix(m, 51);
    Mix(m, 52); Mix(m, 53); Mix(m, 54); Mix(m, 55);
    Mix(m, 56); Mix(m, 57); Mix(m, 58); Mix(m, 59);
    Mix(m, 60); Mix(m, 61); Mix(m, 62); Mix(m, 63);
  }

  lemma Abc64(m: seq<Byte>)
    requires m == Pad(ABC)
    ensures |m| == 64
    ensures W(m, 64) == 0x7cd45c9d && W(m, 65) == 0x000f0000 && W(m, 66) == 0xfb50753a && W(m, 67) == 0xec6765e8
    ensures W(m, 68) == 0xba3c2be2 && W(m, 69) == 0x0060c000 && W(m, 70) == 0x3a37cd05 && W(m, 71) == 0x458546f4
    ensures W(m, 72) == 0xb8599dd6 && W(m, 73) == 0x380a1a26 && W(m, 74) == 0x01e02203 && W(m, 75) == 0xe7cc3456
    ensures W(m, 76) == 0xe6e60b69 && W(m, 77) == 0x00f60a00 && W(m, 78) == 0x5795ef4f && W(m, 79) == 0x822e0879
  {
    hide W, Pad;
    Abc48(m);
    Mix(m, 64); Mix(m, 65); Mix(m, 66); Mix(m, 67);
    Mix(m, 68); Mix(m, 69); Mix(m, 70); Mix(m, 71);
    Mix(m, 72); Mix(m, 73); Mix(m, 74); Mix(m, 75);
    Mix(m, 76); Mix(m, 77); Mix(m, 78); Mix(m, 79);
  }

  lemma AbcRounds16(m: seq<Byte>)
    requires m == Pad(ABC)
    ensures |m| == 64 && Rounds(INITIAL, m, 16)
         == Working(0x20bdd62f, 0x196bee77, 0x644a3da5, 0x1181ed99, 0x18c623f9)
  {
    hide Rounds, W, Pad;
    Abc0(m);
    NoRounds(m);
    Turn(m, 0); Turn(m, 1); Turn(m, 2); Turn(m, 3);
    Turn(m, 4); Turn(m, 5); Turn(m, 6); Turn(m, 7);
    Turn(m, 8); Turn(m, 9); Turn(m, 10); Turn(m, 11);
    Turn(m, 12); Turn(m, 13); Turn(m, 14); Turn(m, 15);
  }

  lemma AbcRounds32(m: seq<Byte>)
    requires m == Pad(ABC)
    ensures |m| == 64 && Rounds(INITIAL, m, 32)
         == Working(0x3b845d33, 0x1267b407, 0x717eebd7, 0xa0dc2d4b, 0xd2aa1365)
  {
    hide Rounds, W, Pad;
    Abc16(m);
    AbcRounds16(m);
    Turn(m, 16); Turn(m, 17); Turn(m, 18); Turn(m, 19);
    Turn(m, 20); Turn(m, 21); Turn(m, 22); Turn(m, 23);
    Turn(m, 24); Turn(m, 25); Turn(m, 26); Turn(m, 27);
    Turn(m, 28); Turn(m, 29); Turn(m, 30); Turn(m, 31);
  }

  lemma AbcRounds48(m: seq<Byte>)
    requires m == Pad(ABC)
    ensures |m| == 64 && Rounds(INITIAL, m, 48)
         == Working(0xbead02ca, 0xa01b846c, 0x8714787c, 0x503ca382, 0xfb86c6ab)
  {
    hide Rounds, W, Pad;
    Abc32(m);
    AbcRounds32(m);
    Turn(m, 32); Turn(m, 33); Turn(m, 34); Turn(m, 35);
    Turn(m, 36); Turn(m, 37); Turn(m, 38); Turn(m, 39);
    Turn(m, 40); Turn(m, 41); Turn(m, 42); Turn(m, 43);
    Turn(m, 44); Turn(m, 45); Turn(m, 46); Turn(m, 47);
  }

  lemma AbcRounds64(m: seq<Byte>)
    requires m == Pad(ABC)
    ensures |m| == 64 && Rounds(INITIAL, m, 64)
         == Working(0x6b61c9e1, 0xb66c020b, 0x9523272c, 0xf5d5b051, 0x8fd4b796)
  {
    hide Rounds, W, Pad;
    Abc48(m);
    AbcRounds48(m);
    Turn(m, 48); Turn(m, 49); Turn(m, 50); Turn(m, 51);
    Turn(m, 52); Turn(m, 53); Turn(m, 54); Turn(m, 55);
    Turn(m, 56); Turn(m, 57); Turn(m, 58); Turn(m, 59);
    Turn(m, 60); Turn(m, 61); Turn(m, 62); Turn(m, 63);
  }

  lemma AbcRounds80(m: seq<Byte>)
    requires m == Pad(ABC)
    ensures |m| == 64 && Rounds(INITIAL, m, 80)
         == Working(0x42541b35, 0x5738d5e1, 0x21834873, 0x681e6df6, 0xd8fdf6ad)
  {
    hide Rounds, W, Pad;
    Abc64(m);
    AbcRounds64(m);
    Turn(m, 64); Turn(m, 65); Turn(m, 66); Turn(m, 67);
    Turn(m, 68); Turn(m, 69); Turn(m, 70); Turn(m, 71);
    Turn(m, 72); Turn(m, 73); Turn(m, 74); Turn(m, 75);
    Turn(m, 76); Turn(m, 77); Turn(m, 78); Turn(m, 79);
  }

  lemma NoRounds(m: seq<Byte>)
    requires |m| == 64
    ensures Rounds(INITIAL, m, 0) == INITIAL
  {}

  // The hash of "abc".
  lemma HashOfAbc()
    ensures Hash(INITIAL, Pad(ABC)) == Working(0xa9993e36, 0x4706816a, 0xba3e2571, 0x7850c26c, 0x9cd0d89d)
  {
    hide Rounds, Pad;
    var m := Pad(ABC);
    AbcRounds80(m);
    assert m[..64] == m && m[64..] == [];
  }
}
