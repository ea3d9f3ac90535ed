/**
 `node::util::sha1`: the incremental SHA-1 object with its 64-byte block buffer.
 */
module Sha1 {
  import opened Common
  import opened Sha1Spec
  import Numbers

  function LeftRotate(x: bv32, n: bv6): bv32
    requires n <= 32
  {
    (x << n) ^ (x >> (32 - n))
  }

  lemma DisjointOne(x: bv32)
    ensures (x << 1) ^ (x >> 31) == (x << 1) | (x >> 31)
  {}

  lemma RotateOne(x: bv32)
    ensures LeftRotate(x, 1) == RotateLeft(x, 1)
  {
    DisjointOne(x);
  }

  lemma DisjointFive(x: bv32)
    ensures (x << 5) ^ (x >> 27) == (x << 5) | (x >> 27)
  {}

  lemma RotateFive(x: bv32)
    ensures LeftRotate(x, 5) == RotateLeft(x, 5)
  {
    DisjointFive(x);
  }

  lemma DisjointThirty(x: bv32)
    ensures (x << 30) ^ (x >> 2) == (x << 30) | (x >> 2)
  {}

  lemma RotateThirty(x: bv32)
    ensures LeftRotate(x, 30) == RotateLeft(x, 30)
  {
    DisjointThirty(x);
  }

  // The source writes the three logical functions with inclusive or.
  function SourceF(t: nat, b: bv32, c: bv32, d: bv32): bv32 {
    if t < 20 then (b & c) | (!b & d)
    else if t < 40 then b ^ c ^ d
    else if t < 60 then (b & c) | (b & d) | (c & d)
    else b ^ c ^ d
  }

  lemma ChooseOr(b: bv32, c: bv32, d: bv32)
    ensures (b & c) | (!b & d) == Ch(b, c, d)
  {}

  lemma MajorityOr(b: bv32, c: bv32, d: bv32)
    ensures (b & c) | (b & d) | (c & d) == Maj(b, c, d)
  {}

  lemma SourceFIsF(t: nat, b: bv32, c: bv32, d: bv32)
    ensures SourceF(t, b, c, d) == F(t, b, c, d)
  {
    hide Ch, Maj;
    ChooseOr(b, c, d);
    MajorityOr(b, c, d);
    assert Parity(b, c, d) == b ^ c ^ d;
  }

  // ---------- The object ----------

  // The chaining value covers the complete blocks of what was taken, the rest is a part
  // of a block.
  ghost predicate Absorbed(chain: Working, part: seq<Byte>, taken: seq<Byte>) {
    var complete := |taken| - |part|;
    && |part| < 64
    && 0 <= complete && complete % 64 == 0
    && chain == Hash(INITIAL, taken[..complete])
    && part == taken[complete..]
  }

  lemma NothingAbsorbed()
    ensures Absorbed(INITIAL, [], [])
  {
    var none: seq<Byte> := [];
    assert none[..0] == none;
    assert Hash(INITIAL, none) == INITIAL;
  }

  lemma AbsorbByte(chain: Working, part: seq<Byte>, taken: seq<Byte>, byte: Byte)
    requires Absorbed(chain, part, taken)
    ensures |part| < 63 ==> Absorbed(chain, part + [byte], taken + [byte])
    ensures |part| == 63 ==> Absorbed(Compress(chain, part + [byte]), [], taken + [byte])
  {
    hide Hash, Compress;
    var complete := |taken| - |part|;
    assert (taken + [byte])[..complete] == taken[..complete];
    assert (taken + [byte])[complete..] == part + [byte];
    if |part| == 63 {
      HashAppend(INITIAL, taken[..complete], part + [byte]);
      assert taken[..complete] + (part + [byte]) == taken + [byte];
      assert (taken + [byte])[..|taken| + 1] == taken + [byte];
    }
  }

  class Sha1Object {
    const h: array<bv32>
    const block: array<Byte>
    var index: nat      // _block_byte_index
    var bitCount: nat   // _bit_count, a uint64_t
    ghost var taken: seq<Byte> // every byte given to push_impl so far

    ghost predicate Shape() {
      h.Length == 5 && block.Length == 64
    }

    ghost function Chain(): Working
      requires Shape()
      reads h
    {
      Working(h[0], h[1], h[2], h[3], h[4])
    }

    ghost predicate Valid()
      reads `index, `taken, h, block
    {
      Shape() && index < 64 && Absorbed(Chain(), block[..index], taken)
    }

    // No padding so far: the bit counter counts every byte taken.
    ghost predicate Counting()
      reads this
    {
      bitCount == 8 * |taken| % TWO_TO_THE_64
    }

    constructor ()
      ensures Valid() && Counting() && taken == []
      ensures fresh(h) && fresh(block)
    {
      h := new bv32[5];
      block := new Byte[64];
      index := 0;
      bitCount := 0;
      taken := [];
      new;
      h[0] := 0x67452301;
      h[1] := 0xefcdab89;
      h[2] := 0x98badcfe;
      h[3] := 0x10325476;
      h[4] := 0xc3d2e1f0;
      NothingAbsorbed();
      assert block[..0] == [];
    }

    // `push_impl`
    method PushImpl(byte: Byte)
      requires Valid()
      modifies `index, `taken, h, block
      ensures Valid()
      ensures taken == old(taken) + [byte] && index == (old(index) + 1) % 64
    {
      hide Absorbed, Compress;
      AbsorbByte(Chain(), block[..index], taken, byte);
      ghost var part := block[..index] + [byte];
      block[index] := byte;
      index := index + 1;
      taken := taken + [byte];
      assert block[..index] == part;
      if index == 64 {
        assert block[..] == part;
        index := 0;
        ProcessBlock();
        assert block[..0] == [];
      }
    }

    // `push(uint8_t)`
    method PushByte(byte: Byte)
      requires Valid() && Counting()
      modifies this, h, block
      ensures Valid() && Counting()
      ensures taken == old(taken) + [byte]
    {
      hide Valid;
      CountByte(|taken|);
      PushImpl(byte);
      bitCount := (bitCount + 8) % TWO_TO_THE_64;
    }

    // `push(buffer_view&)`: any split of a message into pushes concatenates.
    method Push(buffer: array<Byte>)
      requires Valid() && Counting() && buffer != block
      modifies this, h, block
      ensures Valid() && Counting()
      ensures taken == old(taken) + buffer[..]
    {
      hide Valid, Counting;
      ghost var data := buffer[..];
      for i := 0 to buffer.Length
        invariant Valid() && Counting()
        invariant buffer[..] == data
        invariant taken == old(taken) + data[..i]
      {
        PushByte(buffer[i]);
        assert data[..i + 1] == data[..i] + [data[i]];
      }
      assert data[..buffer.Length] == data;
    }

    // Zero bytes up to position 56 of a block, or to the end of it.
    method PushZeros(position: nat, ghost m: seq<Byte>, ghost k0: nat) returns (ghost k: nat)
      requires Valid() && index <= position <= 64 && index < 64 && (position == 64 ==> index > 0)
      requires taken == m + Zeros(k0)
      modifies `index, `taken, h, block
      ensures Valid() && taken == m + Zeros(k) && k == k0 + position - old(index) && index == position % 64
    {
      hide Valid;
      k := k0;
      ghost var reached := index;
      while index != position % 64
        invariant Valid() && taken == m + Zeros(k)
        invariant old(index) <= reached <= position && index == reached % 64
        invariant k == k0 + reached - old(index)
        decreases position - reached
      {
        PushImpl(0);
        assert Zeros(k) + [0] == Zeros(k + 1);
        k := k + 1;
        reached := reached + 1;
      }
    }

    // The first half of `get_digest`: padding and the length field.
    method Finish()
      requires Valid() && Counting()
      modifies `index, `taken, h, block
      ensures Valid() && index == 0
      ensures taken == Pad(old(taken))
    {
      hide Valid, LengthField, CounterBytes;
      ghost var m := taken;
      IndexIs();
      PushImpl(0x80);
      ghost var k := 0;
      assert taken == (m + [0x80]) + Zeros(0);
      if index > 56 {
        k := PushZeros(64, m + [0x80], k);
        k := PushZeros(56, m + [0x80], k);
      } else {
        k := PushZeros(56, m + [0x80], k);
      }
      assert k == ZeroBytes(|m|);
      LengthFieldBytes(|m|, bitCount);
      PushLength();
      assert taken == m + ([0x80] + Zeros(k) + LengthField(|m|));
    }

    lemma IndexIs()
      requires Valid()
      ensures index == |taken| % 64
    {
      hide Hash;
    }

    // With no byte left over the chaining value is the hash of everything taken.
    lemma WholeMessage()
      requires Valid() && index == 0
      ensures Shape() && |taken| % 64 == 0 && Chain() == Hash(INITIAL, taken)
    {
      hide Hash;
      assert taken[..|taken|] == taken;
    }

    method PushLength()
      requires Valid() && index == 56
      modifies `index, `taken, h, block
      ensures Valid() && index == 0
      ensures taken == old(taken) + CounterBytes(bitCount)
    {
      hide Valid, CounterByte;
      ghost var before := taken;
      ghost var bytes := CounterBytes(bitCount);
      for i := 0 to 8
        invariant Valid() && index == (56 + i) % 64
        invariant taken == before + bytes[..i]
      {
        PushImpl(CounterByte(bitCount, 7 - i));
        assert bytes[..i + 1] == bytes[..i] + [CounterByte(bitCount, 7 - i)];
      }
      assert bytes[..8] == bytes;
    }

    // The second half of `get_digest`, as written: the shifts move the upper three bytes of
    // every word out of the stored byte.
    method Serialise(digest: array<Byte>)
      requires Shape() && digest.Length == 20 && digest != block
      modifies digest
      ensures forall i :: 0 <= i < 5 ==>
        (digest[4 * i..4 * i + 4] == WordBytes(h[i]) <==> h[i] < 0x100)
    {
      hide WordBytes, StoredByte;
      for i := 0 to 5
        invariant forall j :: 0 <= j < i ==>
          && digest[4 * j] == StoredByte(h[j], 0) && digest[4 * j + 1] == StoredByte(h[j], 1)
          && digest[4 * j + 2] == StoredByte(h[j], 2) && digest[4 * j + 3] == StoredByte(h[j], 3)
      {
        var word := h[i];
        digest[i * 4 + 0] := StoredByte(word, 0);
        digest[i * 4 + 1] := StoredByte(word, 1);
        digest[i * 4 + 2] := StoredByte(word, 2);
        digest[i * 4 + 3] := StoredByte(word, 3);
      }
      forall i | 0 <= i < 5
        ensures digest[4 * i..4 * i + 4] == WordBytes(h[i]) <==> h[i] < 0x100
      {
        StoredBytesExact(h[i]);
        assert digest[4 * i..4 * i + 4]
            == [StoredByte(h[i], 0), StoredByte(h[i], 1), StoredByte(h[i], 2), StoredByte(h[i], 3)];
      }
    }

    method GetDigest(digest: array<Byte>)
      requires Valid() && Counting() && digest.Length == 20 && digest != block
      modifies this, h, block, digest
      ensures index == 0 && Chain() == Hash(INITIAL, Pad(old(taken)))
      ensures forall i :: 0 <= i < 5 ==>
        (digest[4 * i..4 * i + 4] == WordBytes(h[i]) <==> h[i] < 0x100)
    {
      hide Hash, Pad, Valid;
      Finish();
      WholeMessage();
      Serialise(digest);
    }

    // `process_block`: the schedule, the eighty rounds and the final additions.
    method ProcessBlock()
      requires Shape()
      modifies h
      ensures Chain() == Compress(old(Chain()), block[..])
    {
      hide Compress, Rounds, Add;
      ghost var m := block[..];
      ghost var start := Chain();
      var w := Schedule(block);
      var v := EightyRounds(Working(h[0], h[1], h[2], h[3], h[4]), w, m);
      CompressIs(start, m);
      h[0] := Add(h[0], v.a);
      h[1] := Add(h[1], v.b);
      h[2] := Add(h[2], v.c);
      h[3] := Add(h[3], v.d);
      h[4] := Add(h[4], v.e);
    }
  }

  method Schedule(block: array<Byte>) returns (w: array<bv32>)
    requires block.Length == 64
    ensures fresh(w) && w.Length == 80
    ensures forall j :: 0 <= j < 80 ==> w[j] == W(block[..], j)
  {
    hide W;
    ghost var m := block[..];
    w := new bv32[80];
    for i := 0 to 16
      invariant forall j :: 0 <= j < i ==> w[j] == W(m, j)
    {
      w[i] := FourBytes(block[i * 4], block[i * 4 + 1], block[i * 4 + 2], block[i * 4 + 3]);
      ScheduleStart(m, i);
    }
    for i := 16 to 80
      invariant forall j :: 0 <= j < i ==> w[j] == W(m, j)
    {
      w[i] := Mix(w[i - 3], w[i - 8], w[i - 14], w[i - 16]);
      ScheduleStep(m, i);
    }
  }

  // `w[i] = b0 << 24; w[i] |= b1 << 16; ...`
  function FourBytes(b0: Byte, b1: Byte, b2: Byte, b3: Byte): bv32 {
    (((b0 as bv32 << 24) | (b1 as bv32 << 16)) | (b2 as bv32 << 8)) | b3 as bv32
  }

  function Mix(w3: bv32, w8: bv32, w14: bv32, w16: bv32): bv32 {
    LeftRotate(w3 ^ w8 ^ w14 ^ w16, 1)
  }

  method EightyRounds(h: Working, w: array<bv32>, ghost m: seq<Byte>) returns (v: Working)
    requires |m| == 64 && w.Length == 80
    requires forall j :: 0 <= j < 80 ==> w[j] == W(m, j)
    ensures v == Rounds(h, m, 80)
  {
    hide Rounds, W, LeftRotate, SourceF, K, Add;
    var a, b, c, d, e := h.a, h.b, h.c, h.d, h.e;
    RoundsStart(h, m);
    for i := 0 to 80
      invariant Working(a, b, c, d, e) == Rounds(h, m, i)
    {
      RoundsStep(h, m, i, Working(a, b, c, d, e));
      var f, k := SourceF(i, b, c, d), K(i);
      var temp := Add(Add(Add(Add(LeftRotate(a, 5), f), e), k), w[i]);
      e := d;
      d := c;
      c := LeftRotate(b, 30);
      b := a;
      a := temp;
    }
    v := Working(a, b, c, d, e);
  }

  lemma ScheduleStart(m: seq<Byte>, i: nat)
    requires |m| == 64 && i < 16
    ensures W(m, i) == FourBytes(m[i * 4], m[i * 4 + 1], m[i * 4 + 2], m[i * 4 + 3])
  {}

  lemma ScheduleStep(m: seq<Byte>, i: nat)
    requires |m| == 64 && 16 <= i
    ensures W(m, i) == Mix(W(m, i - 3), W(m, i - 8), W(m, i - 14), W(m, i - 16))
  {
    hide RotateLeft, LeftRotate;
    RotateOne(W(m, i - 3) ^ W(m, i - 8) ^ W(m, i - 14) ^ W(m, i - 16));
  }

  lemma RoundsStart(h: Working, m: seq<Byte>)
    requires |m| == 64
    ensures Rounds(h, m, 0) == h
  {}

  lemma RoundsStep(h: Working, m: seq<Byte>, i: nat, v: Working)
    requires |m| == 64 && v == Rounds(h, m, i)
    ensures Rounds(h, m, i + 1)
         == Working(Add(Add(Add(Add(LeftRotate(v.a, 5), SourceF(i, v.b, v.c, v.d)), v.e), K(i)), W(m, i)),
                    v.a, LeftRotate(v.b, 30), v.c, v.d)
  {
    hide RotateLeft, LeftRotate, F, SourceF, K, W, Add;
    RotateFive(v.a);
    RotateThirty(v.b);
    SourceFIsF(i, v.b, v.c, v.d);
  }

  lemma CompressIs(h: Working, m: seq<Byte>)
    requires |m| == 64
    ensures var v := Rounds(h, m, 80);
            Compress(h, m) == Working(Add(h.a, v.a), Add(h.b, v.b), Add(h.c, v.c), Add(h.d, v.d), Add(h.e, v.e))
  {
    hide Rounds, Add;
  }

  // ---------- The length field ----------

  lemma CountByte(length: nat)
    ensures (8 * length % TWO_TO_THE_64 + 8) % TWO_TO_THE_64 == 8 * (length + 1) % TWO_TO_THE_64
  {}

  // `(_bit_count >> 8 * k) & 0xff`
  function CounterByte(n: nat, k: nat): Byte {
    (n / Power256(k) % 256) as Byte
  }

  function Power256(k: nat): (r: nat)
    ensures r > 0
  {
    if k == 0 then 1 else 256 * Power256(k - 1)
  }

  function CounterBytes(n: nat): (r: seq<Byte>)
    ensures |r| == 8
  {
    seq(8, i requires 0 <= i < 8 => CounterByte(n, 7 - i))
  }

  lemma {:induction false} BigEndianBytes(n: nat, k: nat)
    ensures forall i :: 0 <= i < k ==> BigEndian(n, k)[i] == CounterByte(n, k - 1 - i)
  {
    if k > 0 {
      BigEndianBytes(n / 256, k - 1);
      forall i | 0 <= i < k
        ensures BigEndian(n, k)[i] == CounterByte(n, k - 1 - i)
      {
        if i < k - 1 {
          Numbers.DivideTwice(n, 256, Power256(k - 2 - i));
        }
      }
    }
  }

  lemma LengthFieldBytes(length: nat, counter: nat)
    requires counter == 8 * length % TWO_TO_THE_64
    ensures LengthField(length) == CounterBytes(counter)
  {
    hide CounterByte;
    BigEndianBytes(counter, 8);
  }

  // ---------- Serialisation ----------

  // The bytes of a word as section 5 of FIPS 180-4 orders them.
  function WordBytes(w: bv32): seq<Byte> {
    [(w >> 24) as Byte, ((w >> 16) & 0xff) as Byte, ((w >> 8) & 0xff) as Byte, (w & 0xff) as Byte]
  }

  // The value that reaches `digest[4 * i + k]`, a uint8_t.
  function StoredByte(w: bv32, k: nat): Byte {
    var x := if k == 0 then (w >> 12) & 0xff000000 else if k == 1 then (w >> 8) & 0x00ff0000
             else if k == 2 then (w >> 4) & 0x0000ff00 else w & 0x000000ff;
    (x & 0xff) as Byte
  }

  lemma StoredBytesExact(w: bv32)
    ensures [StoredByte(w, 0), StoredByte(w, 1), StoredByte(w, 2), StoredByte(w, 3)] == WordBytes(w) <==> w < 0x100
  {
    hide StoredByte, WordBytes;
    StoredZero(w);
    SmallWord(w);
    if w < 0x100 {
      WordBytesAre(w);
    } else {
      WordBytesAre(w);
    }
  }

  lemma StoredZero(w: bv32)
    ensures StoredByte(w, 0) == 0 && StoredByte(w, 1) == 0 && StoredByte(w, 2) == 0
    ensures StoredByte(w, 3) == (w & 0xff) as Byte
  {}

  lemma WordBytesAre(w: bv32)
    ensures WordBytes(w)
         == [(w >> 24) as Byte, ((w >> 16) & 0xff) as Byte, ((w >> 8) & 0xff) as Byte, (w & 0xff) as Byte]
  {}

  lemma SmallWord(w: bv32)
    ensures w < 0x100 <==> ((w >> 24) as Byte == 0 && ((w >> 16) & 0xff) as Byte == 0 && ((w >> 8) & 0xff) as Byte == 0)
  {}
}
