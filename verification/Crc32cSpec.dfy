/**
 CRC-32C as serial division by the generator polynomial (section 12.1 of RFC 3720),
 the reflected shift register that software uses for it, and the linearity of that
 register, which is what processing eight bytes per iteration rests on.
 */
module Crc32cSpec {

  type Byte = bv8

  // The generator polynomial, most significant coefficient first (x^32 is implicit) ...
  const POLY: bv32 := 0x1EDC6F41
  // ... and the same coefficients read from the other end.
  const REFLECTED_POLY: bv32 := 0x82F63B78

  // ---------- The reference: serial division by the generator ----------

  // One message bit entering the division register at the top.
  function DivideBit(r: bv32, m: bool): bv32 {
    if (r >> 31 == 1) != m then (r << 1) ^ POLY else r << 1
  }

  function DivideBits(r: bv32, bits: seq<bool>): bv32
    decreases |bits|
  {
    if |bits| == 0 then r else DivideBits(DivideBit(r, bits[0]), bits[1..])
  }

  // A byte is transmitted least significant bit first.
  function LowBits(k: nat, d: Byte): seq<bool>
    decreases k
  {
    if k == 0 then [] else [d & 1 == 1] + LowBits(k - 1, d >> 1)
  }

  function Bits(d: Byte): seq<bool> {
    LowBits(8, d)
  }

  // The remainder register after all bytes, most significant coefficient first.
  function Divide(r: bv32, data: seq<Byte>): bv32
    decreases |data|
  {
    if |data| == 0 then r else Divide(DivideBits(r, Bits(data[0])), data[1..])
  }

  // The 32 coefficients in the opposite order.
  function Reverse(x: bv32): bv32 {
    var a := ((x >> 1) & 0x55555555) | ((x & 0x55555555) << 1);
    var b := ((a >> 2) & 0x33333333) | ((a & 0x33333333) << 2);
    var c := ((b >> 4) & 0x0f0f0f0f) | ((b & 0x0f0f0f0f) << 4);
    var d := ((c >> 8) & 0x00ff00ff) | ((c & 0x00ff00ff) << 8);
    (d >> 16) | (d << 16)
  }

  // ---------- The reflected register ----------

  function Xor(x: bv32, y: bv32): bv32 { x ^ y }

  // The feedback of one step: the polynomial enters when a one leaves the register.
  function Tap(x: bv32): bv32 {
    if x & 1 == 1 then REFLECTED_POLY else 0
  }

  function Half(x: bv32): bv32 { x >> 1 }

  function Step(x: bv32): bv32 { Xor(Half(x), Tap(x)) }

  function Steps(k: nat, x: bv32): bv32 {
    if k == 0 then x else Steps(k - 1, Step(x))
  }

  function FeedByte(c: bv32, d: Byte): bv32 {
    Steps(8, Xor(c, d as bv32))
  }

  // The reflected CRC register after all bytes.
  function Crc(c: bv32, data: seq<Byte>): bv32
    decreases |data|
  {
    if |data| == 0 then c else Crc(FeedByte(c, data[0]), data[1..])
  }

  // ---------- Exclusive or ----------

  lemma XorAssociative(x: bv32, y: bv32, z: bv32)
    ensures Xor(Xor(x, y), z) == Xor(x, Xor(y, z))
  {}

  lemma XorCommutes(x: bv32, y: bv32)
    ensures Xor(x, y) == Xor(y, x)
  {}

  lemma XorCancel(x: bv32, y: bv32)
    ensures Xor(Xor(x, y), y) == x
  {}

  lemma XorExchange(a: bv32, b: bv32, c: bv32, d: bv32)
    ensures Xor(Xor(a, b), Xor(c, d)) == Xor(Xor(a, c), Xor(b, d))
  {
    hide Xor;
    XorAssociative(a, b, Xor(c, d));
    XorAssociative(b, c, d);
    XorCommutes(b, c);
    XorAssociative(c, b, d);
    XorAssociative(a, c, Xor(b, d));
  }

  // ---------- Linearity ----------

  lemma HalfXor(x: bv32, y: bv32)
    ensures Half(Xor(x, y)) == Xor(Half(x), Half(y))
  {}

  lemma LowBitXor(x: bv32, y: bv32)
    ensures Xor(x, y) & 1 == (x & 1) ^ (y & 1)
  {}

  lemma LowBit(x: bv32)
    ensures x & 1 == 0 || x & 1 == 1
  {}

  lemma TapXor(x: bv32, y: bv32)
    ensures Tap(Xor(x, y)) == Xor(Tap(x), Tap(y))
  {
    LowBitXor(x, y);
    LowBit(x);
    LowBit(y);
  }

  lemma StepXor(x: bv32, y: bv32)
    ensures Step(Xor(x, y)) == Xor(Step(x), Step(y))
  {
    hide Xor, Tap, Half;
    HalfXor(x, y);
    TapXor(x, y);
    XorExchange(Half(x), Half(y), Tap(x), Tap(y));
  }

  // The register update is linear over GF(2).
  lemma {:induction false} StepsXor(k: nat, x: bv32, y: bv32)
    ensures Steps(k, Xor(x, y)) == Xor(Steps(k, x), Steps(k, y))
  {
    hide Xor, Step;
    if k > 0 {
      StepXor(x, y);
      StepsXor(k - 1, Step(x), Step(y));
    }
  }

  lemma {:induction false} StepsAdd(j: nat, k: nat, x: bv32)
    ensures Steps(j, Steps(k, x)) == Steps(j + k, x)
  {
    hide Step;
    if k > 0 {
      StepsAdd(j, k - 1, Step(x));
    }
  }


  // ---------- One byte at a time ----------

  lemma StepEven(y: bv32)
    requires y & 1 == 0
    ensures Step(y) == y >> 1
  {
    assert (y >> 1) ^ 0 == y >> 1;
  }

  // Shifting a 24-bit value k places up and stepping once is shifting it k - 1 places up.
  lemma StepUp8(x: bv32)
    ensures Step((x >> 8) << 8) == (x >> 8) << 7
  {
    StepEven((x >> 8) << 8);
  }

  lemma StepUp7(x: bv32)
    ensures Step((x >> 8) << 7) == (x >> 8) << 6
  {
    StepEven((x >> 8) << 7);
  }

  lemma StepUp6(x: bv32)
    ensures Step((x >> 8) << 6) == (x >> 8) << 5
  {
    StepEven((x >> 8) << 6);
  }

  lemma StepUp5(x: bv32)
    ensures Step((x >> 8) << 5) == (x >> 8) << 4
  {
    StepEven((x >> 8) << 5);
  }

  lemma StepUp4(x: bv32)
    ensures Step((x >> 8) << 4) == (x >> 8) << 3
  {
    StepEven((x >> 8) << 4);
  }

  lemma StepUp3(x: bv32)
    ensures Step((x >> 8) << 3) == (x >> 8) << 2
  {
    StepEven((x >> 8) << 3);
  }

  lemma StepUp2(x: bv32)
    ensures Step((x >> 8) << 2) == (x >> 8) << 1
  {
    StepEven((x >> 8) << 2);
  }

  lemma StepUp1(x: bv32)
    ensures Step((x >> 8) << 1) == x >> 8
  {
    StepEven((x >> 8) << 1);
  }

  lemma {:induction false} StepsChain(y: seq<bv32>)
    requires |y| > 0
    requires forall i :: 0 <= i < |y| - 1 ==> Step(y[i]) == y[i + 1]
    ensures Steps(|y| - 1, y[0]) == y[|y| - 1]
  {
    hide Step;
    if |y| > 1 {
      assert y[1..][0] == y[1];
      StepsChain(y[1..]);
    }
  }

  // Eight steps on a word whose low byte is clear only shift it.
  lemma StepsHigh(x: bv32)
    ensures Steps(8, (x >> 8) << 8) == x >> 8
  {
    hide Step, Steps;
    StepUp8(x); StepUp7(x); StepUp6(x); StepUp5(x);
    StepUp4(x); StepUp3(x); StepUp2(x); StepUp1(x);
    StepsChain([(x >> 8) << 8, (x >> 8) << 7, (x >> 8) << 6, (x >> 8) << 5, (x >> 8) << 4,
                (x >> 8) << 3, (x >> 8) << 2, (x >> 8) << 1, x >> 8]);
  }

  lemma SplitLowByte(x: bv32)
    ensures x == Xor(x & 0xff, (x >> 8) << 8)
  {}

  // The table-driven byte step: the low byte selects, the rest is shifted down.
  lemma StepsSplit(x: bv32)
    ensures Steps(8, x) == Xor(Steps(8, x & 0xff), x >> 8)
  {
    hide Xor, Step;
    SplitLowByte(x);
    StepsXor(8, x & 0xff, (x >> 8) << 8);
    StepsHigh(x);
  }

  // ---------- The reflected register is the division register read backwards ----------

  function FeedBit(c: bv32, m: bool): bv32 {
    Step(Xor(c, if m then 1 else 0))
  }

  function FeedBits(c: bv32, bits: seq<bool>): bv32
    decreases |bits|
  {
    if |bits| == 0 then c else FeedBits(FeedBit(c, bits[0]), bits[1..])
  }

  lemma ReverseXor(x: bv32, y: bv32)
    ensures Reverse(Xor(x, y)) == Xor(Reverse(x), Reverse(y))
  {}

  lemma ReverseHalf(x: bv32)
    ensures Reverse(x >> 1) == Reverse(x) << 1
  {}

  lemma ReverseTop(x: bv32)
    ensures x & 1 == 1 <==> Reverse(x) >> 31 == 1
  {}

  lemma ReversePoly()
    ensures Reverse(REFLECTED_POLY) == POLY && Reverse(0) == 0
  {}

  lemma ReverseTwice(x: bv32)
    ensures Reverse(Reverse(x)) == x
  {}

  lemma FlipKeepsHalf(c: bv32)
    ensures Half(Xor(c, 1)) == Half(c) && Half(Xor(c, 0)) == Half(c)
  {}

  lemma FlipLowBit(c: bv32)
    ensures Xor(c, 1) & 1 == (c & 1) ^ 1
    ensures Xor(c, 0) & 1 == c & 1
  {}

  lemma XorZero(x: bv32)
    ensures Xor(x, 0) == x
  {}

  lemma ReverseTap(c: bv32, m: bool)
    ensures Reverse(Tap(Xor(c, if m then 1 else 0))) == if (Reverse(c) >> 31 == 1) != m then POLY else 0
  {
    hide Reverse, Xor;
    FlipLowBit(c);
    LowBit(c);
    ReverseTop(c);
    ReversePoly();
  }

  lemma XorIs(x: bv32, y: bv32)
    ensures Xor(x, y) == x ^ y
  {}

  lemma HalfShifts(x: bv32)
    ensures Half(x) == x >> 1
  {}

  lemma ReverseFeedBit(c: bv32, m: bool)
    ensures Reverse(FeedBit(c, m)) == DivideBit(Reverse(c), m)
  {
    hide Reverse, Xor, Half, Tap;
    var x := Xor(c, if m then 1 else 0);
    FlipKeepsHalf(c);
    ReverseXor(Half(x), Tap(x));
    HalfShifts(c);
    ReverseHalf(c);
    ReverseTap(c, m);
    XorZero(Reverse(c) << 1);
    XorIs(Reverse(c) << 1, POLY);
  }


  lemma {:induction false} ReverseFeedBits(c: bv32, bits: seq<bool>)
    ensures Reverse(FeedBits(c, bits)) == DivideBits(Reverse(c), bits)
    decreases |bits|
  {
    hide Reverse, FeedBit, DivideBit;
    if |bits| > 0 {
      ReverseFeedBit(c, bits[0]);
      ReverseFeedBits(FeedBit(c, bits[0]), bits[1..]);
    }
  }

  // The word e holds exactly these bits, lowest first.
  predicate Holds(e: bv32, bits: seq<bool>)
    decreases |bits|
  {
    if |bits| == 0 then e == 0 else (e & 1 == 1) == bits[0] && Holds(Half(e), bits[1..])
  }

  lemma SplitLowBit(e: bv32)
    ensures e == Xor(if e & 1 == 1 then 1 else 0, Half(e) << 1)
  {
    LowBit(e);
    assert e == (e & 1) ^ ((e >> 1) << 1);
  }

  lemma DoubleEven(e: bv32)
    ensures Step(Half(e) << 1) == Half(e)
  {
    StepEven(Half(e) << 1);
  }

  lemma StepFeedsBit(c: bv32, e: bv32)
    ensures Step(Xor(c, e)) == Xor(FeedBit(c, e & 1 == 1), Half(e))
  {
    hide Xor, Step, Half;
    var low: bv32 := if e & 1 == 1 then 1 else 0;
    SplitLowBit(e);
    XorAssociative(c, low, Half(e) << 1);
    StepXor(Xor(c, low), Half(e) << 1);
    DoubleEven(e);
  }

  lemma {:induction false} StepsFeedBits(c: bv32, e: bv32, bits: seq<bool>)
    requires Holds(e, bits)
    ensures Steps(|bits|, Xor(c, e)) == FeedBits(c, bits)
    decreases |bits|
  {
    hide Xor, Step, Half, FeedBit;
    if |bits| == 0 {
      XorZero(c);
    } else {
      StepFeedsBit(c, e);
      StepsFeedBits(FeedBit(c, bits[0]), Half(e), bits[1..]);
    }
  }

  predicate Below(k: nat, d: Byte)
    decreases k
  {
    if k == 0 then d == 0 else Below(k - 1, d >> 1)
  }

  lemma ShiftByte(d: Byte)
    ensures Half(d as bv32) == (d >> 1) as bv32
  {}

  lemma LowBitByte(d: Byte)
    ensures d as bv32 & 1 == 1 <==> d & 1 == 1
  {}

  lemma {:induction false} HoldsLowBits(k: nat, d: Byte)
    requires Below(k, d)
    ensures Holds(d as bv32, LowBits(k, d)) && |LowBits(k, d)| == k
    decreases k
  {
    hide Half;
    if k > 0 {
      ShiftByte(d);
      LowBitByte(d);
      HoldsLowBits(k - 1, d >> 1);
      assert LowBits(k, d)[1..] == LowBits(k - 1, d >> 1);
    }
  }

  lemma ShiftOut(d: Byte)
    ensures (((((((d >> 1) >> 1) >> 1) >> 1) >> 1) >> 1) >> 1) >> 1 == 0
  {}

  lemma ByteBelow8(d: Byte)
    ensures Below(8, d)
  {
    ShiftOut(d);
    var d2 := (d >> 1) >> 1;
    var d4 := (d2 >> 1) >> 1;
    var d6 := (d4 >> 1) >> 1;
    assert Below(2, d6);
    assert Below(4, d4);
    assert Below(6, d2);
  }

  lemma FeedByteIsSerial(c: bv32, d: Byte)
    ensures Reverse(FeedByte(c, d)) == DivideBits(Reverse(c), Bits(d))
  {
    hide Reverse, FeedBits, DivideBits, Steps, Xor, Holds, LowBits, Below;
    ByteBelow8(d);
    HoldsLowBits(8, d);
    StepsFeedBits(c, d as bv32, Bits(d));
    ReverseFeedBits(c, Bits(d));
  }

  // The reflected register is the division of RFC 3720, coefficient order reversed.
  lemma {:induction false} CrcIsDivision(c: bv32, data: seq<Byte>)
    ensures Reverse(Crc(c, data)) == Divide(Reverse(c), data)
    decreases |data|
  {
    hide Reverse, FeedByte, DivideBits, Bits;
    if |data| > 0 {
      FeedByteIsSerial(c, data[0]);
      CrcIsDivision(FeedByte(c, data[0]), data[1..]);
    }
  }
}
