/**
 `node::util::crc32c`: the slicing-by-8 loop over an arbitrarily aligned buffer, and the
 incremental object built on it.
 */
module Crc32c {
  import opened Common
  import opened Crc32cSpec

  const INITIAL: bv32 := 0xffffffff

  // ---------- The eight lookup tables ----------

  function Low(x: bv32): Byte { (x & 0xff) as Byte }

  function Rest(x: bv32): bv32 { x >> 8 }

  // Table 0 is the one named o32; table k is the one named o(32 + 8k). Each entry
  // is the entry of the previous table carried through one more zero byte.
  function Table(k: nat, b: Byte): bv32 {
    if k == 0 then Steps(8, b as bv32)
    else
      var t := Table(k - 1, b);
      Xor(Table(0, Low(t)), t >> 8)
  }

  lemma LowIsMask(x: bv32)
    ensures Low(x) as bv32 == x & 0xff
  {}

  // An entry of table k is the effect of its index after k + 1 whole bytes.
  lemma {:induction false} TableIsSteps(k: nat, b: Byte)
    ensures Table(k, b) == Steps(8 * (k + 1), b as bv32)
  {
    hide Steps, Xor, Low;
    if k > 0 {
      var t := Table(k - 1, b);
      TableIsSteps(k - 1, b);
      LowIsMask(t);
      StepsSplit(t);
      StepsAdd(8, 8 * k, b as bv32);
    }
  }

  // The byte-at-a-time statement of the source.
  lemma ByteLookup(c: bv32, d: Byte)
    ensures FeedByte(c, d) == Xor(Table(0, Low(Xor(c, d as bv32))), c >> 8)
  {
    hide Steps, Xor, Low;
    var x := Xor(c, d as bv32);
    LowIsMask(x);
    StepsSplit(x);
    ShiftPastByte(c, d);
  }

  lemma ShiftPastByte(c: bv32, d: Byte)
    ensures Xor(c, d as bv32) >> 8 == c >> 8
  {}

  // ---------- Peeling bytes off a word ----------

  lemma {:induction false} StepsZero(k: nat)
    ensures Steps(k, 0) == 0
  {
    if k > 0 {
      StepEven(0);
      StepsZero(k - 1);
    }
  }

  // n + 1 bytes of steps: the low byte becomes a table entry, the rest moves down.
  lemma PeelEntry(n: nat, x: bv32)
    ensures Steps(8 * (n + 1), x) == Xor(Table(n, Low(x)), Steps(8 * n, Rest(x)))
  {
    hide Steps, Xor, Low, Table;
    StepsAdd(8 * n, 8, x);
    StepsSplit(x);
    StepsXor(8 * n, Steps(8, x & 0xff), x >> 8);
    StepsAdd(8 * n, 8, x & 0xff);
    LowIsMask(x);
    TableIsSteps(n, Low(x));
  }

  // A message word enters the register one byte at a time, low byte first.
  lemma PeelByte(n: nat, c: bv32, w: bv32)
    ensures Steps(8 * (n + 1), Xor(c, w)) == Steps(8 * n, Xor(FeedByte(c, Low(w)), Rest(w)))
  {
    hide Steps, Xor, Low;
    StepsAdd(8 * n, 8, Xor(c, w));
    SplitLowByte(w);
    LowIsMask(w);
    XorAssociative(c, w & 0xff, (w >> 8) << 8);
    StepsXor(8, Xor(c, w & 0xff), (w >> 8) << 8);
    StepsHigh(w);
  }

  lemma RestFour(x: bv32)
    ensures Rest(Rest(Rest(Rest(x)))) == 0
  {}

  // Four lookups replace 32 steps on a word, here followed by n further bytes.
  lemma FourLookups(n: nat, x: bv32)
    ensures Steps(8 * (n + 4), x)
         == Xor(Xor(Xor(Table(n + 3, Low(x)), Table(n + 2, Low(Rest(x)))), Table(n + 1, Low(Rest(Rest(x))))),
                Table(n, Low(Rest(Rest(Rest(x))))))
  {
    hide Steps, Xor, Low, Table, Rest;
    var x1 := Rest(x);
    var x2 := Rest(x1);
    var x3 := Rest(x2);
    var t3, t2, t1, t0 := Table(n + 3, Low(x)), Table(n + 2, Low(x1)), Table(n + 1, Low(x2)), Table(n, Low(x3));
    PeelEntry(n + 3, x);
    PeelEntry(n + 2, x1);
    PeelEntry(n + 1, x2);
    PeelEntry(n, x3);
    RestFour(x);
    StepsZero(8 * n);
    XorZero(t0);
    XorAssociative(Xor(t3, t2), t1, t0);
    XorAssociative(t3, t2, Xor(t1, t0));
  }

  // The bytes of a word, lowest first.
  function WordBytes(w: bv32): seq<Byte> {
    [Low(w), Low(Rest(w)), Low(Rest(Rest(w))), Low(Rest(Rest(Rest(w))))]
  }

  // Feeding the four bytes of a word is 32 steps on the register xor the word.
  lemma FourBytes(c: bv32, w: bv32)
    ensures Crc(c, WordBytes(w)) == Steps(32, Xor(c, w))
  {
    hide Steps, Xor, Low, FeedByte, Rest;
    var w1 := Rest(w);
    var w2 := Rest(w1);
    var w3 := Rest(w2);
    var c1 := FeedByte(c, Low(w));
    var c2 := FeedByte(c1, Low(w1));
    var c3 := FeedByte(c2, Low(w2));
    var c4 := FeedByte(c3, Low(w3));
    PeelByte(3, c, w);
    PeelByte(2, c1, w1);
    PeelByte(1, c2, w2);
    PeelByte(0, c3, w3);
    RestFour(w);
    XorZero(c4);
    StepsNone(c4);
    FourSteps(c, Low(w), Low(w1), Low(w2), Low(w3));
  }

  lemma CrcOne(c: bv32, d: Byte)
    ensures Crc(c, [d]) == FeedByte(c, d)
  {
    hide FeedByte;
    assert Crc(FeedByte(c, d), [d][1..]) == FeedByte(c, d);
  }

  lemma FourSteps(c: bv32, d0: Byte, d1: Byte, d2: Byte, d3: Byte)
    ensures Crc(c, [d0, d1, d2, d3]) == FeedByte(FeedByte(FeedByte(FeedByte(c, d0), d1), d2), d3)
  {
    hide FeedByte;
    CrcOne(c, d0);
    CrcOne(FeedByte(c, d0), d1);
    var c2 := FeedByte(FeedByte(c, d0), d1);
    CrcOne(c2, d2);
    CrcOne(FeedByte(c2, d2), d3);
    CrcAppend(c, [d0], [d1]);
    CrcAppend(c, [d0] + [d1], [d2]);
    CrcAppend(c, [d0] + [d1] + [d2], [d3]);
    assert [d0, d1, d2, d3] == [d0] + [d1] + [d2] + [d3];
  }

  lemma StepsNone(x: bv32)
    ensures Steps(0, x) == x
  {}

  lemma {:induction false} CrcAppend(c: bv32, a: seq<Byte>, b: seq<Byte>)
    ensures Crc(c, a + b) == Crc(Crc(c, a), b)
    decreases |a|
  {
    hide FeedByte;
    if |a| == 0 {
      assert a + b == b;
    } else {
      assert (a + b)[1..] == a[1..] + b;
      CrcAppend(FeedByte(c, a[0]), a[1..], b);
    }
  }

  function Slices(n: nat, x: bv32): bv32 {
    Xor(Xor(Xor(Table(n + 3, Low(x)), Table(n + 2, Low(Rest(x)))), Table(n + 1, Low(Rest(Rest(x))))),
        Table(n, Low(Rest(Rest(Rest(x))))))
  }

  lemma TwoWords(c: bv32, w1: bv32, w2: bv32)
    ensures Crc(c, WordBytes(w1) + WordBytes(w2)) == Xor(Slices(4, Xor(c, w1)), Slices(0, w2))
  {
    hide Steps, Xor, Low, Table, Rest, Crc, WordBytes;
    var x := Xor(c, w1);
    CrcAppend(c, WordBytes(w1), WordBytes(w2));
    FourBytes(c, w1);
    FourBytes(Steps(32, x), w2);
    StepsXor(32, Steps(32, x), w2);
    StepsAdd(32, 32, x);
    FourLookups(4, x);
    FourLookups(0, w2);
  }

  lemma WordShifts(x: bv32)
    ensures x >> 8 == Rest(x) && x >> 16 == Rest(Rest(x)) && (x >> 16) >> 8 == Rest(Rest(Rest(x)))
  {}

  // One iteration of the sliced loop, in the order of the source: two little-endian
  // words in, eight bytes consumed.
  method EightBytes(crc0: bv32, w1: bv32, w2: bv32) returns (crc: bv32)
    ensures crc == Crc(crc0, WordBytes(w1) + WordBytes(w2))
  {
    hide Steps, Xor, Low, Table, Crc, WordBytes, Rest;
    var x := Xor(crc0, w1);

    var term1 := Xor(Table(7, Low(x)), Table(6, Low(x >> 8)));
    var term2 := x >> 16;
    crc := Xor(Xor(term1, Table(5, Low(term2))), Table(4, Low(term2 >> 8)));

    WordShifts(x);
    assert crc == Slices(4, x);

    term1 := Xor(Table(3, Low(w2)), Table(2, Low(w2 >> 8)));
    term2 := w2 >> 16;
    XorAssociative(crc, term1, Table(1, Low(term2)));
    XorAssociative(crc, Xor(term1, Table(1, Low(term2))), Table(0, Low(term2 >> 8)));
    crc := Xor(Xor(Xor(crc, term1), Table(1, Low(term2))), Table(0, Low(term2 >> 8)));

    WordShifts(w2);
    TwoWords(crc0, w1, w2);
  }

  // ---------- The buffer loop ----------

  function Assemble(d0: Byte, d1: Byte, d2: Byte, d3: Byte): bv32 {
    d0 as bv32 | (d1 as bv32 << 8) | (d2 as bv32 << 16) | (d3 as bv32 << 24)
  }

  // A little-endian load of four bytes.
  function Load32(data: seq<Byte>, i: nat): bv32
    requires i + 4 <= |data|
  {
    Assemble(data[i], data[i + 1], data[i + 2], data[i + 3])
  }

  lemma AssembledBytes(d0: Byte, d1: Byte, d2: Byte, d3: Byte)
    ensures WordBytes(Assemble(d0, d1, d2, d3)) == [d0, d1, d2, d3]
  {
    hide Low, Rest, Assemble;
    AssembledByte0(d0, d1, d2, d3);
    AssembledByte1(d0, d1, d2, d3);
    AssembledByte2(d0, d1, d2, d3);
    AssembledByte3(d0, d1, d2, d3);
  }

  lemma AssembledByte0(d0: Byte, d1: Byte, d2: Byte, d3: Byte)
    ensures Low(Assemble(d0, d1, d2, d3)) == d0
  {}

  lemma AssembledByte1(d0: Byte, d1: Byte, d2: Byte, d3: Byte)
    ensures Low(Rest(Assemble(d0, d1, d2, d3))) == d1
  {}

  lemma AssembledByte2(d0: Byte, d1: Byte, d2: Byte, d3: Byte)
    ensures Low(Rest(Rest(Assemble(d0, d1, d2, d3)))) == d2
  {}

  lemma AssembledByte3(d0: Byte, d1: Byte, d2: Byte, d3: Byte)
    ensures Low(Rest(Rest(Rest(Assemble(d0, d1, d2, d3))))) == d3
  {}

  lemma LoadBytes(data: seq<Byte>, i: nat)
    requires i + 4 <= |data|
    ensures WordBytes(Load32(data, i)) == data[i..i + 4]
  {
    hide Assemble, WordBytes;
    AssembledBytes(data[i], data[i + 1], data[i + 2], data[i + 3]);
  }

  // What pushing a buffer does to the register: an empty buffer resets it.
  function Pushed(c: bv32, data: seq<Byte>): bv32 {
    if |data| == 0 then INITIAL else Crc(c, data)
  }

  lemma CrcEight(c: bv32, data: seq<Byte>, i: nat)
    requires i + 8 <= |data|
    ensures Crc(c, data[..i + 8])
         == Crc(Crc(c, data[..i]), WordBytes(Load32(data, i)) + WordBytes(Load32(data, i + 4)))
  {
    hide Crc, WordBytes, Load32;
    LoadBytes(data, i);
    LoadBytes(data, i + 4);
    assert data[..i + 8] == data[..i] + (data[i..i + 4] + data[i + 4..i + 8]);
    CrcAppend(c, data[..i], data[i..i + 4] + data[i + 4..i + 8]);
  }

  function RoundDown8(address: nat): (r: nat)
    ensures r % 8 == 0 && r <= address < r + 8
  {
    address / 8 * 8
  }

  // The source's loops over a buffer that starts at the given address: single bytes up to
  // an 8-byte boundary, eight bytes per iteration between boundaries, single bytes after.
  method PushBuffer(crc0: bv32, address: nat, data: array<Byte>) returns (crc: bv32)
    ensures crc == Pushed(crc0, data[..])
  {
    hide FeedByte, Load32, Crc, WordBytes, RoundDown8;
    ghost var message := data[..];
    var at := address;
    var dataEnd := at + data.Length;
    if at == dataEnd {
      return INITIAL;
    }

    var div8Start := RoundDown8(at + 7);
    var div8End := RoundDown8(dataEnd);
    if div8Start > dataEnd {
      div8Start := dataEnd;
    }

    crc := crc0;
    CrcEmpty(crc0);
    assert message[..0] == [];
    while at < div8Start
      invariant address <= at <= div8Start
      invariant crc == Crc(crc0, message[..at - address])
    {
      crc := ByteStep(crc, data[at - address]);
      CrcSnoc(crc0, message, at - address);
      at := at + 1;
    }

    ghost var multiple, endMultiple := div8Start / 8, div8End / 8;
    while at < div8End
      invariant address <= at <= dataEnd
      invariant at == 8 * multiple || at >= div8End == 8 * endMultiple
      invariant crc == Crc(crc0, message[..at - address])
    {
      crc := EightBytes(crc, Load32(data[..], at - address), Load32(data[..], at - address + 4));
      CrcEight(crc0, message, at - address);
      at := at + 8;
      multiple := multiple + 1;
    }

    while at < dataEnd
      invariant address <= at <= dataEnd
      invariant crc == Crc(crc0, message[..at - address])
    {
      crc := ByteStep(crc, data[at - address]);
      CrcSnoc(crc0, message, at - address);
      at := at + 1;
    }
    assert message[..data.Length] == message;
  }

  // Pushing a buffer divides by the generator, except that an empty buffer does not leave
  // the register alone.
  lemma PushedIsDivision(c: bv32, data: seq<Byte>)
    ensures Reverse(Pushed(c, data)) == Divide(Reverse(c), data) <==> |data| > 0 || c == INITIAL
  {
    hide Reverse, Crc;
    CrcIsDivision(c, data);
    CrcEmpty(c);
    ReverseInjective(INITIAL, c);
  }

  method ByteStep(crc0: bv32, d: Byte) returns (crc: bv32)
    ensures crc == FeedByte(crc0, d)
  {
    hide Xor, Low, Table, FeedByte;
    crc := Xor(Table(0, Low(Xor(crc0, d as bv32))), crc0 >> 8);
    ByteLookup(crc0, d);
  }

  lemma CrcEmpty(c: bv32)
    ensures Crc(c, []) == c
  {}

  lemma CrcSnoc(c: bv32, data: seq<Byte>, i: nat)
    requires i < |data|
    ensures Crc(c, data[..i + 1]) == FeedByte(Crc(c, data[..i]), data[i])
  {
    hide FeedByte;
    assert data[..i + 1] == data[..i] + [data[i]];
    CrcAppend(c, data[..i], [data[i]]);
    CrcOne(Crc(c, data[..i]), data[i]);
  }

  lemma ReverseInjective(x: bv32, y: bv32)
    ensures Reverse(x) == Reverse(y) <==> x == y
  {
    hide Reverse;
    ReverseTwice(x);
    ReverseTwice(y);
  }

  // The checksum of a whole message.
  function MessageChecksum(data: seq<Byte>): bv32 {
    Xor(Crc(INITIAL, data), INITIAL)
  }

  // The one-shot checksum.
  method ChecksumOf(address: nat, data: array<Byte>) returns (sum: bv32)
    ensures sum == MessageChecksum(data[..])
  {
    hide FeedByte, Xor;
    var crc := PushBuffer(INITIAL, address, data);
    sum := Xor(crc, INITIAL);
  }

  class Crc32cObject {
    var crc: bv32
    ghost var message: seq<Byte> // everything pushed since the last empty buffer

    ghost predicate Valid()
      reads this
    {
      crc == Crc(INITIAL, message)
    }

    constructor ()
      ensures Valid() && message == []
    {
      crc, message := INITIAL, [];
    }

    // A buffer is appended to the message, except that an empty one starts a new message.
    method Push(address: nat, data: array<Byte>)
      requires Valid()
      modifies this
      ensures Valid() && message == if data.Length == 0 then [] else old(message) + data[..]
    {
      hide Crc;
      CrcAppend(INITIAL, message, data[..]);
      CrcEmpty(INITIAL);
      crc := PushBuffer(crc, address, data);
      message := if data.Length == 0 then [] else message + data[..];
    }

    // The checksum of the message, as if it had been in one piece.
    method Checksum() returns (sum: bv32)
      requires Valid()
      ensures sum == MessageChecksum(message)
    {
      sum := Xor(crc, INITIAL);
    }
  }

  // A message that arrives in pieces, each at an address of its own.
  method ChecksumOfPieces(addresses: seq<nat>, pieces: seq<array<Byte>>) returns (sum: bv32)
    requires |addresses| == |pieces|
    ensures (forall i :: 0 <= i < |pieces| ==> pieces[i].Length > 0) ==>
      sum == MessageChecksum(Flatten(Contents(pieces)))
  {
    hide MessageChecksum, Flatten;
    var crc := new Crc32cObject();
    FlattenNothing();
    assert Contents(pieces)[..0] == [];
    for i := 0 to |pieces|
      invariant crc.Valid()
      invariant (forall j :: 0 <= j < |pieces| ==> pieces[j].Length > 0) ==>
        crc.message == Flatten(Contents(pieces)[..i])
    {
      FlattenSnoc(Contents(pieces)[..i], pieces[i][..]);
      assert Contents(pieces)[..i + 1] == Contents(pieces)[..i] + [pieces[i][..]];
      crc.Push(addresses[i], pieces[i]);
    }
    assert Contents(pieces)[..|pieces|] == Contents(pieces);
    sum := crc.Checksum();
  }

  function Contents(pieces: seq<array<Byte>>): seq<seq<Byte>>
    reads pieces
  {
    seq(|pieces|, i requires 0 <= i < |pieces| reads pieces => pieces[i][..])
  }

  lemma FlattenNothing()
    ensures Flatten<Byte>([]) == []
  {}

  // ---------- Splitting a message ----------

  function PushAll(c: bv32, chunks: seq<seq<Byte>>): bv32
    decreases |chunks|
  {
    if |chunks| == 0 then c else PushAll(Pushed(c, chunks[0]), chunks[1..])
  }

  // Non-empty pieces, however cut: the same register as the whole message at once.
  lemma {:induction false} SplitIndependence(c: bv32, chunks: seq<seq<Byte>>)
    requires forall i :: 0 <= i < |chunks| ==> |chunks[i]| > 0
    ensures PushAll(c, chunks) == Crc(c, Flatten(chunks))
    decreases |chunks|
  {
    hide FeedByte;
    if |chunks| > 0 {
      CrcAppend(c, chunks[0], Flatten(chunks[1..]));
      SplitIndependence(Crc(c, chunks[0]), chunks[1..]);
    }
  }

  lemma {:induction false} PushAllAppend(c: bv32, a: seq<seq<Byte>>, b: seq<seq<Byte>>)
    ensures PushAll(c, a + b) == PushAll(PushAll(c, a), b)
    decreases |a|
  {
    hide FeedByte, Crc;
    if |a| == 0 {
      assert a + b == b;
    } else {
      assert (a + b)[1..] == a[1..] + b;
      PushAllAppend(Pushed(c, a[0]), a[1..], b);
    }
  }

  // The register never forgets: different registers stay different over equal messages.
  lemma StepKernel(z: bv32)
    requires Step(z) == 0
    ensures z == 0
  {
    LowBit(z);
    TopOfHalf(z);
    NonZero(z);
  }

  lemma TopOfHalf(z: bv32)
    ensures (z >> 1) ^ REFLECTED_POLY != 0
  {}

  lemma NonZero(z: bv32)
    ensures z & 1 == 0 && (z >> 1) ^ 0 == 0 ==> z == 0
  {}

  lemma {:induction false} StepsInjective(k: nat, x: bv32, y: bv32)
    requires Steps(k, x) == Steps(k, y)
    ensures x == y
  {
    hide Step, Xor;
    if k > 0 {
      StepsInjective(k - 1, Step(x), Step(y));
      StepXor(x, y);
      XorSelf(Step(x), Step(y));
      StepKernel(Xor(x, y));
      XorSelf(x, y);
    }
  }

  lemma XorSelf(x: bv32, y: bv32)
    ensures x == y <==> Xor(x, y) == 0
  {}

  lemma {:induction false} CrcInjective(x: bv32, y: bv32, data: seq<Byte>)
    ensures Crc(x, data) == Crc(y, data) <==> x == y
    decreases |data|
  {
    hide Steps, Xor;
    if |data| > 0 {
      CrcInjective(FeedByte(x, data[0]), FeedByte(y, data[0]), data[1..]);
      if FeedByte(x, data[0]) == FeedByte(y, data[0]) {
        var d := data[0] as bv32;
        StepsInjective(8, Xor(x, d), Xor(y, d));
        XorCancel(x, d);
        XorCancel(y, d);
      }
    }
  }

  // With empty pieces the register restarts at the last of them (chunks[k - 1] here), so
  // the object agrees with the one-shot checksum exactly when everything up to there
  // happens to leave the initial register.
  lemma EmptyPieceRestarts(chunks: seq<seq<Byte>>, k: nat)
    requires 0 < k <= |chunks| && |chunks[k - 1]| == 0
    requires forall i :: k <= i < |chunks| ==> |chunks[i]| > 0
    ensures PushAll(INITIAL, chunks) == Crc(INITIAL, Flatten(chunks[k..]))
    ensures PushAll(INITIAL, chunks) == Crc(INITIAL, Flatten(chunks)) <==> Crc(INITIAL, Flatten(chunks[..k])) == INITIAL
  {
    hide FeedByte, Crc;
    var head := chunks[..k - 1];
    assert chunks[..k] == head + [chunks[k - 1]];
    assert chunks == chunks[..k] + chunks[k..];
    PushAllAppend(INITIAL, head, [chunks[k - 1]]);
    PushAllAppend(INITIAL, chunks[..k], chunks[k..]);
    assert PushAll(INITIAL, chunks[..k]) == INITIAL by {
      PushEmpty(PushAll(INITIAL, head), chunks[k - 1]);
    }
    SplitIndependence(INITIAL, chunks[k..]);
    FlattenAppend(chunks[..k], chunks[k..]);
    CrcAppend(INITIAL, Flatten(chunks[..k]), Flatten(chunks[k..]));
    CrcInjective(Crc(INITIAL, Flatten(chunks[..k])), INITIAL, Flatten(chunks[k..]));
  }

  lemma PushEmpty(c: bv32, chunk: seq<Byte>)
    requires |chunk| == 0
    ensures PushAll(c, [chunk]) == INITIAL
  {
    assert [chunk][1..] == [];
  }

  // ---------- The check value and the residue ----------

  lemma FourMore(k: nat, x: bv32)
    ensures Steps(k + 4, x) == Steps(k, Step(Step(Step(Step(x)))))
  {
    hide Step;
    assert Steps(k + 3, Step(x)) == Steps(k + 2, Step(Step(x))) == Steps(k + 1, Step(Step(Step(x))));
  }

  lemma EightSteps(x: bv32)
    ensures Steps(8, x) == Step(Step(Step(Step(Step(Step(Step(Step(x))))))))
  {
    hide Step;
    FourMore(4, x);
    FourMore(0, Step(Step(Step(Step(x)))));
  }

  const DIGITS: seq<Byte> := [0x31, 0x32, 0x33, 0x34, 0x35, 0x36, 0x37, 0x38, 0x39]

  lemma DigitsFeed()
    ensures FeedByte(0xffffffff, 0x31) == 0x6f0a661c
    ensures FeedByte(0x6f0a661c, 0x32) == 0x8caa3b9f
    ensures FeedByte(0x8caa3b9f, 0x33) == 0xef84d04d
    ensures FeedByte(0xef84d04d, 0x34) == 0x09c50b11
    ensures FeedByte(0x09c50b11, 0x35) == 0xe72edcca
    ensures FeedByte(0xe72edcca, 0x36) == 0xbeca8e79
    ensures FeedByte(0xbeca8e79, 0x37) == 0xedbd6815
    ensures FeedByte(0xedbd6815, 0x38) == 0x9f787f65
    ensures FeedByte(0x9f787f65, 0x39) == 0x1cf96d7c
  {
    hide Steps;
    EightSteps(0xffffffce); EightSteps(0x6f0a662e); EightSteps(0x8caa3bac);
    EightSteps(0xef84d079); EightSteps(0x09c50b24); EightSteps(0xe72edcfc);
    EightSteps(0xbeca8e4e); EightSteps(0xedbd682d); EightSteps(0x9f787f5c);
  }

  lemma CrcNext(c: bv32, data: seq<Byte>, i: nat)
    requires i < |data|
    ensures Crc(c, data[i..]) == Crc(FeedByte(c, data[i]), data[i + 1..])
  {
    hide FeedByte;
    assert data[i..][1..] == data[i + 1..];
  }

  // The checksum of "123456789", by which implementations are told apart.
  lemma CheckValue()
    ensures MessageChecksum(DIGITS) == 0xe3069283
  {
    hide FeedByte, Crc;
    DigitsFeed();
    CrcNext(0xffffffff, DIGITS, 0); CrcNext(0x6f0a661c, DIGITS, 1); CrcNext(0x8caa3b9f, DIGITS, 2);
    CrcNext(0xef84d04d, DIGITS, 3); CrcNext(0x09c50b11, DIGITS, 4); CrcNext(0xe72edcca, DIGITS, 5);
    CrcNext(0xbeca8e79, DIGITS, 6); CrcNext(0xedbd6815, DIGITS, 7); CrcNext(0x9f787f65, DIGITS, 8);
    CrcEmpty(0x1cf96d7c);
    assert DIGITS[0..] == DIGITS && DIGITS[9..] == [];
  }

  const RESIDUE: bv32 := 0xb798b438

  lemma OnesFeed()
    ensures Steps(8, 0xffffffff) == 0xad82acae && Steps(8, 0xad82acae) == 0x0e9e882d
    ensures Steps(8, 0x0e9e882d) == 0x9f9b5c85 && Steps(8, 0x9f9b5c85) == RESIDUE
  {
    hide Steps;
    EightSteps(0xffffffff); EightSteps(0xad82acae); EightSteps(0x0e9e882d); EightSteps(0x9f9b5c85);
  }

  lemma ResidueIs()
    ensures Steps(32, INITIAL) == RESIDUE
  {
    hide Step, Steps;
    OnesFeed();
    StepsAdd(24, 8, INITIAL);
    StepsAdd(16, 8, 0xad82acae);
    StepsAdd(8, 8, 0x0e9e882d);
  }

  // A message followed by four bytes leaves the residue if and only if they are its checksum.
  lemma Residue(data: seq<Byte>, w: bv32)
    ensures Crc(INITIAL, data + WordBytes(w)) == RESIDUE <==> w == MessageChecksum(data)
  {
    hide Steps, Xor, Crc, WordBytes;
    var c := Crc(INITIAL, data);
    CrcAppend(INITIAL, data, WordBytes(w));
    FourBytes(c, w);
    ResidueIs();
    if Steps(32, Xor(c, w)) == Steps(32, INITIAL) {
      StepsInjective(32, Xor(c, w), INITIAL);
    }
    XorMoves(c, w);
  }

  lemma XorMoves(c: bv32, w: bv32)
    ensures Xor(c, w) == INITIAL <==> w == Xor(c, INITIAL)
  {
    hide Xor;
    XorCommutes(c, w);
    XorCommutes(c, INITIAL);
    XorCancel(w, c);
    XorCancel(INITIAL, c);
  }
}
