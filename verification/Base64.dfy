/**
 `node::util::base64`: the encoder that reads three words per iteration, and the decoder.
 A read or write outside the buffers is made explicit as the outcome `Fault`.
 */
module Base64 {
  import opened Base64Spec
  import opened Common

  datatype Outcome = Done(bytes: seq<Byte>) | Fault

  // ---------- Words ----------

  function LoadLittleEndian(d0: Byte, d1: Byte, d2: Byte, d3: Byte): bv32 {
    d0 as bv32 | (d1 as bv32 << 8) | (d2 as bv32 << 16) | (d3 as bv32 << 24)
  }

  // `htonl` on a little-endian host.
  function SwapBytes(w: bv32): bv32 {
    (w >> 24) | ((w >> 8) & 0xff00) | ((w << 8) & 0xff0000) | (w << 24)
  }

  function BigEndian(d0: Byte, d1: Byte, d2: Byte, d3: Byte): bv32 {
    (d0 as bv32 << 24) | (d1 as bv32 << 16) | (d2 as bv32 << 8) | d3 as bv32
  }

  lemma SwapLoaded(d0: Byte, d1: Byte, d2: Byte, d3: Byte)
    ensures SwapBytes(LoadLittleEndian(d0, d1, d2, d3)) == BigEndian(d0, d1, d2, d3)
  {}

  // A table index; every index the source computes is below 64.
  function Index(x: bv32): Byte { (x & 0xff) as Byte }

  // The indices taken from the first word, across the first and second, and so on.
  lemma FirstWord(d0: Byte, d1: Byte, d2: Byte, d3: Byte)
    ensures var w := BigEndian(d0, d1, d2, d3);
            && Index(w >> 26) == Sextet(0, Group(d0, d1, d2))
            && Index((w & 0x3f00000) >> 20) == Sextet(1, Group(d0, d1, d2))
            && Index((w & 0xfc000) >> 14) == Sextet(2, Group(d0, d1, d2))
            && Index((w & 0x3f00) >> 8) == Sextet(3, Group(d0, d1, d2))
  {}

  lemma SecondWord(d3: Byte, d4: Byte, d5: Byte, d0: Byte, d1: Byte, d2: Byte, d6: Byte, d7: Byte)
    ensures var w, v := BigEndian(d0, d1, d2, d3), BigEndian(d4, d5, d6, d7);
            && Index((w & 0xfc) >> 2) == Sextet(0, Group(d3, d4, d5))
            && Index(((w & 0x3) << 4) | (v >> 28)) == Sextet(1, Group(d3, d4, d5))
            && Index((v & 0xfc00000) >> 22) == Sextet(2, Group(d3, d4, d5))
            && Index((v & 0x3f0000) >> 16) == Sextet(3, Group(d3, d4, d5))
  {}

  lemma ThirdWord(d6: Byte, d7: Byte, d8: Byte, d4: Byte, d5: Byte, d9: Byte, d10: Byte, d11: Byte)
    ensures var v, u := BigEndian(d4, d5, d6, d7), BigEndian(d8, d9, d10, d11);
            && Index((v & 0xfc00) >> 10) == Sextet(0, Group(d6, d7, d8))
            && Index((v & 0x3f0) >> 4) == Sextet(1, Group(d6, d7, d8))
            && Index(((v & 0xf) << 2) | (u >> 30)) == Sextet(2, Group(d6, d7, d8))
            && Index((u & 0x3f000000) >> 24) == Sextet(3, Group(d6, d7, d8))
  {}

  lemma LastOfThirdWord(d8: Byte, d9: Byte, d10: Byte, d11: Byte)
    ensures var u := BigEndian(d8, d9, d10, d11);
            && Index((u & 0xfc0000) >> 18) == Sextet(0, Group(d9, d10, d11))
            && Index((u & 0x3f000) >> 12) == Sextet(1, Group(d9, d10, d11))
            && Index((u & 0xfc0) >> 6) == Sextet(2, Group(d9, d10, d11))
            && Index(u & 0x3f) == Sextet(3, Group(d9, d10, d11))
  {}

  // The indices computed from three single bytes.
  lemma TripleIndices(a: Byte, b: Byte, c: Byte)
    ensures a >> 2 == Sextet(0, Group(a, b, c))
    ensures ((a & 0x03) << 4) | (b >> 4) == Sextet(1, Group(a, b, c))
    ensures ((b & 0x0f) << 2) | (c >> 6) == Sextet(2, Group(a, b, c))
    ensures c & 0x3f == Sextet(3, Group(a, b, c))
  {}

  // ---------- The encoder ----------

  // The lengths and alignments (of the first byte) for which no loop leaves the buffers.
  predicate InEncodeDomain(address: nat, length: nat) {
    if length == 0 then address >= 2
    else length < 12 || 3 * (address % 4) <= length % 12
  }

  // `out[0] = ...; out[1] = ...;` and so on, at position o.
  method Put(out: array<Byte>, o: nat, symbols: seq<Byte>)
    requires o + |symbols| <= out.Length
    modifies out
    ensures out[..o + |symbols|] == old(out[..o]) + symbols
  {
    forall i | 0 <= i < |symbols| {
      out[o + i] := symbols[i];
    }
  }

  lemma EncodeStep(s: seq<Byte>, b: nat, url: bool)
    requires b + 3 <= |s| && b % 3 == 0
    ensures RfcEncode(s[..b + 3], url) == RfcEncode(s[..b], url) + Quad(s[b], s[b + 1], s[b + 2], url)
  {
    hide Quad;
    assert s[..b + 3] == s[..b] + [s[b], s[b + 1], s[b + 2]];
    EncodeAppend(s[..b], [s[b], s[b + 1], s[b + 2]], url);
    assert [s[b], s[b + 1], s[b + 2]][3..] == [];
  }

  // Three bytes at a time while the position is below the limit.
  method EncodeTriples(data: array<Byte>, out: array<Byte>, base: nat, limit: int, url: bool) returns (b: nat)
    requires data != out && out.Length == (data.Length + 2) / 3 * 4
    requires base % 3 == 0 && base <= data.Length && limit <= data.Length - 2
    requires out[..base / 3 * 4] == RfcEncode(data[..base], url)
    modifies out
    ensures base <= b <= data.Length && b % 3 == 0 && limit <= b && (b == base || b < limit + 3)
    ensures out[..b / 3 * 4] == RfcEncode(data[..b], url)
  {
    hide RfcEncode, Letter, Sextet, Group;
    b := base;
    var o := base / 3 * 4;
    while b < limit
      invariant base <= b <= data.Length && b % 3 == 0 && (b == base || b < limit + 3)
      invariant o == b / 3 * 4
      invariant out[..o] == RfcEncode(data[..b], url)
      invariant data[..] == old(data[..])
    {
      var in0, in1, in2 := data[b], data[b + 1], data[b + 2];
      TripleIndices(in0, in1, in2);
      EncodeStep(data[..], b, url);
      Put(out, o, [Letter(in0 >> 2, url), Letter(((in0 & 0x03) << 4) | (in1 >> 4), url),
                   Letter(((in1 & 0x0f) << 2) | (in2 >> 6), url), Letter(in2 & 0x3f, url)]);
      assert data[..][..b] == data[..b] && data[..][..b + 3] == data[..b + 3];
      b := b + 3;
      o := o + 4;
    }
  }

  // `htonl(in[k])` for the word at position i.
  function NetworkWord(s: seq<Byte>, i: nat): bv32
    requires i + 4 <= |s|
  {
    SwapBytes(LoadLittleEndian(s[i], s[i + 1], s[i + 2], s[i + 3]))
  }

  // The sixteen symbols taken from three words, in the source's order.
  function Symbols0To3(in1: bv32, url: bool): (r: seq<Byte>)
    ensures |r| == 4
  {
    [Letter(Index(in1 >> 26), url), Letter(Index((in1 & 0x3f00000) >> 20), url),
     Letter(Index((in1 & 0xfc000) >> 14), url), Letter(Index((in1 & 0x3f00) >> 8), url)]
  }

  function Symbols4To7(in1: bv32, in2: bv32, url: bool): (r: seq<Byte>)
    ensures |r| == 4
  {
    [Letter(Index((in1 & 0xfc) >> 2), url), Letter(Index(((in1 & 0x3) << 4) | (in2 >> 28)), url),
     Letter(Index((in2 & 0xfc00000) >> 22), url), Letter(Index((in2 & 0x3f0000) >> 16), url)]
  }

  function Symbols8To11(in2: bv32, in3: bv32, url: bool): (r: seq<Byte>)
    ensures |r| == 4
  {
    [Letter(Index((in2 & 0xfc00) >> 10), url), Letter(Index((in2 & 0x3f0) >> 4), url),
     Letter(Index(((in2 & 0xf) << 2) | (in3 >> 30)), url), Letter(Index((in3 & 0x3f000000) >> 24), url)]
  }

  function Symbols12To15(in3: bv32, url: bool): (r: seq<Byte>)
    ensures |r| == 4
  {
    [Letter(Index((in3 & 0xfc0000) >> 18), url), Letter(Index((in3 & 0x3f000) >> 12), url),
     Letter(Index((in3 & 0xfc0) >> 6), url), Letter(Index(in3 & 0x3f), url)]
  }

  function WordSymbols(in1: bv32, in2: bv32, in3: bv32, url: bool): (r: seq<Byte>)
    ensures |r| == 16
  {
    Symbols0To3(in1, url) + Symbols4To7(in1, in2, url) + Symbols8To11(in2, in3, url) + Symbols12To15(in3, url)
  }

  lemma TwelveBytes(s: seq<Byte>, b: nat, url: bool)
    requires b % 3 == 0 && b + 12 <= |s|
    ensures RfcEncode(s[..b + 12], url) == RfcEncode(s[..b], url)
         + WordSymbols(NetworkWord(s, b), NetworkWord(s, b + 4), NetworkWord(s, b + 8), url)
  {
    hide RfcEncode, NetworkWord, Symbols0To3, Symbols4To7, Symbols8To11, Symbols12To15;
    FirstGroup(s, b, url);
    SecondGroup(s, b, url);
    ThirdGroup(s, b, url);
    FourthGroup(s, b, url);
  }

  // One iteration of the word loop: three words in, sixteen symbols out. The words must be
  // aligned.
  method EncodeTwelve(address: nat, data: array<Byte>, out: array<Byte>, b: nat, url: bool)
    requires data != out && out.Length == (data.Length + 2) / 3 * 4
    requires b % 3 == 0 && b + 12 <= data.Length
    requires (address + b) % 4 == 0
    requires out[..b / 3 * 4] == RfcEncode(data[..b], url)
    modifies out
    ensures out[..(b + 12) / 3 * 4] == RfcEncode(data[..b + 12], url)
  {
    hide *;
    ghost var s := data[..];
    TwelveBytes(s, b, url);
    assert s[..b] == data[..b] && s[..b + 12] == data[..b + 12];
    var o := b / 3 * 4;
    var x := WordSymbols(NetworkWord(data[..], b), NetworkWord(data[..], b + 4), NetworkWord(data[..], b + 8), url);
    Put(out, o, x);
    assert data[..] == s;
  }

  lemma FirstGroup(s: seq<Byte>, b: nat, url: bool)
    requires b % 3 == 0 && b + 12 <= |s|
    ensures var w := NetworkWord(s, b);
            RfcEncode(s[..b + 3], url) == RfcEncode(s[..b], url)
            + Symbols0To3(w, url)
  {
    hide RfcEncode, Letter, Sextet, Group, SwapBytes, LoadLittleEndian, BigEndian, Index;
    SwapLoaded(s[b], s[b + 1], s[b + 2], s[b + 3]);
    FirstWord(s[b], s[b + 1], s[b + 2], s[b + 3]);
    EncodeStep(s, b, url);
  }

  lemma SecondGroup(s: seq<Byte>, b: nat, url: bool)
    requires b % 3 == 0 && b + 12 <= |s|
    ensures var w, v := NetworkWord(s, b), NetworkWord(s, b + 4);
            RfcEncode(s[..b + 6], url) == RfcEncode(s[..b + 3], url)
            + Symbols4To7(w, v, url)
  {
    hide RfcEncode, Letter, Sextet, Group, SwapBytes, LoadLittleEndian, BigEndian, Index;
    SwapLoaded(s[b], s[b + 1], s[b + 2], s[b + 3]);
    SwapLoaded(s[b + 4], s[b + 5], s[b + 6], s[b + 7]);
    SecondWord(s[b + 3], s[b + 4], s[b + 5], s[b], s[b + 1], s[b + 2], s[b + 6], s[b + 7]);
    EncodeStep(s, b + 3, url);
  }

  lemma ThirdGroup(s: seq<Byte>, b: nat, url: bool)
    requires b % 3 == 0 && b + 12 <= |s|
    ensures var v, u := NetworkWord(s, b + 4), NetworkWord(s, b + 8);
            RfcEncode(s[..b + 9], url) == RfcEncode(s[..b + 6], url)
            + Symbols8To11(v, u, url)
  {
    hide RfcEncode, Letter, Sextet, Group, SwapBytes, LoadLittleEndian, BigEndian, Index;
    SwapLoaded(s[b + 4], s[b + 5], s[b + 6], s[b + 7]);
    SwapLoaded(s[b + 8], s[b + 9], s[b + 10], s[b + 11]);
    ThirdWord(s[b + 6], s[b + 7], s[b + 8], s[b + 4], s[b + 5], s[b + 9], s[b + 10], s[b + 11]);
    EncodeStep(s, b + 6, url);
  }

  lemma FourthGroup(s: seq<Byte>, b: nat, url: bool)
    requires b % 3 == 0 && b + 12 <= |s|
    ensures var u := NetworkWord(s, b + 8);
            RfcEncode(s[..b + 12], url) == RfcEncode(s[..b + 9], url)
            + Symbols12To15(u, url)
  {
    hide RfcEncode, Letter, Sextet, Group, SwapBytes, LoadLittleEndian, BigEndian, Index;
    SwapLoaded(s[b + 8], s[b + 9], s[b + 10], s[b + 11]);
    LastOfThirdWord(s[b + 8], s[b + 9], s[b + 10], s[b + 11]);
    EncodeStep(s, b + 9, url);
  }

  // The final group of zero, one or two bytes.
  lemma EncodeRest(s: seq<Byte>, b: nat, url: bool)
    requires b % 3 == 0 && b <= |s| < b + 3
    ensures RfcEncode(s, url) == RfcEncode(s[..b], url) + RfcEncode(s[b..], url)
  {
    assert s == s[..b] + s[b..];
    EncodeAppend(s[..b], s[b..], url);
  }

  lemma TailOfTwo(in0: Byte, in1: Byte, url: bool)
    ensures RfcEncode([in0, in1], url)
         == [Letter(in0 >> 2, url), Letter(((in0 & 0x03) << 4) | (in1 >> 4), url),
             Letter(((in1 & 0x0f) << 2) | (0 >> 6), url), PAD]
  {
    hide Letter, Sextet, Group;
    TripleIndices(in0, in1, 0);
  }

  lemma TailOfOne(in0: Byte, url: bool)
    ensures RfcEncode([in0], url) == [Letter(in0 >> 2, url), Letter(((in0 & 0x03) << 4) | (0 >> 4), url), PAD, PAD]
  {
    hide Letter, Sextet, Group;
    TripleIndices(in0, 0, 0);
  }

  method EncodeTail(data: array<Byte>, out: array<Byte>, b: nat, url: bool)
    requires data != out && out.Length == (data.Length + 2) / 3 * 4
    requires b % 3 == 0 && b <= data.Length < b + 3
    requires out[..b / 3 * 4] == RfcEncode(data[..b], url)
    modifies out
    ensures out[..] == RfcEncode(data[..], url)
  {
    hide RfcEncode, Letter;
    ghost var s := data[..];
    EncodeRest(s, b, url);
    var o := b / 3 * 4;
    var left := data.Length - b;
    if left == 2 {
      var in0, in1 := data[b], data[b + 1];
      Put(out, o, [Letter(in0 >> 2, url), Letter(((in0 & 0x03) << 4) | (in1 >> 4), url),
                   Letter(((in1 & 0x0f) << 2) | (0 >> 6), url), PAD]);
      TailOfTwo(in0, in1, url);
      assert out[..o + 4] == out[..] && s[b..] == [in0, in1];
    } else if left == 1 {
      var in0 := data[b];
      Put(out, o, [Letter(in0 >> 2, url), Letter(((in0 & 0x03) << 4) | (0 >> 4), url), PAD, PAD]);
      TailOfOne(in0, url);
      assert out[..o + 4] == out[..] && s[b..] == [in0];
    } else {
      EncodeNothing(s, url);
      assert out[..o] == out[..] && s[b..] == [];
    }
  }

  // The word loop, whose limit is taken from the advanced position: it stays within the input
  // if and only if the bytes skipped fit behind the last whole twelve. Started at an aligned
  // address, it loads aligned words only.
  method EncodeWords(address: nat, data: array<Byte>, out: array<Byte>, base: nat, url: bool)
    returns (ok: bool, b: nat)
    requires (address + base) % 4 == 0
    requires data != out && out.Length == (data.Length + 2) / 3 * 4
    requires base % 3 == 0 && base <= data.Length && data.Length >= 12
    requires out[..base / 3 * 4] == RfcEncode(data[..base], url)
    modifies out
    ensures ok <==> base <= data.Length % 12
    ensures ok ==> b % 3 == 0 && b <= data.Length && out[..b / 3 * 4] == RfcEncode(data[..b], url)
  {
    hide *;
    ghost var s, words := data[..], 0;
    var alignedLimit := base + data.Length - 11;
    b := base;
    while b < alignedLimit
      invariant b % 3 == 0 && b <= data.Length && (address + b) % 4 == 0
      invariant 12 * words <= data.Length && b == base + 12 * words
      invariant data[..] == s
      invariant out[..b / 3 * 4] == RfcEncode(s[..b], url)
    {
      WholeTwelves(base, data.Length, words);
      NextAligned(address, b);
      if b + 12 > data.Length {
        return false, b;
      }
      EncodeTwelve(address, data, out, b, url);
      b := b + 12;
      words := words + 1;
    }
    WholeTwelves(base, data.Length, words);
    ok := true;
  }

  // After some twelves, either another one fits at most into the input alone, or the limit has
  // been reached.
  lemma WholeTwelves(base: nat, length: nat, words: nat)
    requires 12 * words <= length
    ensures 12 * words < length - 11 ==> 12 * (words + 1) <= length
    ensures 12 * words < length - 11 && base + 12 * words + 12 > length ==> base > length % 12
    ensures 12 * words >= length - 11 && base + 12 * words <= length ==> base <= length % 12
  {
    var q := length / 12;
    assert length == 12 * q + length % 12;
    assert 12 * words >= length - 11 ==> words == q;
  }

  lemma NextAligned(address: nat, b: nat)
    ensures (address + b) % 4 == 0 ==> (address + (b + 12)) % 4 == 0
    ensures b % 3 == 0 ==> (b + 12) % 3 == 0
  {}

  // `base64::encode` on a buffer that starts at the given address.
  method Encode(address: nat, data: array<Byte>, url: bool) returns (r: Outcome)
    requires data.Length > 0 ==> address > 0
    ensures r == if InEncodeDomain(address, data.Length) then Done(RfcEncode(data[..], url)) else Fault
  {
    hide RfcEncode;
    ghost var s := data[..];
    var len := data.Length;
    var out := new Byte[(len + 2) / 3 * 4];
    var b := 0;
    EncodeNothing(s, url);

    if len >= 12 {
      var offset := address % 4;
      if offset > 0 {
        b := EncodeTriples(data, out, b, 3 * offset, url);
      }
      SkippedAligns(address, offset, b);
      var ok;
      ok, b := EncodeWords(address, data, out, b, url);
      if !ok {
        return Fault;
      }
    }

    // The limit `end - 2` wraps around for an empty buffer at address zero.
    if address + len < 2 {
      return Fault;
    }
    b := EncodeTriples(data, out, b, len - 2, url);
    EncodeTail(data, out, b, url);
    r := Done(out[..]);
  }

  // Three times the offset from an aligned address is skipped: whole groups up to the next one.
  lemma SkippedAligns(address: nat, offset: nat, b: nat)
    requires offset == address % 4 && b % 3 == 0 && 3 * offset <= b && (b == 0 || b < 3 * offset + 3)
    ensures b == 3 * offset && (address + b) % 4 == 0
  {
    assert address + 3 * offset == 4 * (address / 4 + offset);
  }

  lemma EncodeNothing(s: seq<Byte>, url: bool)
    ensures s[..0] == [] && RfcEncode([], url) == []
  {}

  // ---------- The decoder ----------

  // The decoder's accumulator: the shifted-in values, and how many there are (a uint8_t).
  datatype Acc = Acc(r: bv32, ri: nat)

  function Joined(r: bv32, n: Byte): bv32 { (r << 6) | n as bv32 }

  // The `shift6` macro on the table entry of c.
  function Feed(acc: Acc, c: Byte): Acc {
    if Value(c) <= 0x3f then Acc(Joined(acc.r, Value(c)), (acc.ri + 1) % 256) else acc
  }

  // The bytes the source's switch writes for two, three or four collected values.
  function Flush(acc: Acc): (bytes: seq<Byte>)
    ensures |bytes| <= 3
  {
    if acc.ri == 2 then [((acc.r & 0xff0) >> 4) as Byte]
    else if acc.ri == 3 then [((acc.r & 0x3fc00) >> 10) as Byte, ((acc.r & 0x3fc) >> 2) as Byte]
    else if acc.ri == 4 then
      [((acc.r & 0xff0000) >> 16) as Byte, ((acc.r & 0xff00) >> 8) as Byte, (acc.r & 0xff) as Byte]
    else []
  }

  function AfterFlush(acc: Acc): Acc {
    if acc.ri == 2 || acc.ri == 3 then acc.(ri := 1) else if acc.ri == 4 then acc.(ri := 0) else acc
  }

  function FeedFour(acc: Acc, t: seq<Byte>): Acc
    requires |t| >= 4
  {
    Feed(Feed(Feed(Feed(acc, t[0]), t[1]), t[2]), t[3])
  }

  function Shift6(r: bv32, n: Byte): bv32 { (r << 6) | (n & 0x3f) as bv32 }

  // Whatever was shifted in before, the last two, three or four values give the bytes.
  lemma TwoValues(r: bv32, p: Byte, q: Byte)
    ensures ((Shift6(Shift6(r, p), q) & 0xff0) >> 4) as Byte == Byte0(p & 0x3f, q & 0x3f)
  {}

  lemma ThreeValues(r: bv32, p: Byte, q: Byte, u: Byte)
    ensures ((Shift6(Shift6(Shift6(r, p), q), u) & 0x3fc00) >> 10) as Byte == Byte0(p & 0x3f, q & 0x3f)
    ensures ((Shift6(Shift6(Shift6(r, p), q), u) & 0x3fc) >> 2) as Byte == Byte1(q & 0x3f, u & 0x3f)
  {}

  lemma FourValues(r: bv32, p: Byte, q: Byte, u: Byte, v: Byte)
    ensures ((Shift6(Shift6(Shift6(Shift6(r, p), q), u), v) & 0xff0000) >> 16) as Byte == Byte0(p & 0x3f, q & 0x3f)
    ensures ((Shift6(Shift6(Shift6(Shift6(r, p), q), u), v) & 0xff00) >> 8) as Byte == Byte1(q & 0x3f, u & 0x3f)
    ensures (Shift6(Shift6(Shift6(Shift6(r, p), q), u), v) & 0xff) as Byte == Byte2(u & 0x3f, v & 0x3f)
  {}

  lemma MaskSmall(n: Byte)
    requires n < 64
    ensures n <= 0x3f && n & 0x3f == n
  {}

  lemma FeedSymbol(acc: Acc, c: Byte)
    requires IsSymbol(c)
    ensures Feed(acc, c) == Acc(Shift6(acc.r, Value(c)), (acc.ri + 1) % 256)
  {
    hide Value, Shift6, Joined;
    MaskSmall(Value(c));
    ShiftIs(acc.r, Value(c));
  }

  lemma ShiftIs(r: bv32, n: Byte)
    requires n & 0x3f == n
    ensures Shift6(r, n) == Joined(r, n)
  {}

  lemma FeedPad(acc: Acc)
    ensures Feed(acc, PAD) == acc
  {}

  lemma FlushTwo(r: bv32, p: Byte, q: Byte)
    requires p < 64 && q < 64
    ensures Flush(Acc(Shift6(Shift6(r, p), q), 2)) == [Byte0(p, q)]
  {
    hide Shift6, Byte0;
    TwoValues(r, p, q);
    MaskSmall(p);
    MaskSmall(q);
  }

  lemma FlushThree(r: bv32, p: Byte, q: Byte, u: Byte)
    requires p < 64 && q < 64 && u < 64
    ensures Flush(Acc(Shift6(Shift6(Shift6(r, p), q), u), 3)) == [Byte0(p, q), Byte1(q, u)]
  {
    hide Shift6, Byte0, Byte1;
    ThreeValues(r, p, q, u);
    MaskSmall(p);
    MaskSmall(q);
    MaskSmall(u);
  }

  lemma FlushFour(r: bv32, p: Byte, q: Byte, u: Byte, v: Byte)
    requires p < 64 && q < 64 && u < 64 && v < 64
    ensures Flush(Acc(Shift6(Shift6(Shift6(Shift6(r, p), q), u), v), 4)) == [Byte0(p, q), Byte1(q, u), Byte2(u, v)]
  {
    hide Shift6, Byte0, Byte1, Byte2;
    FourValues(r, p, q, u, v);
    MaskSmall(p);
    MaskSmall(q);
    MaskSmall(u);
    MaskSmall(v);
  }

  lemma PadIsNoSymbol()
    ensures !IsSymbol(PAD)
  {}

  lemma SymbolSmall(c: Byte)
    requires IsSymbol(c)
    ensures Value(c) < 64
  {}

  lemma FeedTwo(acc: Acc, t: seq<Byte>)
    requires |t| >= 4 && acc.ri == 0 && IsSymbol(t[0]) && IsSymbol(t[1])
    ensures Feed(Feed(acc, t[0]), t[1]) == Acc(Shift6(Shift6(acc.r, Value(t[0])), Value(t[1])), 2)
  {
    hide Feed, Value, Shift6, IsSymbol;
    FeedSymbol(acc, t[0]);
    FeedSymbol(Feed(acc, t[0]), t[1]);
  }

  lemma TwoSymbols(acc: Acc, t: seq<Byte>)
    requires |t| >= 4 && acc.ri == 0 && IsSymbol(t[0]) && IsSymbol(t[1]) && t[2] == PAD && t[3] == PAD
    ensures FeedFour(acc, t).ri == 2 && Flush(FeedFour(acc, t)) == [Byte0(Value(t[0]), Value(t[1]))]
  {
    hide Feed, Value, Shift6, IsSymbol, Flush, Byte0;
    FeedTwo(acc, t);
    FeedPad(Feed(Feed(acc, t[0]), t[1]));
    SymbolSmall(t[0]);
    SymbolSmall(t[1]);
    FlushTwo(acc.r, Value(t[0]), Value(t[1]));
  }

  lemma ThreeSymbols(acc: Acc, t: seq<Byte>)
    requires |t| >= 4 && acc.ri == 0 && IsSymbol(t[0]) && IsSymbol(t[1]) && IsSymbol(t[2]) && t[3] == PAD
    ensures FeedFour(acc, t).ri == 3
    ensures Flush(FeedFour(acc, t)) == [Byte0(Value(t[0]), Value(t[1])), Byte1(Value(t[1]), Value(t[2]))]
  {
    hide Feed, Value, Shift6, IsSymbol, Flush, Byte0, Byte1;
    FeedTwo(acc, t);
    FeedSymbol(Feed(Feed(acc, t[0]), t[1]), t[2]);
    FeedPad(Feed(Feed(Feed(acc, t[0]), t[1]), t[2]));
    SymbolSmall(t[0]);
    SymbolSmall(t[1]);
    SymbolSmall(t[2]);
    FlushThree(acc.r, Value(t[0]), Value(t[1]), Value(t[2]));
  }

  lemma FourSymbols(acc: Acc, t: seq<Byte>)
    requires |t| >= 4 && acc.ri == 0 && IsSymbol(t[0]) && IsSymbol(t[1]) && IsSymbol(t[2]) && IsSymbol(t[3])
    ensures FeedFour(acc, t).ri == 4
    ensures Flush(FeedFour(acc, t))
         == [Byte0(Value(t[0]), Value(t[1])), Byte1(Value(t[1]), Value(t[2])), Byte2(Value(t[2]), Value(t[3]))]
  {
    hide Feed, Value, Shift6, IsSymbol, Flush, Byte0, Byte1, Byte2;
    FeedTwo(acc, t);
    FeedSymbol(Feed(Feed(acc, t[0]), t[1]), t[2]);
    FeedSymbol(Feed(Feed(Feed(acc, t[0]), t[1]), t[2]), t[3]);
    SymbolSmall(t[0]);
    SymbolSmall(t[1]);
    SymbolSmall(t[2]);
    SymbolSmall(t[3]);
    FlushFour(acc.r, Value(t[0]), Value(t[1]), Value(t[2]), Value(t[3]));
  }

  // A whole group of symbols, or a padded last group, fed to an accumulator with nothing
  // pending.
  lemma GroupFlushes(acc: Acc, t: seq<Byte>)
    requires WellFormed(t) && |t| >= 4 && acc.ri == 0
    ensures WellFormed(t[4..])
    ensures RfcDecode(t) == Flush(FeedFour(acc, t)) + RfcDecode(t[4..])
    ensures |t| > 4 ==> AfterFlush(FeedFour(acc, t)).ri == 0
    ensures AfterFlush(FeedFour(acc, t)).ri <= 1
  {
    hide FeedFour, Value, Byte0, Byte1, Byte2, IsSymbol, Flush;
    PadIsNoSymbol();
    if t[2] == PAD {
      TwoSymbols(acc, t);
    } else if t[3] == PAD {
      ThreeSymbols(acc, t);
    } else {
      FourSymbols(acc, t);
    }
  }

  // What is known of a well-formed text when its first b symbols have been decoded.
  ghost predicate Progress(t: seq<Byte>, b: nat, acc: Acc, prefix: seq<Byte>)
    requires b <= |t|
  {
    WellFormed(t) ==>
      && WellFormed(t[b..])
      && prefix + RfcDecode(t[b..]) == RfcDecode(t)
      && acc.ri <= 1
      && (b < |t| ==> acc.ri == 0)
  }

  lemma ProgressStart(t: seq<Byte>)
    ensures Progress(t, 0, Acc(0, 0), [])
  {
    assert t[0..] == t;
  }

  lemma ProgressStep(t: seq<Byte>, b: nat, acc: Acc, prefix: seq<Byte>)
    requires b + 4 <= |t| && Progress(t, b, acc, prefix)
    ensures Progress(t, b + 4, AfterFlush(FeedFour(acc, t[b..b + 4])), prefix + Flush(FeedFour(acc, t[b..b + 4])))
  {
    hide RfcDecode, WellFormed, FeedFour, Flush, AfterFlush;
    if WellFormed(t) {
      GroupFlushes(acc, t[b..]);
      FeedFourHere(acc, t, b);
      assert t[b..][4..] == t[b + 4..];
    }
  }

  lemma ProgressEnd(t: seq<Byte>, acc: Acc, prefix: seq<Byte>)
    requires Progress(t, |t|, acc, prefix)
    ensures WellFormed(t) ==> prefix == RfcDecode(t) && acc.ri <= 1
  {
    DecodeNothing(t);
  }

  predicate AllSymbols(t: seq<Byte>) {
    forall i :: 0 <= i < |t| ==> IsSymbol(t[i])
  }

  lemma {:induction false} SymbolsAreWellFormed(t: seq<Byte>)
    requires AllSymbols(t) && |t| % 4 == 0
    ensures WellFormed(t)
    decreases |t|
  {
    hide IsSymbol;
    if |t| >= 4 {
      SymbolsAreWellFormed(t[4..]);
    }
  }

  lemma SliceOfSymbols(t: seq<Byte>, b: nat, e: nat)
    requires AllSymbols(t) && b <= e <= |t|
    ensures AllSymbols(t[b..e])
  {}

  // ---------- How much the decoder writes ----------

  // The number of values pending after one more byte, or after all bytes of t.
  function Taken(ri: nat, c: Byte): nat {
    if Value(c) <= 0x3f then (ri + 1) % 256 else ri
  }

  function AllTaken(ri: nat, t: seq<Byte>): nat {
    if |t| == 0 then ri else Taken(AllTaken(ri, t[..|t| - 1]), t[|t| - 1])
  }

  // What a switch over the pending values writes, and leaves pending.
  function Flushed(ri: nat): nat {
    if 2 <= ri <= 4 then ri - 1 else 0
  }

  function Kept(ri: nat): nat {
    if ri == 2 || ri == 3 then 1 else if ri == 4 then 0 else ri
  }

  // The pending values and the bytes written after the groups up to position b.
  function After(t: seq<Byte>, b: nat): (nat, nat)
    requires b % 4 == 0 && b <= |t|
  {
    if b == 0 then (0, 0)
    else
      var (ri, o) := After(t, b - 4);
      var fed := AllTaken(ri, t[b - 4..b]);
      (Kept(fed), o + Flushed(fed))
  }

  // The storage the decoder reserves for a text of n bytes.
  function Capacity(n: nat): nat {
    Max(n / 4 * 3, 16)
  }

  // Whether the bytes left over after the last whole group are written behind the storage.
  predicate Overruns(t: seq<Byte>) {
    var n := |t| / 4 * 4;
    var (ri, o) := After(t, n);
    o + Flushed(AllTaken(ri, t[n..])) > Capacity(|t|)
  }

  lemma FedOne(acc: Acc, c: Byte)
    ensures Feed(acc, c).ri == Taken(acc.ri, c)
  {}

  lemma FlushLength(acc: Acc)
    ensures |Flush(acc)| == Flushed(acc.ri) && AfterFlush(acc).ri == Kept(acc.ri)
  {}

  lemma FourTaken(ri: nat, t: seq<Byte>)
    requires |t| == 4
    ensures AllTaken(ri, t) == Taken(Taken(Taken(Taken(ri, t[0]), t[1]), t[2]), t[3])
  {
    hide Taken;
    assert t[..3][..2] == t[..2] && t[..2][..1] == t[..1] && t[..1][..0] == [];
    assert AllTaken(ri, t[..1]) == Taken(ri, t[0]);
    assert AllTaken(ri, t[..2]) == Taken(AllTaken(ri, t[..1]), t[1]);
    assert AllTaken(ri, t[..3]) == Taken(AllTaken(ri, t[..2]), t[2]);
  }

  lemma FedFour(acc: Acc, t: seq<Byte>)
    requires |t| == 4
    ensures var fed := FeedFour(acc, t);
            && fed.ri == AllTaken(acc.ri, t)
            && |Flush(fed)| == Flushed(fed.ri) && AfterFlush(fed).ri == Kept(fed.ri)
  {
    hide Feed, Taken, AllTaken, Flush, Flushed, Kept, AfterFlush;
    FedOne(acc, t[0]);
    FedOne(Feed(acc, t[0]), t[1]);
    FedOne(Feed(Feed(acc, t[0]), t[1]), t[2]);
    FedOne(Feed(Feed(Feed(acc, t[0]), t[1]), t[2]), t[3]);
    FourTaken(acc.ri, t);
    FlushLength(FeedFour(acc, t));
  }

  lemma OneFed(acc: Acc, c: Byte, ri: nat, t: seq<Byte>)
    requires acc.ri == AllTaken(ri, t)
    ensures Feed(acc, c).ri == AllTaken(ri, t + [c])
  {
    assert (t + [c])[..|t|] == t;
  }

  lemma {:induction false} SymbolsTaken(ri: nat, t: seq<Byte>)
    requires AllSymbols(t) && ri + |t| < 256
    ensures AllTaken(ri, t) == ri + |t|
  {
    if |t| > 0 {
      SymbolsTaken(ri, t[..|t| - 1]);
      SymbolSmall(t[|t| - 1]);
    }
  }

  // One group more.
  lemma AfterGroup(t: seq<Byte>, b: nat)
    requires b % 4 == 0 && b + 4 <= |t|
    ensures var (ri, o) := After(t, b);
            var fed := AllTaken(ri, t[b..b + 4]);
            After(t, b + 4) == (Kept(fed), o + Flushed(fed))
  {
    hide AllTaken, Kept, Flushed;
  }

  lemma GroupsBefore(b: nat)
    requires b % 4 == 0 && b > 0
    ensures b >= 4 && (b - 4) % 4 == 0 && (b - 4) / 4 * 3 + 3 == b / 4 * 3
  {}

  lemma AfterNothing(t: seq<Byte>)
    ensures After(t, 0) == (0, 0)
  {}

  lemma {:induction false} AfterSymbols(t: seq<Byte>, b: nat)
    requires AllSymbols(t) && b % 4 == 0 && b <= |t|
    ensures After(t, b) == (0, b / 4 * 3)
    decreases b
  {
    hide After, AllTaken, IsSymbol, AllSymbols;
    if b > 0 {
      GroupsBefore(b);
      AfterSymbols(t, b - 4);
      SliceOfSymbols(t, b - 4, b);
      SymbolsTaken(0, t[b - 4..b]);
      AfterGroup(t, b - 4);
    } else {
      AfterNothing(t);
    }
  }

  // Of a text of symbols, two or three left over are written.
  lemma SymbolsOverrun(t: seq<Byte>)
    requires AllSymbols(t)
    ensures Overruns(t) <==> |t| % 4 >= 2 && |t| / 4 * 3 + |t| % 4 - 1 > Capacity(|t|)
    ensures Overruns(t) <==> |t| % 4 >= 2 && |t| >= 23
    ensures WellFormed(t[..|t| / 4 * 4])
  {
    hide AllTaken, After, IsSymbol, WellFormed;
    var n := |t| / 4 * 4;
    AfterSymbols(t, n);
    SliceOfSymbols(t, n, |t|);
    assert t[n..|t|] == t[n..];
    SymbolsTaken(0, t[n..]);
    SliceOfSymbols(t, 0, n);
    assert t[0..n] == t[..n];
    SymbolsAreWellFormed(t[..n]);
  }

  // ---------- What the decoder writes ----------

  // The values of the characters that are not skipped.
  function Values(t: seq<Byte>): (r: seq<Byte>)
    ensures forall i :: 0 <= i < |r| ==> r[i] < 64
  {
    if |t| == 0 then []
    else Values(t[..|t| - 1]) + if Value(t[|t| - 1]) <= 0x3f then [Value(t[|t| - 1])] else []
  }

  // The bytes made of the last n values, if n is two, three or four.
  function LastBytes(v: seq<Byte>, n: nat): seq<Byte> {
    var k := |v|;
    if n == 2 && k >= 2 then [Byte0(v[k - 2], v[k - 1])]
    else if n == 3 && k >= 3 then [Byte0(v[k - 3], v[k - 2]), Byte1(v[k - 2], v[k - 1])]
    else if n == 4 && k >= 4 then [Byte0(v[k - 4], v[k - 3]), Byte1(v[k - 3], v[k - 2]), Byte2(v[k - 2], v[k - 1])]
    else []
  }

  // The bytes written after the groups up to position b: at the end of every group those of
  // the values pending there, wherever in the text they stood.
  function Decoded(t: seq<Byte>, b: nat): seq<Byte>
    requires b % 4 == 0 && b <= |t|
  {
    if b == 0 then [] else Decoded(t, b - 4) + LastBytes(Values(t[..b]), AllTaken(After(t, b - 4).0, t[b - 4..b]))
  }

  // The register that all values have been shifted into.
  function Register(v: seq<Byte>): bv32 {
    if |v| == 0 then 0 else Shift6(Register(v[..|v| - 1]), v[|v| - 1])
  }

  // The accumulator after the first i characters: no more is pending than there were values.
  ghost predicate Tracks(acc: Acc, t: seq<Byte>, i: nat)
    requires i <= |t|
  {
    acc.r == Register(Values(t[..i])) && acc.ri <= |Values(t[..i])|
  }

  lemma TracksStart(t: seq<Byte>)
    ensures Tracks(Acc(0, 0), t, 0)
  {}

  lemma ValuesStep(t: seq<Byte>, i: nat)
    requires i < |t|
    ensures Values(t[..i + 1]) == if Value(t[i]) <= 0x3f then Values(t[..i]) + [Value(t[i])] else Values(t[..i])
  {
    hide Value;
    assert t[..i + 1][..i] == t[..i];
  }

  lemma RegisterSnoc(v: seq<Byte>, n: Byte)
    ensures Register(v + [n]) == Shift6(Register(v), n)
  {
    hide Shift6;
    assert (v + [n])[..|v|] == v;
  }

  lemma TracksFeed(acc: Acc, t: seq<Byte>, i: nat)
    requires i < |t| && Tracks(acc, t, i)
    ensures Tracks(Feed(acc, t[i]), t, i + 1)
  {
    hide Value, Values, Register, Shift6, Joined;
    ValuesStep(t, i);
    if Value(t[i]) <= 0x3f {
      RegisterSnoc(Values(t[..i]), Value(t[i]));
      MaskSmall(Value(t[i]));
      ShiftIs(acc.r, Value(t[i]));
    }
  }

  lemma TracksFour(acc: Acc, t: seq<Byte>, b: nat)
    requires b + 4 <= |t| && Tracks(acc, t, b)
    ensures Tracks(FeedFour(acc, t[b..b + 4]), t, b + 4)
  {
    hide Tracks, Feed;
    var a1 := Feed(acc, t[b]);
    TracksFeed(acc, t, b);
    var a2 := Feed(a1, t[b + 1]);
    TracksFeed(a1, t, b + 1);
    var a3 := Feed(a2, t[b + 2]);
    TracksFeed(a2, t, b + 2);
    TracksFeed(a3, t, b + 3);
  }

  lemma RegisterEnds(v: seq<Byte>, k: nat)
    requires k < |v|
    ensures Register(v[..k + 1]) == Shift6(Register(v[..k]), v[k])
  {
    hide Register, Shift6;
    assert v[..k + 1] == v[..k] + [v[k]];
    RegisterSnoc(v[..k], v[k]);
  }

  // Whatever was shifted in before, the register's low bits are the last values.
  lemma TracksFlush(acc: Acc, t: seq<Byte>, i: nat)
    requires i <= |t| && Tracks(acc, t, i)
    ensures Flush(acc) == LastBytes(Values(t[..i]), acc.ri)
    ensures Tracks(AfterFlush(acc), t, i)
  {
    hide Values, Register, Shift6, Byte0, Byte1, Byte2, Flush;
    var v := Values(t[..i]);
    var k := |v|;
    assert v[..k] == v;
    if 2 <= acc.ri <= 4 {
      RegisterEnds(v, k - 1);
      RegisterEnds(v, k - 2);
    }
    if acc.ri == 2 {
      FlushTwo(Register(v[..k - 2]), v[k - 2], v[k - 1]);
    } else if acc.ri == 3 {
      RegisterEnds(v, k - 3);
      FlushThree(Register(v[..k - 3]), v[k - 3], v[k - 2], v[k - 1]);
    } else if acc.ri == 4 {
      RegisterEnds(v, k - 3);
      RegisterEnds(v, k - 4);
      FlushFour(Register(v[..k - 4]), v[k - 4], v[k - 3], v[k - 2], v[k - 1]);
    } else {
      FlushNothing(acc);
    }
  }

  lemma FlushNothing(acc: Acc)
    requires acc.ri != 2 && acc.ri != 3 && acc.ri != 4
    ensures Flush(acc) == []
  {}

  // What is known of any text when its first b characters have been decoded.
  ghost predicate Reads(t: seq<Byte>, b: nat, acc: Acc, prefix: seq<Byte>)
    requires b % 4 == 0 && b <= |t|
  {
    Tracks(acc, t, b) && acc.ri == After(t, b).0 && prefix == Decoded(t, b)
  }

  lemma ReadsStart(t: seq<Byte>)
    ensures Reads(t, 0, Acc(0, 0), [])
  {
    TracksStart(t);
  }

  lemma ReadsStep(t: seq<Byte>, b: nat, acc: Acc, prefix: seq<Byte>)
    requires b % 4 == 0 && b + 4 <= |t| && Reads(t, b, acc, prefix)
    ensures var fed := FeedFour(acc, t[b..b + 4]); Reads(t, b + 4, AfterFlush(fed), prefix + Flush(fed))
  {
    hide Tracks, FeedFour, Flush, AllTaken, Kept, Flushed, Values, LastBytes, AfterFlush;
    TracksFour(acc, t, b);
    FedFour(acc, t[b..b + 4]);
    TracksFlush(FeedFour(acc, t[b..b + 4]), t, b + 4);
  }

  lemma ReadsIs(t: seq<Byte>, b: nat, acc: Acc, prefix: seq<Byte>)
    requires b % 4 == 0 && b <= |t| && Reads(t, b, acc, prefix)
    ensures prefix == Decoded(t, b)
  {}

  method DecodeGroups(text: array<Byte>, out: array<Byte>) returns (acc: Acc, b: nat, o: nat)
    requires text != out && text.Length / 4 * 3 <= out.Length
    modifies out
    ensures b == text.Length / 4 * 4 && o <= b / 4 * 3
    ensures acc.ri != 2 && acc.ri != 3 && acc.ri != 4
    ensures Progress(text[..b], b, acc, out[..o]) && (acc.ri, o) == After(text[..], b)
    ensures Reads(text[..], b, acc, out[..o])
  {
    hide Progress, Reads, FeedFour, Flush, After, AllTaken, Flushed, Kept;
    ghost var t, n := text[..], text.Length / 4 * 4;
    acc := Acc(0, 0);
    b, o := 0, 0;
    ProgressStart(t[..n]);
    ReadsStart(t);
    AfterNothing(t);
    assert out[..0] == [];
    while b < text.Length - 3
      invariant b % 4 == 0 && b <= n && o <= b / 4 * 3
      invariant acc.ri != 2 && acc.ri != 3 && acc.ri != 4
      invariant Progress(t[..n], b, acc, out[..o]) && (acc.ri, o) == After(t, b)
      invariant Reads(t, b, acc, out[..o])
      invariant text[..] == t
    {
      ProgressStep(t[..n], b, acc, out[..o]);
      ReadsStep(t, b, acc, out[..o]);
      FedFour(acc, t[b..b + 4]);
      AfterGroup(t, b);
      assert t[..n][b..b + 4] == t[b..b + 4];
      acc := FeedFour(acc, text[b..b + 4]);
      assert text[b..b + 4] == t[b..b + 4];
      var bytes := Flush(acc);
      Put(out, o, bytes);
      o := o + |bytes|;
      acc := AfterFlush(acc);
      b := b + 4;
    }
  }

  // `base64::decode` on a text that starts at the given address. Whole groups decode as they
  // should; what is left over is cut off, or written out of bounds.
  method Decode(address: nat, text: array<Byte>) returns (r: Outcome)
    requires text.Length > 0 ==> address > 0
    ensures r.Fault? <==> address + text.Length < 3 || Overruns(text[..])
    ensures r.Done? ==> r.bytes == Decoded(text[..], text.Length / 4 * 4)
    ensures r.Done? ==> |r.bytes| == After(text[..], text.Length / 4 * 4).1
    ensures r.Done? && WellFormed(text[..text.Length / 4 * 4]) ==>
      r == Done(RfcDecode(text[..text.Length / 4 * 4]))
    ensures WellFormed(text[..]) && address + text.Length >= 3 ==> r == Done(RfcDecode(text[..]))
    ensures text.Length % 4 == 0 && address + text.Length >= 3 ==> r.Done?
  {
    hide WellFormed, RfcDecode, Feed, Flush, Progress, Reads, AllTaken, Flushed, Overruns, Decoded, After, Values;
    OverrunsIs(text[..]);
    ghost var t, n := text[..], text.Length / 4 * 4;
    WellFormedLength(t);
    if |t| % 4 == 0 {
      GroupsFit(t);
      assert t[..n] == t;
    }
    var out := new Byte[Capacity(text.Length)];

    // The limit `end - 3` wraps around near address zero.
    if address + text.Length < 3 {
      return Fault;
    }

    var acc, b, o := DecodeGroups(text, out);
    assert text[..] == t;
    ghost var kept := out[..o];
    ProgressEnd(t[..n], acc, kept);
    ReadsIs(t, n, acc, kept);
    ghost var pending := acc.ri;
    NothingTaken(acc.ri, t[n..n]);
    while b < text.Length
      invariant n <= b <= text.Length && out[..o] == kept
      invariant acc.ri == AllTaken(pending, t[n..b])
    {
      OneFed(acc, t[b], pending, t[n..b]);
      assert t[n..b + 1] == t[n..b] + [t[b]];
      acc := Feed(acc, text[b]);
      b := b + 1;
    }
    assert t[n..|t|] == t[n..];

    // The bytes written here are cut off again by the final set_size.
    var bytes := Flush(acc);
    FlushLength(acc);
    if o + |bytes| > out.Length {
      return Fault;
    }
    Put(out, o, bytes);
    assert out[..o] == out[..o + |bytes|][..o] == kept;
    r := Done(out[..o]);
  }

  lemma OverrunsIs(t: seq<Byte>)
    ensures var n := |t| / 4 * 4;
            var (ri, o) := After(t, n);
            Overruns(t) <==> o + Flushed(AllTaken(ri, t[n..])) > Capacity(|t|)
  {}

  lemma NothingTaken(ri: nat, t: seq<Byte>)
    requires |t| == 0
    ensures AllTaken(ri, t) == ri
  {}

  // A text of whole groups is never written out of bounds.
  lemma GroupsFit(t: seq<Byte>)
    requires |t| % 4 == 0
    ensures !Overruns(t)
  {
    AfterFits(t, |t|);
    assert t[|t|..] == [];
  }

  lemma {:induction false} AfterFits(t: seq<Byte>, b: nat)
    requires b % 4 == 0 && b <= |t|
    ensures var (ri, o) := After(t, b); o <= b / 4 * 3 && Flushed(ri) == 0
    decreases b
  {
    hide AllTaken;
    if b > 0 {
      AfterFits(t, b - 4);
    }
  }

  lemma FourSymbolsTaken(ri: nat, t: seq<Byte>)
    requires AllSymbols(t) && |t| == 4 && ri < 256
    ensures AllTaken(ri, t) == (ri + 4) % 256
  {
    hide AllTaken, IsSymbol, Value;
    FourTaken(ri, t);
    OneTaken(ri, t[0]);
    OneTaken((ri + 1) % 256, t[1]);
    OneTaken((ri + 2) % 256, t[2]);
    OneTaken((ri + 3) % 256, t[3]);
  }

  lemma OneTaken(ri: nat, c: Byte)
    requires IsSymbol(c)
    ensures Taken(ri, c) == (ri + 1) % 256
  {
    SymbolSmall(c);
  }

  lemma GroupOfSymbols(t: seq<Byte>, b: nat)
    requires 8 <= b <= |t| && AllSymbols(t[4..])
    ensures AllSymbols(t[b - 4..b])
  {
    hide IsSymbol;
    var g := t[b - 4..b];
    forall i | 0 <= i < |g|
      ensures IsSymbol(g[i])
    {
      assert g[i] == t[b - 4 + i] == t[4..][b - 8 + i];
    }
  }

  // A padded group leaves one value pending for good: of whole groups of symbols behind it
  // nothing is decoded.
  lemma {:induction false} NothingAfterPadding(t: seq<Byte>, b: nat)
    requires 4 <= b <= |t| && b % 4 == 0
    requires IsSymbol(t[0]) && IsSymbol(t[1]) && (IsSymbol(t[2]) || t[2] == PAD) && t[3] == PAD && AllSymbols(t[4..])
    ensures After(t, b).0 % 4 == 1 && After(t, b).0 < 256 && Decoded(t, b) == RfcDecode(t[..4])
    decreases b
  {
    hide AllTaken, IsSymbol, AllSymbols, Values, RfcDecode, WellFormed, FeedFour, Flush;
    var g := t[b - 4..b];
    if b == 4 {
      PaddedGroup(t);
    } else {
      NothingAfterPadding(t, b - 4);
      GroupOfSymbols(t, b);
      FourSymbolsTaken(After(t, b - 4).0, g);
      NotFlushed(t, b);
    }
  }

  lemma PaddedGroup(t: seq<Byte>)
    requires |t| >= 4 && IsSymbol(t[0]) && IsSymbol(t[1]) && (IsSymbol(t[2]) || t[2] == PAD) && t[3] == PAD
    ensures After(t, 4).0 == 1 && Decoded(t, 4) == RfcDecode(t[..4])
  {
    hide IsSymbol, Flush, FeedFour, RfcDecode, Value, Tracks, After, Decoded, Byte0, Byte1;
    var p, acc := t[..4], Acc(0, 0);
    assert t[0..4] == p;
    ReadsStart(t);
    ReadsStep(t, 0, acc, []);
    GroupFlushes(acc, p);
    PadIsNoSymbol();
    DecodeNothing(p);
    assert p[4..] == p[|p|..] == [];
    if t[2] == PAD {
      TwoSymbols(acc, p);
    } else {
      ThreeSymbols(acc, p);
    }
  }

  lemma NotFlushed(t: seq<Byte>, b: nat)
    requires 4 < b <= |t| && b % 4 == 0
    requires After(t, b - 4).0 % 4 == 1 && AllTaken(After(t, b - 4).0, t[b - 4..b]) == (After(t, b - 4).0 + 4) % 256
    ensures After(t, b).0 % 4 == 1 && After(t, b).0 < 256 && Decoded(t, b) == Decoded(t, b - 4)
  {
    hide AllTaken, Values;
  }

  // Encoding and decoding again, wherever the two texts are stored.
  method ThereAndBack(address: nat, data: array<Byte>, url: bool, textAddress: nat) returns (back: Outcome)
    requires data.Length > 0 && address > 0 && textAddress > 0 && InEncodeDomain(address, data.Length)
    ensures back == Done(data[..])
  {
    hide RfcEncode, RfcDecode, WellFormed, IsSymbol;
    var encoded := Encode(address, data, url);
    RoundTrip(data[..], url);
    EncodedLength(data[..], url);
    var text := new Byte[|encoded.bytes|](i requires 0 <= i < |encoded.bytes| => encoded.bytes[i]);
    assert text[..] == encoded.bytes;
    GroupsFit(text[..]);
    assert text[..text.Length / 4 * 4] == text[..];
    back := Decode(textAddress, text);
  }

  lemma FeedFourHere(acc: Acc, t: seq<Byte>, b: nat)
    requires b + 4 <= |t|
    ensures FeedFour(acc, t[b..]) == FeedFour(acc, t[b..b + 4])
  {}

  lemma {:induction false} WellFormedLength(t: seq<Byte>)
    ensures WellFormed(t) ==> |t| % 4 == 0
    decreases |t|
  {
    hide IsSymbol;
    if |t| >= 4 {
      WellFormedLength(t[4..]);
    }
  }

  lemma DecodeNothing(t: seq<Byte>)
    ensures t[|t|..] == [] && WellFormed([]) && RfcDecode([]) == []
  {}
}
