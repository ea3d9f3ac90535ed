/**
 The base64 and base64url encodings of sections 4 and 5 of RFC 4648, as functions on byte
 sequences, and the proof that decoding undoes encoding.
 */
module Base64Spec {

  type Byte = bv8

  const PAD: Byte := 0x3d // '='

  // ---------- The alphabets ----------

  // Table 1 of RFC 4648, or table 2 (the URL and filename safe alphabet).
  function Letter(x: Byte, url: bool): Byte {
    if x < 26 then x + 65        // 'A' ..
    else if x < 52 then x + 71   // 'a' ..
    else if x < 62 then x - 4    // '0' ..
    else if x == 62 then (if url then 0x2d else 0x2b)
    else (if url then 0x5f else 0x2f)
  }

  // The decoding table of the source: both alphabets at once, 255 for every other byte
  // below 128. The source lists 128 entries of 256, so the rest are zero.
  function Value(c: Byte): Byte {
    if c == 0x2b || c == 0x2d then 62
    else if c == 0x2f || c == 0x5f then 63
    else if 0x30 <= c <= 0x39 then c + 4
    else if 0x41 <= c <= 0x5a then c - 65
    else if 0x61 <= c <= 0x7a then c - 71
    else if c >= 128 then 0
    else 255
  }

  lemma ValueOfLetter(x: Byte, url: bool)
    requires x < 64
    ensures Value(Letter(x, url)) == x && Letter(x, url) != PAD && Letter(x, url) < 128
  {}

  function Char(x: Byte, url: bool): char { Letter(x, url) as char }

  // The two tables, character by character.
  lemma Alphabets(url: bool)
    ensures [Char(0, url), Char(1, url), Char(2, url), Char(3, url), Char(4, url), Char(5, url)] == "ABCDEF"
    ensures [Char(6, url), Char(7, url), Char(8, url), Char(9, url), Char(10, url), Char(11, url)] == "GHIJKL"
    ensures [Char(12, url), Char(13, url), Char(14, url), Char(15, url), Char(16, url), Char(17, url)] == "MNOPQR"
    ensures [Char(18, url), Char(19, url), Char(20, url), Char(21, url), Char(22, url), Char(23, url)] == "STUVWX"
    ensures [Char(24, url), Char(25, url), Char(26, url), Char(27, url), Char(28, url), Char(29, url)] == "YZabcd"
    ensures [Char(30, url), Char(31, url), Char(32, url), Char(33, url), Char(34, url), Char(35, url)] == "efghij"
    ensures [Char(36, url), Char(37, url), Char(38, url), Char(39, url), Char(40, url), Char(41, url)] == "klmnop"
    ensures [Char(42, url), Char(43, url), Char(44, url), Char(45, url), Char(46, url), Char(47, url)] == "qrstuv"
    ensures [Char(48, url), Char(49, url), Char(50, url), Char(51, url), Char(52, url), Char(53, url)] == "wxyz01"
    ensures [Char(54, url), Char(55, url), Char(56, url), Char(57, url), Char(58, url), Char(59, url)] == "234567"
    ensures [Char(60, url), Char(61, url)] == "89"
    ensures [Char(62, false), Char(63, false)] == "+/" && [Char(62, true), Char(63, true)] == "-_"
  {}

  // The decoding table knows the letters of both alphabets and no other byte below 128; the
  // bytes from 128 on stand for zero.
  lemma LetterOfValue(c: Byte)
    ensures c < 128 ==> (Value(c) < 64 <==> exists x: Byte, url: bool :: x < 64 && c == Letter(x, url))
    ensures Value(c) < 64 || Value(c) == 255
    ensures c >= 128 ==> Value(c) == 0
  {
    var x := Value(c);
    if c < 128 && x < 64 {
      assert c == Letter(x, c == 0x2d || c == 0x5f);
    }
    if x0: Byte, url: bool :| x0 < 64 && c == Letter(x0, url) {
      ValueOfLetter(x0, url);
    }
  }

  lemma ValueOfPad()
    ensures Value(PAD) == 255
  {}

  // ---------- Groups of 24 bits ----------

  // Three bytes concatenated, first byte highest.
  function Group(a: Byte, b: Byte, c: Byte): bv32 {
    (a as bv32 << 16) | (b as bv32 << 8) | c as bv32
  }

  // The four 6-bit groups of a 24-bit group, from the highest.
  function Sextet(k: nat, g: bv32): Byte
    requires k < 4
  {
    if k == 0 then ((g >> 18) & 0x3f) as Byte
    else if k == 1 then ((g >> 12) & 0x3f) as Byte
    else if k == 2 then ((g >> 6) & 0x3f) as Byte
    else (g & 0x3f) as Byte
  }

  function Symbol(k: nat, a: Byte, b: Byte, c: Byte, url: bool): Byte
    requires k < 4
  {
    Letter(Sextet(k, Group(a, b, c)), url)
  }

  function Quad(a: Byte, b: Byte, c: Byte, url: bool): seq<Byte> {
    [Symbol(0, a, b, c, url), Symbol(1, a, b, c, url), Symbol(2, a, b, c, url), Symbol(3, a, b, c, url)]
  }

  // Section 4 of RFC 4648: whole groups, then a final group of one or two bytes filled up
  // with zero bits and padded.
  function RfcEncode(s: seq<Byte>, url: bool): seq<Byte> {
    if |s| == 0 then []
    else if |s| == 1 then [Symbol(0, s[0], 0, 0, url), Symbol(1, s[0], 0, 0, url), PAD, PAD]
    else if |s| == 2 then
      [Symbol(0, s[0], s[1], 0, url), Symbol(1, s[0], s[1], 0, url), Symbol(2, s[0], s[1], 0, url), PAD]
    else Quad(s[0], s[1], s[2], url) + RfcEncode(s[3..], url)
  }

  // ---------- Decoding ----------

  // The bytes of a group given by the values of its four symbols.
  function Byte0(p: Byte, q: Byte): Byte { (p << 2) | (q >> 4) }
  function Byte1(q: Byte, r: Byte): Byte { (q << 4) | (r >> 2) }
  function Byte2(r: Byte, t: Byte): Byte { (r << 6) | t }

  predicate IsSymbol(c: Byte) { c < 128 && Value(c) < 64 }

  // A text of whole groups of symbols whose last group may be padded.
  predicate WellFormed(t: seq<Byte>)
    decreases |t|
  {
    if |t| < 4 then |t| == 0
    else
      && IsSymbol(t[0]) && IsSymbol(t[1])
      && (|| (IsSymbol(t[2]) && IsSymbol(t[3]) && WellFormed(t[4..]))
          || (|t| == 4 && (IsSymbol(t[2]) || t[2] == PAD) && t[3] == PAD))
  }

  function RfcDecode(t: seq<Byte>): seq<Byte>
    requires WellFormed(t)
    decreases |t|
  {
    if |t| < 4 then []
    else if t[2] == PAD then [Byte0(Value(t[0]), Value(t[1]))]
    else if t[3] == PAD then [Byte0(Value(t[0]), Value(t[1])), Byte1(Value(t[1]), Value(t[2]))]
    else
      ValueOfPad();
      [Byte0(Value(t[0]), Value(t[1])), Byte1(Value(t[1]), Value(t[2])), Byte2(Value(t[2]), Value(t[3]))]
      + RfcDecode(t[4..])
  }

  // ---------- Decoding undoes encoding ----------

  lemma SextetRange(k: nat, g: bv32)
    requires k < 4
    ensures Sextet(k, g) < 64
  {
    assert (g >> 18) & 0x3f < 64;
    assert (g >> 12) & 0x3f < 64;
    assert (g >> 6) & 0x3f < 64;
    assert g & 0x3f < 64;
  }

  lemma GroupBytes(a: Byte, b: Byte, c: Byte)
    ensures Byte0(Sextet(0, Group(a, b, c)), Sextet(1, Group(a, b, c))) == a
    ensures Byte1(Sextet(1, Group(a, b, c)), Sextet(2, Group(a, b, c))) == b
    ensures Byte2(Sextet(2, Group(a, b, c)), Sextet(3, Group(a, b, c))) == c
  {}

  lemma SymbolValue(k: nat, a: Byte, b: Byte, c: Byte, url: bool)
    requires k < 4
    ensures var x := Symbol(k, a, b, c, url);
            Value(x) == Sextet(k, Group(a, b, c)) && IsSymbol(x) && x != PAD
  {
    hide Letter, Sextet, Group;
    SextetRange(k, Group(a, b, c));
    ValueOfLetter(Sextet(k, Group(a, b, c)), url);
  }

  lemma SymbolValues(a: Byte, b: Byte, c: Byte, url: bool)
    ensures forall k: nat :: k < 4 ==>
      var x := Symbol(k, a, b, c, url);
      Value(x) == Sextet(k, Group(a, b, c)) && IsSymbol(x) && x != PAD
  {
    hide *;
    forall k: nat | k < 4
      ensures var x := Symbol(k, a, b, c, url);
              Value(x) == Sextet(k, Group(a, b, c)) && IsSymbol(x) && x != PAD
    {
      SymbolValue(k, a, b, c, url);
    }
  }

  lemma RoundTripOne(a: Byte, url: bool)
    ensures WellFormed(RfcEncode([a], url)) && RfcDecode(RfcEncode([a], url)) == [a]
  {
    hide Letter, Sextet, Group, Symbol, Byte0, Byte1, Byte2, Value, IsSymbol;
    SymbolValues(a, 0, 0, url);
    GroupBytes(a, 0, 0);
  }

  lemma RoundTripTwo(a: Byte, b: Byte, url: bool)
    ensures WellFormed(RfcEncode([a, b], url)) && RfcDecode(RfcEncode([a, b], url)) == [a, b]
  {
    hide Letter, Sextet, Group, Symbol, Byte0, Byte1, Byte2, Value, IsSymbol;
    SymbolValues(a, b, 0, url);
    GroupBytes(a, b, 0);
  }

  lemma QuadDecodes(a: Byte, b: Byte, c: Byte, url: bool, t: seq<Byte>)
    requires WellFormed(t)
    ensures WellFormed(Quad(a, b, c, url) + t)
    ensures RfcDecode(Quad(a, b, c, url) + t) == [a, b, c] + RfcDecode(t)
  {
    hide Letter, Sextet, Group, Symbol, Byte0, Byte1, Byte2, Value, IsSymbol;
    SymbolValues(a, b, c, url);
    GroupBytes(a, b, c);
    assert (Quad(a, b, c, url) + t)[4..] == t;
  }

  // For every byte sequence and both alphabets.
  lemma {:induction false} RoundTrip(s: seq<Byte>, url: bool)
    ensures WellFormed(RfcEncode(s, url)) && RfcDecode(RfcEncode(s, url)) == s
  {
    hide Quad, Symbol, Byte0, Byte1, Byte2, Value, IsSymbol;
    if |s| == 1 {
      assert s == [s[0]];
      RoundTripOne(s[0], url);
    } else if |s| == 2 {
      assert s == [s[0], s[1]];
      RoundTripTwo(s[0], s[1], url);
    } else if |s| > 2 {
      RoundTrip(s[3..], url);
      QuadDecodes(s[0], s[1], s[2], url, RfcEncode(s[3..], url));
      assert s == [s[0], s[1], s[2]] + s[3..];
    }
  }

  // ---------- The two alphabets in a text ----------

  // The letters in which the alphabets differ.
  predicate Foreign(c: Byte, url: bool) {
    if url then c == 0x2b || c == 0x2f else c == 0x2d || c == 0x5f
  }

  lemma NotForeign(k: nat, a: Byte, b: Byte, c: Byte, url: bool)
    requires k < 4
    ensures !Foreign(Symbol(k, a, b, c, url), url) && !Foreign(PAD, url)
  {
    hide Sextet, Group;
    SextetRange(k, Group(a, b, c));
  }

  // No encoding contains a letter of the other alphabet only.
  lemma {:induction false} OwnLetters(s: seq<Byte>, url: bool)
    ensures forall c :: c in RfcEncode(s, url) ==> !Foreign(c, url)
  {
    hide Symbol, Foreign;
    var a := if |s| > 0 then s[0] else 0;
    var b := if |s| > 1 then s[1] else 0;
    var c := if |s| > 2 then s[2] else 0;
    NotForeign(0, a, b, c, url);
    NotForeign(1, a, b, c, url);
    NotForeign(2, a, b, c, url);
    NotForeign(3, a, b, c, url);
    if |s| > 2 {
      OwnLetters(s[3..], url);
    }
  }

  // Section 10 of RFC 4648: "f", "fo" and "foobar" are "Zg==", "Zm8=" and "Zm9vYmFy".
  lemma TestVectors(url: bool)
    ensures RfcEncode([0x66], url) == [0x5a, 0x67, 0x3d, 0x3d]
    ensures RfcEncode([0x66, 0x6f], url) == [0x5a, 0x6d, 0x38, 0x3d]
    ensures RfcEncode([0x66, 0x6f, 0x6f, 0x62, 0x61, 0x72], url)
         == [0x5a, 0x6d, 0x39, 0x76, 0x59, 0x6d, 0x46, 0x79]
  {
    var foobar: seq<Byte> := [0x66, 0x6f, 0x6f, 0x62, 0x61, 0x72];
    assert Quad(0x66, 0x6f, 0x6f, url) == [0x5a, 0x6d, 0x39, 0x76];
    assert Quad(0x62, 0x61, 0x72, url) == [0x59, 0x6d, 0x46, 0x79];
    hide Quad, Symbol;
    assert foobar[3..] == [0x62, 0x61, 0x72];
    EncodeGroup(0x62, 0x61, 0x72, url);
  }

  lemma EncodeGroup(a: Byte, b: Byte, c: Byte, url: bool)
    ensures RfcEncode([a, b, c], url) == Quad(a, b, c, url)
  {
    hide Symbol;
    assert [a, b, c][3..] == [];
  }

  // ---------- Length and concatenation ----------

  lemma {:induction false} EncodedLength(s: seq<Byte>, url: bool)
    ensures |RfcEncode(s, url)| == (|s| + 2) / 3 * 4
  {
    hide Symbol;
    if |s| > 2 {
      EncodedLength(s[3..], url);
    }
  }

  // Whole groups can be encoded separately.
  lemma {:induction false} EncodeAppend(s: seq<Byte>, t: seq<Byte>, url: bool)
    requires |s| % 3 == 0
    ensures RfcEncode(s + t, url) == RfcEncode(s, url) + RfcEncode(t, url)
  {
    hide Quad, Symbol;
    if |s| == 0 {
      assert s + t == t;
    } else {
      assert (s + t)[3..] == s[3..] + t;
      EncodeAppend(s[3..], t, url);
    }
  }
}
