/**
 The message framings of RFC 7230 that an outgoing message uses: the chunked transfer
 coding with its decoder (section 4.1) and the content length (section 3.3.2).
 */
module HttpSpec {
  import opened Common
  import opened Numbers

  const CRLF := "\r\n"
  const LAST_CHUNK := "0\r\n"

  // chunk = chunk-size CRLF chunk-data CRLF, for every buffer.
  function Chunks(bufs: seq<string>): string {
    if |bufs| == 0 then "" else Notation(|bufs[0]|, 16) + CRLF + bufs[0] + CRLF + Chunks(bufs[1..])
  }

  predicate IsHex(c: char) { DigitValue(c) < 16 }

  // The length of the longest run of hexadecimal digits.
  function HexRun(s: string): (n: nat)
    ensures n <= |s|
  {
    if |s| == 0 || !IsHex(s[0]) then 0 else 1 + HexRun(s[1..])
  }

  // chunked-body = *chunk last-chunk trailer-part CRLF, with no extensions and an empty
  // trailer part. The result is the decoded body and what follows it.
  function DecodeChunked(s: string): Option<(string, string)>
    decreases |s|
  {
    var n := HexRun(s);
    if n == 0 || |s| < n + 2 || s[n..n + 2] != CRLF then None
    else
      var size := Read(s[..n], 16);
      var rest := s[n + 2..];
      if size == 0 then
        if |rest| >= 2 && rest[..2] == CRLF then Some(("", rest[2..])) else None
      else if |rest| < size + 2 || rest[size..size + 2] != CRLF then None
      else
        match DecodeChunked(rest[size + 2..])
        case None => None
        case Some((body, after)) => Some((rest[..size] + body, after))
  }

  lemma {:induction false} HexRunExact(digits: string, rest: string)
    requires forall c :: c in digits ==> IsHex(c)
    requires |rest| > 0 && !IsHex(rest[0])
    ensures HexRun(digits + rest) == |digits|
  {
    hide IsHex;
    if |digits| == 0 {
      assert digits + rest == rest;
    } else {
      assert (digits + rest)[1..] == digits[1..] + rest;
      HexRunExact(digits[1..], rest);
    }
  }

  // One chunk in front of anything.
  lemma DecodeOneChunk(data: string, tail: string)
    requires |data| > 0
    ensures DecodeChunked(Notation(|data|, 16) + CRLF + data + CRLF + tail)
         == match DecodeChunked(tail) case None => None case Some((body, after)) => Some((data + body, after))
  {
    hide Notation, Read, IsHex, HexRun;
    var digits := Notation(|data|, 16);
    var s := digits + CRLF + data + CRLF + tail;
    NotationDigits(|data|, 16);
    ReadNotation(|data|, 16);
    HexDigits(digits);
    assert s == digits + (CRLF + data + CRLF + tail);
    HexRunExact(digits, CRLF + data + CRLF + tail);
    var n := |digits|;
    assert s[..n] == digits;
    assert s[n..n + 2] == CRLF;
    var rest := s[n + 2..];
    assert rest == data + CRLF + tail;
    assert rest[|data|..|data| + 2] == CRLF && rest[..|data|] == data && rest[|data| + 2..] == tail;
  }

  lemma HexDigits(digits: string)
    requires forall c :: c in digits ==> DigitValue(c) < 16
    ensures forall c :: c in digits ==> IsHex(c)
    ensures !IsHex('\r')
  {}

  lemma DecodeLastChunk(after: string)
    ensures DecodeChunked(LAST_CHUNK + CRLF + after) == Some(("", after))
  {
    var s := LAST_CHUNK + CRLF + after;
    assert s == "0" + (CRLF + CRLF + after);
    HexRunExact("0", CRLF + CRLF + after);
    assert s[..1] == "0" && s[1..3] == CRLF && s[3..] == CRLF + after;
    assert Read("0", 16) == 0 by { assert "0"[..0] == ""; }
    assert (CRLF + after)[..2] == CRLF && (CRLF + after)[2..] == after;
  }

  // A decoder reads the concatenation of the chunks back and stops exactly at the end.
  lemma {:induction false} DecodeChunks(bufs: seq<string>, after: string)
    requires forall i :: 0 <= i < |bufs| ==> |bufs[i]| > 0
    ensures DecodeChunked(Chunks(bufs) + (LAST_CHUNK + CRLF + after)) == Some((Flatten(bufs), after))
  {
    hide DecodeChunked, Notation;
    var closing := LAST_CHUNK + CRLF + after;
    if |bufs| == 0 {
      assert Chunks(bufs) + closing == closing;
      DecodeLastChunk(after);
    } else {
      DecodeChunks(bufs[1..], after);
      DecodeOneChunk(bufs[0], Chunks(bufs[1..]) + closing);
      assert Chunks(bufs) + closing
          == Notation(|bufs[0]|, 16) + CRLF + bufs[0] + CRLF + (Chunks(bufs[1..]) + closing);
    }
  }
}
