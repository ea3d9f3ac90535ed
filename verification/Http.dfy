/**
 `node::http::outgoing_message::http_write`: the framing decision, the assembly of the
 buffer array and what reaches the socket.
 */
module Http {
  import opened Common
  import opened Numbers
  import opened HttpSpec
  import MutableBuffer

  type Headers = map<string, string>

  const CONTENT_LENGTH := "content-length"
  const TRANSFER_ENCODING := "transfer-encoding"
  const CHUNKED := "chunked"

  function TotalSize(bufs: seq<string>): nat {
    |Flatten(bufs)|
  }

  // ---------- What one call does ----------

  datatype Framing = Framing(headers: Headers, chunked: bool)

  // How the first call of a message is framed: an existing content length, an existing
  // transfer coding, a computed content length, or the chunked coding.
  function Decide(headers: Headers, bufs: seq<string>, end: bool): Framing {
    if CONTENT_LENGTH in headers then Framing(headers, false)
    else if TRANSFER_ENCODING in headers then Framing(headers, headers[TRANSFER_ENCODING] == CHUNKED)
    else if end && TotalSize(bufs) < TWO_TO_THE_64 then
      Framing(headers[CONTENT_LENGTH := Notation(TotalSize(bufs), 10)], false)
    else Framing(headers[TRANSFER_ENCODING := CHUNKED], true)
  }

  // Headers that announce the chunked coding, as section 3.3.3 of RFC 7230 reads them.
  predicate Announced(headers: Headers) {
    "content-length" !in headers && "transfer-encoding" in headers && headers["transfer-encoding"] == "chunked"
  }

  // The body is chunked if and only if the headers that are sent announce it. Headers set by
  // the caller are sent as they are; only if there is neither of the two, one is added.
  lemma FramingIsAnnounced(headers: Headers, bufs: seq<string>, end: bool)
    ensures var f := Decide(headers, bufs, end);
            && (f.chunked <==> Announced(f.headers))
            && ("content-length" in headers || "transfer-encoding" in headers ==> f.headers == headers)
            && ("content-length" !in headers && "transfer-encoding" !in headers ==>
                  if end && |Flatten(bufs)| < 0x1_0000_0000_0000_0000 then
                    && f.headers.Keys == headers.Keys + {"content-length"} && f.headers - {"content-length"} == headers
                    && Read(f.headers["content-length"], 10) == |Flatten(bufs)|
                  else f.headers == headers["transfer-encoding" := "chunked"])
  {
    hide Notation, Read, Flatten;
    ReadNotation(TotalSize(bufs), 10);
    var added := headers[CONTENT_LENGTH := Notation(TotalSize(bufs), 10)];
    assert CONTENT_LENGTH !in headers ==> added - {CONTENT_LENGTH} == headers;
  }

  // A chunk size as the source prints it: with no digits at all for an empty chunk.
  function SizeText(n: nat): string {
    if n == 0 then "" else Notation(n, 16)
  }

  // The chunks as the source writes them.
  function Coded(bufs: seq<string>): string {
    if |bufs| == 0 then "" else SizeText(|bufs[0]|) + CRLF + bufs[0] + CRLF + Coded(bufs[1..])
  }

  // The body bytes of one call.
  function Body(bufs: seq<string>, end: bool, chunked: bool): string {
    if chunked then Coded(bufs) + (if end then LAST_CHUNK + CRLF else "") else Flatten(bufs)
  }

  predicate AllNonEmpty(bufs: seq<string>) {
    forall i :: 0 <= i < |bufs| ==> |bufs[i]| > 0
  }

  predicate AllSized(bufs: seq<string>) {
    forall i :: 0 <= i < |bufs| ==> |bufs[i]| < TWO_TO_THE_64
  }

  // Whether printing a chunk size divides by zero: an empty chunk whose size is appended to
  // a buffer that already has storage.
  predicate Traps(bufs: seq<string>, chunked: bool, first: bool) {
    chunked && exists i :: 0 <= i < |bufs| && |bufs[i]| == 0 && (i > 0 || first)
  }

  datatype State = State(headers: Headers, headersSent: bool, chunked: bool, written: string)

  // Whether a call is chunked.
  predicate Chunked(s: State, bufs: seq<string>, end: bool) {
    if s.headersSent then s.chunked else Decide(s.headers, bufs, end).chunked
  }

  // The state after a call that is framed and sent without trouble. The header block goes
  // out with the first call, unless that call is chunked and has no chunk.
  function After(compile: Headers -> string, s: State, bufs: seq<string>, end: bool): State {
    if s.headersSent then
      s.(headersSent := !end, written := s.written + Body(bufs, end, s.chunked))
    else
      var f := Decide(s.headers, bufs, end);
      if f.chunked && |bufs| == 0 then
        State(if end then map[] else f.headers, false, true, s.written + Body(bufs, end, true))
      else
        State(map[], !end, f.chunked, s.written + compile(f.headers) + Body(bufs, end, f.chunked))
  }

  lemma NoChunks()
    ensures Coded([]) == "" && Flatten<char>([]) == ""
  {}

  lemma SumTooLarge(bufs: seq<string>, k: nat)
    requires k <= |bufs| && TotalSize(bufs[..k]) >= TWO_TO_THE_64
    ensures TotalSize(bufs) >= TWO_TO_THE_64
  {
    assert bufs == bufs[..k] + bufs[k..];
    FlattenAppend(bufs[..k], bufs[k..]);
  }

  // ---------- Assembling the array ----------

  // What a line adds between two chunks.
  lemma JoinLines(sofar: string, hex: string, data: string, total: string)
    requires sofar + CRLF == total
    ensures sofar + (CRLF + hex + CRLF) + data + CRLF == total + (hex + CRLF + data + CRLF)
  {
    assert sofar + (CRLF + hex + CRLF) + data + CRLF == (sofar + CRLF) + (hex + CRLF + data + CRLF);
  }

  lemma {:induction false} CodedAppend(a: seq<string>, b: seq<string>)
    ensures Coded(a + b) == Coded(a) + Coded(b)
  {
    hide SizeText;
    if |a| == 0 {
      assert a + b == b;
    } else {
      assert (a + b)[1..] == a[1..] + b;
      CodedAppend(a[1..], b);
      var head := SizeText(|a[0]|) + CRLF + a[0] + CRLF;
      assert head + (Coded(a[1..]) + Coded(b)) == (head + Coded(a[1..])) + Coded(b);
    }
  }

  lemma {:induction false} CodedIsChunks(bufs: seq<string>)
    requires AllNonEmpty(bufs)
    ensures Coded(bufs) == Chunks(bufs)
  {
    hide Notation;
    if |bufs| > 0 {
      CodedIsChunks(bufs[1..]);
    }
  }

  // What the source writes decodes to the concatenation of the chunks if and only if none of
  // them is empty; otherwise it does not decode at all.
  lemma {:induction false} CodedDecodes(bufs: seq<string>, after: string)
    ensures DecodeChunked(Coded(bufs) + (LAST_CHUNK + CRLF + after))
         == if AllNonEmpty(bufs) then Some((Flatten(bufs), after)) else None
  {
    hide DecodeChunked, Notation;
    var closing := LAST_CHUNK + CRLF + after;
    if AllNonEmpty(bufs) {
      CodedIsChunks(bufs);
      DecodeChunks(bufs, after);
    } else {
      var rest := Coded(bufs[1..]) + closing;
      assert Coded(bufs) + closing == SizeText(|bufs[0]|) + CRLF + bufs[0] + CRLF + rest;
      if |bufs[0]| == 0 {
        NoSize(SizeText(0) + CRLF + bufs[0] + CRLF + rest);
      } else {
        assert !AllNonEmpty(bufs[1..]);
        CodedDecodes(bufs[1..], after);
        DecodeOneChunk(bufs[0], rest);
      }
    }
  }

  lemma NoSize(s: string)
    requires |s| > 0 && s[0] == '\r'
    ensures DecodeChunked(s) == None
  {}

  lemma CodedSnoc(bufs: seq<string>, i: nat)
    requires i < |bufs|
    ensures Coded(bufs[..i + 1]) == Coded(bufs[..i]) + (SizeText(|bufs[i]|) + CRLF + bufs[i] + CRLF)
  {
    hide SizeText;
    assert bufs[..i + 1] == bufs[..i] + [bufs[i]];
    CodedAppend(bufs[..i], [bufs[i]]);
    assert [bufs[i]][1..] == [];
    NoChunks();
  }

  lemma FlattenTwo(filled: seq<string>, line: string, data: string)
    ensures Flatten(filled + [line, data]) == Flatten(filled) + line + data
  {
    FlattenSnoc(filled, line);
    FlattenSnoc(filled + [line], data);
    assert filled + [line, data] == (filled + [line]) + [data];
  }

  // The slots filled for the first i chunks, in front of the line break that follows.
  ghost predicate Filled(slots: seq<string>, block: string, bufs: seq<string>, i: nat)
    requires i <= |bufs|
  {
    if i == 0 then Flatten(slots) == "" else Flatten(slots) + CRLF == block + Coded(bufs[..i])
  }

  lemma OneMoreChunk(slots: seq<string>, line: string, block: string, bufs: seq<string>, i: nat)
    requires i < |bufs| && Filled(slots, block, bufs, i)
    requires line == (if i > 0 then CRLF else block) + SizeText(|bufs[i]|) + CRLF
    ensures Filled(slots + [line, bufs[i]], block, bufs, i + 1)
  {
    hide SizeText, Flatten, Coded;
    FlattenTwo(slots, line, bufs[i]);
    CodedSnoc(bufs, i);
    var hex := SizeText(|bufs[i]|);
    if i > 0 {
      JoinLines(Flatten(slots), hex, bufs[i], block + Coded(bufs[..i]));
      Associate(block, Coded(bufs[..i]), hex + CRLF + bufs[i] + CRLF);
    } else {
      NoChunks();
      assert bufs[..0] == [];
      FirstLine(block, hex, bufs[i]);
    }
  }

  lemma Associate(a: string, b: string, c: string)
    ensures (a + b) + c == a + (b + c)
  {}

  lemma FirstLine(block: string, hex: string, data: string)
    ensures "" + (block + hex + CRLF) + data + CRLF == block + ("" + (hex + CRLF + data + CRLF))
  {}

  // The closing slot: a plain line break, or the last chunk after it.
  lemma CloseChunks(slots: seq<string>, block: string, bufs: seq<string>, end: bool)
    requires Filled(slots, block, bufs, |bufs|) && (|bufs| == 0 ==> end)
    ensures var closing := if end then (if |bufs| > 0 then CRLF + LAST_CHUNK + CRLF else LAST_CHUNK + CRLF) else CRLF;
            Flatten(slots + [closing]) == (if |bufs| == 0 then "" else block) + Body(bufs, end, true)
  {
    hide Flatten, Coded;
    var closing := if end then (if |bufs| > 0 then CRLF + LAST_CHUNK + CRLF else LAST_CHUNK + CRLF) else CRLF;
    assert bufs[..|bufs|] == bufs;
    FlattenSnoc(slots, closing);
    NoChunks();
    if |bufs| > 0 && end {
      assert Flatten(slots) + closing == (Flatten(slots) + CRLF) + (LAST_CHUNK + CRLF);
    }
  }

  // ---------- Whole messages ----------

  datatype Call = Call(bufs: seq<string>, end: bool)

  function Run(compile: Headers -> string, s: State, calls: seq<Call>): State
    decreases |calls|
  {
    if |calls| == 0 then s else Run(compile, After(compile, s, calls[0].bufs, calls[0].end), calls[1..])
  }

  function AllBufs(calls: seq<Call>): seq<string> {
    if |calls| == 0 then [] else calls[0].bufs + AllBufs(calls[1..])
  }

  // The calls of one message: the last one ends it, and no other does.
  predicate OneMessage(calls: seq<Call>) {
    |calls| > 0 && forall i :: 0 <= i < |calls| ==> (calls[i].end <==> i == |calls| - 1)
  }

  // After the headers: every further chunked call adds its chunks, the last one closes.
  lemma {:induction false} ChunkedRest(compile: Headers -> string, s: State, calls: seq<Call>)
    requires s.headersSent && s.chunked && OneMessage(calls)
    ensures var r := Run(compile, s, calls);
            && r.written == s.written + (Coded(AllBufs(calls)) + LAST_CHUNK + CRLF)
            && r.headers == s.headers && !r.headersSent
    decreases |calls|
  {
    hide Coded;
    var bufs := calls[0].bufs;
    var t := After(compile, s, bufs, calls[0].end);
    CodedAppend(bufs, AllBufs(calls[1..]));
    if |calls| == 1 {
      assert AllBufs(calls) == bufs + [];
      assert bufs + [] == bufs;
      assert Run(compile, t, calls[1..]) == t;
      assert s.written + (Coded(bufs) + (LAST_CHUNK + CRLF)) == s.written + (Coded(bufs) + LAST_CHUNK + CRLF);
    } else {
      ChunkedRest(compile, t, calls[1..]);
      assert (s.written + (Coded(bufs) + "")) + (Coded(AllBufs(calls[1..])) + LAST_CHUNK + CRLF)
          == s.written + ((Coded(bufs) + Coded(AllBufs(calls[1..]))) + LAST_CHUNK + CRLF);
    }
  }

  // A whole chunked message: the header block and then the chunks, or, when the message has
  // no chunk at all, no header block.
  lemma {:induction false} ChunkedMessage(compile: Headers -> string, s: State, calls: seq<Call>)
    requires !s.headersSent && OneMessage(calls)
    requires Decide(s.headers, calls[0].bufs, calls[0].end).chunked
    ensures var r, h := Run(compile, s, calls), Decide(s.headers, calls[0].bufs, calls[0].end).headers;
            && r.written == s.written + ((if |AllBufs(calls)| == 0 then "" else compile(h))
                                         + (Coded(AllBufs(calls)) + LAST_CHUNK + CRLF))
            && r.headers == map[] && !r.headersSent
    decreases |calls|
  {
    hide Coded;
    var bufs, rest := calls[0].bufs, calls[1..];
    var h := Decide(s.headers, bufs, calls[0].end).headers;
    var t := After(compile, s, bufs, calls[0].end);
    CodedAppend(bufs, AllBufs(rest));
    NoChunks();
    if |calls| == 1 {
      assert AllBufs(calls) == bufs + [];
      assert bufs + [] == bufs;
      assert Run(compile, t, rest) == t;
      FirstCall(s.written, if |bufs| == 0 then "" else compile(h), Coded(bufs), "");
    } else if |bufs| == 0 {
      assert AllBufs(calls) == AllBufs(rest) by {
        assert bufs + AllBufs(rest) == AllBufs(rest);
      }
      assert t.written == s.written;
      ChunkedMessage(compile, t, rest);
    } else {
      ChunkedRest(compile, t, rest);
      FirstCall(s.written, compile(h), Coded(bufs), Coded(AllBufs(rest)));
    }
  }

  lemma FirstCall(written: string, header: string, chunks: string, rest: string)
    ensures (written + header + (chunks + "")) + (rest + LAST_CHUNK + CRLF)
         == written + (header + ((chunks + rest) + LAST_CHUNK + CRLF))
    ensures written + header + (chunks + (LAST_CHUNK + CRLF)) == written + (header + (chunks + LAST_CHUNK + CRLF))
  {}

  // Without chunking the body is the plain concatenation.
  lemma {:induction false} RawRest(compile: Headers -> string, s: State, calls: seq<Call>)
    requires s.headersSent && !s.chunked && OneMessage(calls)
    ensures var r := Run(compile, s, calls);
            r.written == s.written + Flatten(AllBufs(calls)) && r.headers == s.headers && !r.headersSent
    decreases |calls|
  {
    hide Flatten;
    var bufs := calls[0].bufs;
    var t := After(compile, s, bufs, calls[0].end);
    FlattenAppend(bufs, AllBufs(calls[1..]));
    if |calls| == 1 {
      assert AllBufs(calls) == bufs + [];
      assert bufs + [] == bufs;
      assert Run(compile, t, calls[1..]) == t;
    } else {
      RawRest(compile, t, calls[1..]);
      Associate(s.written, Flatten(bufs), Flatten(AllBufs(calls[1..])));
    }
  }

  lemma RawMessage(compile: Headers -> string, s: State, calls: seq<Call>)
    requires !s.headersSent && OneMessage(calls)
    requires !Decide(s.headers, calls[0].bufs, calls[0].end).chunked
    ensures var r, h := Run(compile, s, calls), Decide(s.headers, calls[0].bufs, calls[0].end).headers;
            && r.written == s.written + compile(h) + Flatten(AllBufs(calls))
            && r.headers == map[] && !r.headersSent
  {
    hide Flatten;
    var bufs, rest := calls[0].bufs, calls[1..];
    var t := After(compile, s, bufs, calls[0].end);
    FlattenAppend(bufs, AllBufs(rest));
    if |calls| == 1 {
      assert AllBufs(calls) == bufs + [];
      assert bufs + [] == bufs;
      assert Run(compile, t, rest) == t;
    } else {
      RawRest(compile, t, rest);
      Associate(t.written, "", Flatten(AllBufs(rest)));
      var block := compile(Decide(s.headers, bufs, calls[0].end).headers);
      Associate(s.written + block, Flatten(bufs), Flatten(AllBufs(rest)));
    }
  }

  // Every message of any number of calls, by the headers its caller has set.
  lemma MessageIs(compile: Headers -> string, s: State, calls: seq<Call>)
    requires !s.headersSent && OneMessage(calls)
    ensures var r := Run(compile, s, calls); r.headers == map[] && !r.headersSent
    ensures var w, h, all := Run(compile, s, calls).written, s.headers, AllBufs(calls);
            && ("content-length" in h ==> w == Plain(compile, s, h, all))
            && ("content-length" !in h && "transfer-encoding" in h ==>
                  w == if h["transfer-encoding"] == "chunked" then InChunks(compile, s, h, all)
                       else Plain(compile, s, h, all))
            && ("content-length" !in h && "transfer-encoding" !in h ==>
                  if |calls| == 1 && |Flatten(all)| < 0x1_0000_0000_0000_0000 then
                    exists value ::
                      Read(value, 10) == |Flatten(all)| && w == Plain(compile, s, h["content-length" := value], all)
                  else w == InChunks(compile, s, h["transfer-encoding" := "chunked"], all))
  {
    hide Flatten, Coded, Run, AllBufs, Decide, Notation, Read, After;
    var c := calls[0];
    FramingIsAnnounced(s.headers, c.bufs, c.end);
    if Decide(s.headers, c.bufs, c.end).chunked {
      ChunkedMessage(compile, s, calls);
    } else {
      RawMessage(compile, s, calls);
    }
    OneCall(calls);
    if "content-length" !in s.headers && "transfer-encoding" !in s.headers {
      if c.end && |Flatten(c.bufs)| < 0x1_0000_0000_0000_0000 {
        AddedLength(s.headers, c.bufs, c.end);
      }
    }
  }

  // The header block and the buffers as they are.
  ghost function Plain(compile: Headers -> string, s: State, h: Headers, all: seq<string>): string {
    s.written + compile(h) + Flatten(all)
  }

  // The header block, unless there is no chunk at all, and the chunked body.
  ghost function InChunks(compile: Headers -> string, s: State, h: Headers, all: seq<string>): string {
    s.written + ((if |all| == 0 then "" else compile(h)) + (Coded(all) + "0\r\n" + "\r\n"))
  }

  lemma OneCall(calls: seq<Call>)
    requires OneMessage(calls)
    ensures |calls| == 1 <==> calls[0].end
    ensures |calls| == 1 ==> AllBufs(calls) == calls[0].bufs
  {
    if |calls| == 1 {
      assert AllBufs(calls) == calls[0].bufs + [];
    }
  }

  lemma AddedLength(headers: Headers, bufs: seq<string>, end: bool)
    requires "content-length" !in headers && "transfer-encoding" !in headers
    requires end && |Flatten(bufs)| < 0x1_0000_0000_0000_0000
    ensures Decide(headers, bufs, end).headers == headers["content-length" := Notation(|Flatten(bufs)|, 10)]
    ensures Read(Notation(|Flatten(bufs)|, 10), 10) == |Flatten(bufs)|
  {
    hide Flatten, Notation, Read;
    ReadNotation(|Flatten(bufs)|, 10);
  }

  // One chunk of five bytes, as it is sent.
  lemma HelloInChunks()
    ensures Coded(["hello"]) + LAST_CHUNK + CRLF == "5\r\nhello\r\n0\r\n\r\n"
  {
    assert Notation(5, 16) == "5";
    assert ["hello"][1..] == [];
    assert "5" + CRLF + "hello" + CRLF == "5\r\nhello\r\n";
    assert "5\r\nhello\r\n" + "" + LAST_CHUNK + CRLF == "5\r\nhello\r\n0\r\n\r\n";
  }

  // When a single ending call sets the content length itself, the printed value is the
  // exact size of the body that follows the header block.
  lemma OwnContentLength(compile: Headers -> string, s: State, bufs: seq<string>)
    requires !s.headersSent && CONTENT_LENGTH !in s.headers && TRANSFER_ENCODING !in s.headers
    requires TotalSize(bufs) < TWO_TO_THE_64
    ensures var r, h := After(compile, s, bufs, true), Decide(s.headers, bufs, true).headers;
            && r.written == s.written + compile(h) + Flatten(bufs)
            && h - {CONTENT_LENGTH} == s.headers
            && Read(h[CONTENT_LENGTH], 10) == |Flatten(bufs)|
  {
    hide Notation, Read;
    ReadNotation(TotalSize(bufs), 10);
  }

  class OutgoingMessage {
    var connected: bool        // whether there is a socket
    var headers: Headers
    var headersSent: bool
    var isChunked: bool
    var written: string        // everything handed to the socket
    const compile: Headers -> string // compile_headers of the subclass

    ghost function Now(): State
      reads this
    {
      State(headers, headersSent, isChunked, written)
    }

    constructor (compile: Headers -> string)
      ensures connected && headers == map[] && !headersSent && written == ""
      ensures this.compile == compile
    {
      this.compile := compile;
      connected, headers, headersSent, isChunked, written := true, map[], false, false, "";
    }

    // `set_header`: an existing value stays.
    method SetHeader(key: string, value: string)
      modifies `headers
      ensures headers == if key in old(headers) then old(headers) else old(headers)[key := value]
    {
      if key !in headers {
        headers := headers[key := value];
      }
    }

    method DecideFraming(bufs: seq<string>, end: bool)
      requires AllSized(bufs)
      modifies `headers, `isChunked
      ensures Framing(headers, isChunked) == Decide(old(headers), bufs, end)
      ensures isChunked <==> Announced(headers)
    {
      hide Notation, Flatten;
      FramingIsAnnounced(headers, bufs, end);
      if CONTENT_LENGTH in headers {
        isChunked := false;
        return;
      }
      if TRANSFER_ENCODING in headers {
        isChunked := headers[TRANSFER_ENCODING] == CHUNKED;
        return;
      }
      if end {
        var length := ContentLength(bufs);
        if length.Some? {
          var value := PrintNumber(length.value);
          headers := headers[CONTENT_LENGTH := value];
          isChunked := false;
          return;
        }
      }
      headers := headers[TRANSFER_ENCODING := CHUNKED];
      isChunked := true;
    }

    // The part of http_write that fills the array of `reserved` slots and sends it.
    method Assemble(bufs: seq<string>, end: bool, reserved: nat) returns (ok: bool)
      requires connected && AllSized(bufs) && reserved > 0
      requires |bufs| == 0 && isChunked ==> end
      requires reserved >= (if !headersSent && !isChunked then 1 else 0)
                         + (if isChunked then 2 * |bufs| + 1 else |bufs|)
      modifies `headers, `headersSent, `written
      ensures ok <==> !Traps(bufs, isChunked, !old(headersSent))
      ensures headers == (if old(headersSent) then old(headers) else map[]) && headersSent
      ensures ok ==>
        written == old(written)
          + ((if old(headersSent) || (isChunked && |bufs| == 0) then "" else compile(old(headers)))
             + Body(bufs, end, isChunked))
    {
      hide Coded, Flatten, AllNonEmpty, Traps, Body;
      var slots := new string[reserved](_ => "");
      var buf := new MutableBuffer.Buffer();
      ghost var first := !headersSent;
      ghost var block := if first then compile(headers) else "";
      var used := 0;
      if !headersSent {
        StoreHeader(buf, compile(headers));
        if !isChunked {
          var text := buf.Text();
          slots[used] := text;
          used := used + 1;
        }
        headers := map[];
        headersSent := true;
      }

      ok := true;
      if isChunked {
        ok, used := FillChunks(slots, buf, bufs, block, first);
        if !ok {
          return;
        }
        CloseChunks(slots[..used], block, bufs, end);
        slots[used] := if end then (if |bufs| > 0 then CRLF + LAST_CHUNK + CRLF else LAST_CHUNK + CRLF) else CRLF;
        assert slots[..used + 1] == slots[..used] + [slots[used]];
        used := used + 1;
      } else {
        assert slots[..used] == if first then [block] else [];
        RawStart(slots[..used], block, first);
        used := CopyBuffers(slots, used, bufs, block);
        NoTrap(bufs, first);
        BodyRaw(bufs, end);
      }
      written := written + Flatten(slots[..used]);
    }

    // `http_write`. The result is false where printing a chunk size divides by zero.
    method HttpWrite(bufs: seq<string>, end: bool) returns (ok: bool)
      requires AllSized(bufs)
      modifies `headers, `headersSent, `isChunked, `written
      ensures !connected ==> ok && Now() == old(Now())
      ensures connected ==>
        && (ok <==> !Traps(bufs, Chunked(old(Now()), bufs, end), !old(headersSent)))
        && (ok ==> Now() == After(compile, old(Now()), bufs, end))
    {
      hide Coded, Flatten, AllNonEmpty, Traps, Body, Decide;
      ok := true;
      if !connected {
        return;
      }
      ghost var before := Now();
      var compiledBufcnt := 0;
      if !headersSent {
        DecideFraming(bufs, end);
        if !isChunked {
          compiledBufcnt := compiledBufcnt + 1;
        }
      }
      if |bufs| > 0 {
        compiledBufcnt := compiledBufcnt + if isChunked then 2 * |bufs| + 1 else |bufs|;
      } else if end {
        compiledBufcnt := compiledBufcnt + 1;
      }

      if compiledBufcnt == |bufs| {
        // Nothing to send, or the buffers go to the socket one to one.
        NoTrap(bufs, !before.headersSent);
        EmptyTraps(isChunked, !before.headersSent);
        BodyRaw(bufs, end);
        BodyNothing(bufs, end);
        written := written + Flatten(bufs);
      } else {
        ok := Assemble(bufs, end, compiledBufcnt);
        if !ok {
          return;
        }
        Associate(before.written, compile(headers), Body(bufs, end, isChunked));
      }

      if end {
        headersSent := false;
      }
    }

    // `_write`
    method Write(bufs: seq<string>) returns (ok: bool)
      requires AllSized(bufs)
      modifies `headers, `headersSent, `isChunked, `written
      ensures !connected ==> ok && Now() == old(Now())
      ensures connected ==> (ok <==> !Traps(bufs, Chunked(old(Now()), bufs, false), !old(headersSent)))
      ensures connected && ok ==> Now() == After(compile, old(Now()), bufs, false)
    {
      hide After, Decide;
      ok := HttpWrite(bufs, false);
    }

    // `_end`
    method End(bufs: seq<string>) returns (ok: bool)
      requires AllSized(bufs)
      modifies `headers, `headersSent, `isChunked, `written
      ensures !connected ==> ok && Now() == old(Now()).(headers := map[])
      ensures connected ==> (ok <==> !Traps(bufs, Chunked(old(Now()), bufs, true), !old(headersSent)))
      ensures connected && ok ==> Now() == After(compile, old(Now()), bufs, true).(headers := map[])
    {
      hide After, Decide;
      ok := HttpWrite(bufs, true);
      headers := map[];
    }

    // One chunked message of any number of calls with non-empty chunks, at least one of
    // them: the socket gets the header block and a body that decodes to the chunks.
    method SendChunked(calls: seq<Call>) returns (ghost header: string, ghost body: string)
      requires connected && !headersSent && OneMessage(calls)
      requires forall i :: 0 <= i < |calls| ==> AllSized(calls[i].bufs) && AllNonEmpty(calls[i].bufs)
      requires "content-length" !in headers
      requires if "transfer-encoding" in headers then headers["transfer-encoding"] == "chunked"
               else |calls| > 1 || TotalSize(calls[0].bufs) >= 0x1_0000_0000_0000_0000
      modifies `headers, `headersSent, `isChunked, `written
      ensures written == old(written) + (header + body)
      ensures |AllBufs(calls)| > 0 ==> header == compile(old(headers)["transfer-encoding" := "chunked"])
      ensures |AllBufs(calls)| == 0 ==> header == ""
      ensures forall after :: DecodeChunked(body + after) == Some((Flatten(AllBufs(calls)), after))
      ensures headers == map[] && !headersSent
    {
      hide After, Decide, DecodeChunked, Coded, AllSized, AllNonEmpty;
      ghost var start := Now();
      AsksForChunks(headers, calls);
      assert calls[0..] == calls;
      for i := 0 to |calls|
        invariant Run(compile, Now(), calls[i..]) == Run(compile, start, calls)
      {
        assert calls[i..][1..] == calls[i + 1..];
        NonEmptyNoTrap(calls[i].bufs);
        var ok := HttpWrite(calls[i].bufs, calls[i].end);
      }
      assert calls[|calls|..] == [];
      ChunkedMessage(compile, start, calls);
      ghost var framing := Decide(start.headers, calls[0].bufs, calls[0].end);
      header := if |AllBufs(calls)| == 0 then "" else compile(framing.headers);
      body := Coded(AllBufs(calls)) + LAST_CHUNK + CRLF;
      AllBufsNonEmpty(calls);
      BodyDecodes(AllBufs(calls));
    }
  }

  lemma AsksForChunks(headers: Headers, calls: seq<Call>)
    requires OneMessage(calls) && "content-length" !in headers
    requires if "transfer-encoding" in headers then headers["transfer-encoding"] == "chunked"
             else |calls| > 1 || TotalSize(calls[0].bufs) >= 0x1_0000_0000_0000_0000
    ensures Decide(headers, calls[0].bufs, calls[0].end)
         == Framing(headers["transfer-encoding" := "chunked"], true)
  {
    hide Notation, Flatten;
    assert "transfer-encoding" in headers ==> headers["transfer-encoding" := "chunked"] == headers;
  }

  lemma BodyDecodes(bufs: seq<string>)
    requires AllNonEmpty(bufs)
    ensures forall after :: DecodeChunked(Coded(bufs) + LAST_CHUNK + CRLF + after) == Some((Flatten(bufs), after))
  {
    hide DecodeChunked, Coded;
    forall after
      ensures DecodeChunked(Coded(bufs) + LAST_CHUNK + CRLF + after) == Some((Flatten(bufs), after))
    {
      CodedDecodes(bufs, after);
      assert Coded(bufs) + LAST_CHUNK + CRLF + after == Coded(bufs) + (LAST_CHUNK + CRLF + after);
    }
  }

  lemma NonEmptyNoTrap(bufs: seq<string>)
    ensures AllNonEmpty(bufs) ==> forall chunked, first :: !Traps(bufs, chunked, first)
  {}

  lemma {:induction false} AllBufsNonEmpty(calls: seq<Call>)
    requires forall i :: 0 <= i < |calls| ==> AllNonEmpty(calls[i].bufs)
    ensures AllNonEmpty(AllBufs(calls))
  {
    if |calls| > 0 {
      AllBufsNonEmpty(calls[1..]);
    }
  }

  lemma NoTrap(bufs: seq<string>, first: bool)
    ensures !Traps(bufs, false, first)
  {}

  lemma EmptyTraps(chunked: bool, first: bool)
    ensures !Traps([], chunked, first)
  {}

  lemma BodyRaw(bufs: seq<string>, end: bool)
    ensures Body(bufs, end, false) == Flatten(bufs)
  {}

  lemma BodyNothing(bufs: seq<string>, end: bool)
    ensures |bufs| == 0 && !end ==> Body(bufs, end, true) == "" && Flatten(bufs) == ""
  {}

  lemma RawStart(slots: seq<string>, block: string, first: bool)
    requires slots == if first then [block] else []
    requires !first ==> block == ""
    ensures Flatten(slots) == block
  {
    if first {
      assert [block][1..] == [];
    }
  }

  // The sum of the buffer sizes, unless it overflows a size_t.
  method ContentLength(bufs: seq<string>) returns (r: Option<nat>)
    requires AllSized(bufs)
    ensures r == if TotalSize(bufs) < TWO_TO_THE_64 then Some(TotalSize(bufs)) else None
  {
    hide Flatten;
    var contentLength := 0;
    NoChunks();
    assert bufs[..0] == [];
    for i := 0 to |bufs|
      invariant contentLength == TotalSize(bufs[..i]) < TWO_TO_THE_64
    {
      FlattenSnoc(bufs[..i], bufs[i]);
      assert bufs[..i + 1] == bufs[..i] + [bufs[i]];
      if |bufs[i]| > TWO_TO_THE_64 - 1 - contentLength {
        SumTooLarge(bufs, i + 1);
        return None;
      }
      contentLength := contentLength + |bufs[i]|;
    }
    assert bufs[..|bufs|] == bufs;
    return Some(contentLength);
  }

  method PrintNumber(n: nat) returns (text: string)
    requires n < TWO_TO_THE_64
    ensures text == Notation(n, 10)
  {
    var buf := new MutableBuffer.Buffer();
    var printed := buf.AppendNumber(n, 10, 0);
    text := buf.Text();
  }

  // Reserve 800 bytes, then append the compiled headers.
  method StoreHeader(buf: MutableBuffer.Buffer, block: string)
    requires buf.Valid() && buf.data == null
    modifies buf, buf.data
    ensures buf.Valid() && buf.Contents() == block && buf.data != null && fresh(buf.data)
  {
    buf.SetCapacity(800);
    buf.Append(block);
    assert "" + block == block;
  }

  // ([header] hex CRLF) data (CRLF hex CRLF) data ... : two slots for every buffer.
  method FillChunks(slots: array<string>, buf: MutableBuffer.Buffer, bufs: seq<string>,
                    ghost block: string, ghost first: bool)
    returns (ok: bool, used: nat)
    requires AllSized(bufs) && slots.Length >= 2 * |bufs| + 1
    requires buf.Valid() && buf.Contents() == block && (buf.data != null <==> first)
    modifies slots, buf, buf.data
    ensures ok <==> !Traps(bufs, true, first)
    ensures ok ==> used == 2 * |bufs| && Filled(slots[..used], block, bufs, |bufs|)
  {
    hide Filled, Notation;
    ok, used := true, 0;
    var i := 0;
    FilledStart(block, bufs);
    assert slots[..0] == [];
    while i < |bufs|
      invariant 0 <= i <= |bufs| && used == 2 * i
      invariant buf.Valid()
      invariant if i == 0 then buf.Contents() == block && (buf.data != null <==> first) else buf.data == null
      invariant buf.data == null || buf.data == old(buf.data) || fresh(buf.data)
      invariant forall j :: 0 <= j < i ==> |bufs[j]| > 0 || (j == 0 && !first)
      invariant Filled(slots[..used], block, bufs, i)
    {
      ghost var filled := slots[..used];
      var line;
      ok, line := ChunkLine(buf, |bufs[i]|, i > 0);
      if !ok {
        return;
      }
      slots[used] := line;
      slots[used + 1] := bufs[i];
      assert slots[..used + 2] == filled + [line, bufs[i]];
      OneMoreChunk(filled, line, block, bufs, i);
      used := used + 2;
      i := i + 1;
    }
  }

  lemma FilledStart(block: string, bufs: seq<string>)
    ensures Filled([], block, bufs, 0)
  {}

  lemma HexSize(size: nat)
    requires size < TWO_TO_THE_64
    ensures Covered(16) && (MutableBuffer.Printable(MutableBuffer.Number(size, 16)) <==> size > 0)
  {}

  // One chunk-size line, appended to whatever the buffer holds; the buffer is reset.
  method ChunkLine(buf: MutableBuffer.Buffer, size: nat, later: bool) returns (ok: bool, line: string)
    requires buf.Valid() && size < TWO_TO_THE_64 && (later ==> buf.data == null)
    modifies buf, buf.data
    ensures buf.Valid()
    ensures ok <==> size > 0 || (!later && old(buf.data) == null)
    ensures ok ==> buf.data == null
    ensures !ok ==> buf.data == old(buf.data) || buf.data == null || fresh(buf.data)
    ensures ok ==> line == (if later then CRLF else old(buf.Contents())) + SizeText(size) + CRLF
  {
    hide Notation, MutableBuffer.Printable, MutableBuffer.Buffer.Grown, Covered;
    line := "";
    HexSize(size);
    if later {
      buf.Append(CRLF);
      assert buf.Contents() == CRLF;
    }
    var printed := buf.AppendNumber(size, 16, 0);
    ok := printed.Printed?;
    if !ok {
      return;
    }
    buf.Append(CRLF);
    line := buf.Text();
    buf.Reset();
  }

  method CopyBuffers(slots: array<string>, start: nat, bufs: seq<string>, ghost block: string) returns (used: nat)
    requires slots.Length >= start + |bufs| && Flatten(slots[..start]) == block
    modifies slots
    ensures used == start + |bufs| && Flatten(slots[..used]) == block + Flatten(bufs)
  {
    hide Flatten;
    used := start;
    NoChunks();
    assert bufs[..0] == [];
    for i := 0 to |bufs|
      invariant used == start + i
      invariant Flatten(slots[..used]) == block + Flatten(bufs[..i])
    {
      FlattenSnoc(slots[..used], bufs[i]);
      FlattenSnoc(bufs[..i], bufs[i]);
      assert bufs[..i + 1] == bufs[..i] + [bufs[i]];
      slots[used] := bufs[i];
      assert slots[..used + 1] == slots[..used] + [bufs[i]];
      used := used + 1;
    }
    assert bufs[..|bufs|] == bufs;
  }
}
