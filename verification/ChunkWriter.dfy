/** The streaming writer of lib/luaw_http.lua: body parts are buffered, sent as chunks when the buffer is
    full, and ended by a last chunk. The chunk states of the parser invert it. */
module ChunkWriter {
  import opened Ascii
  import opened HttpTypes
  import opened HttpAutomaton
  import opened HttpRun
  import opened HttpLengths
  import opened HttpBody
  import opened HttpChunks

  // ----- "%x" -----

  function HexChar(d: nat): (b: byte)
    requires d < 16
    ensures SizeDigit(b) && DigitOf(b) == d && b != CR
  {
    if d < 10 then 48 + d else 87 + d
  }

  function HexText(n: nat): bytes
  {
    if n < 16 then [HexChar(n)] else HexText(n / 16) + [HexChar(n % 16)]
  }

  function Power16(k: nat): nat { if k == 0 then 1 else 16 * Power16(k - 1) }

  /** The digits of a number read back as the number. */
  lemma {:induction false} HexRoundTrip(n: nat)
    ensures HexText(n) != [] && forall i :: 0 <= i < |HexText(n)| ==> SizeDigit(HexText(n)[i])
    ensures SizeOf(HexText(n)) == n
  {
    hide SizeOf, SizeDigit, DigitOf, HexChar;
    if n < 16 {
      OneDigit(HexChar(n));
    } else {
      HexRoundTrip(n / 16);
      SizeMore(HexText(n / 16), HexChar(n % 16));
    }
  }

  /** The digits are those of "%x": lower case, and no leading zero but for 0 itself. */
  lemma {:induction false} HexIsCanonical(n: nat)
    ensures forall i :: 0 <= i < |HexText(n)| ==>
              var c := HexText(n)[i] as char; '0' <= c <= '9' || 'a' <= c <= 'f'
    ensures HexText(n) != [] && (n > 0 ==> HexText(n)[0] as char != '0')
  {
    if n >= 16 { HexIsCanonical(n / 16); }
  }

  lemma {:induction false} HexLength(n: nat, k: nat)
    requires k > 0 && n < Power16(k)
    ensures |HexText(n)| <= k
  {
    if n >= 16 {
      assert Power16(1) == 16;
      HexLength(n / 16, k - 1);
    }
  }

  lemma SizesAreShort(n: nat)
    requires n < Limit(16)
    ensures |HexText(n)| <= 16
  {
    assert Power16(4) == 0x1_0000;
    assert Power16(8) == 0x1_0000_0000;
    assert Power16(12) == 0x1_0000_0000_0000;
    assert Power16(16) == 0x1_0000_0000_0000_0000;
    HexLength(n, 16);
  }

  // ----- chunks -----

  function SizeText(n: nat): bytes { HexText(n) + CRLF }

  /** What sendBuffer makes of a chunk. */
  function Chunk(data: bytes): bytes { SizeText(|data|) + data + CRLF }

  const LAST_CHUNK: bytes := [48, CR, LF, CR, LF]

  function Chunks(cs: seq<bytes>): bytes
  {
    if cs == [] then [] else Chunks(cs[..|cs| - 1]) + Chunk(cs[|cs| - 1])
  }

  lemma DigitsCounted(d: bytes, t: bytes)
    requires forall i :: 0 <= i < |d| ==> SizeDigit(d[i])
    requires t != [] && !SizeDigit(t[0])
    ensures DigitCount(d + t) == |d|
  {
    hide SizeDigit;
    var s := d + t;
    assert forall i :: 0 <= i < |d| ==> s[i] == d[i];
    assert s[|d|] == t[0];
  }

  /** The size line of a chunk, within any limit that leaves room for it. */
  lemma SizeLineShort(n: nat, t: bytes)
    requires n < Limit(16)
    ensures ShortLine(SizeText(n) + t) == Size(n, t)
  {
    hide SizeOf, Limit, HexText, DigitCount;
    HexRoundTrip(n);
    var d := HexText(n);
    var s := SizeText(n) + t;
    assert s == d + (CRLF + t);
    assert !SizeDigit(CR);
    DigitsCounted(d, CRLF + t);
    assert s[..|d|] == d && s[|d|] == CR && s[|d| + 1..] == [LF] + t;
    assert ([LF] + t)[1..] == t;
  }

  lemma SizeLineRead(n: nat, t: bytes)
    requires n < Limit(16)
    ensures LineOf(SizeText(n) + t) == Size(n, t)
  {
    hide ShortLine, HexText, Limit;
    var s := SizeText(n) + t;
    SizesAreShort(n);
    if |s| <= MAX_HEADER_SIZE {
      SizeLineShort(n, t);
    } else {
      var k := MAX_HEADER_SIZE - |SizeText(n)|;
      assert s[..MAX_HEADER_SIZE] == SizeText(n) + t[..k];
      assert t[..k] + s[MAX_HEADER_SIZE..] == t;
      SizeLineShort(n, t[..k]);
    }
  }

  lemma OneChunkRead(data: bytes, t: bytes)
    requires 0 < |data| < Limit(16)
    ensures Dechunk(Chunk(data) + t) == Before(data, Dechunk(t))
  {
    hide LineOf, Limit, SizeText;
    var rest := data + (CRLF + t);
    assert Chunk(data) + t == SizeText(|data|) + rest;
    SizeLineRead(|data|, rest);
    var n := |data|;
    assert rest[..n] == data && rest[n] == CR && rest[n + 1] == LF && rest[n + 2..] == t;
  }

  lemma LastChunkRead(t: bytes)
    ensures Dechunk([48, CR, LF] + t) == Done([], t)
  {
    hide LineOf;
    SizeLineRead(0, t);
    assert SizeText(0) == [48, CR, LF];
  }

  predicate Sendable(cs: seq<bytes>) { forall i :: 0 <= i < |cs| ==> 0 < |cs[i]| < Limit(16) }

  /** Decoding inverts chunking, whatever follows. */
  lemma {:induction false} ChunksInverted(cs: seq<bytes>, t: bytes)
    requires Sendable(cs)
    ensures Dechunk(Chunks(cs) + t) == Before(Flatten(cs), Dechunk(t))
    decreases |cs|
  {
    hide Dechunk, Chunk, Limit;
    if cs == [] {
      assert Chunks(cs) + t == t;
      NothingBefore(Dechunk(t));
    } else {
      var init, c := cs[..|cs| - 1], cs[|cs| - 1];
      assert Chunks(cs) + t == Chunks(init) + (Chunk(c) + t);
      ChunksInverted(init, Chunk(c) + t);
      OneChunkRead(c, t);
      BeforeTwice(Flatten(init), c, Dechunk(t));
    }
  }

  lemma NothingBefore(d: Dechunked)
    ensures Before([], d) == d
  {
    assert [] + d.body == d.body;
  }

  lemma BeforeTwice(a: bytes, b: bytes, d: Dechunked)
    ensures Before(a, Before(b, d)) == Before(a + b, d)
  {
    assert a + (b + d.body) == (a + b) + d.body;
  }

  /** A whole streamed body: its chunks, then the last one, then whatever follows. */
  lemma StreamInverted(cs: seq<bytes>, t: bytes)
    requires Sendable(cs)
    ensures Dechunk(Chunks(cs) + LAST_CHUNK + t) == Done(Flatten(cs), CRLF + t)
  {
    hide Dechunk, Chunks, Limit;
    assert Chunks(cs) + LAST_CHUNK + t == Chunks(cs) + ([48, CR, LF] + (CRLF + t));
    ChunksInverted(cs, [48, CR, LF] + (CRLF + t));
    LastChunkRead(CRLF + t);
    assert Flatten(cs) + [] == Flatten(cs);
  }

  /** The machine after a chunked message without a trailer. */
  function Received(m: Machine, body: bytes): Machine
  {
    Completed(Sized(AfterChunks(m, body), 0).(nread := 2))
  }

  /** A parser at the first chunk takes a streamed body as its parts, completes the message, and leaves
      what follows. */
  lemma StreamParsed(m: Machine, cs: seq<bytes>, t: bytes)
    requires Idle(m, ChunkSizeStart) && Sendable(cs)
    requires !m.core.flags.upgrade && m.core.verb != CONNECT && !m.core.upgrade
    ensures Ready(Received(m, Flatten(cs)))
    ensures Run(m, Chunks(cs) + LAST_CHUNK + t) == Run(Received(m, Flatten(cs)), t)
  {
    hide Run, Ready, Chunks, PushBody, Completed, Dechunk;
    var s, b := Chunks(cs) + LAST_CHUNK + t, Flatten(cs);
    StreamInverted(cs, t);
    ChunksRead(m, s);
    var z := Sized(AfterChunks(m, b), 0);
    RunConcat(z, CRLF, t);
    EmptyLine(z);
  }

  lemma AppendChunk(cs: seq<bytes>, c: bytes)
    ensures Chunks(cs + [c]) == Chunks(cs) + Chunk(c)
  {
    assert (cs + [c])[..|cs|] == cs;
  }

  lemma NothingFlat()
    ensures Flatten([]) == []
  {}

  lemma SendableMore(cs: seq<bytes>, c: bytes)
    requires Sendable(cs) && 0 < |c| < Limit(16)
    ensures Sendable(cs + [c])
  {
    hide Limit;
  }

  class StreamedResponse {
    const bufferSize: nat
    var bodyParts: seq<bytes>
    var len: nat
    var sent: seq<bytes>
    ghost var chunks: seq<bytes>
    ghost var body: bytes

    /** Everything given to the response is in a sent chunk or in the buffer, in order. */
    ghost predicate Valid()
      reads this
    {
      && Flatten(sent) == Chunks(chunks) && Sendable(chunks)
      && Flatten(chunks) + Flatten(bodyParts) == body
      && len == |Flatten(bodyParts)| < Limit(16)
    }

    /** startStreaming, after the head has been sent. */
    constructor (size: nat)
      requires size > 0
      ensures Valid() && body == [] && sent == [] && bodyParts == [] && bufferSize == size
    {
      bufferSize, bodyParts, len, sent, chunks, body := size, [], 0, [], [], [];
    }

    /** sendBuffer in chunked mode; an empty buffer makes a last chunk. */
    method SendBuffer()
      requires Valid()
      modifies this
      ensures bodyParts == [] && len == 0 && body == old(body)
      ensures Flatten(sent) == Chunks(old(chunks)) + Chunk(Flatten(old(bodyParts)))
      ensures old(len) > 0 ==> Valid() && chunks == old(chunks) + [Flatten(old(bodyParts))]
      ensures old(len) == 0 ==> chunks == old(chunks)
    {
      hide Chunk, Chunks, Limit, Flatten, Sendable;
      var chunk := Flatten(bodyParts);
      NothingFlat();
      if len > 0 { SendableMore(chunks, chunk); }
      AppendFlat(sent, Chunk(chunk));
      AppendFlat(chunks, chunk);
      AppendChunk(chunks, chunk);
      assert Flatten(chunks) + chunk + [] == body;
      sent := sent + [Chunk(chunk)];
      if len > 0 { chunks := chunks + [chunk]; }
      bodyParts, len := [], 0;
    }

    /** appendBody */
    method AppendBody(part: bytes)
      requires Valid() && bufferSize > 0 && len + |part| < Limit(16)
      modifies this
      ensures Valid() && body == old(body) + part
      ensures len < bufferSize || len == 0
      ensures old(len) + |part| < bufferSize ==> sent == old(sent) && len == old(len) + |part|
      ensures old(len) + |part| >= bufferSize ==>
                len == 0 && chunks == old(chunks) + [Flatten(old(bodyParts)) + part]
    {
      hide Chunks, Limit, Sendable;
      AppendFlat(bodyParts, part);
      assert Flatten(chunks) + (Flatten(bodyParts) + part) == body + part;
      bodyParts, len, body := bodyParts + [part], len + |part|, body + part;
      if len >= bufferSize {
        SendBuffer();
      }
    }

    /** endStreaming: the whole stream decodes to the parts given; if the buffer was empty, exactly one
        further last chunk follows the message. */
    method EndStreaming()
      requires Valid()
      modifies this
      ensures body == old(body)
      ensures var extra := if old(len) == 0 then LAST_CHUNK else [];
              && Dechunk(Flatten(sent)) == Done(body, CRLF + extra)
              && forall m: Machine ::
                   Idle(m, ChunkSizeStart) && !m.core.flags.upgrade && m.core.verb != CONNECT && !m.core.upgrade ==>
                     Ready(Received(m, body)) && Run(m, Flatten(sent)) == Run(Received(m, body), extra)
    {
      hide Chunk, Chunks, Limit, Sendable, Dechunk, Run, Ready, Received;
      ghost var extra := if len == 0 then LAST_CHUNK else [];
      if len == 0 { EmptyChunk(); }
      SendBuffer();
      AppendFlat(sent, LAST_CHUNK);
      sent := sent + [LAST_CHUNK];
      assert Flatten(sent) == Chunks(chunks) + LAST_CHUNK + extra;
      assert Flatten(chunks) == body;
      StreamInverted(chunks, extra);
      forall m: Machine | Idle(m, ChunkSizeStart) && !m.core.flags.upgrade && m.core.verb != CONNECT && !m.core.upgrade
        ensures Ready(Received(m, body)) && Run(m, Flatten(sent)) == Run(Received(m, body), extra)
      {
        StreamParsed(m, chunks, extra);
      }
    }
  }

  lemma EmptyChunk()
    ensures Chunk([]) == LAST_CHUNK
  {
    assert HexText(0) == [48];
  }
}
