/** Which bytes of a written request the pausing parser counts twice: the LF that ends the head, and no
    other. So it takes exactly the heads that are shorter than the limit. */
module HttpHeadLimit {
  import opened Ascii
  import opened HttpTypes
  import opened HttpAutomaton
  import opened HttpRun
  import opened HttpReread
  import opened HttpExecute
  import opened HttpWords
  import opened HttpLengths
  import opened HttpHeaders
  import opened HttpBody
  import opened HttpChunks
  import opened HttpMethods
  import opened HttpRequests
  import opened HttpOverflow
  import opened ChunkWriter

  /** No byte of the data is counted again. */
  ghost predicate Silent(m: Machine, data: bytes)
    requires Ready(m)
  {
    forall p :: 0 <= p < |data| ==> SilentAt(Run(m, data[..p]), data[p])
  }

  predicate SilentAt(m: Machine, ch: byte) { m.stop.Running? ==> Recount(m.core, ch) == 0 }

  lemma SilentConcatAt(m: Machine, a: bytes, b: bytes, p: nat)
    requires Ready(m) && Silent(m, a) && Silent(Run(m, a), b) && p < |a + b|
    ensures SilentAt(Run(m, (a + b)[..p]), (a + b)[p])
  {
    hide Run, Ready, SilentAt;
    if p < |a| {
      assert (a + b)[..p] == a[..p];
    } else {
      var n := p - |a|;
      assert (a + b)[..p] == a + b[..n];
      RunConcat(m, a, b[..n]);
      assert SilentAt(Run(Run(m, a), b[..n]), b[n]);
    }
  }

  lemma SilentConcat(m: Machine, a: bytes, b: bytes)
    requires Ready(m) && Silent(m, a) && Silent(Run(m, a), b)
    ensures Silent(m, a + b)
  {
    hide Run, Ready, SilentAt;
    forall p | 0 <= p < |a + b| ensures SilentAt(Run(m, (a + b)[..p]), (a + b)[p]) {
      SilentConcatAt(m, a, b, p);
    }
  }

  lemma SilentPrefix(m: Machine, data: bytes, n: nat)
    requires Ready(m) && Silent(m, data) && n <= |data|
    ensures Silent(m, data[..n])
  {
    hide Run, Ready, SilentAt;
    forall p | 0 <= p < n ensures SilentAt(Run(m, data[..n][..p]), data[..n][p]) {
      assert data[..n][..p] == data[..p];
    }
  }

  lemma NoFeedSilent(m: Machine, s: bytes)
    requires Ready(m) && LF !in s
    ensures Silent(m, s)
  {
    hide Run, Ready;
  }

  /** A line is silent if its LF is. */
  lemma LineSilent(m: Machine, t: bytes)
    requires Ready(m) && LF !in t && Recount(Run(m, t).core, LF) == 0
    ensures Silent(m, t + [LF])
  {
    hide Run, Ready, Recount;
    NoFeedSilent(m, t);
    forall p | 0 <= p < |t + [LF]| ensures SilentAt(Run(m, (t + [LF])[..p]), (t + [LF])[p]) {
      assert (t + [LF])[..p] == t[..p];
      assert p == |t| ==> t[..p] == t;
      assert p < |t| ==> SilentAt(Run(m, t[..p]), t[p]);
    }
  }

  /** Nothing is added to the counter where nothing is counted again. */
  lemma {:induction false} SilentExtra(m: Machine, a: bytes, b: bytes)
    requires Ready(m) && Extra(m, a) == 0 && Silent(Run(m, a), b)
    ensures Extra(m, a + b) == 0
    decreases |b|
  {
    hide Run, Ready, Step, Recount, Silent;
    if b == [] {
      assert a + b == a;
    } else {
      var init, ch := b[..|b| - 1], b[|b| - 1];
      SilentPrefix(Run(m, a), b, |init|);
      SilentExtra(m, a, init);
      assert (a + b)[..|a + b| - 1] == a + init && (a + b)[|a + b| - 1] == ch;
      RunConcat(m, a, init);
      assert SilentAt(Run(Run(m, a), init), ch) by { LastSilent(Run(m, a), b); }
    }
  }

  lemma LastSilent(m: Machine, b: bytes)
    requires Ready(m) && b != [] && Silent(m, b)
    ensures SilentAt(Run(m, b[..|b| - 1]), b[|b| - 1])
  {
    hide Run, Ready, SilentAt;
  }

  // ----- the head -----

  /** A version up to its LF. */
  function VersionHead(major: nat, minor: nat): bytes
    requires 1 <= major <= 9 && minor <= 9
  {
    HTTP_SLASH + ([48 + major, 46] + [48 + minor, CR])
  }

  lemma VersionAlmost(m: Machine, major: nat, minor: nat)
    requires Idle(m, ReqHttpStart) && m.nread + 10 <= MAX_HEADER_SIZE && 1 <= major <= 9 && minor <= 9
    ensures Run(m, VersionHead(major, minor)).core.state.ReqLineAlmostDone?
  {
    hide Run, Step, Ready, HTTP_SLASH;
    var x: bytes, y: bytes := [48 + major, 46], [48 + minor, CR];
    HttpSlash(m);
    RunConcat(m, HTTP_SLASH, x + y);
    var a := Run(m, HTTP_SLASH);
    MajorRead(a, major);
    MinorRead(Run(a, x), minor);
    RunConcat(a, x, y);
  }

  lemma VersionParts(major: nat, minor: nat)
    requires 1 <= major <= 9 && minor <= 9
    ensures LF !in VersionHead(major, minor) && VersionHead(major, minor) + [LF] == VersionText(major, minor)
  {
    SlashHasNoFeed();
  }

  lemma VersionSilent(m: Machine, major: nat, minor: nat)
    requires Idle(m, ReqHttpStart) && m.nread + 10 <= MAX_HEADER_SIZE && 1 <= major <= 9 && minor <= 9
    ensures Silent(m, VersionText(major, minor))
  {
    hide Run, Ready, Silent, VersionHead, VersionText;
    VersionAlmost(m, major, minor);
    VersionParts(major, minor);
    LineSilent(m, VersionHead(major, minor));
  }

  lemma SlashHasNoFeed()
    ensures LF !in HTTP_SLASH
  {}

  lemma MethodHasNoFeed(v: Method)
    ensures LF !in MethodName(v)
  {
    hide MethodName;
    NamesAreUpperCase(v);
  }

  lemma RequestLineSilent(m: Machine, q: Request)
    requires Idle(m, StartReq) && IsRequest(q) && m.nread + |RequestLine(q)| <= MAX_HEADER_SIZE
    ensures Silent(m, RequestLine(q))
  {
    hide Run, Step, Ready, MethodName, Push, IsHeaderBlock, Walk, UrlTailState, UrlHeadState, UrlStart, Silent;
    hide VersionText;
    var a, v := MethodName(q.verb) + [SP], VersionText(q.major, q.minor);
    MethodRead(m, q.verb);
    var m1 := Run(m, a);
    assert !Walk(UrlStart(q.verb), q.url).Dead? by { TailIsAlive(Walk(UrlStart(q.verb), q.url)); }
    UrlRead(m1, q.url);
    RunConcat(m, a, q.url);
    var m2 := Run(m1, q.url);
    UrlEnds(m2);
    RunMore(m, a + q.url, SP);
    var t := a + q.url + [SP];
    MethodHasNoFeed(q.verb);
    NoFeedSilent(m, t);
    VersionLength(q.major, q.minor);
    VersionSilent(Step(m2, SP), q.major, q.minor);
    SilentConcat(m, t, v);
    assert t + v == RequestLine(q);
  }

  lemma ValueAlmost(m: Machine, v: bytes)
    requires Ready(m) && m.stop.Running? && m.core.state.HeaderValueStart? && m.nread + |v| + 2 <= MAX_HEADER_SIZE
    requires IsValue(v) && (v != [] ==> !BadLength(Role(m.core.hstate), v))
    ensures Run(m, v + [CR]).core.state.HeaderAlmostDone?
  {
    hide Step, Run, Push, Ready, Role, Follows, IsLength, LengthOf;
    RunMore(m, v, CR);
    if v == [] {
      EmptyRun(m, v);
      EmptyValue(m);
    } else {
      ValueRead(m, v);
      CarriageReturn(Run(m, v));
    }
  }

  lemma HeaderLineSilent(m: Machine, l: Line)
    requires Ready(m) && m.stop.Running? && m.core.state.HeaderFieldStart? && IsHeaderLine(l) && !BadLine(l)
    requires m.nread + |LineText(l)| <= MAX_HEADER_SIZE
    ensures Silent(m, LineText(l))
  {
    hide Run, Push, Ready, Role, IsLength, LengthOf, Classify, FoldAll, Silent;
    var head, v := l.name + [58], l.value + [CR];
    NameClassified(m, l.name);
    var m1 := Run(m, head);
    Blanks(m1, l.pad);
    RunConcat(m, head, l.pad + v);
    RunConcat(m1, l.pad, v);
    ValueAlmost(Run(m1, l.pad), l.value);
    var t := head + (l.pad + v);
    assert LF !in t by { LineHasNoFeed(l); }
    LineSilent(m, t);
    assert t + [LF] == LineText(l);
  }

  lemma LineHasNoFeed(l: Line)
    requires IsHeaderLine(l)
    ensures LF !in (l.name + [58]) + (l.pad + (l.value + [CR]))
  {
    forall i | 0 <= i < |l.name| ensures l.name[i] != LF { TokenFolds(l.name[i]); }
  }

  lemma NextLineSilent(m: Machine, s: bytes)
    requires Ready(m) && m.stop.Running? && (m.core.state.HeaderFieldStart? || m.core.state.HeaderValueLws?)
    requires s != [] && !IsBlank(s[0]) && s[0] != LF && m.nread < MAX_HEADER_SIZE
    requires Ready(AtLine(m)) && Silent(AtLine(m), s)
    ensures Silent(m, s)
  {
    hide Run, Ready;
    forall p | 0 <= p < |s| ensures SilentAt(Run(m, s[..p]), s[p]) {
      if p == 0 {
        assert s[..0] == [];
      } else {
        NextLineRun(m, s[..p]);
        assert SilentAt(Run(AtLine(m), s[..p]), s[p]);
      }
    }
  }

  lemma {:induction false} BlockSilent(m: Machine, lines: seq<Line>)
    requires Ready(m) && m.stop.Running? && (m.core.state.HeaderFieldStart? || m.core.state.HeaderValueLws?)
    requires IsHeaderBlock(lines) && !BadBlock(lines) && m.nread + |BlockText(lines)| <= MAX_HEADER_SIZE
    ensures Silent(m, BlockText(lines))
    decreases |lines|
  {
    hide Run, Ready, LineText, BadLine, IsHeaderLine, BlockRead, BadBlock, IsHeaderBlock;
    if lines == [] {
      NoFeedSilent(m, []);
    } else {
      var init, l := lines[..|lines| - 1], lines[|lines| - 1];
      SplitBlock(lines);
      BlockSilent(m, init);
      HeaderBlock(m, init);
      var mid := Run(m, BlockText(init));
      BlockState(m, init, mid);
      LineBegins(l);
      LineStarts(l);
      NextLineRun(mid, LineText(l));
      HeaderLineSilent(AtLine(mid), l);
      NextLineSilent(mid, LineText(l));
      SilentConcat(m, BlockText(init), LineText(l));
    }
  }

  lemma LineStarts(l: Line)
    requires IsHeaderLine(l)
    ensures LineText(l)[0] != LF
  {
    TokenFolds(l.name[0]);
    assert LineText(l)[0] == l.name[0];
  }

  // ----- the bodies -----

  /** The bytes of a body, of known length or of a chunk. */
  lemma BulkSilent(m: Machine, body: bytes)
    requires Ready(m) && m.stop.Running? && (m.core.state.BodyIdentity? || m.core.state.ChunkData?)
              && |body| <= m.core.clen
    ensures Silent(m, body)
  {
    hide Run, Ready, Recount;
    forall p | 0 <= p < |body| ensures SilentAt(Run(m, body[..p]), body[p]) {
      BodyRun(m, body[..p]);
      OnlyHeadersRecount(Run(m, body[..p]).core, body[p]);
    }
  }

  lemma SizeSilent(m: Machine, n: nat)
    requires Idle(m, ChunkSizeStart) && n < Limit(16)
    ensures Silent(m, SizeText(n)) && Ready(Sized(m, n)) && Run(m, SizeText(n)) == Sized(m, n)
  {
    hide Run, Ready, Silent, Limit, HexText, SizeOf, Dechunk, LineOf, Sized;
    var d := HexText(n);
    HexRoundTrip(n);
    SizesAreShort(n);
    DigitsPlain(d);
    ChunkSizeAccepted(m, d);
    LineSilent(m, d + [CR]);
    assert (d + [CR]) + [LF] == SizeText(n);
    SizeLineRead(n, []);
    assert SizeText(n) + [] == SizeText(n);
    LineRead(m, SizeText(n));
    EmptyRun(Sized(m, n), []);
  }

  lemma DigitsPlain(d: bytes)
    requires forall i :: 0 <= i < |d| ==> SizeDigit(d[i])
    ensures LF !in d && AllDigits(d) && forall i :: 0 <= i < |d| ==> d[i] != CR && d[i] != 59 && d[i] != SP
  {}

  /** The data of a chunk and its line end. */
  lemma DataSilent(c: Machine, data: bytes)
    requires Idle(c, ChunkData) && c.core.clen == |data|
    ensures Silent(c, data + CRLF)
  {
    hide Run, Ready, Silent, PushBody, Step;
    BulkSilent(c, data);
    ChunkBody(c, data);
    var e := Run(c, data);
    ChunkReturnStep(e, CR);
    OneRun(e, CR);
    LineSilent(e, [CR]);
    assert [CR] + [LF] == CRLF;
    SilentConcat(c, data, CRLF);
  }

  lemma ChunkSilent(m: Machine, data: bytes)
    requires Idle(m, ChunkSizeStart) && 0 < |data| < Limit(16)
    ensures Silent(m, Chunk(data)) && Idle(AfterChunks(m, data), ChunkSizeStart)
              && Run(m, Chunk(data)) == AfterChunks(m, data)
  {
    hide Run, Ready, Silent, Limit, SizeText, PushBody, AfterChunks;
    var n, rest := |data|, data + CRLF;
    SizeSilent(m, n);
    DataSilent(Sized(m, n), data);
    SilentConcat(m, SizeText(n), rest);
    assert Chunk(data) == SizeText(n) + rest;
    RunConcat(m, SizeText(n), rest);
    assert |rest| == n + 2 && rest[n] == CR && rest[n + 1] == LF && rest[..n] == data && rest[n + 2..] == [];
    ChunkThenRest(m, Chunk(data), n, rest);
    EmptyRun(AfterChunks(m, data), []);
  }

  lemma OneRun(m: Machine, ch: byte)
    requires Ready(m)
    ensures Run(m, [ch]) == Step(m, ch)
  {
    hide Step, Ready;
    EmptyRun(m, []);
    RunMore(m, [], ch);
    assert [] + [ch] == [ch];
  }

  lemma {:induction false} ChunksSilent(m: Machine, cs: seq<bytes>)
    requires Idle(m, ChunkSizeStart) && Sendable(cs)
    ensures Silent(m, Chunks(cs))
    ensures var r := Run(m, Chunks(cs)); Idle(r, ChunkSizeStart) && r.core.flags == m.core.flags
    decreases |cs|
  {
    hide Run, Ready, Silent, Limit, Chunk;
    if cs == [] {
      NoFeedSilent(m, []);
      EmptyRun(m, []);
    } else {
      var init, c := cs[..|cs| - 1], cs[|cs| - 1];
      ChunksSilent(m, init);
      var r := Run(m, Chunks(init));
      ChunkSilent(r, c);
      SilentConcat(m, Chunks(init), Chunk(c));
      RunConcat(m, Chunks(init), Chunk(c));
    }
  }

  lemma LastChunkSilent(m: Machine)
    requires Idle(m, ChunkSizeStart)
    ensures Silent(m, LAST_CHUNK)
  {
    hide Run, Ready, Silent, Limit, SizeText, Step;
    ZeroText();
    SizeSilent(m, 0);
    var z := Sized(m, 0);
    EmptyLineBegins(z);
    OneRun(z, CR);
    LineSilent(z, [CR]);
    assert [CR] + [LF] == CRLF;
    SilentConcat(m, SizeText(0), CRLF);
    assert SizeText(0) + CRLF == LAST_CHUNK;
  }

  lemma ZeroText()
    ensures SizeText(0) == [48, CR, LF] && 0 < Limit(16)
  {
    assert HexText(0) == [48];
  }

  lemma BodySilent(r: Machine, body: bytes, text: bytes, cs: seq<bytes>)
    requires Ready(Framed(r)) && r.stop.Running? && WrittenAs(FramingOf(r.core), body, text, cs)
    ensures Silent(Framed(r), text)
  {
    hide Run, Ready, Silent, Chunks, Push, ShouldKeepAlive, Sendable, Flatten;
    var f := Framed(r);
    match FramingOf(r.core)
    case NoBody => NoFeedSilent(f, []);
    case ByLength(_) => BulkSilent(f, text);
    case ByChunks =>
      ChunksSilent(f, cs);
      LastChunkSilent(Run(f, Chunks(cs)));
      SilentConcat(f, Chunks(cs), LAST_CHUNK);
  }

  // ----- the limit -----

  /** A head without its last byte. */
  function HeadStart(q: Request): bytes
    requires 1 <= q.major <= 9 && q.minor <= 9
  {
    RequestLine(q) + (BlockText(q.lines) + [CR])
  }

  lemma HeadStartRead(m: Machine, q: Request)
    requires Idle(m, StartReq) && IsRequest(q) && m.nread + |HeadText(q)| <= MAX_HEADER_SIZE && !BadBlock(q.lines)
    ensures Silent(m, HeadStart(q)) && HeadStart(q) + [LF] == HeadText(q)
    ensures var r := Run(m, HeadStart(q));
            r.stop.Running? && r.nread == m.nread + |HeadStart(q)| && r.core.state.HeadersAlmostDone?
                && !r.core.flags.trailing
  {
    hide Run, Ready, Silent, RequestLine, BadBlock, IsHeaderBlock, IsUrl, BlockText, Push, PushAll, Step, BlockCore;
    hide BlockEvents;
    var line, t := RequestLine(q), BlockText(q.lines);
    assert line + (t + CRLF) == line + (t + [CR]) + [LF];
    RequestLineRead(m, q);
    RequestLineSilent(m, q);
    var l := Lined(m, q);
    HeaderBlock(l, q.lines);
    BlockSilent(l, q.lines);
    var r := Run(l, t);
    BlockKeeps(l, q.lines, r);
    NextLineRun(r, [CR]);
    EmptyLineBegins(AtLine(r));
    OneRun(AtLine(r), CR);
    NoFeedSilent(r, [CR]);
    SilentConcat(l, t, [CR]);
    SilentConcat(m, line, t + [CR]);
    RunConcat(l, t, [CR]);
    RunConcat(m, line, t + [CR]);
  }

  /** A byte the reference reads without overflowing is not too heavy for the paused parser either, if
      nothing before it and nothing in it is counted again. */
  lemma LightByte(m: Machine, data: bytes, p: nat)
    requires Ready(m) && p < |data| && Run(m, data).stop.Running?
    requires Extra(m, data[..p]) == 0 && SilentAt(Run(m, data[..p]), data[p])
    ensures !HeavyAt(m, data, p)
  {
    hide Run, Recount, Extra, Ready;
    var r := Run(m, data[..p]);
    assert data == data[..p + 1] + data[p + 1..];
    RunConcat(m, data[..p + 1], data[p + 1..]);
    StoppedStays(Run(m, data[..p + 1]), data[p + 1..]);
    RunNext(m, data, p);
    NoOverflow(r, data[p]);
  }

  lemma NoOverflow(m: Machine, ch: byte)
    requires Ready(m) && Step(m, ch).stop.Running?
    ensures Counted(m.core, m.nread) <= MAX_HEADER_SIZE
  {
    hide Chain, Sound;
  }

  lemma ExtraNone(m: Machine)
    requires Ready(m)
    ensures Extra(m, []) == 0 && Run(m, []) == m
  {}

  /** The bytes up to a silent stretch, and any part of it. */
  lemma SilentStretch(m: Machine, a: bytes, b: bytes, data: bytes, p: nat)
    requires Ready(m) && a + b <= data && |a| <= p < |a + b| && Extra(m, a) == 0 && Silent(Run(m, a), b)
    ensures Extra(m, data[..p]) == 0 && SilentAt(Run(m, data[..p]), data[p])
  {
    hide Run, Ready, SilentAt, Extra;
    var n := p - |a|;
    assert data[..p] == a + b[..n] && data[p] == b[n];
    SilentPrefix(Run(m, a), b, n);
    SilentExtra(m, a, b[..n]);
    RunConcat(m, a, b[..n]);
    assert SilentAt(Run(Run(m, a), b[..n]), b[n]);
  }

  /** A written request, from a parser that has counted nothing: its header bytes with those counted again
      pass the limit if and only if its head is at least as long as the limit. */
  lemma HeadIsTheWeight(m: Machine, q: Request, body: bytes, text: bytes, cs: seq<bytes>)
    requires Idle(m, StartReq) && m.nread == 0 && IsRequest(q) && q.verb != CONNECT && !m.core.upgrade
    requires !BadBlock(q.lines) && !BlockCore(Lined(m, q).core, q.lines).flags.upgrade
    requires WrittenAs(FramingOf(BlockCore(Lined(m, q).core, q.lines)), body, text, cs)
    ensures Heavy(m, HeadText(q) + text) <==> |HeadText(q)| >= MAX_HEADER_SIZE
    ensures |HeadText(q)| > MAX_HEADER_SIZE ==> Overflowed(Run(m, HeadText(q) + text))
  {
    hide Run, Ready, IsUrl, IsHeaderBlock, BadBlock, BlockCore, WrittenAs, FramingOf, RequestLine, HeadText;
    hide Extra, Heavy;
    if |HeadText(q)| > MAX_HEADER_SIZE {
      LongHeadOverflows(m, q);
      StaysOverflowed(m, HeadText(q), text);
      CountersApart(m, HeadText(q) + text);
    } else {
      FittingHeadWeighs(m, q, body, text, cs);
    }
  }

  lemma FittingHeadWeighs(m: Machine, q: Request, body: bytes, text: bytes, cs: seq<bytes>)
    requires Idle(m, StartReq) && m.nread == 0 && IsRequest(q) && |HeadText(q)| <= MAX_HEADER_SIZE
    requires q.verb != CONNECT && !m.core.upgrade
    requires !BadBlock(q.lines) && !BlockCore(Lined(m, q).core, q.lines).flags.upgrade
    requires WrittenAs(FramingOf(BlockCore(Lined(m, q).core, q.lines)), body, text, cs)
    ensures Heavy(m, HeadText(q) + text) <==> |HeadText(q)| == MAX_HEADER_SIZE
  {
    hide Run, Ready, Silent, IsUrl, IsHeaderBlock, BadBlock, BlockCore, WrittenAs, FramingOf, RequestLine, HeadText;
    hide HeadStart;
    hide Extra, Framed, Heavy, Push, PushAll, RequestEvents, NewMessage, BlockEvents, BlockText;
    HeadStartRead(m, q);
    RequestRead(m, q, body, text, cs);
    var r := HeadRead(m, q);
    BlockKeeps(Lined(m, q), q.lines, r);
    HeadEnds(m, HeadStart(q), q, r);
    MatcherIgnored(BlockCore(Lined(m, q).core, q.lines), r.core.index, r.core.hstate);
    BodySilent(r, body, text, cs);
    OneHeavyByte(m, HeadStart(q), text);
  }

  /** If only one byte of a stream is counted again, it decides. */
  lemma OneHeavyByte(m: Machine, start: bytes, text: bytes)
    requires Ready(m) && m.nread == 0 && Silent(m, start)
    requires var r := Run(m, start);
             r.stop.Running? && r.nread == |start| && r.core.state.HeadersAlmostDone? && !r.core.flags.trailing
    requires Extra(m, start + [LF]) == 0 && Silent(Run(m, start + [LF]), text)
              && Run(m, start + [LF] + text).stop.Running?
    ensures Heavy(m, start + [LF] + text) <==> |start| + 2 > MAX_HEADER_SIZE
  {
    hide Run, Ready, Silent, SilentAt, Extra, Recount, Heavy, HeavyAt;
    var head, data := start + [LF], start + [LF] + text;
    ExtraNone(m);
    assert [] + start == start && start <= data && head <= data;
    forall p: nat | p < |data| && p != |start| ensures !HeavyAt(m, data, p) {
      if p < |start| { SilentStretch(m, [], start, data, p); } else { SilentStretch(m, head, text, data, p); }
      LightByte(m, data, p);
    }
    FeedWeight(m, start, data);
    HeavyOnlyAt(m, data, |start|);
  }

  /** The LF of the head: everything before it counted once, itself twice. */
  lemma FeedWeight(m: Machine, start: bytes, data: bytes)
    requires Ready(m) && m.nread == 0 && start + [LF] <= data && Silent(m, start)
    requires var r := Run(m, start);
             r.stop.Running? && r.nread == |start| && r.core.state.HeadersAlmostDone? && !r.core.flags.trailing
    ensures HeavyAt(m, data, |start|) <==> |start| + 2 > MAX_HEADER_SIZE
  {
    hide Run, Ready, Silent, Extra;
    assert data[..|start|] == start && data[|start|] == LF;
    ExtraNone(m);
    SilentExtra(m, [], start);
    assert [] + start == start;
  }

  lemma HeavyOnlyAt(m: Machine, data: bytes, k: nat)
    requires Ready(m) && forall p: nat :: p < |data| && p != k ==> !HeavyAt(m, data, p)
    ensures Heavy(m, data) <==> HeavyAt(m, data, k)
  {
    hide Run, Ready, Extra, Peak;
  }

  /** The counter is reset behind the head. */
  lemma HeadEnds(m: Machine, start: bytes, q: Request, r: Machine)
    requires Ready(m) && 1 <= q.major <= 9 && q.minor <= 9 && start + [LF] == HeadText(q)
    requires Run(m, start).stop.Running? && Run(m, HeadText(q)) == Framed(r)
    ensures Ready(Framed(r)) && Extra(m, HeadText(q)) == 0
  {
    hide Run, Ready, Step, HeadText, Push, ShouldKeepAlive;
    RunMore(m, start, LF);
    assert HeadText(q)[..|HeadText(q)| - 1] == start;
  }
}
