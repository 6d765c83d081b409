/** Whole requests: a request written out is read back as its method, URL, version, header lines and
    body. */
module HttpRequests {
  import opened Ascii
  import opened HttpTypes
  import opened HttpAutomaton
  import opened HttpRun
  import opened HttpWords
  import opened HttpHeaders
  import opened HttpBody
  import opened HttpKeepAlive
  import opened HttpChunks
  import opened HttpMethods
  import opened ChunkWriter

  // ----- the URL -----

  /** parse_url_char over a text. */
  function Walk(s: State, u: bytes): State
  {
    if u == [] then s else UrlChar(Walk(s, u[..|u| - 1]), u[|u| - 1])
  }

  predicate NoBreaks(u: bytes) { forall i :: 0 <= i < |u| ==> u[i] != SP && u[i] != CR && u[i] != LF }

  function UrlStart(v: Method): State { if v == CONNECT then ReqServerStart else ReqSpacesBeforeUrl }

  lemma UrlDies(ch: byte)
    ensures UrlChar(Dead, ch) == Dead
  {}

  lemma UrlFirst(m: Machine, ch: byte)
    requires Idle(m, ReqSpacesBeforeUrl) && m.nread < MAX_HEADER_SIZE && ch != SP
    ensures var s := UrlChar(UrlStart(m.core.verb), ch);
            if s.Dead? then Step(m, ch).stop == Failed(HPE_INVALID_URL)
            else Step(m, ch) == Machine(m.core.(state := s), m.nread + 1, Push(m.trace, Data(Url, [ch])), Running)
  {
    hide MethodName, NameHeaderState, UrlChar, Push;
  }

  lemma UrlEntry(c: Core, ch: byte)
    requires Sound(c) && (UrlHeadState(c.state) || UrlTailState(c.state)) && ch != SP && ch != CR && ch != LF
    ensures AssertsHold(c) && Act(c, ch) == Url1(c, c.state, ch)
  {
    hide MethodName, NameHeaderState, UrlChar;
  }

  lemma UrlNext(m: Machine, ch: byte)
    requires Ready(m) && m.stop.Running? && (UrlHeadState(m.core.state) || UrlTailState(m.core.state))
    requires m.nread < MAX_HEADER_SIZE && ch != SP && ch != CR && ch != LF
    ensures var s := UrlChar(m.core.state, ch);
            if s.Dead? then Step(m, ch).stop == Failed(HPE_INVALID_URL)
            else Step(m, ch) == Machine(m.core.(state := s), m.nread + 1, Push(m.trace, Data(Url, [ch])), Running)
  {
    hide Sound, Act, Step, UrlChar, Push, InField;
    UrlEntry(m.core, ch);
    OneEntry(m, ch);
  }

  /** A URL up to the next break: the parser walks it as parse_url_char does, and delivers it whole. */
  lemma {:induction false} UrlRead(m: Machine, u: bytes)
    requires Idle(m, ReqSpacesBeforeUrl) && u != [] && NoBreaks(u) && m.nread + |u| <= MAX_HEADER_SIZE
    ensures var s := Walk(UrlStart(m.core.verb), u);
            if s.Dead? then Run(m, u).stop == Failed(HPE_INVALID_URL)
            else (UrlHeadState(s) || UrlTailState(s))
                 && Run(m, u) == Machine(m.core.(state := s), m.nread + |u|, Push(m.trace, Data(Url, u)), Running)
    decreases |u|
  {
    hide Step, Run, Ready, UrlChar, Push, UrlStart, UrlHeadState, UrlTailState;
    var init, ch := u[..|u| - 1], u[|u| - 1];
    assert u == init + [ch];
    RunMore(m, init, ch);
    if init == [] {
      EmptyRun(m, init);
      UrlFirst(m, ch);
      assert u == [ch];
    } else {
      UrlRead(m, init);
      if Walk(UrlStart(m.core.verb), init).Dead? {
        UrlDies(ch);
        StepStopped(Run(m, init), ch);
      } else {
        UrlNext(Run(m, init), ch);
        PushFragments(m.trace, Url, init, [ch]);
      }
    }
  }

  /** A URL the parser can deliver. */
  predicate IsUrl(v: Method, u: bytes) { u != [] && NoBreaks(u) && UrlTailState(Walk(UrlStart(v), u)) }

  lemma UrlEnds(m: Machine)
    requires Ready(m) && m.stop.Running? && UrlTailState(m.core.state) && m.nread < MAX_HEADER_SIZE
    ensures Step(m, SP) == Machine(m.core.(state := ReqHttpStart), m.nread + 1, m.trace, Running)
  {
    hide MethodName, NameHeaderState, UrlChar;
  }

  // ----- the version -----

  /** The bytes of the version that only move from state to state. */
  predicate Edge(s: State, ch: byte, t: State)
  {
    || (s.ReqHttpStart? && ch == 72 && t.ReqHttpH?) || (s.ReqHttpH? && ch == 84 && t.ReqHttpHT?)
    || (s.ReqHttpHT? && ch == 84 && t.ReqHttpHTT?) || (s.ReqHttpHTT? && ch == 80 && t.ReqHttpHTTP?)
    || (s.ReqHttpHTTP? && ch == 47 && t.ReqFirstMajor?) || (s.ReqMajor? && ch == 46 && t.ReqFirstMinor?)
    || (s.ReqMinor? && ch == CR && t.ReqLineAlmostDone?) || (s.ReqLineAlmostDone? && ch == LF && t.HeaderFieldStart?)
  }

  lemma EdgeEntry(c: Core, ch: byte, t: State)
    requires Sound(c) && Edge(c.state, ch, t)
    ensures AssertsHold(c) && Act(c, ch) == Go(c, t)
  {
    hide MethodName, NameHeaderState;
  }

  lemma EdgeStep(m: Machine, ch: byte, t: State)
    requires Ready(m) && m.stop.Running? && m.nread < MAX_HEADER_SIZE && Edge(m.core.state, ch, t)
    ensures Step(m, ch) == m.(core := m.core.(state := t), nread := m.nread + 1)
  {
    hide Sound, Act, Step, InField;
    EdgeEntry(m.core, ch, t);
    SilentStep(m, ch, Go(m.core, t));
  }

  lemma MajorStep(m: Machine, d: nat)
    requires Idle(m, ReqFirstMajor) && m.nread < MAX_HEADER_SIZE && 1 <= d <= 9
    ensures Step(m, 48 + d) == m.(core := m.core.(state := ReqMajor, major := d), nread := m.nread + 1)
  {
    hide MethodName, NameHeaderState;
  }

  lemma MinorStep(m: Machine, d: nat)
    requires Idle(m, ReqFirstMinor) && m.nread < MAX_HEADER_SIZE && d <= 9
    ensures Step(m, 48 + d) == m.(core := m.core.(state := ReqMinor, minor := d), nread := m.nread + 1)
  {
    hide MethodName, NameHeaderState;
  }

  const HTTP_SLASH: bytes := [72, 84, 84, 80, 47]

  lemma HttpSlash(m: Machine)
    requires Idle(m, ReqHttpStart) && m.nread + 5 <= MAX_HEADER_SIZE
    ensures Run(m, HTTP_SLASH) == m.(core := m.core.(state := ReqFirstMajor), nread := m.nread + 5)
  {
    hide Run, Step, Ready;
    EdgeStep(m, 72, ReqHttpH);
    var m1 := Step(m, 72);
    EdgeStep(m1, 84, ReqHttpHT);
    var m2 := Step(m1, 84);
    EdgeStep(m2, 84, ReqHttpHTT);
    var m3 := Step(m2, 84);
    EdgeStep(m3, 80, ReqHttpHTTP);
    var m4 := Step(m3, 80);
    EdgeStep(m4, 47, ReqFirstMajor);
    assert HTTP_SLASH == ([72, 84] + [84, 80]) + [47];
    RunMore(m, [72, 84] + [84, 80], 47);
    RunConcat(m, [72, 84], [84, 80]);
    TwoBytes(m, 72, 84);
    TwoBytes(m2, 84, 80);
  }

  function VersionText(major: nat, minor: nat): (t: bytes)
    requires 1 <= major <= 9 && minor <= 9
  {
    HTTP_SLASH + ([48 + major, 46] + [48 + minor, CR] + [LF])
  }

  lemma MajorRead(m: Machine, major: nat)
    requires Idle(m, ReqFirstMajor) && m.nread + 2 <= MAX_HEADER_SIZE && 1 <= major <= 9
    ensures Run(m, [48 + major, 46])
              == m.(core := m.core.(state := ReqFirstMinor, major := major), nread := m.nread + 2)
  {
    hide Run, Step, Ready;
    MajorStep(m, major);
    EdgeStep(Step(m, 48 + major), 46, ReqFirstMinor);
    TwoBytes(m, 48 + major, 46);
  }

  lemma MinorRead(m: Machine, minor: nat)
    requires Idle(m, ReqFirstMinor) && m.nread + 2 <= MAX_HEADER_SIZE && minor <= 9
    ensures Run(m, [48 + minor, CR])
              == m.(core := m.core.(state := ReqLineAlmostDone, minor := minor), nread := m.nread + 2)
  {
    hide Run, Step, Ready;
    MinorStep(m, minor);
    EdgeStep(Step(m, 48 + minor), CR, ReqLineAlmostDone);
    TwoBytes(m, 48 + minor, CR);
  }

  lemma LineDone(m: Machine)
    requires Idle(m, ReqLineAlmostDone) && m.nread < MAX_HEADER_SIZE
    ensures Step(m, LF) == m.(core := m.core.(state := HeaderFieldStart), nread := m.nread + 1)
  {
    hide Step, Ready;
    EdgeStep(m, LF, HeaderFieldStart);
  }

  lemma VersionRead(m: Machine, major: nat, minor: nat)
    requires Idle(m, ReqHttpStart) && m.nread + 10 <= MAX_HEADER_SIZE && 1 <= major <= 9 && minor <= 9
    ensures Run(m, VersionText(major, minor))
            == m.(core := m.core.(state := HeaderFieldStart, major := major, minor := minor), nread := m.nread + 10)
  {
    hide Run, Step, Ready, HTTP_SLASH, Edge;
    var x: bytes, y: bytes := [48 + major, 46], [48 + minor, CR];
    HttpSlash(m);
    RunConcat(m, HTTP_SLASH, x + y + [LF]);
    var a := Run(m, HTTP_SLASH);
    MajorRead(a, major);
    MinorRead(Run(a, x), minor);
    RunConcat(a, x, y);
    RunMore(a, x + y, LF);
    LineDone(Run(a, x + y));
  }

  // ----- the head -----

  datatype Request = Request(verb: Method, url: bytes, major: nat, minor: nat, lines: seq<Line>)

  predicate IsRequest(q: Request)
  {
    IsUrl(q.verb, q.url) && 1 <= q.major <= 9 && q.minor <= 9 && IsHeaderBlock(q.lines)
  }

  function RequestLine(q: Request): (t: bytes)
    requires 1 <= q.major <= 9 && q.minor <= 9
    ensures |t| == |MethodName(q.verb)| + |q.url| + 12
  {
    (MethodName(q.verb) + [SP]) + (q.url + ([SP] + VersionText(q.major, q.minor)))
  }

  function HeadText(q: Request): bytes
    requires 1 <= q.major <= 9 && q.minor <= 9
  {
    RequestLine(q) + (BlockText(q.lines) + CRLF)
  }

  /** The machine after a request line. */
  function Lined(m: Machine, q: Request): Machine
    requires 1 <= q.major <= 9 && q.minor <= 9
  {
    Machine(m.core.(flags := NO_FLAGS, clen := ULLONG_MAX, verb := q.verb, index := |MethodName(q.verb)| + 1,
                    major := q.major, minor := q.minor, state := HeaderFieldStart),
            m.nread + |RequestLine(q)|, Push(Push(m.trace, Notify(MessageBegin)), Data(Url, q.url)), Running)
  }

  lemma MethodRead(m: Machine, v: Method)
    requires Idle(m, StartReq) && m.nread + |MethodName(v)| < MAX_HEADER_SIZE
    ensures Run(m, MethodName(v) + [SP]) ==
            Machine(m.core.(flags := NO_FLAGS, clen := ULLONG_MAX, verb := v, index := |MethodName(v)| + 1,
                state := ReqSpacesBeforeUrl),
                    m.nread + |MethodName(v)| + 1, Push(m.trace, Notify(MessageBegin)), Running)
  {
    hide Run, Ready, MethodName, Push;
    NamesAreUpperCase(v);
    MethodAccepted(m, MethodName(v));
    var r := Run(m, MethodName(v) + [SP]);
    MethodsSpelled(MethodName(v), v);
    MethodsSpelled(MethodName(v), r.core.verb);
  }

  lemma RequestLineRead(m: Machine, q: Request)
    requires Idle(m, StartReq) && IsRequest(q) && m.nread + |RequestLine(q)| <= MAX_HEADER_SIZE
    ensures Run(m, RequestLine(q)) == Lined(m, q)
  {
    hide Run, Step, Ready, MethodName, Push, VersionText, IsHeaderBlock, Walk, UrlTailState, UrlHeadState, UrlStart;
    var a, tail := MethodName(q.verb) + [SP], [SP] + VersionText(q.major, q.minor);
    MethodRead(m, q.verb);
    RunConcat(m, a, q.url + tail);
    var m1 := Run(m, a);
    assert !Walk(UrlStart(q.verb), q.url).Dead? by { TailIsAlive(Walk(UrlStart(q.verb), q.url)); }
    UrlRead(m1, q.url);
    RunConcat(m1, q.url, tail);
    var m2 := Run(m1, q.url);
    UrlEnds(m2);
    HeadRun(m2, tail);
    assert tail[1..] == VersionText(q.major, q.minor);
    VersionRead(Step(m2, SP), q.major, q.minor);
  }

  lemma TailIsAlive(s: State)
    requires UrlTailState(s)
    ensures !s.Dead?
  {}

  /** The struct after the header lines, up to the matcher fields. */
  ghost predicate Headed(m: Machine, q: Request, r: Machine)
    requires 1 <= q.major <= 9 && q.minor <= 9
  {
    !BadBlock(q.lines) && BlockRead(Lined(m, q), q.lines, r)
  }

  /** The head of a request: each line of it is read for what it says, and the framing follows, or the
      parser leaves the connection to another protocol. */
  lemma HeadRead(m: Machine, q: Request) returns (r: Machine)
    requires Idle(m, StartReq) && IsRequest(q) && m.nread + |HeadText(q)| <= MAX_HEADER_SIZE && !BadBlock(q.lines)
    ensures Headed(m, q, r) && Run(m, HeadText(q)) == if Upgrades(r.core) then Switched(r) else Framed(r)
  {
    hide Run, Step, Ready, Push, PushAll, RequestLine, BadBlock, Framed, IsHeaderBlock, IsUrl, BlockText;
    hide BlockEvents, MethodName;
    var t := BlockText(q.lines);
    RequestLineRead(m, q);
    RunConcat(m, RequestLine(q), t + CRLF);
    var l := Lined(m, q);
    HeaderBlock(l, q.lines);
    RunConcat(l, t, CRLF);
    r := Run(l, t);
    BlockKeeps(l, q.lines, r);
    EmptyLine(r);
  }

  /** What no header line changes. */
  lemma {:induction false} CoreKeeps(c: Core, lines: seq<Line>)
    requires !BadBlock(lines)
    ensures var d := BlockCore(c, lines);
            && d.verb == c.verb && d.upgrade == c.upgrade && d.flags.trailing == c.flags.trailing
            && d.ptype == c.ptype && d.major == c.major && d.minor == c.minor
            && d.state == if lines == [] then c.state else HeaderValueLws
    decreases |lines|
  {
    hide BadLine, RoleOf, LineLength;
    if lines != [] { CoreKeeps(c, lines[..|lines| - 1]); }
  }

  lemma BlockKeeps(l: Machine, lines: seq<Line>, r: Machine)
    requires !BadBlock(lines) && BlockRead(l, lines, r)
    ensures r.stop.Running? && r.nread == l.nread + |BlockText(lines)| && r.core.verb == l.core.verb
    ensures r.core.upgrade == l.core.upgrade && r.core.flags.trailing == l.core.flags.trailing
    ensures r.core.state == if lines == [] then l.core.state else HeaderValueLws
    ensures r.core == BlockCore(l.core, lines).(index := r.core.index, hstate := r.core.hstate)
    ensures r.trace == PushAll(l.trace, BlockEvents(lines))
  {
    hide BadBlock, BlockText, BlockEvents, PushAll;
    CoreKeeps(l.core, lines);
  }

  // ----- the whole request -----

  /** The body as it is written, given the framing the head asks for. */
  predicate WrittenAs(f: Framing, body: bytes, text: bytes, cs: seq<bytes>)
  {
    match f
    case NoBody => body == [] && text == []
    case ByLength(n) => |body| == n && text == body
    case ByChunks => Sendable(cs) && body == Flatten(cs) && text == Chunks(cs) + LAST_CHUNK
    case UntilEof => false
  }

  function RequestEvents(q: Request, body: bytes): seq<Event>
  {
    [Notify(MessageBegin), Data(Url, q.url)] + BlockEvents(q.lines) + [Notify(HeadersComplete)]
    + (if body == [] then [] else [Data(Body, body)]) + [Notify(MessageComplete)]
  }

  /** The end of a message whose head ended in r. */
  ghost predicate Ended(r: Machine, body: bytes, e: Machine)
  {
    && e.stop.Running? && e.core.state == NewMessage(r.core) && ShouldKeepAlive(e.core) == ShouldKeepAlive(r.core)
    && e.trace == Push(PushBody(Push(r.trace, Notify(HeadersComplete)), body), Notify(MessageComplete))
  }

  lemma LengthBodyRead(r: Machine, body: bytes)
    requires Ready(Framed(r)) && r.stop.Running? && FramingOf(r.core) == ByLength(|body|)
    ensures Ended(r, body, Run(Framed(r), body))
  {
    hide Run, Ready, Push, ShouldKeepAlive;
    var f := Framed(r);
    IdentityBody(f, body);
    SameEnd(r.core, f.core.(clen := 0));
  }

  lemma ChunkedBodyRead(r: Machine, cs: seq<bytes>)
    requires Ready(Framed(r)) && r.stop.Running? && FramingOf(r.core).ByChunks? && Sendable(cs)
    requires !r.core.flags.upgrade && r.core.verb != CONNECT
    ensures Ended(r, Flatten(cs), Run(Framed(r), Chunks(cs) + LAST_CHUNK))
  {
    hide Run, Ready, Push, Chunks, ShouldKeepAlive, NeedsEof, Flatten, Sendable, Received, Framed;
    var f, b := Framed(r), Flatten(cs);
    assert Chunks(cs) + LAST_CHUNK == Chunks(cs) + LAST_CHUNK + [];
    FramedChunks(r, b);
    StreamParsed(f, cs, []);
    EmptyRun(Received(f, b), []);
  }

  lemma FramedChunks(r: Machine, b: bytes)
    requires r.stop.Running? && FramingOf(r.core).ByChunks?
    ensures var f := Framed(r);
            && f.stop.Running? && f.core.state.ChunkSizeStart? && f.core.verb == r.core.verb && !f.core.upgrade
            && f.core.flags == r.core.flags && Ended(r, b, Received(f, b))
  {
    hide Push, ShouldKeepAlive, NeedsEof;
    var f := Framed(r);
    SameEnd(r.core, Sized(AfterChunks(f, b), 0).core);
  }

  lemma BodyRead(r: Machine, body: bytes, text: bytes, cs: seq<bytes>)
    requires Ready(Framed(r)) && r.stop.Running? && WrittenAs(FramingOf(r.core), body, text, cs)
    requires !r.core.flags.upgrade && r.core.verb != CONNECT
    ensures Ended(r, body, Run(Framed(r), text))
  {
    hide Run, Ready, Push, Chunks, NewMessage, FramingOf, Flatten, Sendable, ShouldKeepAlive;
    match FramingOf(r.core)
    case NoBody =>
      EmptyRun(Framed(r), text);
      SameEnd(r.core, r.core.(upgrade := false));
    case ByLength(_) => LengthBodyRead(r, body);
    case ByChunks => ChunkedBodyRead(r, cs);
  }

  /** Whether the connection stays open does not depend on how far the body has been read. */
  lemma SameEnd(c: Core, d: Core)
    requires d.ptype == c.ptype && d.status == c.status && d.major == c.major && d.minor == c.minor
    requires d.flags == c.flags || d.flags == c.flags.(trailing := true)
    requires c.flags.chunked || d.clen == c.clen || (c.clen != ULLONG_MAX && d.clen != ULLONG_MAX)
    ensures NewMessage(d) == NewMessage(c)
    ensures forall s: State :: ShouldKeepAlive(d.(state := s)) == ShouldKeepAlive(c)
  {}

  lemma TraceOfRequest(trace: seq<Event>, q: Request, body: bytes)
    ensures PushAll(trace, RequestEvents(q, body))
            == var head := PushAll(Push(Push(trace, Notify(MessageBegin)), Data(Url, q.url)), BlockEvents(q.lines));
               Push(PushBody(Push(head, Notify(HeadersComplete)), body), Notify(MessageComplete))
  {
    hide Push, PushAll, BlockEvents;
    var head := [Notify(MessageBegin), Data(Url, q.url)];
    var b := if body == [] then [] else [Data(Body, body)];
    var es := head + BlockEvents(q.lines) + [Notify(HeadersComplete)];
    PushTwo(trace, head[0], head[1]);
    PushAllConcat(trace, head, BlockEvents(q.lines));
    PushAllConcat(trace, head + BlockEvents(q.lines), [Notify(HeadersComplete)]);
    PushAllConcat(trace, es, b);
    PushAllConcat(trace, es + b, [Notify(MessageComplete)]);
    PushAllOne(PushAll(trace, head + BlockEvents(q.lines)), Notify(HeadersComplete));
    PushAllOne(PushAll(trace, es + b), Notify(MessageComplete));
    if body == [] { PushAllNone(PushAll(trace, es)); } else { PushAllOne(PushAll(trace, es), Data(Body, body)); }
  }

  /** Any request written out with the framing its own header lines ask for is read back: the trace is
      its URL, its header lines in order and its body, and the parser stands before the next message. */
  lemma RequestRead(m: Machine, q: Request, body: bytes, text: bytes, cs: seq<bytes>)
    requires Idle(m, StartReq) && IsRequest(q) && m.nread + |HeadText(q)| <= MAX_HEADER_SIZE
    requires q.verb != CONNECT && !m.core.upgrade
    requires !BadBlock(q.lines) && !BlockCore(Lined(m, q).core, q.lines).flags.upgrade
    requires WrittenAs(FramingOf(BlockCore(Lined(m, q).core, q.lines)), body, text, cs)
    ensures var r := Run(m, HeadText(q) + text);
            && r.stop.Running? && r.trace == PushAll(m.trace, RequestEvents(q, body))
            && r.core.state == (if !AsksToStay(q.major, q.minor, q.lines) then Dead
                                else if m.core.ptype.Request? then StartReq else StartRes)
            && (ShouldKeepAlive(r.core) <==> AsksToStay(q.major, q.minor, q.lines))
  {
    hide Run, Ready, Push, PushAll, RequestEvents, IsUrl, IsHeaderBlock, HeadText, Framed, BlockEvents, BlockCore;
    hide WrittenAs, FramingOf, RequestLine, BadBlock, ShouldKeepAlive, AsksToStay;
    var r := HeadRead(m, q);
    RunConcat(m, HeadText(q), text);
    var l := Lined(m, q);
    BlockKeeps(l, q.lines, r);
    MatcherIgnored(BlockCore(l.core, q.lines), r.core.index, r.core.hstate);
    BodyRead(r, body, text, cs);
    TraceOfRequest(m.trace, q, body);
    KeptAlive(l.core, q.lines);
    CoreKeeps(l.core, q.lines);
    NotUntilEof(FramingOf(r.core), body, text, cs);
  }

  lemma NotUntilEof(f: Framing, body: bytes, text: bytes, cs: seq<bytes>)
    requires WrittenAs(f, body, text, cs)
    ensures !f.UntilEof?
  {
    hide Sendable, Flatten, Chunks;
  }

  /** A CONNECT request, or one that asks for an upgrade, and anything behind it: the parser reports the
      head and the end of the message, takes exactly the head and leaves the rest alone. */
  lemma UpgradeRead(m: Machine, q: Request, rest: bytes)
    requires Idle(m, StartReq) && IsRequest(q) && m.nread + |HeadText(q)| <= MAX_HEADER_SIZE && !BadBlock(q.lines)
    requires Upgrades(BlockCore(Lined(m, q).core, q.lines))
    ensures var r := Run(m, HeadText(q) + rest);
            && r.stop.Upgraded? && r.core.upgrade && r.trace == PushAll(m.trace, RequestEvents(q, []))
            && Taken(m, HeadText(q) + rest) == |HeadText(q)|
  {
    hide Run, Ready, Push, PushAll, RequestEvents, IsUrl, IsHeaderBlock, BlockText, BlockEvents, BlockCore;
    hide NewMessage, RequestLine, BadBlock, Taken;
    var t, l := BlockText(q.lines), Lined(m, q);
    RequestLineRead(m, q);
    HeaderBlock(l, q.lines);
    var r := Run(l, t);
    BlockKeeps(l, q.lines, r);
    EmptyLine(r);
    EmptyLineTaken(r);
    RunConcat(m, RequestLine(q), t + CRLF);
    RunConcat(l, t, CRLF);
    RunConcat(m, HeadText(q), rest);
    StoppedStays(Switched(r), rest);
    TraceOfRequest(m.trace, q, []);
  }

  /** Framing does not look at the matcher's fields. */
  lemma MatcherIgnored(c: Core, i: nat, h: HeaderState)
    ensures FramingOf(c.(index := i, hstate := h)) == FramingOf(c)
    ensures NewMessage(c.(index := i, hstate := h)) == NewMessage(c)
    ensures ShouldKeepAlive(c.(index := i, hstate := h)) == ShouldKeepAlive(c)
  {}
}
