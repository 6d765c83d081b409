/** Whole responses: a response written out is read back as its version, status, reason, header lines and
    body, also where only the end of the connection ends it. */
module HttpResponses {
  import opened Ascii
  import opened HttpTypes
  import opened HttpAutomaton
  import opened HttpRun
  import opened HttpExecute
  import opened HttpWords
  import opened HttpLengths
  import opened HttpHeaders
  import opened HttpBody
  import opened HttpKeepAlive
  import opened HttpChunks
  import opened HttpMethods
  import opened HttpRequests
  import opened ChunkWriter

  datatype Response = Response(major: nat, minor: nat, code: bytes, reason: Option<bytes>, lines: seq<Line>)

  predicate AllDecimal(code: bytes) { forall i :: 0 <= i < |code| ==> IsNum(code[i]) }

  /** The number a status code spells. */
  function CodeOf(code: bytes): nat
    requires AllDecimal(code)
  {
    Number(Digits(code), 10)
  }

  predicate IsResponse(q: Response)
  {
    && q.major <= 9 && q.minor <= 9 && IsHeaderBlock(q.lines)
    && q.code != [] && AllDecimal(q.code) && CodeOf(q.code) <= 999
    && (q.reason.Some? ==> OneLine(q.reason.value))
  }

  // ----- the status line -----

  const TTP_SLASH: bytes := [84, 84, 80, 47]

  function VersionDigits(q: Response): bytes
    requires q.major <= 9 && q.minor <= 9
  {
    [48 + q.major, 46] + [48 + q.minor, SP]
  }

  function VersionPart(q: Response): bytes
    requires q.major <= 9 && q.minor <= 9
  {
    [72] + TTP_SLASH + VersionDigits(q)
  }

  function ReasonPart(q: Response): bytes { if q.reason.Some? then [SP] + q.reason.value else [] }

  function StatusLine(q: Response): bytes
    requires q.major <= 9 && q.minor <= 9
  {
    VersionPart(q) + q.code + ReasonPart(q) + [CR, LF]
  }

  /** The bytes of a status line that only move from state to state. */
  predicate StatusEdge(s: State, ch: byte, t: State)
  {
    || (s.ResH? && ch == 84 && t.ResHT?) || (s.ResHT? && ch == 84 && t.ResHTT?)
    || (s.ResHTT? && ch == 80 && t.ResHTTP?) || (s.ResHTTP? && ch == 47 && t.ResFirstMajor?)
    || (s.ResMajor? && ch == 46 && t.ResFirstMinor?) || (s.ResMinor? && ch == SP && t.ResFirstStatusCode?)
    || (s.ResStatusCode? && ch == SP && t.ResStatusStart?) || (s.ResStatusCode? && ch == CR && t.ResLineAlmostDone?)
    || (s.ResStatusStart? && ch == CR && t.ResLineAlmostDone?)
    || (s.ResLineAlmostDone? && ch == LF && t.HeaderFieldStart?)
  }

  lemma StatusEdgeEntry(c: Core, ch: byte, t: State)
    requires Sound(c) && StatusEdge(c.state, ch, t)
    ensures AssertsHold(c) && Act(c, ch) == Go(c, t)
  {
    hide MethodName, NameHeaderState;
  }

  lemma StatusEdgeStep(m: Machine, ch: byte, t: State)
    requires Ready(m) && m.stop.Running? && m.nread < MAX_HEADER_SIZE && StatusEdge(m.core.state, ch, t)
    ensures Step(m, ch) == m.(core := m.core.(state := t), nread := m.nread + 1)
  {
    hide Sound, Act, Step, InField;
    StatusEdgeEntry(m.core, ch, t);
    SilentStep(m, ch, Go(m.core, t));
  }

  lemma ResponseBegins(m: Machine)
    requires Idle(m, StartRes) && m.nread < MAX_HEADER_SIZE
    ensures Step(m, 72) == Machine(m.core.(flags := NO_FLAGS, clen := ULLONG_MAX, state := ResH), m.nread + 1,
                                   Push(m.trace, Notify(MessageBegin)), Running)
  {
    hide MethodName, NameHeaderState, Push;
  }

  lemma TtpSlash(m: Machine)
    requires Idle(m, ResH) && m.nread + 4 <= MAX_HEADER_SIZE
    ensures Run(m, TTP_SLASH) == m.(core := m.core.(state := ResFirstMajor), nread := m.nread + 4)
  {
    hide Run, Step, Ready;
    StatusEdgeStep(m, 84, ResHT);
    var m1 := Step(m, 84);
    StatusEdgeStep(m1, 84, ResHTT);
    var m2 := Step(m1, 84);
    StatusEdgeStep(m2, 80, ResHTTP);
    var m3 := Step(m2, 80);
    StatusEdgeStep(m3, 47, ResFirstMajor);
    assert TTP_SLASH == [84, 84] + [80, 47];
    RunConcat(m, [84, 84], [80, 47]);
    TwoBytes(m, 84, 84);
    TwoBytes(m2, 80, 47);
  }

  lemma DigitEntry(c: Core, d: nat)
    requires Sound(c) && d <= 9 && (c.state.ResFirstMajor? || c.state.ResFirstMinor? || c.state.ResFirstStatusCode?)
    ensures AssertsHold(c)
    ensures Act(c, 48 + d) == match c.state
                              case ResFirstMajor => Go(c.(major := d), ResMajor)
                              case ResFirstMinor => Go(c.(minor := d), ResMinor)
                              case _ => Go(c.(status := d), ResStatusCode)
  {
    hide MethodName, NameHeaderState;
  }

  lemma NumbersRead(m: Machine, q: Response)
    requires Idle(m, ResFirstMajor) && m.nread + 4 <= MAX_HEADER_SIZE && q.major <= 9 && q.minor <= 9
    ensures Run(m, VersionDigits(q))
            == m.(core := m.core.(state := ResFirstStatusCode, major := q.major, minor := q.minor),
                  nread := m.nread + 4)
  {
    hide Run, Step, Ready, Act, Sound;
    var x: bytes, y: bytes := [48 + q.major, 46], [48 + q.minor, SP];
    MajorDigit(m, q.major);
    var m1 := Step(m, 48 + q.major);
    StatusEdgeStep(m1, 46, ResFirstMinor);
    var m2 := Step(m1, 46);
    MinorDigit(m2, q.minor);
    var m3 := Step(m2, 48 + q.minor);
    StatusEdgeStep(m3, SP, ResFirstStatusCode);
    TwoBytes(m, 48 + q.major, 46);
    TwoBytes(m2, 48 + q.minor, SP);
    RunConcat(m, x, y);
  }

  lemma MajorDigit(m: Machine, d: nat)
    requires Idle(m, ResFirstMajor) && m.nread < MAX_HEADER_SIZE && d <= 9
    ensures Step(m, 48 + d) == m.(core := m.core.(state := ResMajor, major := d), nread := m.nread + 1)
  {
    hide Sound, Act, Step, InField;
    DigitEntry(m.core, d);
    SilentStep(m, 48 + d, Go(m.core.(major := d), ResMajor));
  }

  lemma MinorDigit(m: Machine, d: nat)
    requires Idle(m, ResFirstMinor) && m.nread < MAX_HEADER_SIZE && d <= 9
    ensures Step(m, 48 + d) == m.(core := m.core.(state := ResMinor, minor := d), nread := m.nread + 1)
  {
    hide Sound, Act, Step, InField;
    DigitEntry(m.core, d);
    SilentStep(m, 48 + d, Go(m.core.(minor := d), ResMinor));
  }

  lemma StatusDigit(m: Machine, d: nat)
    requires Idle(m, ResFirstStatusCode) && m.nread < MAX_HEADER_SIZE && d <= 9
    ensures Step(m, 48 + d) == m.(core := m.core.(state := ResStatusCode, status := d), nread := m.nread + 1)
  {
    hide Sound, Act, Step, InField;
    DigitEntry(m.core, d);
    SilentStep(m, 48 + d, Go(m.core.(status := d), ResStatusCode));
  }

  lemma MoreEntry(c: Core, d: nat)
    requires Sound(c) && d <= 9 && c.state.ResStatusCode?
    ensures AssertsHold(c)
    ensures c.status * 10 + d <= 999 ==> Act(c, 48 + d) == Stay(c.(status := c.status * 10 + d))
    ensures c.status * 10 + d > 999 ==> Act(c, 48 + d).ctl == Fail(HPE_INVALID_STATUS)
  {
    hide MethodName, NameHeaderState;
  }

  lemma MoreDigits(m: Machine, d: nat)
    requires Idle(m, ResStatusCode) && m.nread < MAX_HEADER_SIZE && d <= 9
    ensures var n := m.core.status * 10 + d;
            if n <= 999 then Step(m, 48 + d) == m.(core := m.core.(status := n), nread := m.nread + 1)
            else Step(m, 48 + d).stop == Failed(HPE_INVALID_STATUS)
  {
    hide Sound, Act, Step, InField;
    MoreEntry(m.core, d);
    OneEntry(m, 48 + d);
  }

  lemma CodeMore(init: bytes, ch: byte)
    requires AllDecimal(init + [ch])
    ensures AllDecimal(init) && IsNum(ch) && CodeOf(init + [ch]) == CodeOf(init) * 10 + (ch - 48)
    ensures init == [] ==> CodeOf(init) == 0
  {
    var code := init + [ch];
    assert code[..|init|] == init && code[|init|] == ch;
    assert forall i :: 0 <= i < |init| ==> init[i] == code[i];
    assert Digits(code) == Digits(init) + [Decimal(ch)];
    NumberMore(Digits(init), Decimal(ch), 10);
  }

  /** The status code is the decimal number of its digits, or fails if that is above 999. */
  lemma {:induction false} CodeRead(m: Machine, code: bytes)
    requires Idle(m, ResFirstStatusCode) && code != [] && AllDecimal(code) && m.nread + |code| <= MAX_HEADER_SIZE
    ensures var r := Run(m, code);
            if CodeOf(code) <= 999
            then r == m.(core := m.core.(state := ResStatusCode, status := CodeOf(code)), nread := m.nread + |code|)
            else r.stop == Failed(HPE_INVALID_STATUS)
    decreases |code|
  {
    hide Run, Step, Ready, CodeOf;
    var init, ch := code[..|code| - 1], code[|code| - 1];
    assert code == init + [ch];
    CodeMore(init, ch);
    RunMore(m, init, ch);
    assert ch == 48 + (ch - 48);
    if init == [] {
      EmptyRun(m, init);
      StatusDigit(m, ch - 48);
    } else {
      CodeRead(m, init);
      if CodeOf(init) <= 999 {
        MoreDigits(Run(m, init), ch - 48);
      } else {
        StepStopped(Run(m, init), ch);
      }
    }
  }

  lemma ReasonEntry(c: Core, ch: byte)
    requires Sound(c) && ch != CR && ch != LF && (c.state.ResStatusStart? || c.state.ResStatus?)
    ensures AssertsHold(c)
    ensures c.state.ResStatusStart? ==> Act(c, ch) == MarkAt(c.(state := ResStatus, index := 0), Status)
    ensures c.state.ResStatus? ==> Act(c, ch) == Stay(c)
  {
    hide MethodName, NameHeaderState;
  }

  lemma ReasonByte(m: Machine, ch: byte)
    requires Ready(m) && m.stop.Running? && (m.core.state.ResStatusStart? || m.core.state.ResStatus?)
    requires m.nread < MAX_HEADER_SIZE && ch != CR && ch != LF
    ensures Step(m, ch) == Machine(if m.core.state.ResStatus? then m.core else m.core.(state := ResStatus, index := 0),
                                   m.nread + 1, Push(m.trace, Data(Status, [ch])), Running)
  {
    hide Sound, Act, Step, Push, InField;
    ReasonEntry(m.core, ch);
    OneEntry(m, ch);
  }

  lemma {:induction false} ReasonRead(m: Machine, t: bytes)
    requires Idle(m, ResStatusStart) && t != [] && OneLine(t) && m.nread + |t| <= MAX_HEADER_SIZE
    ensures Run(m, t) == Machine(m.core.(state := ResStatus, index := 0), m.nread + |t|,
                                 Push(m.trace, Data(Status, t)), Running)
    decreases |t|
  {
    hide Run, Step, Ready, Push;
    var init, ch := t[..|t| - 1], t[|t| - 1];
    assert t == init + [ch];
    RunMore(m, init, ch);
    if init == [] {
      EmptyRun(m, init);
      ReasonByte(m, ch);
      assert t == [ch];
    } else {
      ReasonRead(m, init);
      ReasonByte(Run(m, init), ch);
      PushFragments(m.trace, Status, init, [ch]);
    }
  }

  lemma ReasonEndEntry(c: Core)
    requires Sound(c) && c.state.ResStatus?
    ensures AssertsHold(c) && Act(c, CR) == Emit(c.(state := ResLineAlmostDone), Status)
  {
    hide MethodName, NameHeaderState;
  }

  lemma ReasonEnds(m: Machine)
    requires Ready(m) && m.stop.Running? && m.core.state.ResStatus? && m.nread < MAX_HEADER_SIZE
    ensures Step(m, CR) == Machine(m.core.(state := ResLineAlmostDone), m.nread + 1, m.trace, Running)
  {
    hide Sound, Act, Step, Push, InField;
    ReasonEndEntry(m.core);
    OneEntry(m, CR);
  }

  lemma ProtocolRead(m: Machine)
    requires Idle(m, StartRes) && m.nread + 5 <= MAX_HEADER_SIZE
    ensures Run(m, [72] + TTP_SLASH)
            == Machine(m.core.(flags := NO_FLAGS, clen := ULLONG_MAX, state := ResFirstMajor), m.nread + 5,
                       Push(m.trace, Notify(MessageBegin)), Running)
  {
    hide Run, Step, Ready, Push, TTP_SLASH;
    ResponseBegins(m);
    EmptyRun(m, []);
    RunMore(m, [], 72);
    assert [] + [72] == [72];
    TtpSlash(Run(m, [72]));
    RunConcat(m, [72], TTP_SLASH);
  }

  /** The machine after the version. */
  function Versioned(m: Machine, q: Response): Machine
  {
    Machine(m.core.(flags := NO_FLAGS, clen := ULLONG_MAX, major := q.major, minor := q.minor,
                    state := ResFirstStatusCode),
            m.nread + 9, Push(m.trace, Notify(MessageBegin)), Running)
  }

  lemma ResponseVersion(m: Machine, q: Response)
    requires Idle(m, StartRes) && m.nread + 9 <= MAX_HEADER_SIZE && q.major <= 9 && q.minor <= 9
    ensures Run(m, VersionPart(q)) == Versioned(m, q)
  {
    hide Run, Ready, Push, TTP_SLASH, VersionDigits;
    ProtocolRead(m);
    NumbersRead(Run(m, [72] + TTP_SLASH), q);
    RunConcat(m, [72] + TTP_SLASH, VersionDigits(q));
  }

  lemma VersionPartLength(q: Response)
    requires q.major <= 9 && q.minor <= 9
    ensures |VersionPart(q)| == 9
  {}

  function PushReason(trace: seq<Event>, q: Response): seq<Event>
  {
    if OrEmpty(q.reason) == [] then trace else Push(trace, Data(Status, q.reason.value))
  }

  function OrEmpty(t: Option<bytes>): bytes { if t.Some? then t.value else [] }

  /** The reason and the end of the line. */
  lemma ReasonPartRead(m: Machine, q: Response)
    requires Idle(m, ResStatusCode) && (q.reason.Some? ==> OneLine(q.reason.value))
    requires m.nread + |ReasonPart(q)| + 2 <= MAX_HEADER_SIZE
    ensures var r := Run(m, ReasonPart(q) + [CR, LF]);
            r == Machine(m.core.(state := HeaderFieldStart, index := r.core.index), m.nread + |ReasonPart(q)| + 2,
                         PushReason(m.trace, q), Running)
  {
    hide Run, Step, Ready, Push;
    var z := m;
    if q.reason.None? {
      assert ReasonPart(q) + [CR, LF] == [CR, LF];
      StatusEdgeStep(m, CR, ResLineAlmostDone);
    } else {
      var t := q.reason.value;
      StatusEdgeStep(m, SP, ResStatusStart);
      EmptyRun(m, []);
      RunMore(m, [], SP);
      assert [] + [SP] == [SP];
      var s := Run(m, [SP]);
      RunConcat(m, [SP], t);
      RunConcat(m, ReasonPart(q), [CR, LF]);
      if t == [] {
        EmptyRun(s, t);
        StatusEdgeStep(s, CR, ResLineAlmostDone);
      } else {
        ReasonRead(s, t);
        ReasonEnds(Run(s, t));
      }
      z := Run(m, ReasonPart(q));
    }
    TwoBytes(z, CR, LF);
    StatusEdgeStep(Step(z, CR), LF, HeaderFieldStart);
  }

  /** The machine after a status line. */
  predicate StatusRead(m: Machine, q: Response, r: Machine)
    requires IsResponse(q)
  {
    r == Machine(m.core.(flags := NO_FLAGS, clen := ULLONG_MAX, major := q.major, minor := q.minor,
                         status := CodeOf(q.code), index := r.core.index, state := HeaderFieldStart),
                 m.nread + |StatusLine(q)|, PushReason(Push(m.trace, Notify(MessageBegin)), q), Running)
  }

  lemma StatusLineRead(m: Machine, q: Response)
    requires Idle(m, StartRes) && IsResponse(q) && m.nread + |StatusLine(q)| <= MAX_HEADER_SIZE
    ensures StatusRead(m, q, Run(m, StatusLine(q)))
  {
    hide Run, Ready, Push, CodeOf, OneLine, IsHeaderBlock, PushReason, VersionPart, ReasonPart, AllDecimal;
    var v, tail := VersionPart(q), ReasonPart(q) + [CR, LF];
    VersionPartLength(q);
    assert StatusLine(q) == v + q.code + tail;
    CodeLineRead(m, q);
    RunConcat(m, v + q.code, tail);
    ReasonPartRead(Run(m, v + q.code), q);
  }

  lemma CodeLineRead(m: Machine, q: Response)
    requires Idle(m, StartRes) && IsResponse(q) && m.nread + 9 + |q.code| <= MAX_HEADER_SIZE
    ensures Run(m, VersionPart(q) + q.code)
            == Machine(m.core.(flags := NO_FLAGS, clen := ULLONG_MAX, major := q.major, minor := q.minor,
                               status := CodeOf(q.code), state := ResStatusCode),
                       m.nread + 9 + |q.code|, Push(m.trace, Notify(MessageBegin)), Running)
  {
    hide Run, Ready, Push, CodeOf, OneLine, IsHeaderBlock, VersionPart;
    ResponseVersion(m, q);
    CodeRead(Run(m, VersionPart(q)), q.code);
    RunConcat(m, VersionPart(q), q.code);
  }

  // ----- the whole -----

  function ResponseHead(q: Response): bytes
    requires q.major <= 9 && q.minor <= 9
  {
    StatusLine(q) + BlockText(q.lines) + CRLF
  }

  /** The struct that status line and header lines leave, but for the matcher's fields. */
  function HeadCore(m: Machine, q: Response): Core
    requires IsResponse(q) && !BadBlock(q.lines)
  {
    BlockCore(m.core.(flags := NO_FLAGS, clen := ULLONG_MAX, major := q.major, minor := q.minor,
                      status := CodeOf(q.code), state := HeaderFieldStart), q.lines)
  }

  lemma {:induction false} IndexIgnored(c: Core, i: nat, lines: seq<Line>)
    requires !BadBlock(lines)
    ensures BlockCore(c.(index := i), lines) == BlockCore(c, lines).(index := i)
    decreases |lines|
  {
    hide BadLine, LineFlags, LineLength, RoleOf, BadBlock;
    if lines != [] {
      SplitBlock(lines);
      IndexIgnored(c, i, lines[..|lines| - 1]);
    }
  }

  /** The head of a response, up to its empty line. */
  lemma LinesRead(m: Machine, q: Response) returns (r: Machine)
    requires Idle(m, StartRes) && IsResponse(q) && m.nread + |ResponseHead(q)| <= MAX_HEADER_SIZE
    requires !BadBlock(q.lines)
    ensures Ready(r) && r.stop.Running? && r.nread + 2 == m.nread + |ResponseHead(q)|
    ensures r.core == HeadCore(m, q).(index := r.core.index, hstate := r.core.hstate)
    ensures r.core.state.HeaderFieldStart? || r.core.state.HeaderValueLws?
    ensures r.trace == PushAll(PushReason(Push(m.trace, Notify(MessageBegin)), q), BlockEvents(q.lines))
    ensures !r.core.flags.trailing && Run(m, ResponseHead(q)) == Run(r, CRLF)
  {
    hide Run, Ready, Push, PushAll, CodeOf, OneLine, IsHeaderBlock, PushReason, BlockText, BlockEvents, BadBlock;
    hide StatusLine, BlockCore;
    var line, t := StatusLine(q), BlockText(q.lines);
    StatusLineRead(m, q);
    var l := Run(m, line);
    HeaderBlock(l, q.lines);
    RunConcat(m, line, t);
    r := Run(l, t);
    BlockKeeps(l, q.lines, r);
    IndexIgnored(l.core.(index := m.core.index), l.core.index, q.lines);
    RunConcat(m, line + t, CRLF);
  }

  function ResponseEvents(q: Response, body: bytes): seq<Event>
  {
    [Notify(MessageBegin)] + (if OrEmpty(q.reason) == [] then [] else [Data(Status, q.reason.value)])
    + BlockEvents(q.lines) + [Notify(HeadersComplete)]
    + (if body == [] then [] else [Data(Body, body)]) + [Notify(MessageComplete)]
  }

  lemma PushAllLast(trace: seq<Event>, es: seq<Event>, e: Event)
    ensures PushAll(trace, es + [e]) == Push(PushAll(trace, es), e)
  {
    hide Push, PushAll;
    PushAllConcat(trace, es, [e]);
    PushAllOne(PushAll(trace, es), e);
  }

  lemma TraceOfResponse(trace: seq<Event>, q: Response, body: bytes)
    ensures PushAll(trace, ResponseEvents(q, body))
            == var head := PushAll(PushReason(Push(trace, Notify(MessageBegin)), q), BlockEvents(q.lines));
               Push(PushBody(Push(head, Notify(HeadersComplete)), body), Notify(MessageComplete))
  {
    hide Push, PushAll, BlockEvents;
    var a := [Notify(MessageBegin)];
    var b := if OrEmpty(q.reason) == [] then a else a + [Data(Status, q.reason.value)];
    var c := b + BlockEvents(q.lines);
    var d := c + [Notify(HeadersComplete)];
    var e := if body == [] then d else d + [Data(Body, body)];
    PushAllOne(trace, a[0]);
    if OrEmpty(q.reason) != [] { PushAllLast(trace, a, Data(Status, q.reason.value)); }
    PushAllConcat(trace, b, BlockEvents(q.lines));
    PushAllLast(trace, c, Notify(HeadersComplete));
    if body != [] { PushAllLast(trace, d, Data(Body, body)); }
    PushAllLast(trace, e, Notify(MessageComplete));
    assert ResponseEvents(q, body) == e + [Notify(MessageComplete)];
  }

  /** What follows the head: as its framing asks, or everything up to the end of the connection. */
  predicate FollowedBy(f: Framing, body: bytes, text: bytes, cs: seq<bytes>)
  {
    if f.UntilEof? then text == body else WrittenAs(f, body, text, cs)
  }

  /** Any response written out with the framing its status and header lines ask for is read back: the trace
      is its reason, its header lines in order and its body. One that only the end of the connection ends
      is waiting for that, and for nothing else. */
  lemma ResponseRead(m: Machine, q: Response, body: bytes, text: bytes, cs: seq<bytes>)
    requires Idle(m, StartRes) && IsResponse(q) && m.nread + |ResponseHead(q)| <= MAX_HEADER_SIZE
    requires !m.core.ptype.Request? && m.core.verb != CONNECT && !BadBlock(q.lines)
    requires !HeadCore(m, q).flags.upgrade && FollowedBy(FramingOf(HeadCore(m, q)), body, text, cs)
    ensures var r, all := Run(m, ResponseHead(q) + text), PushAll(m.trace, ResponseEvents(q, body));
            && r.stop.Running?
            && (ShouldKeepAlive(HeadCore(m, q)) <==>
                  AsksToStay(q.major, q.minor, q.lines) && !FramingOf(HeadCore(m, q)).UntilEof?)
            && if FramingOf(HeadCore(m, q)).UntilEof?
               then r.core.state.BodyIdentityEof? && Push(r.trace, Notify(MessageComplete)) == all
               else r.core.state == (if AsksToStay(q.major, q.minor, q.lines) then StartRes else Dead) && r.trace == all
  {
    hide Run, Ready, Push, PushAll, ResponseEvents, IsHeaderBlock, CodeOf, OneLine, ResponseHead, Framed, BlockEvents;
    hide HeadCore, WrittenAs, AsksToStay, FramingOf, BadBlock, ShouldKeepAlive, PushReason, Switched;
    var r := LinesRead(m, q);
    var c := HeadCore(m, q);
    HeadKeeps(m, q);
    EmptyLine(r);
    RunConcat(m, ResponseHead(q), text);
    MatcherIgnored(c, r.core.index, r.core.hstate);
    TraceOfResponse(m.trace, q, body);
    HeadKept(m, q);
    if FramingOf(c).UntilEof? { EofBodyRead(r, body); } else { BodyRead(r, body, text, cs); }
  }

  lemma HeadKeeps(m: Machine, q: Response)
    requires IsResponse(q) && !BadBlock(q.lines)
    ensures HeadCore(m, q).verb == m.core.verb && HeadCore(m, q).ptype == m.core.ptype
  {
    hide BlockCore, BadBlock, CodeOf;
    CoreKeeps(m.core.(flags := NO_FLAGS, clen := ULLONG_MAX, major := q.major, minor := q.minor,
                      status := CodeOf(q.code), state := HeaderFieldStart), q.lines);
  }

  /** http_should_keep_alive for a response, at the end of its head. */
  lemma HeadKept(m: Machine, q: Response)
    requires IsResponse(q) && !BadBlock(q.lines)
    ensures ShouldKeepAlive(HeadCore(m, q)) <==>
              AsksToStay(q.major, q.minor, q.lines) && !FramingOf(HeadCore(m, q)).UntilEof?
  {
    hide BlockCore, BadBlock, CodeOf, ShouldKeepAlive, AsksToStay, FramingOf;
    var c := m.core.(flags := NO_FLAGS, clen := ULLONG_MAX, major := q.major, minor := q.minor,
                     status := CodeOf(q.code), state := HeaderFieldStart);
    KeptAlive(c, q.lines);
    CoreKeeps(c, q.lines);
  }

  lemma EofBodyRead(r: Machine, body: bytes)
    requires r.stop.Running? && FramingOf(r.core).UntilEof? && Ready(Framed(r))
    ensures var e := Run(Framed(r), body);
            && e.stop.Running? && e.core.state.BodyIdentityEof?
            && e.trace == PushBody(Push(r.trace, Notify(HeadersComplete)), body)
  {
    hide Run, Ready, Push;
    BodyRun(Framed(r), body);
  }

  /** A response from the wire: the pieces of it, and then the end of the connection. Whatever the pieces,
      the callbacks are those of the written response, and the end of the stream is no error. */
  method ReceiveResponse(parser: HttpParser, pieces: seq<bytes>, ghost q: Response, ghost body: bytes,
                         ghost text: bytes, ghost cs: seq<bytes>) returns (events: seq<Event>)
    requires Machine(parser.core, parser.nread, [], Running) == Init(ParserType.Response) && parser.errno == HPE_OK
    requires IsResponse(q) && |ResponseHead(q)| <= MAX_HEADER_SIZE && !BadBlock(q.lines)
    requires var c := HeadCore(Init(ParserType.Response), q);
             !c.flags.upgrade && FollowedBy(FramingOf(c), body, text, cs)
    requires Flatten(pieces) == ResponseHead(q) + text && forall i :: 0 <= i < |pieces| ==> pieces[i] != []
    modifies parser
    ensures parser.errno == HPE_OK && PushAll([], events) == PushAll([], ResponseEvents(q, body))
  {
    hide Run, Ready, PushAll, Push, ResponseEvents, IsHeaderBlock, CodeOf, OneLine, ResponseHead, HeadCore, FollowedBy;
    hide FramingOf, BadBlock, Sound, Flatten, Taken, ShouldKeepAlive;
    ghost var m := Init(ParserType.Response);
    ResponseRead(m, q, body, text, cs);
    var n;
    n, events := parser.Feed(pieces, []);
    var k, last := parser.Execute([], (_, _) => false, PushAll([], events));
    PushAllConcat([], events, last);
    if last == [] {
      PushAllNone(PushAll([], events));
    } else {
      PushAllOne(PushAll([], events), last[0]);
    }
    events := events + last;
  }
}
