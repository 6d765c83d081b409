/** The less common lines that the parser takes: lines ended by a bare LF, folded header lines, lines
    without a colon, extra spaces, versions of several digits, requests without a version, trailers, a
    parser that does not know yet whether it reads a request or a response, and a closed connection. */
module HttpLines {
  import opened Ascii
  import opened HttpTypes
  import opened HttpAutomaton
  import opened HttpRun
  import opened HttpExecute
  import opened HttpWords
  import opened HttpLengths
  import opened HttpHeaders
  import opened HttpBody
  import opened HttpChunks
  import opened HttpMethods
  import opened HttpRequests
  import opened HttpResponses
  import opened ChunkWriter
  import HttpReread

  // ----- a bare LF -----

  /** The states in which a line may end. */
  predicate MayEndLine(s: State)
  {
    || UrlTailState(s) || s.ReqMinor? || s.ResStatusCode? || s.ResStatusStart? || s.ResStatus?
    || s.HeaderValueText? || s.HeaderFieldStart? || s.HeaderValueLws?
  }

  /** The same outcome, whatever was counted. */
  predicate SameButCount(a: Machine, b: Machine) { a.core == b.core && a.trace == b.trace && a.stop == b.stop }

  lemma EndEntries(c: Core)
    requires Sound(c) && (UrlTailState(c.state) || c.state.ReqMinor? || c.state.ResStatusCode?
                          || c.state.ResStatusStart? || c.state.ResStatus?)
    ensures AssertsHold(c)
    ensures var d := if UrlTailState(c.state) then c.(major := 0, minor := 9) else c;
            var f := if UrlTailState(c.state) then Some(Url) else if c.state.ResStatus? then Some(Status) else None;
            var t := if UrlTailState(c.state) || c.state.ReqMinor? then ReqLineAlmostDone else ResLineAlmostDone;
            && Act(c, CR) == Action(d.(state := t), false, None, f, None, Advance)
            && Act(c, LF) == Action(d.(state := HeaderFieldStart), false, None, f, None, Advance)
  {
    hide MethodName, NameHeaderState, UrlChar;
  }

  lemma AlmostEntries(c: Core)
    requires Sound(c) && (c.state.ReqLineAlmostDone? || c.state.ResLineAlmostDone?)
    ensures AssertsHold(c) && Act(c, LF) == Go(c, HeaderFieldStart)
  {
    hide MethodName, NameHeaderState;
  }

  predicate FirstLine(s: State)
  {
    UrlTailState(s) || s.ReqMinor? || s.ResStatusCode? || s.ResStatusStart? || s.ResStatus?
  }

  /** The struct at the end of a first line; a request without a version is of version 0.9. */
  function FirstLineCore(c: Core): Core { if UrlTailState(c.state) then c.(major := 0, minor := 9) else c }

  lemma FirstLineStep(m: Machine, ch: byte)
    requires Ready(m) && m.stop.Running? && m.nread < MAX_HEADER_SIZE && FirstLine(m.core.state)
    requires ch == CR || ch == LF
    ensures var s := if ch == LF then HeaderFieldStart
                     else if UrlTailState(m.core.state) || m.core.state.ReqMinor? then ReqLineAlmostDone
                     else ResLineAlmostDone;
            Step(m, ch) == Machine(FirstLineCore(m.core).(state := s), m.nread + 1, m.trace, Running)
  {
    hide Sound, Act, Step, InField;
    HeaderStates(m.core.state);
    EndEntries(m.core);
    OneEntry(m, ch);
  }

  lemma HeaderStates(s: State)
    ensures FirstLine(s) ==> ParsingHeader(s)
  {}

  lemma AlmostStep(m: Machine)
    requires Ready(m) && m.stop.Running? && m.nread < MAX_HEADER_SIZE
    requires m.core.state.ReqLineAlmostDone? || m.core.state.ResLineAlmostDone?
    ensures Step(m, LF) == Machine(m.core.(state := HeaderFieldStart), m.nread + 1, m.trace, Running)
  {
    hide Sound, Act, Step, InField;
    AlmostEntries(m.core);
    OneEntry(m, LF);
  }

  /** The first line of a message. */
  lemma FirstLineEnds(m: Machine)
    requires Ready(m) && m.stop.Running? && m.nread + 2 <= MAX_HEADER_SIZE && FirstLine(m.core.state)
    ensures var c := FirstLineCore(m.core).(state := HeaderFieldStart);
            && Run(m, [LF]) == Machine(c, m.nread + 1, m.trace, Running)
            && Run(m, [CR, LF]) == Machine(c, m.nread + 2, m.trace, Running)
  {
    hide Step, Run, Ready, UrlTailState;
    FirstLineStep(m, LF);
    FirstLineStep(m, CR);
    AlmostStep(Step(m, CR));
    TwoBytes(m, CR, LF);
    OneByteRun(m, LF);
  }

  lemma OneByteRun(m: Machine, ch: byte)
    requires Ready(m)
    ensures Run(m, [ch]) == Step(m, ch)
  {
    hide Step, Ready;
    EmptyRun(m, []);
    RunMore(m, [], ch);
    assert [] + [ch] == [ch];
  }

  lemma ValueEndEntries(c: Core)
    requires Sound(c) && c.state.HeaderValueText?
    ensures AssertsHold(c)
    ensures Act(c, CR) == Emit(c.(state := HeaderAlmostDone), HeaderValue)
    ensures Act(c, LF) == Emit(c.(state := HeaderAlmostDone), HeaderValue).(ctl := Again)
  {
    hide MethodName, NameHeaderState, Match, LengthDigit;
  }

  lemma HeaderDoneEntry(c: Core)
    requires Sound(c) && c.state.HeaderAlmostDone?
    ensures AssertsHold(c) && Act(c, LF) == Go(c.(flags := FlagOf(c.flags, c.hstate)), HeaderValueLws)
  {
    hide MethodName, NameHeaderState, FlagOf;
  }

  /** A value. */
  lemma ValueEnds(m: Machine)
    requires Ready(m) && m.stop.Running? && m.nread + 2 <= MAX_HEADER_SIZE && m.core.state.HeaderValueText?
    ensures var c := m.core.(state := HeaderValueLws, flags := FlagOf(m.core.flags, m.core.hstate));
            && Run(m, [LF]) == Machine(c, m.nread + 1, m.trace, Running)
            && Run(m, [CR, LF]) == Machine(c, m.nread + 2, m.trace, Running)
  {
    hide Sound, Act, Step, Run, InField, FlagOf, Chain;
    CarriageReturn(m);
    LineFeed(Step(m, CR));
    TwoBytes(m, CR, LF);
    OneByteRun(m, LF);
    ValueFeed(m);
  }

  lemma ValueFeed(m: Machine)
    requires Ready(m) && m.stop.Running? && m.nread < MAX_HEADER_SIZE && m.core.state.HeaderValueText?
    ensures Step(m, LF) == Machine(m.core.(state := HeaderValueLws, flags := FlagOf(m.core.flags, m.core.hstate)),
                                   m.nread + 1, m.trace, Running)
  {
    hide Sound, Act, InField, FlagOf, Chain;
    ValueEndEntries(m.core);
    ChainEntry(m.core, m.nread + 1, m.trace, LF);
    var d := m.core.(state := HeaderAlmostDone);
    HeaderDoneEntry(d);
    ChainEntry(d, m.nread + 1, m.trace, LF);
  }

  lemma BlankLineEntries(c: Core)
    requires Sound(c) && c.state.HeaderFieldStart?
    ensures AssertsHold(c)
    ensures Act(c, CR) == Go(c, HeadersAlmostDone) && Act(c, LF) == Redo(c.(state := HeadersAlmostDone))
  {
    hide MethodName, NameHeaderState, Token;
  }

  /** The empty line. */
  lemma EmptyLineEnds(m: Machine)
    requires Ready(m) && m.stop.Running? && m.nread + 2 <= MAX_HEADER_SIZE && m.core.state.HeaderFieldStart?
    ensures SameButCount(Run(m, [LF]), Run(m, [CR, LF]))
  {
    hide Sound, Act, Step, Run, InField, Chain;
    EmptyLineBegins(m);
    var a := Step(m, CR);
    TwoBytes(m, CR, LF);
    OneByteRun(m, LF);
    BareBlank(m, a);
  }

  lemma BareBlank(m: Machine, a: Machine)
    requires Ready(m) && m.stop.Running? && m.nread + 2 <= MAX_HEADER_SIZE && m.core.state.HeaderFieldStart?
    requires Ready(a) && a == m.(core := m.core.(state := HeadersAlmostDone), nread := m.nread + 1)
    ensures SameButCount(Step(m, LF), Step(a, LF))
  {
    hide Sound, Act, InField, Chain;
    BlankLineEntries(m.core);
    ChainEntry(m.core, m.nread + 1, m.trace, LF);
    HttpReread.ChainAgrees(a.core, m.nread + 1, m.nread + 2, m.trace, LF);
  }

  /** A bare LF ends a line as CR and LF do. */
  lemma LineEndsAlike(m: Machine)
    requires Ready(m) && m.stop.Running? && m.nread + 2 <= MAX_HEADER_SIZE && MayEndLine(m.core.state)
    ensures SameButCount(Run(m, [LF]), Run(m, [CR, LF]))
  {
    hide Run, Ready, UrlTailState, FlagOf;
    if m.core.state.HeaderValueText? {
      ValueEnds(m);
    } else if m.core.state.HeaderFieldStart? {
      EmptyLineEnds(m);
    } else if m.core.state.HeaderValueLws? {
      NextLineRun(m, [LF]);
      NextLineRun(m, [CR, LF]);
      EmptyLineEnds(AtLine(m));
    } else {
      FirstLineEnds(m);
    }
  }

  /** A request line that ends behind its URL is a request of HTTP 0.9. */
  lemma SimpleRequest(m: Machine)
    requires Ready(m) && m.stop.Running? && m.nread + 2 <= MAX_HEADER_SIZE && UrlTailState(m.core.state)
    ensures Run(m, [CR, LF]) == Machine(m.core.(major := 0, minor := 9, state := HeaderFieldStart), m.nread + 2,
                                        m.trace, Running)
  {
    hide Run, Ready;
    FirstLineEnds(m);
  }

  // ----- folded lines -----

  lemma FoldEntry(c: Core, ch: byte)
    requires Sound(c) && c.state.HeaderValueLws? && IsBlank(ch)
    ensures AssertsHold(c) && Act(c, ch) == Go(c, HeaderValueStart)
  {
    hide MethodName, NameHeaderState;
  }

  lemma FoldStep(m: Machine, ch: byte)
    requires Ready(m) && m.stop.Running? && m.core.state.HeaderValueLws? && IsBlank(ch) && m.nread < MAX_HEADER_SIZE
    ensures Step(m, ch) == m.(core := m.core.(state := HeaderValueStart), nread := m.nread + 1)
  {
    hide Sound, Act, Step, InField;
    FoldEntry(m.core, ch);
    SilentStep(m, ch, Go(m.core, HeaderValueStart));
  }

  /** A line that begins with a blank goes on with the value of the line before. */
  lemma FoldedRead(m: Machine, ch: byte, pad: bytes, v: bytes)
    requires Ready(m) && m.stop.Running? && m.core.state.HeaderValueLws? && IsBlank(ch) && IsValue(v)
    requires (forall i :: 0 <= i < |pad| ==> IsBlank(pad[i])) && m.nread + 1 + |pad| + |v| + 2 <= MAX_HEADER_SIZE
    ensures var s := m.(core := m.core.(state := HeaderValueStart), nread := m.nread + 1 + |pad|);
            Ready(s) && Run(m, [ch] + (pad + (v + [CR, LF]))) == Run(s, v + [CR, LF])
  {
    hide Run, Step, Ready;
    FoldStep(m, ch);
    OneByteRun(m, ch);
    var a := Run(m, [ch]);
    RunConcat(m, [ch], pad + (v + [CR, LF]));
    Blanks(a, pad);
    RunConcat(a, pad, v + [CR, LF]);
  }

  /** A header line and its continuation: one name, and one value of both texts. The continuation sets no
      flag; that of a length is a length of its own, which replaces the first. */
  lemma FoldedLine(m: Machine, l: Line, ch: byte, pad: bytes, v: bytes)
    requires Ready(m) && m.stop.Running? && m.core.state.HeaderFieldStart? && IsHeaderLine(l) && !BadLine(l)
    requires IsBlank(ch) && IsValue(v) && forall i :: 0 <= i < |pad| ==> IsBlank(pad[i])
    requires m.nread + |LineText(l)| + 1 + |pad| + |v| + 2 <= MAX_HEADER_SIZE
    ensures var r, rho := Run(m, LineText(l) + ([ch] + (pad + (v + [CR, LF])))), FoldRole(RoleOf(l), l.value);
            if v != [] && BadLength(rho, v) then r.stop == Failed(HPE_INVALID_CONTENT_LENGTH)
            else
              && r.stop.Running? && r.core.flags == LineCore(m.core, l).flags
              && r.core.clen == (if rho.ContentLength? && v != [] then LengthOf(v) else LineCore(m.core, l).clen)
              && r.trace == PushAll(m.trace, [Data(HeaderField, l.name), Data(HeaderValue, l.value + v)])
  {
    hide Run, Ready, Push, PushAll, Role, IsLength, LengthOf, Classify, FoldAll, IsValue, IsName;
    hide LineText, IsWord;
    HeaderLine(m, l);
    var r := Run(m, LineText(l));
    RunConcat(m, LineText(l), [ch] + (pad + (v + [CR, LF])));
    FoldedRead(r, ch, pad, v);
    ValueLine(r.(core := r.core.(state := HeaderValueStart), nread := r.nread + 1 + |pad|), v);
    PushTwo(m.trace, Data(HeaderField, l.name), Data(HeaderValue, l.value));
    PushTwo(m.trace, Data(HeaderField, l.name), Data(HeaderValue, l.value + v));
    PushFragments(Push(m.trace, Data(HeaderField, l.name)), HeaderValue, l.value, v);
  }

  // ----- lines without a colon -----

  lemma NoColonEntries(c: Core)
    requires Sound(c) && c.state.HeaderFieldName?
    ensures AssertsHold(c)
    ensures Act(c, CR) == Emit(c.(state := HeaderAlmostDone), HeaderField)
    ensures Act(c, LF) == Emit(c.(state := HeaderFieldStart), HeaderField)
  {
    hide MethodName, NameHeaderState, NameChar;
    assert Token(CR) == 0 && Token(LF) == 0;
  }

  lemma NoColonStep(m: Machine, ch: byte)
    requires Ready(m) && m.stop.Running? && m.core.state.HeaderFieldName? && m.nread < MAX_HEADER_SIZE
    requires ch == CR || ch == LF
    ensures Step(m, ch) == Machine(m.core.(state := if ch == CR then HeaderAlmostDone else HeaderFieldStart),
                                   m.nread + 1, m.trace, Running)
  {
    hide Sound, Act, Step, InField;
    NoColonEntries(m.core);
    OneEntry(m, ch);
  }

  /** A name alone on its line is delivered without a value, and changes neither flags nor length. */
  lemma NameAlone(m: Machine, name: bytes)
    requires Ready(m) && m.stop.Running? && m.core.state.HeaderFieldStart? && IsName(name)
    requires m.nread + |name| + 2 <= MAX_HEADER_SIZE
    ensures var r := Run(m, name + [CR, LF]);
            && r.stop.Running? && r.core.state.HeaderValueLws? && r.core.flags == m.core.flags
            && r.core.clen == m.core.clen && r.trace == Push(m.trace, Data(HeaderField, name))
    ensures var r := Run(m, name + [LF]);
            && r.stop.Running? && r.core.state.HeaderFieldStart? && r.core.flags == m.core.flags
            && r.core.clen == m.core.clen && r.trace == Push(m.trace, Data(HeaderField, name))
  {
    hide Run, Step, Ready, Push, Spells, IsName;
    NameRead(m, name);
    var n := Run(m, name);
    RunConcat(m, name, [CR, LF]);
    RunMore(m, name, LF);
    NoColonStep(n, CR);
    NoColonStep(n, LF);
    LineFeed(Step(n, CR));
    TwoBytes(n, CR, LF);
    NoFlag(n);
  }

  lemma NoFlag(m: Machine)
    requires Ready(m) && m.stop.Running? && m.core.state.HeaderFieldName?
    ensures FlagOf(m.core.flags, m.core.hstate) == m.core.flags
  {
    hide MethodName, InField;
  }

  lemma EmptyValueEntry(c: Core)
    requires Sound(c) && c.state.HeaderValueStart?
    ensures AssertsHold(c)
    ensures Act(c, LF)
            == Action(c.(state := HeaderFieldStart, index := 0), false, Some(HeaderValue), Some(HeaderValue), None,
                      Advance)
  {
    hide MethodName, NameHeaderState;
  }

  /** An empty value ended by a bare LF is delivered, and the next line cannot continue it. */
  lemma EmptyValueFeed(m: Machine)
    requires Ready(m) && m.stop.Running? && m.core.state.HeaderValueStart? && m.nread < MAX_HEADER_SIZE
    ensures Step(m, LF) == Machine(m.core.(state := HeaderFieldStart, index := 0), m.nread + 1,
                                   Push(m.trace, Data(HeaderValue, [])), Running)
  {
    hide Sound, Act, Step, InField, Push;
    EmptyValueEntry(m.core);
    OneEntry(m, LF);
  }

  // ----- versions -----

  predicate FirstMajor(s: State) { s.ReqFirstMajor? || s.ResFirstMajor? }

  predicate FirstMinor(s: State) { s.ReqFirstMinor? || s.ResFirstMinor? }

  /** The state behind the first digit of a number. */
  function Further(s: State): State
  {
    match s
    case ReqFirstMajor => ReqMajor
    case ResFirstMajor => ResMajor
    case ReqFirstMinor => ReqMinor
    case _ => ResMinor
  }

  /** The struct with the number at hand set. */
  function WithNumber(c: Core, first: State, n: nat): Core
  {
    if FirstMajor(first) then c.(state := Further(first), major := n) else c.(state := Further(first), minor := n)
  }

  function NumberAt(c: Core, first: State): nat { if FirstMajor(first) then c.major else c.minor }

  lemma FirstNumberEntry(c: Core, d: nat)
    requires Sound(c) && d <= 9 && (FirstMajor(c.state) || FirstMinor(c.state))
    ensures AssertsHold(c)
    ensures !(c.state.ReqFirstMajor? && d == 0) ==>
              Act(c, 48 + d) == Stay(WithNumber(c, c.state, d))
    ensures c.state.ReqFirstMajor? && d == 0 ==> Act(c, 48 + d).ctl == Fail(HPE_INVALID_VERSION)
  {
    hide MethodName, NameHeaderState;
  }

  lemma NextNumberEntry(c: Core, first: State, d: nat)
    requires Sound(c) && d <= 9 && (FirstMajor(first) || FirstMinor(first)) && c.state == Further(first)
    ensures AssertsHold(c)
    ensures var n := NumberAt(c, first) * 10 + d;
            if n <= 999 then Act(c, 48 + d) == Stay(WithNumber(c, first, n))
            else Act(c, 48 + d).ctl == Fail(HPE_INVALID_VERSION)
  {
    hide MethodName, NameHeaderState;
  }

  lemma FirstNumberStep(m: Machine, d: nat)
    requires Ready(m) && m.stop.Running? && m.nread < MAX_HEADER_SIZE && d <= 9
    requires (FirstMajor(m.core.state) || FirstMinor(m.core.state)) && !(m.core.state.ReqFirstMajor? && d == 0)
    ensures Step(m, 48 + d) == m.(core := WithNumber(m.core, m.core.state, d), nread := m.nread + 1)
  {
    hide Sound, Act, Step, InField;
    FirstNumberEntry(m.core, d);
    OneEntry(m, 48 + d);
  }

  lemma NextNumberStep(m: Machine, first: State, d: nat)
    requires Ready(m) && m.stop.Running? && m.nread < MAX_HEADER_SIZE && d <= 9
    requires (FirstMajor(first) || FirstMinor(first)) && m.core.state == Further(first)
    ensures var n := NumberAt(m.core, first) * 10 + d;
            if n <= 999 then Step(m, 48 + d) == m.(core := WithNumber(m.core, first, n), nread := m.nread + 1)
            else Step(m, 48 + d).stop == Failed(HPE_INVALID_VERSION)
  {
    hide Sound, Act, Step, InField;
    NextNumberEntry(m.core, first, d);
    OneEntry(m, 48 + d);
  }

  /** A major or minor number of any digits is their decimal value, or HPE_INVALID_VERSION if that is above
      999; the major number of a request does not begin with 0. */
  lemma {:induction false} VersionNumber(m: Machine, ds: bytes)
    requires Ready(m) && m.stop.Running? && (FirstMajor(m.core.state) || FirstMinor(m.core.state))
    requires ds != [] && AllDecimal(ds) && m.nread + |ds| <= MAX_HEADER_SIZE
    requires m.core.state.ReqFirstMajor? ==> ds[0] != 48
    ensures var r := Run(m, ds);
            if CodeOf(ds) <= 999
            then r == m.(core := WithNumber(m.core, m.core.state, CodeOf(ds)), nread := m.nread + |ds|)
            else r.stop == Failed(HPE_INVALID_VERSION)
    decreases |ds|
  {
    hide Run, Step, Ready, CodeOf;
    var init, ch := ds[..|ds| - 1], ds[|ds| - 1];
    assert ds == init + [ch];
    CodeMore(init, ch);
    RunMore(m, init, ch);
    assert ch == 48 + (ch - 48);
    if init == [] {
      EmptyRun(m, init);
      FirstNumberStep(m, ch - 48);
    } else {
      VersionNumber(m, init);
      if CodeOf(init) <= 999 {
        NextNumberStep(Run(m, init), m.core.state, ch - 48);
      } else {
        StepStopped(Run(m, init), ch);
      }
    }
  }

  lemma NoVersionEntry(c: Core, ch: byte)
    requires Sound(c) && (FirstMajor(c.state) || FirstMinor(c.state)) && !IsNum(ch)
    ensures AssertsHold(c) && Act(c, ch).ctl == Fail(HPE_INVALID_VERSION)
  {
    hide MethodName, NameHeaderState;
  }

  /** Anything but a digit where a number begins is HPE_INVALID_VERSION. */
  lemma NoVersion(m: Machine, ch: byte)
    requires Ready(m) && m.stop.Running? && m.nread < MAX_HEADER_SIZE && !IsNum(ch)
    requires FirstMajor(m.core.state) || FirstMinor(m.core.state)
    ensures Step(m, ch).stop == Failed(HPE_INVALID_VERSION)
  {
    hide Sound, Act, Step, InField;
    NoVersionEntry(m.core, ch);
    OneEntry(m, ch);
  }

  // ----- extra spaces -----

  predicate SkipsSpaces(s: State) { s.ReqSpacesBeforeUrl? || s.ReqHttpStart? || s.ResFirstStatusCode? }

  lemma SpaceEntry(c: Core)
    requires Sound(c) && SkipsSpaces(c.state)
    ensures AssertsHold(c) && Act(c, SP) == Stay(c)
  {
    hide MethodName, NameHeaderState;
  }

  lemma SpaceStep(m: Machine)
    requires Ready(m) && m.stop.Running? && SkipsSpaces(m.core.state) && m.nread < MAX_HEADER_SIZE
    ensures Step(m, SP) == m.(nread := m.nread + 1)
  {
    hide Sound, Act, Step, InField;
    SpaceEntry(m.core);
    SilentStep(m, SP, Stay(m.core));
  }

  function Spaces(n: nat): bytes { seq(n, _ => SP) }

  /** Before the URL, before the version of a request and before a status code any number of spaces is
      skipped. */
  lemma {:induction false} SpacesSkipped(m: Machine, n: nat)
    requires Ready(m) && m.stop.Running? && SkipsSpaces(m.core.state) && m.nread + n <= MAX_HEADER_SIZE
    ensures Run(m, Spaces(n)) == m.(nread := m.nread + n)
    decreases n
  {
    hide Run, Step, Ready;
    if n == 0 {
      EmptyRun(m, Spaces(0));
    } else {
      SpacesSkipped(m, n - 1);
      SpaceStep(Run(m, Spaces(n - 1)));
      RunMore(m, Spaces(n - 1), SP);
      assert Spaces(n - 1) + [SP] == Spaces(n);
    }
  }

  // ----- a connection that is closed -----

  lemma DeadEntry(c: Core, ch: byte)
    requires Sound(c) && c.state.Dead?
    ensures AssertsHold(c)
    ensures Act(c, ch) == if ch == CR || ch == LF then Stay(c) else Error(c, HPE_CLOSED_CONNECTION)
  {
    hide MethodName, NameHeaderState;
  }

  /** Behind the last message of a connection line breaks are ignored and anything else is an error. */
  lemma ClosedConnection(m: Machine, ch: byte)
    requires Ready(m) && m.stop.Running? && m.core.state.Dead? && m.nread < MAX_HEADER_SIZE
    ensures if ch == CR || ch == LF then Step(m, ch) == m.(nread := m.nread + 1)
            else Step(m, ch).stop == Failed(HPE_CLOSED_CONNECTION) && Step(m, ch).trace == m.trace
  {
    hide Sound, Act, Step, InField;
    DeadEntry(m.core, ch);
    OneEntry(m, ch);
  }

  // ----- a parser for both -----

  lemma EitherEntry(c: Core, ch: byte)
    requires Sound(c) && c.state.StartReqOrRes?
    ensures AssertsHold(c) && Act(c, ch) == ActStartReqOrRes(c, ch)
  {
    hide MethodName, NameHeaderState, ActStartReqOrRes;
  }

  lemma EitherBreak(m: Machine, ch: byte)
    requires Idle(m, StartReqOrRes) && m.nread < MAX_HEADER_SIZE && (ch == CR || ch == LF)
    ensures Step(m, ch) == m.(nread := m.nread + 1)
  {
    hide Sound, Act, Step, InField;
    EitherEntry(m.core, ch);
    OneEntry(m, ch);
  }

  /** The same parser, told what it reads. */
  function Told(m: Machine, t: ParserType): Machine
  {
    m.(core := m.core.(ptype := t, flags := NO_FLAGS, clen := ULLONG_MAX, state := HttpAutomaton.StartState(t)))
  }

  /** A message that does not begin with `H` is a request. */
  lemma EitherOther(m: Machine, ch: byte)
    requires Idle(m, StartReqOrRes) && m.nread < MAX_HEADER_SIZE && ch != CR && ch != LF && ch != 72
    ensures Ready(Told(m, ParserType.Request)) && Step(m, ch) == Step(Told(m, ParserType.Request), ch)
  {
    hide Sound, Act, Chain, InField;
    EitherEntry(m.core, ch);
    ChainEntry(m.core, m.nread + 1, m.trace, ch);
  }

  lemma EitherH(m: Machine)
    requires Idle(m, StartReqOrRes) && m.nread < MAX_HEADER_SIZE
    ensures Step(m, 72) == Machine(m.core.(flags := NO_FLAGS, clen := ULLONG_MAX, state := ResOrRespH), m.nread + 1,
                                   Push(m.trace, Notify(MessageBegin)), Running)
  {
    hide Sound, Act, Step, InField, Push;
    EitherEntry(m.core, 72);
    OneEntry(m, 72);
  }

  lemma SecondEntry(c: Core, ch: byte)
    requires Sound(c) && c.state.ResOrRespH?
    ensures AssertsHold(c) && Act(c, ch) == ActResOrRespH(c, ch)
  {
    hide MethodName, NameHeaderState, ActResOrRespH;
  }

  /** The two bytes that tell: `HT` begins a response, `HE` a HEAD request, and anything else is refused. */
  lemma EitherDecides(m: Machine, ch: byte)
    requires Idle(m, StartReqOrRes) && m.nread + 2 <= MAX_HEADER_SIZE
    ensures var c := m.core.(flags := NO_FLAGS, clen := ULLONG_MAX);
            var t := Push(m.trace, Notify(MessageBegin));
            && (ch == 84 ==>
                  var d := c.(ptype := ParserType.Response, state := ResHT);
                  Run(m, [72, ch]) == Machine(d, m.nread + 2, t, Running))
            && (ch == 69 ==>
                  var d := c.(ptype := ParserType.Request, verb := HEAD, index := 2, state := ReqMethod);
                  Run(m, [72, ch]) == Machine(d, m.nread + 2, t, Running))
            && (ch != 84 && ch != 69 ==> Run(m, [72, ch]).stop == Failed(HPE_INVALID_CONSTANT))
  {
    hide Sound, Act, Step, Run, InField, Push;
    EitherH(m);
    var n := Step(m, 72);
    SecondEntry(n.core, ch);
    OneEntry(n, ch);
    TwoBytes(m, 72, ch);
  }

  /** From there on it is a response parser. */
  lemma EitherResponse(m: Machine)
    requires Idle(m, StartReqOrRes) && m.nread + 2 <= MAX_HEADER_SIZE
    ensures Ready(Told(m, ParserType.Response)) && Run(m, [72, 84]) == Run(Told(m, ParserType.Response), [72, 84])
  {
    hide Step, Run, Push, Sound, InField;
    EitherDecides(m, 84);
    var r := Told(m, ParserType.Response);
    ToldReady(m);
    ResponseBegins(r);
    StatusEdgeStep(Step(r, 72), 84, ResHT);
    TwoBytes(r, 72, 84);
  }

  lemma ToldReady(m: Machine)
    requires Idle(m, StartReqOrRes)
    ensures Ready(Told(m, ParserType.Response))
  {
    hide MethodName, NameHeaderState;
  }

  // ----- trailers -----

  /** A last chunk, trailer lines and the empty line: the lines are delivered as headers are, and the
      message is complete. */
  lemma TrailersRead(m: Machine, lines: seq<Line>)
    requires Idle(m, ChunkSizeStart) && IsHeaderBlock(lines) && !BadBlock(lines)
    requires |BlockText(lines)| + 2 <= MAX_HEADER_SIZE
    ensures var r := Run(m, [48, CR, LF] + (BlockText(lines) + CRLF));
            r.stop.Running? && r.trace == Push(PushAll(m.trace, BlockEvents(lines)), Notify(MessageComplete))
  {
    hide Run, Ready, Push, PushAll, BlockText, BlockEvents, BadBlock, IsHeaderBlock, BlockCore, Dechunk, Step;
    var z := Sized(m, 0);
    LastChunkRead(BlockText(lines) + CRLF);
    ChunksRead(m, [48, CR, LF] + (BlockText(lines) + CRLF));
    LastChunk(m);
    HeaderBlock(z, lines);
    var r := Run(z, BlockText(lines));
    BlockKeeps(z, lines, r);
    RunConcat(z, BlockText(lines), CRLF);
    EmptyLine(r);
  }

  // ----- refusals -----

  /** The errno with which each state refuses a byte; the size of a chunk has a second one for a number that
      is too large. */
  function Refusal(s: State): Errno
  {
    match s
    case Dead => HPE_CLOSED_CONNECTION
    case StartReqOrRes => HPE_INVALID_METHOD
    case StartReq => HPE_INVALID_METHOD
    case ReqMethod => HPE_INVALID_METHOD
    case ResOrRespH => HPE_INVALID_CONSTANT
    case StartRes => HPE_INVALID_CONSTANT
    case ReqHttpStart => HPE_INVALID_CONSTANT
    case ResFirstMajor => HPE_INVALID_VERSION
    case ResMajor => HPE_INVALID_VERSION
    case ResFirstMinor => HPE_INVALID_VERSION
    case ResMinor => HPE_INVALID_VERSION
    case ReqFirstMajor => HPE_INVALID_VERSION
    case ReqMajor => HPE_INVALID_VERSION
    case ReqFirstMinor => HPE_INVALID_VERSION
    case ReqMinor => HPE_INVALID_VERSION
    case ResFirstStatusCode => HPE_INVALID_STATUS
    case ResStatusCode => HPE_INVALID_STATUS
    case ReqLineAlmostDone => HPE_LF_EXPECTED
    case HeaderFieldStart => HPE_INVALID_HEADER_TOKEN
    case HeaderFieldName => HPE_INVALID_HEADER_TOKEN
    case HeaderValueStart => HPE_INVALID_CONTENT_LENGTH
    case HeaderValueText => HPE_INVALID_CONTENT_LENGTH
    case ChunkSizeStart => HPE_INVALID_CHUNK_SIZE
    case ChunkSize => HPE_INVALID_CHUNK_SIZE
    case _ => if s.ReqSpacesBeforeUrl? || UrlHeadState(s) || UrlTailState(s) then HPE_INVALID_URL else HPE_STRICT
  }

  /** The states of header lines, and those of bodies; chunks have theirs. */
  predicate OfHeaders(s: State)
  {
    || s.HeaderFieldStart? || s.HeaderFieldName? || s.HeaderValueStart? || s.HeaderValueText? || s.HeaderValueLws?
    || s.HeaderAlmostDone? || s.HeadersAlmostDone? || s.HeadersDone?
  }

  predicate OfBodies(s: State) { s.BodyIdentity? || s.BodyIdentityEof? || s.MessageDone? }

  predicate Refused(c: Core, ch: byte)
    requires AssertsHold(c)
  {
    Act(c, ch).ctl.Fail? ==>
      || Act(c, ch).ctl.error == Refusal(c.state)
      || (c.state.ChunkSize? && Unhex(ch) != -1 && Act(c, ch).ctl.error == HPE_INVALID_CONTENT_LENGTH)
  }

  lemma RefusedHeader(c: Core, ch: byte)
    requires Sound(c) && OfHeaders(c.state)
    ensures AssertsHold(c) && Refused(c, ch)
  {
    hide MethodName, NameHeaderState, UrlChar, Match, LengthDigit, NameChar, FirstHeaderState, FirstMethod, OtherMethod;
    hide ShouldKeepAlive, NeedsEof, Token, Lower, FlagOf;
  }

  lemma RefusedBody(c: Core, ch: byte)
    requires Sound(c) && OfBodies(c.state)
    ensures AssertsHold(c) && Refused(c, ch)
  {
    hide MethodName, NameHeaderState, UrlChar, Match, LengthDigit, NameChar, FirstHeaderState, FirstMethod, OtherMethod;
    hide ShouldKeepAlive, NeedsEof, Token, Lower, FlagOf;
  }

  lemma RefusedChunk(c: Core, ch: byte)
    requires Sound(c) && ChunkState(c.state)
    ensures AssertsHold(c) && Refused(c, ch)
  {
    hide MethodName, NameHeaderState, UrlChar, Match, LengthDigit, NameChar, FirstHeaderState, FirstMethod, OtherMethod;
    hide ShouldKeepAlive, NeedsEof, Token, Lower, FlagOf;
  }

  lemma RefusedFirst(c: Core, ch: byte)
    requires Sound(c) && !OfHeaders(c.state) && !OfBodies(c.state) && !ChunkState(c.state)
    ensures AssertsHold(c) && Refused(c, ch)
  {
    hide MethodName, NameHeaderState, UrlChar, Match, LengthDigit, NameChar, FirstHeaderState, FirstMethod, OtherMethod;
    hide ShouldKeepAlive, NeedsEof, Token, Lower, FlagOf;
  }

  /** Every refusal of the switch is the one of its state. */
  lemma RefusedWith(c: Core, ch: byte)
    requires Sound(c)
    ensures AssertsHold(c)
    ensures Act(c, ch).ctl.Fail? ==>
              || Act(c, ch).ctl.error == Refusal(c.state)
              || (c.state.ChunkSize? && Unhex(ch) != -1 && Act(c, ch).ctl.error == HPE_INVALID_CONTENT_LENGTH)
  {
    hide Act, Sound, Refusal, OfHeaders, OfBodies, ChunkState, AssertsHold, Unhex;
    if OfHeaders(c.state) {
      RefusedHeader(c, ch);
    } else if OfBodies(c.state) {
      RefusedBody(c, ch);
    } else if ChunkState(c.state) {
      RefusedChunk(c, ch);
    } else {
      RefusedFirst(c, ch);
    }
  }
}
