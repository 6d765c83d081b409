/** The reference reading of a byte stream: every byte is stepped once, every callback is delivered
    at once, and neighbouring fragments of a field are joined. The invariant that keeps every
    assert() of http_parser_execute true is proved here for all streams. */
module HttpRun {
  import opened Ascii
  import opened HttpTypes
  import opened HttpAutomaton

  /** The field whose mark is set when a call starts in this state. */
  function FieldOf(s: State): (r: Option<Field>)
    ensures r.Some? ==> !r.value.Body?
  {
    if s.HeaderFieldName? then Some(HeaderField)
    else if s.HeaderValueText? then Some(HeaderValue)
    else if UrlHeadState(s) || UrlTailState(s) then Some(Url)
    else if s.ResStatus? then Some(Status)
    else None
  }

  /** The field the current byte is part of, if any. */
  function Owner(a: Action): Option<Field>
  {
    if a.ctl.Fail? then None
    else if a.emit.Some? then (if a.emit.value.Body? && a.ctl.Again? then a.emit else None)
    else if a.mark.Some? then a.mark
    else if a.ctl.Advance? then FieldOf(a.core.state)
    else None
  }

  /** What one entry delivers to the reference trace. A header value that is empty is delivered as an
      empty fragment. */
  function Deliver(trace: seq<Event>, a: Action, ch: byte): seq<Event>
  {
    var t := if Owner(a).Some? then Push(trace, Data(Owner(a).value, [ch]))
             else if a.mark.Some? && a.mark == a.emit then Push(trace, Data(a.mark.value, []))
             else trace;
    if a.note.Some? then Push(t, Notify(a.note.value)) else t
  }

  /** A bound on how often the same byte can still be looked at. */
  function Rank(s: State): nat
  {
    match s
    case HeaderValueLws => 3
    case HeaderFieldStart => 2
    case HeadersAlmostDone => 1
    case HeaderValueText => 1
    case StartReqOrRes => 1
    case BodyIdentity => 1
    case _ => 0
  }

  /** What is true of the parser struct in every reachable state, apart from its byte counter. */
  predicate Sound(c: Core)
    ensures Sound(c) ==> c.clen <= ULLONG_MAX
  {
    && c.clen <= ULLONG_MAX
    && match c.state
       case ReqMethod => c.index <= |MethodName(c.verb)|
       case HeaderFieldName => NameHeaderState(c.hstate)
       case HeaderValueText =>
         !c.hstate.Connection? && !c.hstate.TransferEncoding? && (c.hstate.ContentLength? ==> c.clen < ULLONG_MAX)
       case ChunkSizeStart => c.flags.chunked
       case ChunkSize => c.flags.chunked && c.clen < ULLONG_MAX
       case ChunkParameters => c.flags.chunked && c.clen < ULLONG_MAX
       case ChunkSizeAlmostDone => c.flags.chunked && c.clen < ULLONG_MAX
       case ChunkData => c.flags.chunked && 0 < c.clen < ULLONG_MAX
       case ChunkDataAlmostDone => c.flags.chunked && c.clen == 0
       case ChunkDataDone => c.flags.chunked
       case BodyIdentity => 0 < c.clen < ULLONG_MAX
       case _ => true
  }

  /** The states that read a body, as many bytes at a time as the call has. */
  predicate BulkState(s: State) { s.BodyIdentity? || s.BodyIdentityEof? || s.ChunkData? }

  /** The field that may have a pending mark in this state; a mark of one of the first four fields is
      always pending there, one of the body only if body bytes were read in the current call. */
  function MarkField(s: State): (r: Option<Field>)
    ensures FieldOf(s).Some? ==> r == FieldOf(s)
    ensures FieldOf(s).None? && r.Some? ==> r.value.Body?
    ensures BulkState(s) ==> r == Some(Body)
  {
    if BulkState(s) || s.ChunkDataAlmostDone? then Some(Body) else FieldOf(s)
  }

  /** The mark discipline of one entry: marks are set only where none other can be pending, every data
      callback finds its own mark and leaves no other behind, and a field's mark stays until its
      callback runs. */
  predicate Disciplined(c: Core, a: Action)
  {
    && (a.mark.Some? ==> MarkField(c.state).None? || (MarkField(c.state) == a.mark && a.mark.value.Body?))
    && (a.emit.Some? ==> a.note.None? && FieldOf(a.core.state).None? && (a.emit == a.mark || a.mark.None?)
                         && (a.mark.None? ==> a.emit == MarkField(c.state)))
    && (a.emit.Some? && a.emit.value.Body? ==> (a.ctl.Again? <==> a.mark.Some?))
    && (a.emit.None? && a.mark.Some? ==> a.ctl.Advance? && a.note.None? && MarkField(a.core.state) == a.mark)
    && (a.ctl.Again? ==> MarkField(a.core.state).None?)
    && (a.emit.None? && a.mark.None? ==>
          && MarkField(c.state) == FieldOf(c.state) == FieldOf(a.core.state)
          && (FieldOf(c.state).Some? ==> a.ctl.Advance? && a.note.None?))
  }

  /** How an entry may end: a byte is asked for again only in a state of smaller rank, at most once
      after a callback and never to be counted for the first time; the counter is reset before a chunk
      size; the upgrade flag goes up only on the way out. */
  predicate Orderly(c: Core, a: Action)
  {
    && (a.core.state.ChunkSizeStart? ==> a.zero && !a.ctl.Again?)
    && (a.ctl.Again? ==> Rank(a.core.state) < Rank(c.state) && !a.zero
                         && (ParsingHeader(a.core.state) ==> ParsingHeader(c.state)))
    && (a.ctl.Again? && (a.emit.Some? || a.note.Some?) ==> Rank(a.core.state) == 0)
    && (a.ctl.Exit? ==> a.note.Some? && a.core.upgrade)
    && (a.core.upgrade ==>
          a.ctl.Exit? || (a.ctl.Again? && a.core.state.HeadersDone?) || (c.upgrade && !c.state.HeadersDone?))
  }

  /** What an entry of the switch owes its surroundings. */
  predicate Good(c: Core, a: Action)
  {
    if a.ctl.Fail? then !a.ctl.error.HPE_OK? && !a.ctl.error.HPE_PAUSED? && !a.ctl.error.HPE_HEADER_OVERFLOW?
    else Sound(a.core) && Orderly(c, a) && Disciplined(c, a)
  }

  lemma StartGood(c: Core, ch: byte)
    requires Sound(c)
    ensures c.state.StartReqOrRes? ==> Good(c, ActStartReqOrRes(c, ch))
    ensures c.state.ResOrRespH? ==> Good(c, ActResOrRespH(c, ch))
    ensures c.state.StartRes? ==> Good(c, ActStartRes(c, ch))
    ensures c.state.StartReq? ==> Good(c, ActStartReq(c, ch))
  {
    hide MethodName, NameHeaderState, FirstMethod, IsAlpha;
  }

  lemma MethodGood(c: Core, ch: byte)
    requires Sound(c) && c.state.ReqMethod?
    ensures Good(c, ActMethod(c, ch))
  {
    hide NameHeaderState;
  }

  lemma UrlStartGood(c: Core, ch: byte)
    requires Sound(c) && c.state.ReqSpacesBeforeUrl?
    ensures Good(c, ActSpacesBeforeUrl(c, ch))
  {
    hide UrlChar, MethodName, NameHeaderState;
  }

  lemma UrlHeadGood(c: Core, ch: byte)
    requires Sound(c)
    ensures UrlHeadState(c.state) ==> Good(c, ActUrlHead(c, ch))
  {
    hide UrlChar, MethodName, NameHeaderState;
  }

  lemma UrlTailGood(c: Core, ch: byte)
    requires Sound(c)
    ensures UrlTailState(c.state) ==> Good(c, ActUrlTail(c, ch))
  {
    hide UrlChar, MethodName, NameHeaderState;
  }

  lemma NameGood(c: Core, ch: byte)
    requires Sound(c)
    ensures c.state.HeaderFieldStart? ==> Good(c, ActHeaderFieldStart(c, ch))
    ensures c.state.HeaderFieldName? ==> Good(c, ActHeaderField(c, ch))
  {
    hide NameChar, Token, FirstHeaderState, MethodName;
  }

  lemma ValueBlankGood(c: Core, ch: byte)
    requires Sound(c) && c.state.HeaderValueStart? && (ch == SP || ch == TAB || ch == CR || ch == LF)
    ensures Good(c, ActHeaderValueStart(c, ch))
  {
    hide MethodName, NameHeaderState, Lower;
  }

  lemma ValueTextGood(c: Core, ch: byte)
    requires Sound(c) && c.state.HeaderValueStart? && ch != SP && ch != TAB && ch != CR && ch != LF
    ensures Good(c, ActHeaderValueStart(c, ch))
  {
    hide MethodName, NameHeaderState, Lower;
  }

  lemma ValueStartGood(c: Core, ch: byte)
    requires Sound(c) && c.state.HeaderValueStart?
    ensures Good(c, ActHeaderValueStart(c, ch))
  {
    hide Sound, Good, ActHeaderValueStart;
    if ch == SP || ch == TAB || ch == CR || ch == LF { ValueBlankGood(c, ch); } else { ValueTextGood(c, ch); }
  }

  lemma ValueGood(c: Core, ch: byte)
    requires Sound(c) && c.state.HeaderValueText?
    ensures Good(c, ActHeaderValue(c, ch))
  {
    hide Match, LengthDigit, Lower, MethodName, NameHeaderState;
  }

  lemma HeaderLineEndGood(c: Core, ch: byte)
    requires Sound(c)
    ensures c.state.HeaderAlmostDone? ==> Good(c, ActHeaderAlmostDone(c, ch))
    ensures c.state.HeaderValueLws? ==> Good(c, ActHeaderValueLws(c, ch))
  {
    hide MethodName, NameHeaderState, FlagOf;
  }

  lemma HeadersAlmostDoneGood(c: Core, ch: byte)
    requires Sound(c)
    ensures c.state.HeadersAlmostDone? ==> Good(c, ActHeadersAlmostDone(c, ch))
  {
    hide MethodName, NameHeaderState, ShouldKeepAlive, NeedsEof;
  }

  lemma HeadersDoneGood(c: Core, ch: byte)
    requires Sound(c)
    ensures c.state.HeadersDone? ==> Good(c, ActHeadersDone(c, ch))
    ensures c.state.MessageDone? ==> Good(c, Finish(c))
  {
    hide MethodName, NameHeaderState, ShouldKeepAlive, NeedsEof;
  }

  lemma ChunkSizeGood(c: Core, ch: byte)
    requires Sound(c)
    ensures c.state.ChunkSizeStart? ==> Good(c, ActChunkSizeStart(c, ch))
    ensures c.state.ChunkSize? ==> Good(c, ActChunkSize(c, ch))
  {
    hide MethodName, NameHeaderState, Unhex, LengthDigit;
  }

  lemma ChunkLineGood(c: Core, ch: byte)
    requires Sound(c)
    ensures c.state.ChunkParameters? ==> Good(c, ActChunkParameters(c, ch))
    ensures c.state.ChunkSizeAlmostDone? ==> Good(c, ActChunkSizeAlmostDone(c, ch))
  {
    hide MethodName, NameHeaderState, Unhex, LengthDigit;
  }

  lemma ChunkEndGood(c: Core, ch: byte)
    requires Sound(c)
    ensures c.state.ChunkDataAlmostDone? ==> Good(c, ActChunkDataAlmostDone(c, ch))
    ensures c.state.ChunkDataDone? ==> Good(c, ActChunkDataDone(c, ch))
  {
    hide MethodName, NameHeaderState;
  }

  lemma BodyGood(c: Core, ch: byte)
    requires Sound(c)
    ensures c.state.ChunkData? ==> Good(c, ActChunkData(c, ch))
    ensures c.state.BodyIdentity? ==> Good(c, ActBodyIdentity(c, ch))
    ensures c.state.BodyIdentityEof? ==> Good(c, MarkAt(c, Body))
  {
    hide MethodName, NameHeaderState;
  }

  /** States without a field in progress and without a condition of their own. */
  predicate Plain(s: State)
  {
    !(s.ReqMethod? || s.HeaderFieldName? || s.HeaderValueText? || s.ResStatus? || ChunkState(s) || s.HeadersDone?
      || s.BodyIdentity? || s.BodyIdentityEof? || UrlHeadState(s) || UrlTailState(s))
  }

  /** An entry that only moves between such states. */
  lemma PlainGood(c: Core, a: Action)
    requires Plain(c.state) && Plain(a.core.state) && a.core.clen <= ULLONG_MAX
    requires a.mark.None? && a.emit.None? && (a.ctl.Again? ==> Rank(a.core.state) < Rank(c.state) && !a.zero)
              && !a.ctl.Exit?
    requires a.ctl.Again? ==> a.note.None? && ParsingHeader(c.state)
    requires a.core.upgrade == c.upgrade
    requires a.ctl.Fail? ==> !a.ctl.error.HPE_OK? && !a.ctl.error.HPE_PAUSED? && !a.ctl.error.HPE_HEADER_OVERFLOW?
    ensures Good(c, a)
  {
    hide MethodName, NameHeaderState;
  }

  lemma FirstMajorGood(c: Core, ch: byte, least: byte, s: State)
    requires Sound(c) && Plain(c.state) && Plain(s) && least >= 48
    ensures Good(c, ActFirstMajor(c, ch, least, s))
  {
    hide Sound, Good, Plain, Rank;
    PlainGood(c, ActFirstMajor(c, ch, least, s));
  }

  lemma MajorGood(c: Core, ch: byte, s: State)
    requires Sound(c) && Plain(c.state) && Plain(s)
    ensures Good(c, ActMajor(c, ch, s))
  {
    hide Sound, Good, Plain, Rank;
    PlainGood(c, ActMajor(c, ch, s));
  }

  lemma FirstMinorGood(c: Core, ch: byte, s: State)
    requires Sound(c) && Plain(c.state) && Plain(s)
    ensures Good(c, ActFirstMinor(c, ch, s))
  {
    hide Sound, Good, Plain, Rank;
    PlainGood(c, ActFirstMinor(c, ch, s));
  }

  lemma MinorGood(c: Core, ch: byte)
    requires Sound(c)
    ensures c.state.ResMinor? ==> Good(c, ActResMinor(c, ch))
    ensures c.state.ReqMinor? ==> Good(c, ActReqMinor(c, ch))
  {
    hide Sound, Good, Rank;
    if c.state.ResMinor? { PlainGood(c, ActResMinor(c, ch)); }
    if c.state.ReqMinor? { PlainGood(c, ActReqMinor(c, ch)); }
  }

  lemma StatusCodeGood(c: Core, ch: byte)
    requires Sound(c)
    ensures c.state.ResFirstStatusCode? ==> Good(c, ActFirstStatusCode(c, ch))
    ensures c.state.ResStatusCode? ==> Good(c, ActStatusCode(c, ch))
  {
    hide MethodName, NameHeaderState;
  }

  lemma StatusTextGood(c: Core, ch: byte)
    requires Sound(c)
    ensures c.state.ResStatusStart? ==> Good(c, ActStatusStart(c, ch))
    ensures c.state.ResStatus? ==> Good(c, ActStatus(c, ch))
  {
    hide MethodName, NameHeaderState;
  }

  lemma RequestLineGood(c: Core, ch: byte)
    requires Sound(c)
    ensures c.state.ReqHttpStart? ==> Good(c, ActReqHttpStart(c, ch))
    ensures c.state.ReqLineAlmostDone? ==> Good(c, ActReqLineAlmostDone(c, ch))
  {
    hide MethodName, NameHeaderState;
  }

  lemma ConstantGood(c: Core, ch: byte, want: byte, s: State)
    requires Sound(c) && Plain(c.state) && Plain(s)
    ensures Good(c, Expect(c, ch, want, s))
  {
    hide MethodName, NameHeaderState, Good;
    PlainGood(c, Expect(c, ch, want, s));
  }

  lemma AssertsKept(c: Core)
    requires Sound(c)
    ensures AssertsHold(c)
  {
    hide MethodName, NameHeaderState;
  }

  predicate VersionState(s: State)
  {
    || s.ResFirstMajor? || s.ResMajor? || s.ResFirstMinor? || s.ResMinor?
    || s.ReqFirstMajor? || s.ReqMajor? || s.ReqFirstMinor? || s.ReqMinor?
  }

  predicate ConstantState(s: State)
  {
    || s.Dead? || s.ResH? || s.ResHT? || s.ResHTT? || s.ResHTTP? || s.ResLineAlmostDone?
    || s.ReqHttpH? || s.ReqHttpHT? || s.ReqHttpHTT? || s.ReqHttpHTTP?
  }

  lemma ConstantsKeep(c: Core, ch: byte)
    requires Sound(c) && ConstantState(c.state) && AssertsHold(c)
    ensures Good(c, Act(c, ch))
  {
    hide AssertsHold, Sound, Good, Rank, Expect;
    match c.state
    case Dead => PlainGood(c, Act(c, ch));
    case ResH => ConstantGood(c, ch, 84, ResHT);
    case ResHT => ConstantGood(c, ch, 84, ResHTT);
    case ResHTT => ConstantGood(c, ch, 80, ResHTTP);
    case ResHTTP => ConstantGood(c, ch, 47, ResFirstMajor);
    case ResLineAlmostDone => ConstantGood(c, ch, LF, HeaderFieldStart);
    case ReqHttpH => ConstantGood(c, ch, 84, ReqHttpHT);
    case ReqHttpHT => ConstantGood(c, ch, 84, ReqHttpHTT);
    case ReqHttpHTT => ConstantGood(c, ch, 80, ReqHttpHTTP);
    case ReqHttpHTTP => ConstantGood(c, ch, 47, ReqFirstMajor);
  }

  lemma VersionsKeep(c: Core, ch: byte)
    requires Sound(c) && VersionState(c.state) && AssertsHold(c)
    ensures Good(c, Act(c, ch))
  {
    hide AssertsHold, Sound, Good, Rank, ActFirstMajor, ActMajor, ActFirstMinor, ActResMinor, ActReqMinor;
    match c.state
    case ResFirstMajor => FirstMajorGood(c, ch, 48, ResMajor);
    case ResMajor => MajorGood(c, ch, ResFirstMinor);
    case ResFirstMinor => FirstMinorGood(c, ch, ResMinor);
    case ResMinor => MinorGood(c, ch);
    case ReqFirstMajor => FirstMajorGood(c, ch, 49, ReqMajor);
    case ReqMajor => MajorGood(c, ch, ReqFirstMinor);
    case ReqFirstMinor => FirstMinorGood(c, ch, ReqMinor);
    case ReqMinor => MinorGood(c, ch);
  }

  /** Every entry of the switch, from every state the invariant allows. */
  lemma ActKeeps(c: Core, ch: byte)
    requires Sound(c)
    ensures AssertsHold(c)
    ensures Good(c, Act(c, ch))
  {
    hide AssertsHold, Sound, Good, Rank;
    hide ActStartReqOrRes, ActResOrRespH, ActStartRes, ActStartReq, ActMethod, ActSpacesBeforeUrl, ActUrlHead;
    hide ActUrlTail;
    hide ActFirstStatusCode, ActStatusCode, ActStatusStart, ActStatus, ActReqHttpStart, ActReqLineAlmostDone;
    hide ActHeaderFieldStart, ActHeaderField, ActHeaderValueStart, ActHeaderValue, ActHeaderAlmostDone;
    hide ActHeaderValueLws, ActHeadersAlmostDone, ActHeadersDone, Finish;
    hide ActChunkSizeStart, ActChunkSize, ActChunkParameters, ActChunkSizeAlmostDone;
    hide ActChunkData, ActChunkDataAlmostDone, ActChunkDataDone, ActBodyIdentity, MarkAt;
    AssertsKept(c);
    if ConstantState(c.state) {
      ConstantsKeep(c, ch);
    } else if VersionState(c.state) {
      VersionsKeep(c, ch);
    } else {
      match c.state
      case ReqMethod => MethodGood(c, ch);
      case ReqSpacesBeforeUrl => UrlStartGood(c, ch);
      case HeaderFieldStart => NameGood(c, ch);
      case HeaderFieldName => NameGood(c, ch);
      case HeaderValueStart => ValueStartGood(c, ch);
      case HeaderValueText => ValueGood(c, ch);
      case _ =>
        StartGood(c, ch);
        UrlHeadGood(c, ch);
        UrlTailGood(c, ch);
        StatusCodeGood(c, ch);
        StatusTextGood(c, ch);
        RequestLineGood(c, ch);
        HeaderLineEndGood(c, ch);
        HeadersAlmostDoneGood(c, ch);
        HeadersDoneGood(c, ch);
        ChunkSizeGood(c, ch);
        ChunkLineGood(c, ch);
        ChunkEndGood(c, ch);
        BodyGood(c, ch);
    }
  }

  // ----- one byte, and a stream of them -----

  datatype Stop = Running | Failed(error: Errno) | Upgraded

  /** The parser struct with its byte counter, the joined trace of everything delivered so far, and
      whether the parser has stopped. */
  datatype Machine = Machine(core: Core, nread: nat, trace: seq<Event>, stop: Stop)

  /** The trace ends with a fragment of the field the state is in the middle of. */
  predicate InField(s: State, trace: seq<Event>)
  {
    FieldOf(s).Some? ==>
      |trace| > 0 && trace[|trace| - 1].Data? && trace[|trace| - 1].field == FieldOf(s).value
  }

  /** The invariant between two bytes. */
  predicate Ready(m: Machine)
  {
    m.stop.Running? ==>
      && Sound(m.core) && m.nread <= MAX_HEADER_SIZE && (m.core.state.ChunkSizeStart? ==> m.nread == 0)
      && InField(m.core.state, m.trace)
  }

  /** The assert(parser->nread == 1) of s_chunk_size_start. */
  predicate CountedOne(c: Core, nread: nat) { c.state.ChunkSizeStart? ==> nread == 1 }

  lemma DeliverInField(c: Core, a: Action, trace: seq<Event>, ch: byte)
    requires Disciplined(c, a) && !a.ctl.Fail? && InField(c.state, trace)
    ensures InField(a.core.state, Deliver(trace, a, ch))
  {
    hide FieldOf, MarkField;
  }

  /** The entries of the switch for one byte: `reexecute_byte` until something else happens. */
  function Chain(c: Core, nread: nat, trace: seq<Event>, ch: byte): (m: Machine)
    requires Sound(c) && nread <= MAX_HEADER_SIZE && CountedOne(c, nread) && InField(c.state, trace)
    ensures Ready(m)
    decreases Rank(c.state)
  {
    ActKeeps(c, ch);
    var a := Act(c, ch);
    if a.ctl.Fail? then Machine(a.core, nread, trace, Failed(a.ctl.error))
    else
      DeliverInField(c, a, trace, ch);
      var t := Deliver(trace, a, ch);
      var n := if a.zero then 0 else nread;
      match a.ctl
      case Advance => Machine(a.core, n, t, Running)
      case Exit => Machine(a.core, n, t, Upgraded)
      case Again => Chain(a.core, n, t, ch)
  }

  /** The byte counter, which runs only while headers are read. */
  function Counted(c: Core, nread: nat): nat { if ParsingHeader(c.state) then nread + 1 else nread }

  function Step(m: Machine, ch: byte): (r: Machine)
    requires Ready(m)
    ensures Ready(r)
  {
    if !m.stop.Running? then m
    else
      var n := Counted(m.core, m.nread);
      if n > MAX_HEADER_SIZE then Machine(m.core, n, m.trace, Failed(HPE_HEADER_OVERFLOW))
      else Chain(m.core, n, m.trace, ch)
  }

  /** All bytes of a stream, in order; bytes after the machine stopped are not looked at. */
  function Run(m: Machine, data: bytes): (r: Machine)
    requires Ready(m)
    ensures Ready(r)
    decreases |data|
  {
    if data == [] then m else Step(Run(m, data[..|data| - 1]), data[|data| - 1])
  }

  /** How many bytes of a stream the machine takes: a failing byte is not taken, the byte that
      completes an upgrade is. */
  function Taken(m: Machine, data: bytes): (n: nat)
    requires Ready(m)
    ensures n <= |data|
    decreases |data|
  {
    if data == [] then 0
    else
      var before := Run(m, data[..|data| - 1]);
      if !before.stop.Running? then Taken(m, data[..|data| - 1])
      else if Run(m, data).stop.Failed? then |data| - 1
      else |data|
  }

  /** Reading a stream in two parts is reading it whole. */
  lemma {:induction false} RunConcat(m: Machine, a: bytes, b: bytes)
    requires Ready(m)
    ensures Run(m, a + b) == Run(Run(m, a), b)
    ensures Taken(m, a + b) == if Run(m, a).stop.Running? then |a| + Taken(Run(m, a), b) else Taken(m, a)
    decreases |b|
  {
    hide Step, Ready;
    if b == [] {
      assert a + b == a;
      RunningTakesAll(m, a);
    } else {
      var ab := a + b;
      assert ab[..|ab| - 1] == a + b[..|b| - 1];
      assert ab[|ab| - 1] == b[|b| - 1];
      RunConcat(m, a, b[..|b| - 1]);
      RunningTakesAll(m, a);
      if !Run(m, a).stop.Running? { StepStopped(Run(m, a), b[|b| - 1]); }
      StoppedStays(Run(m, a), b);
      StoppedStays(Run(m, a), b[..|b| - 1]);
    }
  }

  lemma StepStopped(m: Machine, ch: byte)
    requires Ready(m) && !m.stop.Running?
    ensures Step(m, ch) == m
  {}

  lemma {:induction false} StoppedStays(m: Machine, data: bytes)
    requires Ready(m)
    ensures !m.stop.Running? ==> Run(m, data) == m && Taken(m, data) == 0
    decreases |data|
  {
    hide Chain, Ready;
    if data != [] { StoppedStays(m, data[..|data| - 1]); }
  }

  lemma {:induction false} RunningTakesAll(m: Machine, data: bytes)
    requires Ready(m)
    ensures Run(m, data).stop.Running? ==> Taken(m, data) == |data|
    decreases |data|
  {
    hide Chain, Ready;
    if data != [] { RunningTakesAll(m, data[..|data| - 1]); }
  }

  /** A failing byte is never taken. */
  lemma {:induction false} FailedTakesLess(m: Machine, data: bytes)
    requires Ready(m) && m.stop.Running? && Run(m, data).stop.Failed?
    ensures Taken(m, data) < |data|
    decreases |data|
  {
    hide Chain, Ready;
    if !Run(m, data[..|data| - 1]).stop.Running? { FailedTakesLess(m, data[..|data| - 1]); }
  }

  /** The upgrade flag is raised only by the byte that also stops the parser, and a failure is never
      reported as success or as a pause. */
  predicate Settled(m: Machine)
  {
    match m.stop
    case Running => !m.core.upgrade
    case Upgraded => m.core.upgrade
    case Failed(e) => !e.HPE_OK? && !e.HPE_PAUSED?
  }

  lemma {:induction false} ChainSettles(c: Core, nread: nat, trace: seq<Event>, ch: byte)
    requires Sound(c) && nread <= MAX_HEADER_SIZE && CountedOne(c, nread) && InField(c.state, trace)
    requires c.upgrade ==> c.state.HeadersDone?
    ensures Settled(Chain(c, nread, trace, ch))
    decreases Rank(c.state)
  {
    hide Sound, Act, Deliver, Disciplined;
    ActKeeps(c, ch);
    var a := Act(c, ch);
    if !a.ctl.Fail? {
      DeliverInField(c, a, trace, ch);
      if a.ctl.Again? { ChainSettles(a.core, if a.zero then 0 else nread, Deliver(trace, a, ch), ch); }
    }
  }

  lemma {:induction false} RunSettles(m: Machine, data: bytes)
    requires Ready(m) && Settled(m)
    ensures Settled(Run(m, data))
    decreases |data|
  {
    hide Sound, Chain;
    if data != [] {
      RunSettles(m, data[..|data| - 1]);
      var r := Run(m, data[..|data| - 1]);
      if r.stop.Running? && Counted(r.core, r.nread) <= MAX_HEADER_SIZE {
        ChainSettles(r.core, Counted(r.core, r.nread), r.trace, data[|data| - 1]);
      }
    }
  }

  /** http_parser_init: every field zero except the type and the start state. */
  function Init(t: ParserType): (m: Machine)
    ensures m.stop.Running? && Ready(m) && Settled(m)
  {
    var s := if t.Request? then StartReq else if t.Response? then StartRes else StartReqOrRes;
    Machine(Core(t, NO_FLAGS, s, General, 0, 0, 0, 0, 0, DELETE, false), 0, [], Running)
  }
}
