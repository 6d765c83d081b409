/** The URLs the parser delivers: whatever the stream, each is a text that parse_url_char gets through,
    from the start that the request's own method selects. */
module HttpUrls {
  import opened Ascii
  import opened HttpTypes
  import opened HttpAutomaton
  import opened HttpRun
  import opened HttpWords
  import opened HttpHeaders
  import opened HttpChunks
  import opened HttpRequests

  predicate UrlState(s: State) { UrlHeadState(s) || UrlTailState(s) }

  /** The states in which a request has begun and its URL has not. */
  predicate Opening(s: State) { s.ResOrRespH? || s.ReqMethod? || s.ReqSpacesBeforeUrl? }

  /** An entry that delivers nothing. */
  predicate Silent(a: Action) { Owner(a).None? && a.mark.None? && a.note.None? }

  /** What an entry may do to URLs and methods: a byte of a URL is one more step of parse_url_char; a URL
      ends only where one may; the method changes only before the URL or with the report of a new
      message. */
  predicate UrlRule(c: Core, a: Action, ch: byte)
  {
    if a.ctl.Fail? then true
    else if Owner(a) == Some(Url) then
      && (c.state.ReqSpacesBeforeUrl? || UrlState(c.state)) && a.note.None? && !a.core.state.Dead?
      && a.core == c.(state := UrlChar(if c.state.ReqSpacesBeforeUrl? then UrlStart(c.verb) else c.state, ch))
    else
      && !UrlState(a.core.state) && a.mark != Some(Url)
      && (UrlState(c.state) ==> UrlTailState(c.state) && a.core.verb == c.verb && Silent(a))
      && (a.core.verb != c.verb ==> Opening(c.state) || a.note == Some(MessageBegin))
      && (Opening(a.core.state) ==> a.note == Some(MessageBegin) || (Opening(c.state) && Silent(a)))
  }

  /** Every entry that leaves URL and method alone. */
  predicate Apart(c: Core, a: Action)
  {
    || a.ctl.Fail?
    || (!UrlState(a.core.state) && !Opening(a.core.state) && a.core.verb == c.verb && Owner(a) != Some(Url)
        && a.mark != Some(Url))
  }

  lemma ApartRule(c: Core, a: Action, ch: byte)
    requires Apart(c, a) && !UrlState(c.state)
    ensures UrlRule(c, a, ch)
  {
    hide UrlChar, Owner, UrlStart;
  }

  lemma StartRule(c: Core, ch: byte)
    ensures c.state.StartReqOrRes? ==> UrlRule(c, ActStartReqOrRes(c, ch), ch)
    ensures c.state.ResOrRespH? ==> UrlRule(c, ActResOrRespH(c, ch), ch)
    ensures c.state.StartRes? ==> UrlRule(c, ActStartRes(c, ch), ch)
    ensures c.state.StartReq? ==> UrlRule(c, ActStartReq(c, ch), ch)
  {
    hide FirstMethod, IsAlpha, UrlChar, UrlStart;
  }

  lemma MethodRule(c: Core, ch: byte)
    requires c.index <= |MethodName(c.verb)| && c.state.ReqMethod?
    ensures UrlRule(c, ActMethod(c, ch), ch)
  {
    hide MethodName, OtherMethod, CharAt, UrlChar, UrlStart;
  }

  lemma UrlRules(c: Core, ch: byte)
    ensures c.state.ReqSpacesBeforeUrl? ==> UrlRule(c, ActSpacesBeforeUrl(c, ch), ch)
    ensures UrlHeadState(c.state) ==> UrlRule(c, ActUrlHead(c, ch), ch)
    ensures UrlTailState(c.state) ==> UrlRule(c, ActUrlTail(c, ch), ch)
  {
    hide UrlChar;
  }

  lemma NameApart(c: Core, ch: byte)
    ensures Apart(c, ActHeaderFieldStart(c, ch)) && (c.state.HeaderFieldName? ==> Apart(c, ActHeaderField(c, ch)))
  {
    hide Token, NameChar, FirstHeaderState;
  }

  lemma ValueApart(c: Core, ch: byte)
    ensures c.state.HeaderValueStart? ==> Apart(c, ActHeaderValueStart(c, ch))
    ensures c.state.HeaderValueText? ==> Apart(c, ActHeaderValue(c, ch))
  {
    hide Lower, Match, LengthDigit;
  }

  lemma LineApart(c: Core, ch: byte)
    ensures Apart(c, ActHeaderAlmostDone(c, ch)) && Apart(c, ActHeaderValueLws(c, ch))
              && Apart(c, ActHeadersAlmostDone(c, ch))
    ensures Apart(c, ActHeadersDone(c, ch)) && Apart(c, Finish(c))
  {
    hide FlagOf, ShouldKeepAlive, NeedsEof;
  }

  lemma ChunkApart(c: Core, ch: byte)
    ensures Apart(c, ActChunkSizeStart(c, ch)) && (c.state.ChunkSize? ==> Apart(c, ActChunkSize(c, ch)))
    ensures c.state.ChunkParameters? ==> Apart(c, ActChunkParameters(c, ch))
  {
    hide Unhex, LengthDigit;
  }

  lemma ChunkEndApart(c: Core, ch: byte)
    ensures Apart(c, ActChunkSizeAlmostDone(c, ch)) && Apart(c, ActChunkDataAlmostDone(c, ch))
              && Apart(c, ActChunkDataDone(c, ch))
  {}

  lemma BodyApart(c: Core, ch: byte)
    ensures c.clen > 0 && c.state.ChunkData? ==> Apart(c, ActChunkData(c, ch))
    ensures c.clen > 0 && c.state.BodyIdentity? ==> Apart(c, ActBodyIdentity(c, ch))
    ensures c.state.BodyIdentityEof? ==> Apart(c, MarkAt(c, Body))
  {}

  lemma StatusApart(c: Core, ch: byte)
    ensures c.state.ResFirstStatusCode? ==> Apart(c, ActFirstStatusCode(c, ch))
    ensures c.state.ResStatusCode? ==> Apart(c, ActStatusCode(c, ch))
    ensures c.state.ResStatusStart? ==> Apart(c, ActStatusStart(c, ch))
    ensures c.state.ResStatus? ==> Apart(c, ActStatus(c, ch))
  {}

  lemma RequestApart(c: Core, ch: byte)
    ensures c.state.ReqHttpStart? ==> Apart(c, ActReqHttpStart(c, ch))
    ensures c.state.ReqLineAlmostDone? ==> Apart(c, ActReqLineAlmostDone(c, ch))
    ensures c.state.ResMinor? ==> Apart(c, ActResMinor(c, ch))
    ensures c.state.ReqMinor? ==> Apart(c, ActReqMinor(c, ch))
  {}

  /** An entry that delivers nothing and moves to a given state, or stays, or fails. */
  lemma MoveApart(c: Core, a: Action)
    requires a.ctl.Fail? || (!UrlState(a.core.state) && !Opening(a.core.state) && a.core.verb == c.verb
              && a.mark.None? && a.emit.None?)
    ensures Apart(c, a)
  {}

  /** The states that only compare a byte with a constant or read a digit of a version. */
  lemma ConstantApart(c: Core, ch: byte)
    requires ConstantState(c.state) && AssertsHold(c)
    ensures Apart(c, Act(c, ch))
  {
    hide Apart, AssertsHold;
    MoveApart(c, Act(c, ch));
  }

  lemma VersionApart(c: Core, ch: byte)
    requires VersionState(c.state) && AssertsHold(c)
    ensures Apart(c, Act(c, ch))
  {
    hide Apart, AssertsHold;
    MoveApart(c, Act(c, ch));
  }

  /** Every entry of the switch obeys the rule. */
  lemma ActObeys(c: Core, ch: byte)
    requires AssertsHold(c)
    ensures UrlRule(c, Act(c, ch), ch)
  {
    hide UrlRule, Apart, MethodName, NameHeaderState;
    hide ActStartReqOrRes, ActResOrRespH, ActStartRes, ActStartReq, ActMethod, ActSpacesBeforeUrl, ActUrlHead;
    hide ActUrlTail;
    hide ActFirstStatusCode, ActStatusCode, ActStatusStart, ActStatus, ActReqHttpStart, ActReqLineAlmostDone;
    hide ActHeaderFieldStart, ActHeaderField, ActHeaderValueStart, ActHeaderValue, ActHeaderAlmostDone;
    hide ActHeaderValueLws, ActHeadersAlmostDone, ActHeadersDone, Finish, Expect, ActMajor, ActFirstMajor;
    hide ActChunkSizeStart, ActChunkSize, ActChunkParameters, ActChunkSizeAlmostDone, ActFirstMinor;
    hide ActChunkData, ActChunkDataAlmostDone, ActChunkDataDone, ActBodyIdentity, MarkAt, ActResMinor, ActReqMinor;
    if c.state.ReqMethod? {
      MethodRule(c, ch);
    } else if c.state.ReqSpacesBeforeUrl? || UrlState(c.state) {
      UrlRules(c, ch);
    } else if c.state.StartReqOrRes? || c.state.ResOrRespH? || c.state.StartRes? || c.state.StartReq? {
      StartRule(c, ch);
    } else {
      if ConstantState(c.state) {
        ConstantApart(c, ch);
      } else if VersionState(c.state) {
        VersionApart(c, ch);
      } else {
        NameApart(c, ch);
        ValueApart(c, ch);
        LineApart(c, ch);
        ChunkApart(c, ch);
        ChunkEndApart(c, ch);
        BodyApart(c, ch);
        StatusApart(c, ch);
        RequestApart(c, ch);
      }
      ApartRule(c, Act(c, ch), ch);
    }
  }

  // ----- what the trace says -----

  /** A text that parse_url_char gets through from the start a method selects. */
  predicate Scans(v: Method, u: bytes) { u != [] && !Walk(UrlStart(v), u).Dead? }

  predicate IsUrlEvent(e: Event) { e.Data? && e.field.Url? }

  /** The URL of the message that was begun last. */
  function LastUrl(trace: seq<Event>): Option<bytes>
  {
    if trace == [] || trace[|trace| - 1] == Notify(MessageBegin) then None
    else if IsUrlEvent(trace[|trace| - 1]) then Some(trace[|trace| - 1].text)
    else LastUrl(trace[..|trace| - 1])
  }

  ghost predicate AllScan(trace: seq<Event>)
  {
    forall i :: 0 <= i < |trace| && IsUrlEvent(trace[i]) ==> exists v :: Scans(v, trace[i].text)
  }

  /** Every URL delivered so far scans; the one being read has led parse_url_char to the parser's state; the
      one of the current message ended where a URL may end. */
  ghost predicate UrlsScan(c: Core, trace: seq<Event>)
  {
    && AllScan(trace)
    && (Opening(c.state) ==> trace != [] && trace[|trace| - 1] == Notify(MessageBegin))
    && (UrlState(c.state) ==>
          && trace != [] && IsUrlEvent(trace[|trace| - 1]) && trace[|trace| - 1].text != []
          && Walk(UrlStart(c.verb), trace[|trace| - 1].text) == c.state)
    && (!UrlState(c.state) && LastUrl(trace).Some? ==> UrlTailState(Walk(UrlStart(c.verb), LastUrl(trace).value)))
  }

  /** What other events do to it. */
  lemma OtherPush(trace: seq<Event>, e: Event)
    requires !IsUrlEvent(e)
    ensures LastUrl(Push(trace, e)) == if e == Notify(MessageBegin) then None else LastUrl(trace)
    ensures AllScan(trace) ==> AllScan(Push(trace, e))
  {
    hide Scans;
    var p := Push(trace, e);
    var n := |trace|;
    if e.Data? && n > 0 && trace[n - 1].Data? && trace[n - 1].field == e.field {
      assert p[..|p| - 1] == trace[..n - 1];
    } else {
      assert p[..|p| - 1] == trace;
    }
    if AllScan(trace) {
      forall i | 0 <= i < |p| && IsUrlEvent(p[i]) ensures exists v :: Scans(v, p[i].text) {
        assert i < n && p[i] == trace[i];
      }
    }
  }

  lemma WalkMore(s: State, u: bytes, ch: byte)
    ensures Walk(s, u + [ch]) == UrlChar(Walk(s, u), ch) && Walk(s, []) == s
  {
    assert (u + [ch])[..|u|] == u;
  }

  /** One more byte of a URL. */
  lemma UrlByteScans(c: Core, a: Action, trace: seq<Event>, ch: byte)
    requires UrlRule(c, a, ch) && UrlsScan(c, trace) && !a.ctl.Fail? && Owner(a) == Some(Url)
    ensures UrlsScan(a.core, Deliver(trace, a, ch))
  {
    hide UrlChar, UrlStart, UrlHeadState, UrlTailState, Walk, Owner;
    var t := Push(trace, Data(Url, [ch]));
    assert Deliver(trace, a, ch) == t;
    var n, v := |trace|, c.verb;
    if UrlState(c.state) {
      var u := trace[n - 1].text;
      WalkMore(UrlStart(v), u, ch);
      assert t == trace[..n - 1] + [Data(Url, u + [ch])];
    } else {
      WalkMore(UrlStart(v), [], ch);
      assert [] + [ch] == [ch];
      assert t == trace + [Data(Url, [ch])];
    }
    var u := t[|t| - 1].text;
    assert Scans(v, u);
    assert UrlState(a.core.state) && !Opening(a.core.state) by { NeverBoth(c, a, ch); }
    forall i | 0 <= i < |t| && IsUrlEvent(t[i]) ensures exists w :: Scans(w, t[i].text) {
      if i < |t| - 1 { assert t[i] == trace[i]; }
    }
  }

  lemma NeverBoth(c: Core, a: Action, ch: byte)
    requires UrlRule(c, a, ch) && !a.ctl.Fail? && Owner(a) == Some(Url)
    ensures UrlState(a.core.state) && !Opening(a.core.state)
  {
    hide UrlChar, UrlStart;
  }

  /** Every other entry. */
  lemma OtherEntryScans(c: Core, a: Action, trace: seq<Event>, ch: byte)
    requires UrlRule(c, a, ch) && UrlsScan(c, trace) && !a.ctl.Fail? && Owner(a) != Some(Url)
    ensures UrlsScan(a.core, Deliver(trace, a, ch))
  {
    hide UrlChar, UrlStart, UrlHeadState, UrlTailState, Walk, Owner, AllScan, LastUrl, Push;
    var t := if Owner(a).Some? then Push(trace, Data(Owner(a).value, [ch]))
             else if a.mark.Some? && a.mark == a.emit then Push(trace, Data(a.mark.value, []))
             else trace;
    if Owner(a).Some? { OtherPush(trace, Data(Owner(a).value, [ch])); }
    if a.mark.Some? { OtherPush(trace, Data(a.mark.value, [])); }
    if a.note.Some? {
      OtherPush(t, Notify(a.note.value));
      assert Push(t, Notify(a.note.value)) == t + [Notify(a.note.value)] by { NotePush(t, a.note.value); }
    }
    if Opening(c.state) { assert LastUrl(trace).None? by { NoneAfterBegin(trace); } }
    if UrlState(c.state) { assert LastUrl(trace) == Some(trace[|trace| - 1].text) by { UrlIsLast(trace); } }
  }

  lemma NotePush(t: seq<Event>, n: Note)
    ensures Push(t, Notify(n)) == t + [Notify(n)]
  {}

  lemma NoneAfterBegin(trace: seq<Event>)
    requires trace != [] && trace[|trace| - 1] == Notify(MessageBegin)
    ensures LastUrl(trace).None?
  {}

  lemma UrlIsLast(trace: seq<Event>)
    requires trace != [] && IsUrlEvent(trace[|trace| - 1])
    ensures LastUrl(trace) == Some(trace[|trace| - 1].text)
  {}

  /** What is true of a machine, running, upgraded or failed. */
  ghost predicate Delivered(m: Machine) { if m.stop.Failed? then AllScan(m.trace) else UrlsScan(m.core, m.trace) }

  lemma {:induction false} ChainDelivers(c: Core, nread: nat, trace: seq<Event>, ch: byte)
    requires Sound(c) && nread <= MAX_HEADER_SIZE && CountedOne(c, nread) && InField(c.state, trace)
    requires UrlsScan(c, trace)
    ensures Delivered(Chain(c, nread, trace, ch))
    decreases Rank(c.state)
  {
    hide Sound, Act, Deliver, Disciplined, UrlRule, AllScan, LastUrl;
    ActKeeps(c, ch);
    ActObeys(c, ch);
    var a := Act(c, ch);
    if !a.ctl.Fail? {
      DeliverInField(c, a, trace, ch);
      if Owner(a) == Some(Url) { UrlByteScans(c, a, trace, ch); } else { OtherEntryScans(c, a, trace, ch); }
      if a.ctl.Again? { ChainDelivers(a.core, nread, Deliver(trace, a, ch), ch); }
    }
  }

  lemma {:induction false} RunDelivers(m: Machine, data: bytes)
    requires Ready(m) && Delivered(m)
    ensures Delivered(Run(m, data))
    decreases |data|
  {
    hide Sound, Chain, UrlsScan, AllScan, InField;
    if data != [] {
      var init := data[..|data| - 1];
      RunDelivers(m, init);
      var r := Run(m, init);
      if r.stop.Running? {
        if Counted(r.core, r.nread) <= MAX_HEADER_SIZE {
          ChainDelivers(r.core, Counted(r.core, r.nread), r.trace, data[|data| - 1]);
        } else {
          StillScan(r);
        }
      }
    }
  }

  lemma StillScan(m: Machine)
    requires UrlsScan(m.core, m.trace)
    ensures AllScan(m.trace)
  {}

  /** From a new parser of any type, over any stream: every URL that is delivered gets through
      parse_url_char, and that of the current message does so from the start its own method selects and
      ends where a URL may end. */
  lemma DeliveredUrlsScan(t: ParserType, data: bytes)
    ensures var m := Run(Init(t), data);
            && AllScan(m.trace)
            && (!m.stop.Failed? && LastUrl(m.trace).Some? && !UrlState(m.core.state) ==>
                  Scans(m.core.verb, LastUrl(m.trace).value)
                  && UrlTailState(Walk(UrlStart(m.core.verb), LastUrl(m.trace).value)))
  {
    hide Run, LastUrl, Walk;
    assert UrlsScan(Init(t).core, []) by { EmptyScans(Init(t).core); }
    RunDelivers(Init(t), data);
    var m := Run(Init(t), data);
    if LastUrl(m.trace).Some? { NotEmpty(m.core.verb, LastUrl(m.trace).value); }
  }

  lemma EmptyScans(c: Core)
    requires !Opening(c.state) && !UrlState(c.state)
    ensures UrlsScan(c, [])
  {}

  lemma NotEmpty(v: Method, u: bytes)
    ensures UrlTailState(Walk(UrlStart(v), u)) ==> Scans(v, u)
  {}

  // ----- acceptance -----

  lemma HeadRefuses(m: Machine)
    requires Ready(m) && m.stop.Running? && UrlHeadState(m.core.state) && m.nread < MAX_HEADER_SIZE
    ensures Step(m, SP).stop == Failed(HPE_INVALID_URL)
  {
    hide MethodName, NameHeaderState, UrlChar;
  }

  /** A text without breaks and a space after the method: accepted if and only if it is a URL, and then
      delivered whole. */
  lemma UrlAccepted(m: Machine, u: bytes)
    requires Idle(m, ReqSpacesBeforeUrl) && u != [] && NoBreaks(u) && m.nread + |u| < MAX_HEADER_SIZE
    ensures var r := Run(m, u + [SP]);
            && (r.stop.Running? <==> IsUrl(m.core.verb, u))
            && (r.stop.Running? ==> r.core.state == ReqHttpStart && r.trace == Push(m.trace, Data(Url, u)))
            && (!r.stop.Running? ==> r.stop == Failed(HPE_INVALID_URL))
  {
    hide Run, Step, Ready, Walk, Push, UrlStart;
    UrlRead(m, u);
    RunMore(m, u, SP);
    var r := Run(m, u);
    if r.stop.Running? {
      if UrlTailState(r.core.state) { UrlEnds(r); } else { HeadRefuses(r); }
    } else {
      StepStopped(r, SP);
    }
  }
}
