/** Message framing: what ends the head, and which bytes of the stream are the body. */
module HttpBody {
  import opened Ascii
  import opened HttpTypes
  import opened HttpAutomaton
  import opened HttpRun
  import opened HttpExecute
  import opened HttpWords
  import opened HttpLengths
  import opened HttpHeaders

  const CRLF: bytes := [CR, LF]

  /** A body is delivered as one joined fragment; an empty one is not delivered. */
  function PushBody(trace: seq<Event>, body: bytes): seq<Event>
  {
    if body == [] then trace else Push(trace, Data(Body, body))
  }

  lemma PushBodyTwice(trace: seq<Event>, a: bytes, b: bytes)
    ensures PushBody(PushBody(trace, a), b) == PushBody(trace, a + b)
  {
    hide Push;
    assert [] + b == b && a + [] == a;
    if a != [] && b != [] { PushFragments(trace, Body, a, b); }
  }

  // ----- a body of known length -----

  /** The machine after a message: complete, and back at its start or closed. */
  function Completed(m: Machine): Machine
  {
    m.(core := m.core.(state := NewMessage(m.core)), trace := Push(m.trace, Notify(MessageComplete)))
  }

  lemma LastEntry(c: Core, ch: byte)
    requires Sound(c) && c.state.BodyIdentity? && c.clen == 1
    ensures AssertsHold(c)
    ensures Act(c, ch) == Action(c.(clen := 0, state := MessageDone), false, Some(Body), Some(Body), None, Again)
  {
    hide MethodName, NameHeaderState;
  }

  lemma DoneEntry(c: Core, ch: byte)
    requires Sound(c) && c.state.MessageDone?
    ensures AssertsHold(c) && Act(c, ch) == Finish(c)
  {
    hide MethodName, NameHeaderState, ShouldKeepAlive;
  }

  lemma LastByte(m: Machine, ch: byte)
    requires Ready(m) && m.stop.Running? && m.core.state.BodyIdentity? && m.core.clen == 1
    ensures Step(m, ch) == Completed(m.(core := m.core.(clen := 0), trace := Push(m.trace, Data(Body, [ch]))))
  {
    hide Sound, Act, Push, Chain, InField;
    LastEntry(m.core, ch);
    ChainEntry(m.core, m.nread, m.trace, ch);
    var d := m.core.(clen := 0, state := MessageDone);
    DoneEntry(d, ch);
    ChainEntry(d, m.nread, Push(m.trace, Data(Body, [ch])), ch);
  }

  /** The next N bytes of a message with Content-Length N, and no other, are its body. */
  lemma IdentityBody(m: Machine, body: bytes)
    requires Ready(m) && m.stop.Running? && m.core.state.BodyIdentity? && m.core.clen == |body|
    ensures Run(m, body) == Completed(m.(core := m.core.(clen := 0), trace := Push(m.trace, Data(Body, body))))
  {
    hide Step, Push, Sound, ShouldKeepAlive, InField, NameHeaderState, MethodName;
    assert body != [] by { AssertsKept(m.core); }
    var init, ch := body[..|body| - 1], body[|body| - 1];
    BodyRun(m, init);
    var mid := Run(m, init);
    LastByte(mid, ch);
    assert body == init + [ch];
    if init != [] { PushFragments(m.trace, Body, init, [ch]); } else { assert body == [ch]; }
  }

  // ----- the end of the head -----

  /** What follows the head. */
  datatype Framing = NoBody | ByLength(length: nat) | ByChunks | UntilEof

  /** What s_headers_done makes of flags, length, type and status. */
  function FramingOf(c: Core): Framing
  {
    if c.flags.chunked then ByChunks
    else if c.clen == 0 then NoBody
    else if c.clen != ULLONG_MAX then ByLength(c.clen)
    else if c.ptype.Request? || !NeedsEof(c) then NoBody
    else UntilEof
  }

  /** A response that has no body whatever its header fields say. */
  predicate Bodiless(c: Core) { !c.ptype.Request? && (c.status / 100 == 1 || c.status == 204 || c.status == 304) }

  /** The rules of section 4.4 of RFC 2616 in their order, as far as the struct can tell: the status, the
      transfer coding, the length, and otherwise no body for a request and the rest of the connection for
      a response. */
  function RfcFraming(c: Core): Framing
  {
    if Bodiless(c) then NoBody
    else if c.flags.chunked then ByChunks
    else if c.clen != ULLONG_MAX then (if c.clen == 0 then NoBody else ByLength(c.clen))
    else if c.ptype.Request? then NoBody
    else UntilEof
  }

  /** The parser frames a message as the RFC does if and only if it is not a bodiless response that
      announces a body all the same. */
  lemma FramingIsRfc(c: Core)
    requires c.clen <= ULLONG_MAX
    ensures FramingOf(c) == RfcFraming(c) <==> !(Bodiless(c) && (c.flags.chunked || 0 < c.clen < ULLONG_MAX))
  {}

  /** A 304 with `Content-Length: 5` ends with its head by the RFC; the parser waits for five bytes. */
  lemma NotModifiedWithLength(m: Machine)
    requires Ready(m) && m.stop.Running? && m.core.state.HeaderFieldStart? && m.nread + 2 <= MAX_HEADER_SIZE
    requires m.core.flags == NO_FLAGS && m.core.verb != CONNECT && !m.core.upgrade
    requires m.core.ptype.Response? && m.core.status == 304 && m.core.clen == 5
    ensures RfcFraming(m.core) == NoBody
    ensures Run(m, CRLF).core.state == BodyIdentity && Run(m, CRLF).core.clen == 5
  {
    hide Run, Ready, Push, Completed;
    EmptyLine(m);
  }

  /** The machine behind the empty line that ends the head. */
  function Framed(m: Machine): Machine
  {
    var t := m.(core := m.core.(upgrade := false), nread := 0, trace := Push(m.trace, Notify(HeadersComplete)));
    match FramingOf(m.core)
    case NoBody => Completed(t)
    case ByLength(_) => t.(core := t.core.(state := BodyIdentity))
    case ByChunks => t.(core := t.core.(state := ChunkSizeStart))
    case UntilEof => t.(core := t.core.(state := BodyIdentityEof))
  }

  /** A head that asks for another protocol. */
  predicate Upgrades(c: Core) { c.flags.upgrade || c.verb == CONNECT }

  /** The machine behind such a head: the message is complete and the rest is not for the parser. */
  function Switched(m: Machine): Machine
  {
    Machine(m.core.(upgrade := true, state := NewMessage(m.core)), 0,
            Push(Push(m.trace, Notify(HeadersComplete)), Notify(MessageComplete)), Upgraded)
  }

  lemma EmptyLineBegins(m: Machine)
    requires Ready(m) && m.stop.Running? && m.core.state.HeaderFieldStart? && m.nread < MAX_HEADER_SIZE
    ensures Step(m, CR) == m.(core := m.core.(state := HeadersAlmostDone), nread := m.nread + 1)
  {
    hide MethodName, NameHeaderState, Token;
  }

  lemma AlmostDoneEntry(c: Core)
    requires Sound(c) && c.state.HeadersAlmostDone?
    ensures AssertsHold(c) && Act(c, LF) == ActHeadersAlmostDone(c, LF)
  {
    hide MethodName, NameHeaderState, ActHeadersAlmostDone;
  }

  lemma HeadersDoneEntry(c: Core)
    requires Sound(c) && c.state.HeadersDone?
    ensures AssertsHold(c) && Act(c, LF) == ActHeadersDone(c, LF)
  {
    hide MethodName, NameHeaderState, ActHeadersDone;
  }

  /** The order of the tests, with their effects. */
  lemma FramingDecided(c: Core, nread: nat, trace: seq<Event>)
    requires c.state.HeadersDone? && !c.upgrade
    ensures var a := ActHeadersDone(c, LF);
            && a.ctl.Advance? && a.zero
            && Machine(a.core, 0, Deliver(Push(trace, Notify(HeadersComplete)), a, LF), Running)
               == Framed(Machine(c, nread, trace, Running))
  {
    hide Push, ShouldKeepAlive;
  }

  /** Neither the state nor the counter is looked at. */
  lemma FramedSame(m: Machine, s: State, n: nat, up: bool)
    ensures Framed(m.(core := m.core.(state := s, upgrade := up), nread := n)) == Framed(m)
    ensures Completed(m.(core := m.core.(state := s), nread := n)) == Completed(m.(nread := n))
  {
    hide Push;
  }

  lemma HeadLineFeed(m: Machine)
    requires Ready(m) && m.stop.Running? && m.core.state.HeadersAlmostDone? && m.nread < MAX_HEADER_SIZE
    requires !m.core.flags.trailing && !m.core.flags.upgrade && m.core.verb != CONNECT
    ensures Step(m, LF) == Framed(m)
  {
    hide Sound, Act, Push, Chain, InField, Framed, ActHeadersDone;
    var c := m.core;
    AlmostDoneEntry(c);
    ChainEntry(c, m.nread + 1, m.trace, LF);
    var d := c.(state := HeadersDone, upgrade := false);
    var t := Push(m.trace, Notify(HeadersComplete));
    assert Deliver(m.trace, ActHeadersAlmostDone(c, LF), LF) == t;
    HeadersDoneEntry(d);
    ChainEntry(d, m.nread + 1, t, LF);
    FramingDecided(d, m.nread, m.trace);
    FramedSame(m, HeadersDone, m.nread, false);
  }

  lemma SwitchEntry(c: Core, nread: nat, trace: seq<Event>)
    requires Sound(c) && c.state.HeadersDone? && c.upgrade && nread <= MAX_HEADER_SIZE
    ensures InField(c.state, trace) && CountedOne(c, nread)
    ensures Chain(c, nread, trace, LF)
            == Machine(c.(state := NewMessage(c)), 0, Push(trace, Notify(MessageComplete)), Upgraded)
  {
    hide Sound, Act, Push;
    HeadersDoneEntry(c);
  }

  lemma SwitchLineFeed(m: Machine)
    requires Ready(m) && m.stop.Running? && m.core.state.HeadersAlmostDone? && m.nread < MAX_HEADER_SIZE
    requires !m.core.flags.trailing && Upgrades(m.core)
    ensures Step(m, LF) == Switched(m)
  {
    hide Sound, Act, Push, Chain, InField, ActHeadersDone;
    var c := m.core;
    AlmostDoneEntry(c);
    ChainEntry(c, m.nread + 1, m.trace, LF);
    var d := c.(state := HeadersDone, upgrade := true);
    var t := Push(m.trace, Notify(HeadersComplete));
    assert Deliver(m.trace, ActHeadersAlmostDone(c, LF), LF) == t;
    SwitchEntry(d, m.nread + 1, t);
  }

  lemma TrailerLineFeed(m: Machine)
    requires Ready(m) && m.stop.Running? && m.core.state.HeadersAlmostDone? && m.nread < MAX_HEADER_SIZE
    requires m.core.flags.trailing
    ensures Step(m, LF) == Completed(m.(nread := m.nread + 1))
  {
    hide Sound, Act, Push, Chain, InField;
    AlmostDoneEntry(m.core);
    ChainEntry(m.core, m.nread + 1, m.trace, LF);
  }

  lemma TwoBytes(m: Machine, a: byte, b: byte)
    requires Ready(m)
    ensures Run(m, [a, b]) == Step(Step(m, a), b)
  {
    hide Step, Ready;
    EmptyRun(m, []);
    RunMore(m, [], a);
    RunMore(m, [a], b);
    assert [] + [a] == [a] && [a] + [b] == [a, b];
  }

  /** The empty line ends the head, and the parser's part in the connection if the head asks for another
      protocol; in a trailer it ends the message. */
  lemma EmptyLine(m: Machine)
    requires Ready(m) && m.stop.Running? && (m.core.state.HeaderFieldStart? || m.core.state.HeaderValueLws?)
    requires m.nread + 2 <= MAX_HEADER_SIZE
    ensures Run(m, CRLF) == if m.core.flags.trailing then Completed(m.(nread := m.nread + 2))
                            else if Upgrades(m.core) then Switched(m) else Framed(m)
  {
    hide Step, Run, Push, Ready, Framed, Completed;
    NextLineRun(m, CRLF);
    var l := AtLine(m);
    TwoBytes(l, CR, LF);
    EmptyLineBegins(l);
    var r := Step(l, CR);
    FramedSame(m, HeadersAlmostDone, m.nread + 1, m.core.upgrade);
    FramedSame(m, HeadersAlmostDone, m.nread + 2, m.core.upgrade);
    if m.core.flags.trailing {
      TrailerLineFeed(r);
    } else if Upgrades(m.core) {
      SwitchLineFeed(r);
    } else {
      HeadLineFeed(r);
    }
  }

  lemma CarriageReturnRead(m: Machine)
    requires Ready(m) && m.stop.Running? && (m.core.state.HeaderFieldStart? || m.core.state.HeaderValueLws?)
    requires m.nread < MAX_HEADER_SIZE
    ensures Run(m, [CR]).stop.Running?
  {
    hide Step, Run, Ready;
    NextLineRun(m, [CR]);
    EmptyLineBegins(AtLine(m));
    EmptyRun(AtLine(m), []);
    RunMore(AtLine(m), [], CR);
    assert [] + [CR] == [CR];
  }

  /** Both bytes of the empty line are taken, whatever comes of it. */
  lemma EmptyLineTaken(m: Machine)
    requires Ready(m) && m.stop.Running? && (m.core.state.HeaderFieldStart? || m.core.state.HeaderValueLws?)
    requires m.nread + 2 <= MAX_HEADER_SIZE
    ensures Taken(m, CRLF) == 2
  {
    hide Step, Run, Push, Ready, Completed, Framed;
    EmptyLine(m);
    CarriageReturnRead(m);
    FramedRuns(m);
    assert CRLF[..1] == [CR];
  }

  lemma FramedRuns(m: Machine)
    requires m.stop.Running?
    ensures Framed(m).stop.Running? && forall n :: Completed(m.(nread := n)).stop.Running?
  {
    hide Push, ShouldKeepAlive;
  }
}
