/** The Lua side of a message: callbacks glue the fragments of the URL, of header names and of values
    back together and build the table of headers. */
module LuaRequest {
  import opened Ascii
  import opened HttpTypes
  import opened HttpAutomaton
  import opened HttpRun
  import opened HttpReread
  import opened HttpExecute
  import opened HttpHeaders
  import opened HttpBody
  import opened HttpKeepAlive
  import opened HttpChunks
  import opened HttpRequests
  import opened HttpUrls
  import opened HttpPause
  import opened HttpHeadLimit

  /** An entry of the header table: a string, or a table of strings when the name came up again. */
  datatype Header = One(value: bytes) | Many(values: seq<bytes>)

  /** What has been gathered of a message; `parts` is the text of the body buffer. */
  datatype Gathered = Gathered(headers: map<bytes, Header>, name: Option<bytes>, value: Option<bytes>,
                               url: Option<bytes>, statusText: Option<bytes>, parts: bytes, body: Option<bytes>,
                               headersDone: bool, done: bool, eof: bool)

  /** What http_should_keep_alive says at the two notifications that pass it on. */
  datatype Keep = Keep(atHeaders: bool, atEnd: bool)

  const CONNECTION: bytes := [67, 111, 110, 110, 101, 99, 116, 105, 111, 110]

  function Glue(acc: Option<bytes>, chunk: bytes): Option<bytes>
  {
    Some(if acc.Some? then acc.value + chunk else chunk)
  }

  /** addHeader */
  function Added(headers: map<bytes, Header>, name: bytes, value: bytes): map<bytes, Header>
  {
    if name !in headers then headers[name := One(value)]
    else
      match headers[name]
      case One(v) => headers[name := Many([v, value])]
      case Many(vs) => headers[name := Many(vs + [value])]
  }

  /** handleAccHttpHeader */
  function Settle(g: Gathered): Gathered
  {
    if g.name.Some? && g.value.Some?
    then g.(headers := Added(g.headers, g.name.value, g.value.value), name := None, value := None)
    else g
  }

  /** handleKeepAlive */
  function Kept(g: Gathered, keep: bool): Gathered
  {
    if keep then g else g.(headers := g.headers[CONNECTION := One(CLOSE_WORD)], eof := true)
  }

  /** The request after one callback. */
  function Apply(g: Gathered, e: Event, k: Keep): Gathered
  {
    match e
    case Data(Url, x) => g.(url := Glue(g.url, x))
    case Data(Status, x) => g.(statusText := Glue(g.statusText, x))
    case Data(HeaderField, x) => var s := Settle(g); s.(name := Glue(s.name, x))
    case Data(HeaderValue, x) => g.(value := Glue(g.value, x))
    case Data(Body, x) => g.(parts := g.parts + x)
    case Notify(MessageBegin) => Gathered(map[], None, None, None, None, [], None, false, false, g.eof)
    case Notify(HeadersComplete) => Kept(Settle(g), k.atHeaders).(headersDone := true)
    case Notify(MessageComplete) => Kept(Settle(g), k.atEnd).(body := Some(g.parts), parts := [], done := true)
  }

  function Gather(g: Gathered, es: seq<Event>, k: Keep): Gathered
  {
    if es == [] then g else Apply(Gather(g, es[..|es| - 1], k), es[|es| - 1], k)
  }

  lemma {:induction false} GatherConcat(g: Gathered, a: seq<Event>, b: seq<Event>, k: Keep)
    ensures Gather(g, a + b, k) == Gather(Gather(g, a, k), b, k)
    decreases |b|
  {
    if b == [] {
      assert a + b == a;
    } else {
      assert (a + b)[..|a + b| - 1] == a + b[..|b| - 1];
      GatherConcat(g, a, b[..|b| - 1], k);
    }
  }

  lemma GatherOne(g: Gathered, e: Event, k: Keep)
    ensures Gather(g, [e], k) == Apply(g, e, k)
  {
    assert [e][..0] == [];
    assert Gather(g, [], k) == g;
  }

  // ----- fragments do not matter -----

  /** A value is only ever pending under a name. */
  predicate Consistent(g: Gathered) { g.value.Some? ==> g.name.Some? }

  predicate OfHeader(e: Event) { e.Data? && (e.field.HeaderField? || e.field.HeaderValue?) }

  /** In a trace, a header value comes behind its name. */
  predicate Proper(t: seq<Event>)
  {
    forall i :: 0 <= i < |t| && t[i].Data? && t[i].field.HeaderValue? ==> i > 0 && OfHeader(t[i - 1])
  }

  lemma GlueTwice(acc: Option<bytes>, x: bytes, y: bytes)
    ensures Glue(Glue(acc, x), y) == Glue(acc, x + y)
  {
    if acc.Some? { assert (acc.value + x) + y == acc.value + (x + y); }
  }

  /** Two fragments of a field do what their concatenation does. */
  lemma FragmentsGlue(g: Gathered, f: Field, x: bytes, y: bytes, k: Keep)
    requires Consistent(g)
    ensures Apply(Apply(g, Data(f, x), k), Data(f, y), k) == Apply(g, Data(f, x + y), k)
  {
    hide Added, Glue;
    match f
    case Url => GlueTwice(g.url, x, y);
    case Status => GlueTwice(g.statusText, x, y);
    case HeaderField => GlueTwice(Settle(g).name, x, y);
    case HeaderValue => GlueTwice(g.value, x, y);
    case Body => assert (g.parts + x) + y == g.parts + (x + y);
  }

  lemma ProperPrefix(t: seq<Event>)
    requires t != [] && Proper(t)
    ensures Proper(t[..|t| - 1])
    ensures var e := t[|t| - 1]; e.Data? && e.field.HeaderValue? ==> |t| > 1 && OfHeader(t[|t| - 2])
  {
    hide OfHeader;
    var u := t[..|t| - 1];
    forall i | 0 <= i < |u| && u[i].Data? && u[i].field.HeaderValue? ensures i > 0 && OfHeader(u[i - 1]) {
      assert t[i] == u[i];
    }
  }

  lemma {:induction false} GatherConsistent(g: Gathered, t: seq<Event>, k: Keep)
    requires Consistent(g) && Proper(t)
    ensures Consistent(Gather(g, t, k))
    ensures t != [] && OfHeader(t[|t| - 1]) ==> Gather(g, t, k).name.Some?
    decreases |t|
  {
    hide Added, Proper;
    if t != [] {
      ProperPrefix(t);
      GatherConsistent(g, t[..|t| - 1], k);
    }
  }

  lemma PushKeepsProper(t: seq<Event>, e: Event)
    requires Proper(Push(t, e))
    ensures Proper(t)
  {
    hide OfHeader;
    var p := Push(t, e);
    forall i | 0 <= i < |t| && t[i].Data? && t[i].field.HeaderValue? ensures i > 0 && OfHeader(t[i - 1]) {
      if i < |t| - 1 {
        assert p[i] == t[i] && (i > 0 ==> p[i - 1] == t[i - 1]);
      } else {
        assert p[i].Data? && p[i].field.HeaderValue? && (i > 0 ==> p[i - 1] == t[i - 1]);
      }
    }
  }

  lemma GatherLast(g: Gathered, t: seq<Event>, e: Event, k: Keep)
    ensures Gather(g, t + [e], k) == Apply(Gather(g, t, k), e, k)
  {
    hide Apply;
    assert (t + [e])[..|t|] == t;
  }

  predicate Joins(t: seq<Event>, e: Event)
  {
    e.Data? && |t| > 0 && t[|t| - 1].Data? && t[|t| - 1].field == e.field
  }

  lemma Pushed(t: seq<Event>, e: Event)
    ensures Push(t, e) == if Joins(t, e) then t[..|t| - 1] + [Data(e.field, t[|t| - 1].text + e.text)] else t + [e]
  {}

  /** One more event, joined or not. */
  lemma GatherPush(g: Gathered, t: seq<Event>, e: Event, k: Keep)
    requires Consistent(g) && Proper(Push(t, e))
    ensures Gather(g, Push(t, e), k) == Apply(Gather(g, t, k), e, k)
  {
    hide Apply, Consistent, Proper, Gather, Push;
    PushKeepsProper(t, e);
    Pushed(t, e);
    if Joins(t, e) {
      var init, last := t[..|t| - 1], t[|t| - 1];
      assert t == init + [last];
      ProperPrefix(t);
      GatherConsistent(g, init, k);
      FragmentsGlue(Gather(g, init, k), e.field, last.text, e.text, k);
      GatherLast(g, init, last, k);
      GatherLast(g, init, Data(e.field, last.text + e.text), k);
    } else {
      GatherLast(g, t, e, k);
    }
  }

  /** What is gathered depends only on the joined trace. */
  lemma {:induction false} FragmentsDoNotMatter(g: Gathered, es: seq<Event>, k: Keep)
    requires Consistent(g) && Proper(Join(es))
    ensures Gather(g, es, k) == Gather(g, Join(es), k)
    decreases |es|
  {
    hide Apply, Consistent, Proper, Push;
    if es != [] {
      var init, e := es[..|es| - 1], es[|es| - 1];
      PushKeepsProper(Join(init), e);
      FragmentsDoNotMatter(g, init, k);
      GatherPush(g, Join(init), e, k);
    }
  }

  // ----- the table of a block -----

  /** The values of a name in a block of lines, in order. */
  function Values(lines: seq<Line>, name: bytes): seq<bytes>
  {
    if lines == [] then []
    else
      var l := lines[|lines| - 1];
      Values(lines[..|lines| - 1], name) + (if l.name == name then [l.value] else [])
  }

  /** One value is stored as a string, several as a table. */
  ghost predicate Lists(headers: map<bytes, Header>, lines: seq<Line>)
  {
    forall n: bytes ::
      var vs := Values(lines, n);
      if vs == [] then n !in headers
      else n in headers && headers[n] == if |vs| == 1 then One(vs[0]) else Many(vs)
  }

  lemma AddedLists(headers: map<bytes, Header>, lines: seq<Line>, l: Line)
    requires Lists(headers, lines)
    ensures Lists(Added(headers, l.name, l.value), lines + [l])
  {
    var more := lines + [l];
    assert more[..|more| - 1] == lines;
    forall n: bytes
      ensures var vs, h := Values(more, n), Added(headers, l.name, l.value);
              if vs == [] then n !in h else n in h && h[n] == if |vs| == 1 then One(vs[0]) else Many(vs)
    {
      var before := Values(lines, n);
      assert Values(more, n) == before + (if l.name == n then [l.value] else []);
      if n == l.name && |before| == 1 { assert before == [before[0]]; }
    }
  }

  /** The table of a block, line by line. */
  function TableOf(lines: seq<Line>): map<bytes, Header>
  {
    if lines == [] then map[]
    else Added(TableOf(lines[..|lines| - 1]), lines[|lines| - 1].name, lines[|lines| - 1].value)
  }

  /** It lists every name with all its values, in order, and nothing else. */
  lemma {:induction false} TableLists(lines: seq<Line>)
    ensures Lists(TableOf(lines), lines)
    decreases |lines|
  {
    hide Added;
    if lines != [] {
      var init, l := lines[..|lines| - 1], lines[|lines| - 1];
      TableLists(init);
      AddedLists(TableOf(init), init, l);
      assert lines == init + [l];
    }
  }

  /** A message that has just begun. */
  predicate Fresh(g: Gathered) { g.headers == map[] && g.name.None? && g.value.None? }

  lemma LineGathers(g: Gathered, l: Line, k: Keep)
    requires g.name.None? == g.value.None?
    ensures Gather(g, LineEvents(l), k) == Settle(g).(name := Some(l.name), value := Some(l.value))
  {
    hide Added;
    var a, b := Data(HeaderField, l.name), Data(HeaderValue, l.value);
    GatherConcat(g, [a], [b], k);
    GatherOne(g, a, k);
    GatherOne(Apply(g, a, k), b, k);
    assert [a] + [b] == LineEvents(l);
  }

  /** After the lines of a block all but the last are in the table, and the last is pending. */
  lemma {:induction false} BlockGathers(g: Gathered, lines: seq<Line>, k: Keep)
    requires Fresh(g)
    ensures var r := Gather(g, BlockEvents(lines), k);
            Settle(r) == g.(headers := TableOf(lines)) && r.name.None? == r.value.None?
    decreases |lines|
  {
    hide Added, LineEvents;
    if lines != [] {
      var init, l := lines[..|lines| - 1], lines[|lines| - 1];
      BlockGathers(g, init, k);
      GatherConcat(g, BlockEvents(init), LineEvents(l), k);
      LineGathers(Gather(g, BlockEvents(init), k), l, k);
    }
  }

  /** The table once the connection is known not to stay open. */
  function Closing(table: map<bytes, Header>, keep: bool): map<bytes, Header>
  {
    if keep then table else table[CONNECTION := One(CLOSE_WORD)]
  }

  /** The request a whole message makes, whatever was there before. */
  function Read(g: Gathered, q: Request, body: bytes, k: Keep): Gathered
  {
    Gathered(Closing(TableOf(q.lines), k.atHeaders && k.atEnd), None, None, Some(q.url), None, [], Some(body), true,
             true, g.eof || !k.atHeaders || !k.atEnd)
  }

  lemma HeadGathers(g: Gathered, q: Request, k: Keep)
    ensures var es := [Notify(MessageBegin), Data(Url, q.url)] + BlockEvents(q.lines) + [Notify(HeadersComplete)];
            Gather(g, es, k) == Gathered(Closing(TableOf(q.lines), k.atHeaders), None, None, Some(q.url), None, [],
                                         None, true, false, g.eof || !k.atHeaders)
  {
    hide BlockEvents, Added, TableOf;
    var a, b, c := Notify(MessageBegin), Data(Url, q.url), Notify(HeadersComplete);
    GatherConcat(g, [a, b] + BlockEvents(q.lines), [c], k);
    GatherConcat(g, [a, b], BlockEvents(q.lines), k);
    GatherConcat(g, [a], [b], k);
    assert [a] + [b] == [a, b];
    GatherOne(g, a, k);
    GatherOne(Apply(g, a, k), b, k);
    var g2 := Gather(g, [a, b], k);
    BlockGathers(g2, q.lines, k);
    GatherOne(Gather(g2, BlockEvents(q.lines), k), c, k);
  }

  /** Any message: its URL, its body and its header table. */
  lemma MessageGathers(g: Gathered, q: Request, body: bytes, k: Keep)
    ensures Gather(g, RequestEvents(q, body), k) == Read(g, q, body, k)
  {
    hide BlockEvents, Added, TableOf;
    var head := [Notify(MessageBegin), Data(Url, q.url)] + BlockEvents(q.lines) + [Notify(HeadersComplete)];
    var mid := if body == [] then [] else [Data(Body, body)];
    HeadGathers(g, q, k);
    var r := Gather(g, head, k);
    GatherConcat(g, head + mid, [Notify(MessageComplete)], k);
    GatherConcat(g, head, mid, k);
    if body == [] {
      assert Gather(r, mid, k) == r;
    } else {
      GatherOne(r, Data(Body, body), k);
      assert [] + body == body;
    }
    GatherOne(Gather(r, mid, k), Notify(MessageComplete), k);
  }

  lemma {:induction false} BlockProper(lines: seq<Line>)
    ensures Proper(BlockEvents(lines))
    ensures |BlockEvents(lines)| == 2 * |lines|
    decreases |lines|
  {
    if lines != [] { BlockProper(lines[..|lines| - 1]); }
  }

  /** A message and any fragmentation of it: the same request. */
  lemma RequestGathers(g: Gathered, q: Request, body: bytes, es: seq<Event>, k: Keep)
    requires Consistent(g) && Join(es) == Join(RequestEvents(q, body))
    ensures Gather(g, es, k) == Read(g, q, body, k)
  {
    hide Join, Proper, Read, RequestEvents;
    MessageProper(q, body);
    FragmentsDoNotMatter(g, es, k);
    FragmentsDoNotMatter(g, RequestEvents(q, body), k);
    MessageGathers(g, q, body, k);
  }

  lemma MessageProper(q: Request, body: bytes)
    ensures Proper(Join(RequestEvents(q, body)))
  {
    hide Push;
    var es := RequestEvents(q, body);
    EventsProper(q, body);
    JoinProper(es);
  }

  lemma EventsProper(q: Request, body: bytes)
    ensures Proper(RequestEvents(q, body))
  {
    hide BlockEvents;
    BlockProper(q.lines);
    var b, es := BlockEvents(q.lines), RequestEvents(q, body);
    forall i | 0 <= i < |es| && es[i].Data? && es[i].field.HeaderValue? ensures i > 0 && OfHeader(es[i - 1]) {
      assert 2 <= i < |b| + 2 && es[i] == b[i - 2];
      assert es[i - 1] == b[i - 3];
    }
  }

  /** Joining keeps values behind their names. */
  lemma {:induction false} JoinProper(es: seq<Event>)
    requires Proper(es)
    ensures Proper(Join(es)) && (es != [] ==> Join(es) != [] && SameField(Join(es)[|Join(es)| - 1], es[|es| - 1]))
    decreases |es|
  {
    hide OfHeader;
    if es != [] {
      ProperPrefix(es);
      JoinProper(es[..|es| - 1]);
      ProperPush(Join(es[..|es| - 1]), es[|es| - 1], es);
    }
  }

  predicate SameField(d: Event, e: Event) { (d.Data? <==> e.Data?) && (d.Data? ==> d.field == e.field) }

  lemma ProperPush(t: seq<Event>, e: Event, es: seq<Event>)
    requires Proper(t) && es != [] && e == es[|es| - 1]
    requires |es| > 1 ==> t != [] && SameField(t[|t| - 1], es[|es| - 2])
    requires e.Data? && e.field.HeaderValue? ==> |es| > 1 && OfHeader(es[|es| - 2])
    ensures Proper(Push(t, e)) && Push(t, e) != [] && SameField(Push(t, e)[|Push(t, e)| - 1], e)
  {
    var p := Push(t, e);
    forall i | 0 <= i < |p| && p[i].Data? && p[i].field.HeaderValue? ensures i > 0 && OfHeader(p[i - 1]) {
      if i < |t| {
        assert t[i].Data? && t[i].field == p[i].field;
        assert i > 0 ==> p[i - 1] == t[i - 1];
      } else {
        assert p[i] == e && p[i - 1] == t[i - 1];
      }
    }
  }

  // ----- the request object -----

  class ServerRequest {
    const parser: LuawHttpParser
    var headers: map<bytes, Header>
    var accHeaderName: Option<bytes>
    var accHeaderValue: Option<bytes>
    var url: Option<bytes>
    var statusMesg: Option<bytes>
    var bodyParts: seq<bytes>
    var body: Option<bytes>
    var headersDone: bool
    var mesgDone: bool
    var EOF: bool

    ghost function State(): Gathered
      reads this
    {
      Gathered(headers, accHeaderName, accHeaderValue, url, statusMesg, Flatten(bodyParts), body, headersDone,
          mesgDone, EOF)
    }

    /** newServerHttpRequest */
    constructor ()
      ensures State() == Gathered(map[], None, None, None, None, [], None, false, false, false)
      ensures fresh(parser) && fresh(parser.parser) && parser.parser.errno == HPE_OK
      ensures Machine(parser.parser.core, parser.parser.nread, [], Running) == Init(ParserType.Request)
    {
      var p := new LuawHttpParser(ParserType.Request);
      parser := p;
      headers, accHeaderName, accHeaderValue, url, statusMesg := map[], None, None, None, None;
      bodyParts, body, headersDone, mesgDone, EOF := [], None, false, false, false;
    }

    method AddHeader(name: bytes, value: bytes)
      modifies this`headers
      ensures headers == Added(old(headers), name, value)
    {
      if name in headers {
        match headers[name]
        case Many(vs) => headers := headers[name := Many(vs + [value])];
        case One(v) => headers := headers[name := Many([v, value])];
      } else {
        headers := headers[name := One(value)];
      }
    }

    method HandleAccHttpHeader()
      modifies this`headers, this`accHeaderName, this`accHeaderValue
      ensures State() == Settle(old(State()))
    {
      if accHeaderName.Some? && accHeaderValue.Some? {
        AddHeader(accHeaderName.value, accHeaderValue.value);
        accHeaderName, accHeaderValue := None, None;
      }
    }

    method HandleKeepAlive(keepAlive: bool)
      modifies this`headers, this`EOF
      ensures State() == Kept(old(State()), keepAlive)
    {
      if !keepAlive {
        headers := headers[CONNECTION := One(CLOSE_WORD)];
        EOF := true;
      }
    }

    method Reset()
      modifies this
      ensures State() == Apply(old(State()), Notify(MessageBegin), Keep(true, true))
    {
      headers, accHeaderName, accHeaderValue, url, statusMesg := map[], None, None, None, None;
      bodyParts, body, headersDone, mesgDone := [], None, false, false;
    }

    /** accumulateChunkedValue, on the field it is called for. */
    method OnData(f: Field, chunk: bytes, ghost k: Keep)
      modifies this
      ensures State() == Apply(old(State()), Data(f, chunk), k)
    {
      hide Settle;
      match f {
        case Url => url := Glue(url, chunk);
        case Status => statusMesg := Glue(statusMesg, chunk);
        case HeaderField =>
          HandleAccHttpHeader();
          accHeaderName := Glue(accHeaderName, chunk);
        case HeaderValue => accHeaderValue := Glue(accHeaderValue, chunk);
        case Body =>
          AppendFlat(bodyParts, chunk);
          bodyParts := bodyParts + [chunk];
      }
    }

    method OnNotify(n: Note, k: Keep)
      modifies this
      ensures State() == Apply(old(State()), Notify(n), k)
    {
      hide Settle, Kept;
      match n {
        case MessageBegin => Reset();
        case HeadersComplete =>
          HandleAccHttpHeader();
          HandleKeepAlive(k.atHeaders);
          headersDone := true;
        case MessageComplete =>
          HandleAccHttpHeader();
          HandleKeepAlive(k.atEnd);
          KeepsParts(old(State()), k.atEnd);
          body := Some(Flatten(bodyParts));
          bodyParts := [];
          mesgDone := true;
      }
    }

    /** The callbacks of a run of events, in order. */
    method OnEvents(es: seq<Event>, k: Keep)
      modifies this
      ensures State() == Gather(old(State()), es, k)
    {
      hide Apply;
      var i := 0;
      while i < |es|
        invariant 0 <= i <= |es| && State() == Gather(old(State()), es[..i], k)
      {
        assert es[..i + 1][..i] == es[..i];
        match es[i] {
          case Data(f, x) => OnData(f, x, k);
          case Notify(n) => OnNotify(n, k);
        }
        i := i + 1;
      }
      assert es[..i] == es;
    }

    /** A whole request from the wire, through the pausing parser and the callbacks: whatever the pieces
        it arrives in, the object holds its URL, its header table and its body, and closes the connection
        as its version and header lines ask. It arrives if and only if its head is shorter than the limit;
        a head of exactly the limit, which the unpaused parser takes, overflows. The source asks
        http_should_keep_alive at each of the two notifications; it is asked once here, behind the message,
        because the answer is the same there (KeptByItsLines for the end of the head, RequestRead for the
        end of the body). */
    method ReadRequest(pieces: seq<bytes>, ghost q: HttpRequests.Request, ghost content: bytes,
                       ghost text: bytes, ghost cs: seq<bytes>) returns (ok: bool)
      requires Machine(parser.parser.core, parser.parser.nread, [], Running) == Init(ParserType.Request)
      requires parser.parser.errno == HPE_OK && Consistent(State())
      requires IsRequest(q) && Flatten(pieces) == HeadText(q) + text
      requires q.verb != CONNECT && !BadBlock(q.lines)
      requires var c := BlockCore(Lined(Init(ParserType.Request), q).core, q.lines);
               !c.flags.upgrade && WrittenAs(FramingOf(c), content, text, cs)
      modifies this, parser, parser.parser
      ensures ok <==> |HeadText(q)| < MAX_HEADER_SIZE
      ensures ok ==> State() == Read(old(State()), q, content, Keep(StaysOpen(q), StaysOpen(q)))
      ensures !ok ==> parser.parser.errno.HPE_HEADER_OVERFLOW?
    {
      hide Run, Heavy, Extra, Sound, InField, IsUrl, IsHeaderBlock, HeadText, RequestEvents, BlockCore, BadBlock;
      hide WrittenAs, FramingOf;
      hide Init, Lined, Read, PushAll, Consistent, Lost, Ready, Gather, ShouldKeepAlive, NewMessage;
      ghost var m0 := Init(ParserType.Request);
      StartsIdle();
      if |HeadText(q)| <= MAX_HEADER_SIZE { RequestRead(m0, q, content, text, cs); }
      HeadIsTheWeight(m0, q, content, text, cs);
      var events;
      ok, events := parser.ReadStream(pieces, []);
      var keepAlive := ShouldKeepAlive(parser.parser.core);
      if ok { RequestGathers(State(), q, content, events, Keep(keepAlive, keepAlive)); }
      OnEvents(events, Keep(keepAlive, keepAlive));
    }
  }

  /** Whether the connection stays open behind a request, by its version and its header lines. */
  predicate StaysOpen(q: HttpRequests.Request) { AsksToStay(q.major, q.minor, q.lines) }

  /** http_should_keep_alive of a request at the end of its head is what its version and its header lines
      ask for: no `close` behind a minor version above 0, and `keep-alive` otherwise. */
  lemma KeptByItsLines(q: HttpRequests.Request, r: Machine)
    requires 1 <= q.major <= 9 && q.minor <= 9 && !BadBlock(q.lines)
    requires var c := BlockCore(Lined(Init(ParserType.Request), q).core, q.lines);
             r.core == c.(state := r.core.state, index := r.core.index, hstate := r.core.hstate,
                          upgrade := r.core.upgrade)
    ensures ShouldKeepAlive(r.core) <==>
              if q.minor > 0 then !ConnectionSays(q.lines, CLOSE_WORD) else ConnectionSays(q.lines, KEEP_ALIVE_WORD)
  {
    hide BlockCore, BadBlock, ConnectionSays;
    KeptAlive(Lined(Init(ParserType.Request), q).core, q.lines);
    CoreKeeps(Lined(Init(ParserType.Request), q).core, q.lines);
  }

  // ----- a head of exactly the limit -----

  /** A path of n letters. */
  function PathOf(n: nat): bytes { [47] + seq(n, _ => 97) }

  lemma {:induction false} PathWalks(n: nat)
    ensures Walk(ReqSpacesBeforeUrl, PathOf(n)) == ReqPath
  {
    hide UrlChar, Walk;
    PathLetters();
    if n == 0 {
      WalkMore(ReqSpacesBeforeUrl, [], 47);
      assert PathOf(0) == [] + [47];
    } else {
      PathWalks(n - 1);
      WalkMore(ReqSpacesBeforeUrl, PathOf(n - 1), 97);
      assert PathOf(n) == PathOf(n - 1) + [97];
    }
  }

  lemma PathLetters()
    ensures UrlChar(ReqSpacesBeforeUrl, 47) == ReqPath == UrlChar(ReqPath, 97)
  {}

  function LongRequest(n: nat): HttpRequests.Request { HttpRequests.Request(GET, PathOf(n), 1, 1, []) }

  /** A request without header lines whose head is exactly as long as the limit. */
  lemma LongestHead()
    ensures var q := LongRequest(81902);
            IsRequest(q) && |HeadText(q)| == MAX_HEADER_SIZE && q.verb != CONNECT && !BadBlock(q.lines)
    ensures Heavy(Init(ParserType.Request), HeadText(LongRequest(81902)) + [])
    ensures Run(Init(ParserType.Request), HeadText(LongRequest(81902)) + []).stop.Running?
  {
    hide Walk, Run, Heavy;
    var q, m := LongRequest(81902), Init(ParserType.Request);
    PathWalks(81902);
    StartsIdle();
    RequestRead(m, q, [], [], []);
    HeadIsTheWeight(m, q, [], [], []);
  }

  lemma KeepsParts(g: Gathered, keep: bool)
    ensures Kept(Settle(g), keep).parts == g.parts
  {}

  lemma StartsIdle()
    ensures var m := Init(ParserType.Request);
            Idle(m, StartReq) && m.nread == 0 && !m.core.upgrade && m.trace == []
  {}
}
