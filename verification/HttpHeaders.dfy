/** Header lines and header blocks as a whole: what the automaton makes of `name: value` is what string
    equality and decimal arithmetic say about the name and the value. */
module HttpHeaders {
  import opened Ascii
  import opened HttpTypes
  import opened HttpAutomaton
  import opened HttpRun
  import opened HttpWords
  import opened HttpLengths

  /** Text that may stand on one line. */
  predicate OneLine(v: bytes) { forall i :: 0 <= i < |v| ==> v[i] != CR && v[i] != LF }

  predicate IsBlank(b: byte) { b == SP || b == TAB }

  /** A value as the parser delivers it: on one line, and the blanks before it are not part of it. */
  predicate IsValue(v: bytes) { OneLine(v) && (v != [] ==> !IsBlank(v[0])) }

  /** The flags a value may set at once; the others wait for the end of the line. */
  function EarlyFlags(rho: HeaderState, f: Flags): Flags { if rho.Upgrade? then f.(upgrade := true) else f }

  /** What the header state says about the value read so far, given the header's role. */
  predicate Follows(rho: HeaderState, h: HeaderState, i: nat, v: bytes)
  {
    match rho
    case TransferEncoding =>
      (h.MatchingChunked? || h.Chunked? || h.General?) && Watches(h, i, v, CHUNKED_WORD, MatchingChunked, Chunked)
    case Connection =>
      && (h.MatchingKeepAlive? || h.KeepAlive? || h.MatchingClose? || h.Close? || h.General?)
      && Watches(h, i, v, KEEP_ALIVE_WORD, MatchingKeepAlive, KeepAlive)
      && Watches(h, i, v, CLOSE_WORD, MatchingClose, Close)
    case ContentLength => h.ContentLength?
    case _ => h.General?
  }

  predicate BadLength(rho: HeaderState, v: bytes) { rho.ContentLength? && !IsLength(v) }

  /** The struct in the middle of a value that began in c0. */
  predicate InValue(rho: HeaderState, c0: Core, c: Core, v: bytes)
    requires v != [] && !BadLength(rho, v)
  {
    && c == c0.(state := HeaderValueText, index := c.index, hstate := c.hstate,
                flags := EarlyFlags(rho, c0.flags), clen := if rho.ContentLength? then LengthOf(v) else c0.clen)
    && Follows(rho, c.hstate, c.index, v)
  }

  lemma WordsAreLowerCase()
    ensures LowerCase(CHUNKED_WORD) && LowerCase(KEEP_ALIVE_WORD) && LowerCase(CLOSE_WORD)
    ensures CHUNKED_WORD[0] == 99 && KEEP_ALIVE_WORD[0] == 107 && CLOSE_WORD[0] == 99
  {}

  lemma ValueBegins(c0: Core, ch: byte)
    requires Sound(c0) && c0.state.HeaderValueStart? && ch != CR && ch != LF && !IsBlank(ch)
    ensures var a := ActHeaderValueStart(c0, ch);
            if BadLength(Role(c0.hstate), [ch]) then a.ctl == Fail(HPE_INVALID_CONTENT_LENGTH)
            else InValue(Role(c0.hstate), c0, a.core, [ch]) && a == MarkAt(a.core, HeaderValue)
  {
    hide Watches, LowerCase, IsLength, LengthOf, Lower;
    var rho, a := Role(c0.hstate), ActHeaderValueStart(c0, ch);
    var h := a.core.hstate;
    WordsAreLowerCase();
    match rho
    case TransferEncoding => WordBegins(ch, CHUNKED_WORD, MatchingChunked, Chunked, h);
    case Connection =>
      WordBegins(ch, KEEP_ALIVE_WORD, MatchingKeepAlive, KeepAlive, h);
      WordBegins(ch, CLOSE_WORD, MatchingClose, Close, h);
    case ContentLength => LengthOne(ch);
    case _ =>
  }

  /** For a word the state is not about, one such state is as good as another. */
  lemma WatchesOther(g: HeaderState, j: nat, h: HeaderState, i: nat, v: bytes, word: bytes,
                     matching: HeaderState, done: HeaderState)
    requires Watches(g, j, v, word, matching, done)
    requires g != matching && g != done && h != matching && h != done
    ensures Watches(h, i, v, word, matching, done)
  {}

  /** The state after one more byte of a value, as far as words are concerned. */
  function WordChar(c: Core, ch: byte): (r: Core)
    ensures r == c.(index := r.index, hstate := r.hstate)
  {
    match c.hstate
    case MatchingChunked => Match(c, CHUNKED_WORD, Lower(ch), Chunked)
    case MatchingKeepAlive => Match(c, KEEP_ALIVE_WORD, Lower(ch), KeepAlive)
    case MatchingClose => Match(c, CLOSE_WORD, Lower(ch), Close)
    case _ =>
      var kept := ch == SP && (c.hstate.Chunked? || c.hstate.KeepAlive? || c.hstate.Close?);
      c.(hstate := if kept then c.hstate else General)
  }

  lemma CodingByte(c: Core, v: bytes, ch: byte)
    requires Follows(TransferEncoding, c.hstate, c.index, v) && ch != CR
    ensures Follows(TransferEncoding, WordChar(c, ch).hstate, WordChar(c, ch).index, v + [ch])
  {
    hide Watches, LowerCase, Lower, Match;
    WordsAreLowerCase();
    var r := WordChar(c, ch);
    if c.hstate.MatchingChunked? {
      WordMatches(c, v, ch, CHUNKED_WORD, Chunked);
    } else {
      WordLeft(c.hstate, c.index, r.index, v, ch, CHUNKED_WORD, MatchingChunked, Chunked);
    }
  }

  lemma ConnectionByte(c: Core, v: bytes, ch: byte)
    requires Follows(Connection, c.hstate, c.index, v) && ch != CR
    ensures Follows(Connection, WordChar(c, ch).hstate, WordChar(c, ch).index, v + [ch])
  {
    hide Watches, LowerCase, Lower, Match;
    WordsAreLowerCase();
    var r := WordChar(c, ch);
    var h, i := c.hstate, c.index;
    if h.MatchingKeepAlive? {
      WordMatches(c, v, ch, KEEP_ALIVE_WORD, KeepAlive);
    } else {
      WordLeft(h, i, r.index, v, ch, KEEP_ALIVE_WORD, MatchingKeepAlive, KeepAlive);
      if !h.KeepAlive? {
        WatchesOther(General, r.index, r.hstate, r.index, v + [ch], KEEP_ALIVE_WORD, MatchingKeepAlive, KeepAlive);
      }
    }
    if h.MatchingClose? {
      WordMatches(c, v, ch, CLOSE_WORD, Close);
    } else {
      WordLeft(h, i, r.index, v, ch, CLOSE_WORD, MatchingClose, Close);
      if !h.Close? {
        WatchesOther(General, r.index, r.hstate, r.index, v + [ch], CLOSE_WORD, MatchingClose, Close);
      }
    }
  }

  lemma LengthByte(c: Core, v: bytes, ch: byte)
    requires c.hstate.ContentLength? && IsLength(v) && c.clen == LengthOf(v) && ch != CR && ch != LF
    ensures var a := ActHeaderValue(c, ch);
            if !IsLength(v + [ch]) then a.ctl == Fail(HPE_INVALID_CONTENT_LENGTH)
            else a == Stay(c.(clen := LengthOf(v + [ch])))
  {
    hide Number, Digits, LengthDigit;
    LengthMore(v, ch);
    if IsNum(ch) { DigitAccepted(c, 10, ch - 48); }
  }

  lemma ValueByte(rho: HeaderState, c0: Core, c: Core, v: bytes, ch: byte)
    requires v != [] && !BadLength(rho, v) && InValue(rho, c0, c, v) && ch != CR && ch != LF
    ensures var a := ActHeaderValue(c, ch);
            if BadLength(rho, v + [ch]) then a.ctl == Fail(HPE_INVALID_CONTENT_LENGTH)
            else a == Stay(a.core) && InValue(rho, c0, a.core, v + [ch])
  {
    hide Watches, Lower, Match, IsLength, LengthOf, LengthDigit;
    if rho.ContentLength? {
      LengthByte(c, v, ch);
    } else {
      assert ActHeaderValue(c, ch) == Stay(WordChar(c, ch));
      if rho.Connection? { ConnectionByte(c, v, ch); }
      if rho.TransferEncoding? { CodingByte(c, v, ch); }
    }
  }

  // ----- one value -----

  lemma ValueStartStep(m: Machine, ch: byte)
    requires Ready(m) && m.stop.Running? && m.core.state.HeaderValueStart? && m.nread < MAX_HEADER_SIZE
    requires ch != CR && ch != LF && !IsBlank(ch)
    ensures var r := Step(m, ch);
            if BadLength(Role(m.core.hstate), [ch]) then r.stop == Failed(HPE_INVALID_CONTENT_LENGTH)
            else InValue(Role(m.core.hstate), m.core, r.core, [ch])
                 && r == Machine(r.core, m.nread + 1, Push(m.trace, Data(HeaderValue, [ch])), Running)
  {
    hide ActHeaderValueStart, Follows, Push, MethodName, NameHeaderState, Role, IsLength, LengthOf;
    ValueBegins(m.core, ch);
  }

  lemma ValueTextStep(m: Machine, ch: byte, rho: HeaderState, c0: Core, v: bytes)
    requires Ready(m) && m.stop.Running? && m.nread < MAX_HEADER_SIZE && ch != CR && ch != LF
    requires v != [] && !BadLength(rho, v) && InValue(rho, c0, m.core, v)
    ensures var r := Step(m, ch);
            if BadLength(rho, v + [ch]) then r.stop == Failed(HPE_INVALID_CONTENT_LENGTH)
            else InValue(rho, c0, r.core, v + [ch])
                 && r == Machine(r.core, m.nread + 1, Push(m.trace, Data(HeaderValue, [ch])), Running)
  {
    hide ActHeaderValue, Follows, Push, MethodName, NameHeaderState, IsLength, LengthOf;
    ValueByte(rho, c0, m.core, v, ch);
  }

  lemma StaysBad(rho: HeaderState, v: bytes, ch: byte)
    requires v != [] && BadLength(rho, v)
    ensures BadLength(rho, v + [ch])
  {
    hide IsLength;
    NotALength(v, ch);
  }

  /** The bytes of a value: delivered as they are, the header state in agreement with them; a length
      that is none stops the parser. */
  lemma {:induction false} ValueRead(m: Machine, v: bytes)
    requires Ready(m) && m.stop.Running? && m.core.state.HeaderValueStart? && m.nread + |v| <= MAX_HEADER_SIZE
    requires IsValue(v) && v != []
    ensures var r := Run(m, v);
            if BadLength(Role(m.core.hstate), v) then r.stop == Failed(HPE_INVALID_CONTENT_LENGTH)
            else InValue(Role(m.core.hstate), m.core, r.core, v)
                 && r == Machine(r.core, m.nread + |v|, Push(m.trace, Data(HeaderValue, v)), Running)
    decreases |v|
  {
    hide Step, Push, Ready, InValue, Role, BadLength;
    var init, ch := v[..|v| - 1], v[|v| - 1];
    var rho := Role(m.core.hstate);
    assert v == init + [ch];
    if init == [] {
      assert v == [ch];
      assert Run(m, init) == m;
      ValueStartStep(m, ch);
    } else {
      ValueRead(m, init);
      if BadLength(rho, init) {
        StaysBad(rho, init, ch);
        StepStopped(Run(m, init), ch);
      } else {
        ValueTextStep(Run(m, init), ch, rho, m.core, init);
        PushFragments(m.trace, HeaderValue, init, [ch]);
      }
    }
  }

  // ----- the end of a line -----

  /** The flags after a line, by string equality. */
  function LineFlags(rho: HeaderState, v: bytes, f: Flags): Flags
  {
    match rho
    case TransferEncoding => f.(chunked := f.chunked || IsWord(v, CHUNKED_WORD))
    case Connection =>
      f.(keepAlive := f.keepAlive || IsWord(v, KEEP_ALIVE_WORD), close := f.close || IsWord(v, CLOSE_WORD))
    case Upgrade => f.(upgrade := f.upgrade || v != [])
    case _ => f
  }

  /** The body length after a line, by decimal arithmetic. */
  function LineLength(rho: HeaderState, v: bytes, clen: nat): nat
    requires v != [] ==> !BadLength(rho, v)
  {
    if rho.ContentLength? && v != [] then LengthOf(v) else clen
  }

  /** At the end of the line the header state tells which word the value was. */
  lemma FlagsDecided(rho: HeaderState, h: HeaderState, i: nat, v: bytes, f: Flags)
    requires Follows(rho, h, i, v) && v != []
    ensures FlagOf(EarlyFlags(rho, f), h) == LineFlags(rho, v, f)
  {
    hide FoldAll;
  }

  lemma EmptyIsNoWord(v: bytes)
    requires v == []
    ensures !IsWord(v, CHUNKED_WORD) && !IsWord(v, KEEP_ALIVE_WORD) && !IsWord(v, CLOSE_WORD)
  {}

  lemma CarriageReturn(m: Machine)
    requires Ready(m) && m.stop.Running? && m.core.state.HeaderValueText? && m.nread < MAX_HEADER_SIZE
    ensures Step(m, CR) == Machine(m.core.(state := HeaderAlmostDone), m.nread + 1, m.trace, Running)
  {
    hide MethodName, NameHeaderState, LengthDigit;
  }

  lemma EmptyValue(m: Machine)
    requires Ready(m) && m.stop.Running? && m.core.state.HeaderValueStart? && m.nread < MAX_HEADER_SIZE
    ensures Step(m, CR) == Machine(m.core.(state := HeaderAlmostDone, hstate := General, index := 0), m.nread + 1,
                                   Push(m.trace, Data(HeaderValue, [])), Running)
  {
    hide MethodName, NameHeaderState, LengthDigit;
  }

  lemma LineFeed(m: Machine)
    requires Ready(m) && m.stop.Running? && m.core.state.HeaderAlmostDone? && m.nread < MAX_HEADER_SIZE
    ensures Step(m, LF) == Machine(m.core.(state := HeaderValueLws, flags := FlagOf(m.core.flags, m.core.hstate)),
                                   m.nread + 1, m.trace, Running)
  {
    hide MethodName, NameHeaderState, FlagOf;
  }

  lemma Blank(m: Machine, ch: byte)
    requires Ready(m) && m.stop.Running? && m.core.state.HeaderValueStart? && m.nread < MAX_HEADER_SIZE && IsBlank(ch)
    ensures Step(m, ch) == m.(nread := m.nread + 1)
  {
    hide MethodName, NameHeaderState;
  }

  lemma {:induction false} Blanks(m: Machine, pad: bytes)
    requires Ready(m) && m.stop.Running? && m.core.state.HeaderValueStart? && m.nread + |pad| <= MAX_HEADER_SIZE
    requires forall i :: 0 <= i < |pad| ==> IsBlank(pad[i])
    ensures Run(m, pad) == m.(nread := m.nread + |pad|)
    decreases |pad|
  {
    hide Step, Ready;
    if pad != [] {
      Blanks(m, pad[..|pad| - 1]);
      Blank(Run(m, pad[..|pad| - 1]), pad[|pad| - 1]);
    }
  }

  /** The role a folded line would go on in. */
  function FoldRole(rho: HeaderState, v: bytes): HeaderState
  {
    if rho.ContentLength? && v != [] then ContentLength else General
  }

  lemma RoleLeft(rho: HeaderState, h: HeaderState, i: nat, v: bytes)
    requires Follows(rho, h, i, v) && v != []
    ensures Role(h) == FoldRole(rho, v)
  {
    hide Watches;
  }

  lemma GeneralRole()
    ensures Role(General) == General
  {}

  /** A value and the end of its line. */
  lemma ValueLine(m: Machine, v: bytes)
    requires Ready(m) && m.stop.Running? && m.core.state.HeaderValueStart? && m.nread + |v| + 2 <= MAX_HEADER_SIZE
    requires IsValue(v)
    ensures var r, rho := Run(m, v + [CR, LF]), Role(m.core.hstate);
            if v != [] && BadLength(rho, v) then r.stop == Failed(HPE_INVALID_CONTENT_LENGTH)
            else r == Machine(m.core.(state := HeaderValueLws, index := r.core.index, hstate := r.core.hstate,
                                      flags := LineFlags(rho, v, m.core.flags),
                                      clen := LineLength(rho, v, m.core.clen)),
                              m.nread + |v| + 2, Push(m.trace, Data(HeaderValue, v)), Running)
                 && Role(r.core.hstate) == FoldRole(rho, v)
  {
    hide Step, Run, Push, Ready, Role, Follows, IsLength, LengthOf, FlagOf, LineFlags;
    var rho := Role(m.core.hstate);
    assert v + [CR, LF] == (v + [CR]) + [LF];
    RunMore(m, v + [CR], LF);
    RunMore(m, v, CR);
    if v == [] {
      assert Run(m, v) == m by { EmptyRun(m, v); }
      EmptyValue(m);
      LineFeed(Step(m, CR));
      EmptyFlags(rho, v, m.core.flags);
      GeneralRole();
    } else {
      ValueRead(m, v);
      var r := Run(m, v);
      if BadLength(rho, v) {
        StepStopped(r, CR);
        StepStopped(r, LF);
      } else {
        CarriageReturn(r);
        LineFeed(Step(r, CR));
        FlagsDecided(rho, r.core.hstate, r.core.index, v, m.core.flags);
        RoleLeft(rho, r.core.hstate, r.core.index, v);
      }
    }
  }

  lemma EmptyRun(m: Machine, s: bytes)
    requires Ready(m) && s == []
    ensures Run(m, s) == m
  {}

  lemma EmptyFlags(rho: HeaderState, v: bytes, f: Flags)
    requires v == []
    ensures FlagOf(f, General) == f == LineFlags(rho, v, f)
  {
    hide IsWord;
    EmptyIsNoWord(v);
  }

  // ----- one line -----

  datatype Line = Line(name: bytes, pad: bytes, value: bytes)

  predicate IsHeaderLine(l: Line)
  {
    IsName(l.name) && IsValue(l.value) && forall i :: 0 <= i < |l.pad| ==> IsBlank(l.pad[i])
  }

  function LineText(l: Line): (t: bytes)
    ensures |t| == |l.name| + |l.pad| + |l.value| + 3
  {
    (l.name + [58]) + (l.pad + (l.value + [CR, LF]))
  }

  function RoleOf(l: Line): HeaderState { Classify(FoldAll(l.name)) }

  /** A Content-Length line whose value is no length. */
  predicate BadLine(l: Line) { l.value != [] && BadLength(RoleOf(l), l.value) }

  /** The struct after a line: everything but the two matcher fields. */
  function LineCore(c: Core, l: Line): Core
    requires !BadLine(l)
  {
    c.(state := HeaderValueLws, flags := LineFlags(RoleOf(l), l.value, c.flags),
       clen := LineLength(RoleOf(l), l.value, c.clen))
  }

  function LineEvents(l: Line): seq<Event> { [Data(HeaderField, l.name), Data(HeaderValue, l.value)] }

  lemma PushTwo(trace: seq<Event>, d: Event, e: Event)
    ensures PushAll(trace, [d, e]) == Push(Push(trace, d), e)
  {
    PushAllConcat(trace, [d], [e]);
    PushAllOne(trace, d);
    PushAllOne(Push(trace, d), e);
    assert [d] + [e] == [d, e];
  }

  /** A whole header line from where a line may begin. */
  lemma HeaderLine(m: Machine, l: Line)
    requires Ready(m) && m.stop.Running? && m.core.state.HeaderFieldStart? && IsHeaderLine(l)
    requires m.nread + |LineText(l)| <= MAX_HEADER_SIZE
    ensures var r := Run(m, LineText(l));
            if BadLine(l) then r.stop == Failed(HPE_INVALID_CONTENT_LENGTH)
            else r == Machine(LineCore(m.core, l).(index := r.core.index, hstate := r.core.hstate),
                              m.nread + |LineText(l)|, PushAll(m.trace, LineEvents(l)), Running)
                 && Role(r.core.hstate) == FoldRole(RoleOf(l), l.value)
  {
    hide Run, Push, PushAll, Ready, Role, IsLength, LengthOf, LineFlags, Classify, FoldAll, IsValue, IsName, LineLength;
    var head, tail := l.name + [58], l.value + [CR, LF];
    NameClassified(m, l.name);
    var m1 := Run(m, head);
    RunConcat(m, head, l.pad + tail);
    Blanks(m1, l.pad);
    var m2 := Run(m1, l.pad);
    RunConcat(m1, l.pad, tail);
    ValueLine(m2, l.value);
    PushTwo(m.trace, Data(HeaderField, l.name), Data(HeaderValue, l.value));
  }

  // ----- a block of lines -----

  /** The same machine where it looks for a header name. */
  function AtLine(m: Machine): Machine { m.(core := m.core.(state := HeaderFieldStart)) }

  lemma LwsLooksAgain(c: Core, ch: byte)
    requires Sound(c) && c.state.HeaderValueLws? && !IsBlank(ch)
    ensures AssertsHold(c) && Act(c, ch) == Redo(c.(state := HeaderFieldStart))
    ensures Sound(c.(state := HeaderFieldStart))
  {
    hide MethodName, NameHeaderState;
  }

  /** After a line, any byte that does not fold the line is read as the first of the next one. */
  lemma NextLine(m: Machine, ch: byte)
    requires Ready(m) && m.stop.Running? && m.core.state.HeaderValueLws? && !IsBlank(ch) && m.nread < MAX_HEADER_SIZE
    ensures Ready(AtLine(m)) && Step(m, ch) == Step(AtLine(m), ch)
  {
    hide Sound, Act;
    LwsLooksAgain(m.core, ch);
    var c := m.core.(state := HeaderFieldStart);
    assert Deliver(m.trace, Redo(c), ch) == m.trace;
  }

  lemma NextLineRun(m: Machine, s: bytes)
    requires Ready(m) && m.stop.Running? && (m.core.state.HeaderFieldStart? || m.core.state.HeaderValueLws?)
    requires s != [] && !IsBlank(s[0]) && m.nread < MAX_HEADER_SIZE
    ensures Ready(AtLine(m)) && Run(m, s) == Run(AtLine(m), s)
  {
    hide Step, Sound, InField;
    if m.core.state.HeaderValueLws? {
      NextLine(m, s[0]);
      assert s == [s[0]] + s[1..];
      RunConcat(m, [s[0]], s[1..]);
      RunConcat(AtLine(m), [s[0]], s[1..]);
      EmptyRun(m, []);
      EmptyRun(AtLine(m), []);
      RunMore(m, [], s[0]);
      RunMore(AtLine(m), [], s[0]);
      assert [] + [s[0]] == [s[0]];
    } else {
      assert AtLine(m) == m;
    }
  }

  predicate IsHeaderBlock(lines: seq<Line>) { forall i :: 0 <= i < |lines| ==> IsHeaderLine(lines[i]) }

  function BlockText(lines: seq<Line>): bytes
  {
    if lines == [] then [] else BlockText(lines[..|lines| - 1]) + LineText(lines[|lines| - 1])
  }

  predicate BadBlock(lines: seq<Line>) { exists i :: 0 <= i < |lines| && BadLine(lines[i]) }

  /** The struct after a block: flags gathered from every line, the length from the last that gives one. */
  function BlockCore(c: Core, lines: seq<Line>): Core
    requires !BadBlock(lines)
  {
    if lines == [] then c else LineCore(BlockCore(c, lines[..|lines| - 1]), lines[|lines| - 1])
  }

  function BlockEvents(lines: seq<Line>): seq<Event>
  {
    if lines == [] then [] else BlockEvents(lines[..|lines| - 1]) + LineEvents(lines[|lines| - 1])
  }

  lemma LineBegins(l: Line)
    requires IsHeaderLine(l)
    ensures LineText(l) != [] && !IsBlank(LineText(l)[0])
  {
    assert LineText(l)[0] == l.name[0];
  }

  lemma SplitBlock(lines: seq<Line>)
    requires lines != []
    ensures var init := lines[..|lines| - 1];
            && (IsHeaderBlock(lines) ==> IsHeaderBlock(init) && IsHeaderLine(lines[|lines| - 1]))
            && (BadBlock(lines) <==> BadBlock(init) || BadLine(lines[|lines| - 1]))
  {
    hide IsHeaderLine, BadLine;
    var init := lines[..|lines| - 1];
    if BadBlock(init) {
      var i :| 0 <= i < |init| && BadLine(init[i]);
      assert BadLine(lines[i]);
    }
  }

  /** The struct of a block, the matcher fields as they come. */
  predicate BlockRead(m: Machine, lines: seq<Line>, r: Machine)
    requires !BadBlock(lines)
  {
    r == Machine(BlockCore(m.core, lines).(index := r.core.index, hstate := r.core.hstate),
                 m.nread + |BlockText(lines)|, PushAll(m.trace, BlockEvents(lines)), Running)
  }

  lemma BlockLine(m: Machine, lines: seq<Line>, mid: Machine, r: Machine)
    requires lines != [] && !BadBlock(lines) && !BadBlock(lines[..|lines| - 1])
    requires BlockRead(m, lines[..|lines| - 1], mid)
    requires var l := lines[|lines| - 1];
             r == Machine(LineCore(mid.core, l).(index := r.core.index, hstate := r.core.hstate),
                          mid.nread + |LineText(l)|, PushAll(mid.trace, LineEvents(l)), Running)
    ensures BlockRead(m, lines, r)
  {
    hide BadLine, LineText, LineEvents, PushAll, LineFlags, LineLength, RoleOf;
    PushAllConcat(m.trace, BlockEvents(lines[..|lines| - 1]), LineEvents(lines[|lines| - 1]));
  }

  /** Any block of header lines: a malformed length stops the parser, otherwise flags, length and
      delivered text are those of the lines. */
  lemma {:induction false} HeaderBlock(m: Machine, lines: seq<Line>)
    requires Ready(m) && m.stop.Running? && (m.core.state.HeaderFieldStart? || m.core.state.HeaderValueLws?)
    requires IsHeaderBlock(lines) && m.nread + |BlockText(lines)| <= MAX_HEADER_SIZE
    ensures var r := Run(m, BlockText(lines));
            if BadBlock(lines) then r.stop == Failed(HPE_INVALID_CONTENT_LENGTH) else BlockRead(m, lines, r)
    decreases |lines|
  {
    hide Step, Ready, LineText, BadLine, IsHeaderLine, BlockRead, LineCore, BadBlock, IsHeaderBlock, LineEvents;
    if lines == [] {
      NoLines(m);
    } else {
      var init, l := lines[..|lines| - 1], lines[|lines| - 1];
      SplitBlock(lines);
      HeaderBlock(m, init);
      var mid := Run(m, BlockText(init));
      RunConcat(m, BlockText(init), LineText(l));
      if BadBlock(init) {
        StoppedStays(mid, LineText(l));
      } else {
        LineBegins(l);
        BlockState(m, init, mid);
        NextLineRun(mid, LineText(l));
        HeaderLine(AtLine(mid), l);
        if !BadLine(l) { BlockAgain(mid, l, Run(mid, LineText(l))); BlockLine(m, lines, mid, Run(mid, LineText(l))); }
      }
    }
  }

  lemma NoLines(m: Machine)
    requires Ready(m) && m.stop.Running?
    ensures !BadBlock([]) && BlockRead(m, [], Run(m, BlockText([])))
  {
    PushAllNone(m.trace);
  }

  lemma BlockState(m: Machine, lines: seq<Line>, r: Machine)
    requires !BadBlock(lines) && BlockRead(m, lines, r)
    ensures r.core.state == if lines == [] then m.core.state else HeaderValueLws
    ensures r.stop.Running? && r.nread == m.nread + |BlockText(lines)|
  {
    hide BadLine, LineText, PushAll, BlockEvents, LineFlags, LineLength, RoleOf;
  }

  lemma BlockAgain(mid: Machine, l: Line, r: Machine)
    requires !BadLine(l)
    requires r == Machine(LineCore(AtLine(mid).core, l).(index := r.core.index, hstate := r.core.hstate),
                          mid.nread + |LineText(l)|, PushAll(mid.trace, LineEvents(l)), Running)
    ensures r == Machine(LineCore(mid.core, l).(index := r.core.index, hstate := r.core.hstate),
                         mid.nread + |LineText(l)|, PushAll(mid.trace, LineEvents(l)), Running)
  {
    hide BadLine, LineText, PushAll, LineEvents, LineFlags, LineLength, RoleOf;
  }
}
