/** The chunked coding (section 3.6.1 of RFC 2616): a recursive decoder of whole chunks, and the proof
    that the chunk states deliver what it delivers, on every stream, well formed or not. */
module HttpChunks {
  import opened Ascii
  import opened HttpTypes
  import opened HttpAutomaton
  import opened HttpRun
  import opened HttpExecute
  import opened HttpWords
  import opened HttpLengths
  import opened HttpHeaders
  import opened HttpBody

  // ----- the reference decoder -----

  /** The outcome of a size line: the size and what follows, not yet complete, or an error. */
  datatype SizeLine = Size(size: nat, rest: bytes) | Unfinished | Wrong(error: Errno)

  /** How many digits a text begins with. */
  function DigitCount(s: bytes): (k: nat)
    ensures k <= |s| && (forall i :: 0 <= i < k ==> SizeDigit(s[i])) && (k < |s| ==> !SizeDigit(s[k]))
  {
    if s != [] && SizeDigit(s[0]) then
      DigitCount(s[1..]) + 1
    else 0
  }

  /** Where the first CR is. */
  function FindReturn(s: bytes): (k: nat)
    ensures k <= |s| && (forall i :: 0 <= i < k ==> s[i] != CR) && (k < |s| ==> s[k] == CR)
  {
    if s != [] && s[0] != CR then
      FindReturn(s[1..]) + 1
    else 0
  }

  function AfterReturn(size: nat, s: bytes): SizeLine
  {
    if s == [] then Unfinished else if s[0] == LF then Size(size, s[1..]) else Wrong(HPE_STRICT)
  }

  function AfterParameters(size: nat, s: bytes): SizeLine
  {
    var j := FindReturn(s);
    if j == |s| then Unfinished else AfterReturn(size, s[j + 1..])
  }

  /** A size line: digits, then perhaps parameters that are ignored, then CR LF. */
  function ShortLine(s: bytes): SizeLine
  {
    var k := DigitCount(s);
    if s == [] then Unfinished
    else if k == 0 then Wrong(HPE_INVALID_CHUNK_SIZE)
    else if SizeOf(s[..k]) >= Limit(16) then Wrong(HPE_INVALID_CONTENT_LENGTH)
    else if k == |s| then Unfinished
    else if s[k] == CR then AfterReturn(SizeOf(s[..k]), s[k + 1..])
    else if s[k] == 59 || s[k] == SP then AfterParameters(SizeOf(s[..k]), s[k + 1..])
    else Wrong(HPE_INVALID_CHUNK_SIZE)
  }

  /** A size line must end within the header limit. */
  function LineOf(s: bytes): SizeLine
  {
    if |s| <= MAX_HEADER_SIZE then ShortLine(s)
    else
      match ShortLine(s[..MAX_HEADER_SIZE])
      case Size(n, rest) => Size(n, rest + s[MAX_HEADER_SIZE..])
      case Unfinished => Wrong(HPE_HEADER_OVERFLOW)
      case Wrong(e) => Wrong(e)
  }

  lemma LineShrinks(s: bytes)
    ensures LineOf(s).Size? ==> |LineOf(s).rest| < |s|
  {
    hide SizeOf, Limit, DigitCount, FindReturn;
  }

  /** The whole coding: every chunk decoded up to the last one, or the part of the body that is there. */
  datatype Dechunked = Done(body: bytes, rest: bytes) | More(body: bytes) | Broken(body: bytes, error: Errno)

  function Before(chunk: bytes, d: Dechunked): Dechunked
  {
    match d
    case Done(b, r) => Done(chunk + b, r)
    case More(b) => More(chunk + b)
    case Broken(b, e) => Broken(chunk + b, e)
  }

  function Dechunk(s: bytes): Dechunked
    decreases |s|
  {
    LineShrinks(s);
    match LineOf(s)
    case Unfinished => More([])
    case Wrong(e) => Broken([], e)
    case Size(n, rest) =>
      if n == 0 then Done([], rest)
      else if |rest| <= n then More(rest)
      else if rest[n] != CR then Broken(rest[..n], HPE_STRICT)
      else if |rest| == n + 1 then More(rest[..n])
      else if rest[n + 1] != LF then Broken(rest[..n], HPE_STRICT)
      else Before(rest[..n], Dechunk(rest[n + 2..]))
  }

  // ----- the size line in the automaton -----

  predicate Idle(m: Machine, s: State) { Ready(m) && m.stop.Running? && m.core.state == s }

  /** The parser reading a size line. */
  function Sizing(m: Machine, s: State, size: nat, n: nat): Machine
  {
    m.(core := m.core.(state := s, clen := size), nread := n)
  }

  lemma FirstDigitStep(m: Machine, ch: byte)
    requires Idle(m, ChunkSizeStart)
    ensures m.nread == 0
    ensures SizeDigit(ch) ==> Step(m, ch) == Sizing(m, ChunkSize, DigitOf(ch), 1)
    ensures !SizeDigit(ch) ==> Step(m, ch).stop == Failed(HPE_INVALID_CHUNK_SIZE) && Step(m, ch).trace == m.trace
  {
    hide MethodName, NameHeaderState, Unhex;
  }

  lemma SizeEntry(c: Core, ch: byte)
    requires Sound(c) && c.state.ChunkSize?
    ensures AssertsHold(c) && Act(c, ch) == ActChunkSize(c, ch)
  {
    hide MethodName, NameHeaderState, ActChunkSize;
  }

  /** One entry that delivers nothing. */
  lemma SilentStep(m: Machine, ch: byte, a: Action)
    requires Ready(m) && m.stop.Running? && Counted(m.core, m.nread) <= MAX_HEADER_SIZE
    requires AssertsHold(m.core) && Act(m.core, ch) == a
    requires a.mark.None? && a.emit.None? && a.note.None? && FieldOf(a.core.state).None?
    ensures a.ctl.Advance? ==>
              Step(m, ch) == Machine(a.core, if a.zero then 0 else Counted(m.core, m.nread), m.trace, Running)
    ensures a.ctl.Fail? ==> Step(m, ch).stop == Failed(a.ctl.error) && Step(m, ch).trace == m.trace
  {
    hide Sound, Act, Ready, Step, FieldOf;
    OneEntry(m, ch);
  }

  lemma SizeStep(m: Machine, ch: byte)
    requires Idle(m, ChunkSize) && m.nread < MAX_HEADER_SIZE
    ensures SizeDigit(ch) ==>
              var n := m.core.clen * 16 + DigitOf(ch);
              if n < Limit(16) then Step(m, ch) == Sizing(m, ChunkSize, n, m.nread + 1)
              else Step(m, ch).stop == Failed(HPE_INVALID_CONTENT_LENGTH) && Step(m, ch).trace == m.trace
    ensures !SizeDigit(ch) ==>
              if ch == CR then Step(m, ch) == Sizing(m, ChunkSizeAlmostDone, m.core.clen, m.nread + 1)
              else if ch == 59 || ch == SP then Step(m, ch) == Sizing(m, ChunkParameters, m.core.clen, m.nread + 1)
              else Step(m, ch).stop == Failed(HPE_INVALID_CHUNK_SIZE) && Step(m, ch).trace == m.trace
  {
    hide Sound, Act, Step, Limit, LengthDigit, InField;
    assert !SizeDigit(CR);
    SizeEntry(m.core, ch);
    SilentStep(m, ch, ActChunkSize(m.core, ch));
    if SizeDigit(ch) { DigitAccepted(m.core, 16, DigitOf(ch)); }
  }

  lemma ParameterStep(m: Machine, ch: byte)
    requires Idle(m, ChunkParameters) && m.nread < MAX_HEADER_SIZE
    ensures Step(m, ch) == Sizing(m, if ch == CR then ChunkSizeAlmostDone else ChunkParameters, m.core.clen,
              m.nread + 1)
  {
    hide MethodName, NameHeaderState;
  }

  /** The parser behind a size line: in the chunk, or in the trailer after the last chunk. */
  function Sized(m: Machine, size: nat): Machine
  {
    m.(core := if size == 0 then m.core.(clen := 0, flags := m.core.flags.(trailing := true), state := HeaderFieldStart)
               else m.core.(clen := size, state := ChunkData), nread := 0)
  }

  lemma LineFeedStep(m: Machine, ch: byte)
    requires Idle(m, ChunkSizeAlmostDone) && m.nread < MAX_HEADER_SIZE
    ensures if ch == LF then Step(m, ch) == Sized(m, m.core.clen)
            else Step(m, ch).stop == Failed(HPE_STRICT) && Step(m, ch).trace == m.trace
  {
    hide MethodName, NameHeaderState;
  }

  /** All digits of a size, read one by one. */
  lemma {:induction false} DigitsRead(m: Machine, d: bytes)
    requires Idle(m, ChunkSizeStart) && 0 < |d| <= MAX_HEADER_SIZE
    requires forall i :: 0 <= i < |d| ==> SizeDigit(d[i])
    ensures var r := Run(m, d);
            if SizeOf(d) < Limit(16) then r == Sizing(m, ChunkSize, SizeOf(d), |d|)
            else r.stop == Failed(HPE_INVALID_CONTENT_LENGTH) && r.trace == m.trace
    decreases |d|
  {
    hide Step, Ready, Run, SizeOf, SizeDigit, DigitOf, Limit;
    var init, ch := d[..|d| - 1], d[|d| - 1];
    assert d == init + [ch];
    RunMore(m, init, ch);
    if init == [] {
      EmptyRun(m, init);
      FirstDigitStep(m, ch);
      OneDigit(ch);
      assert d == [ch];
    } else {
      DigitsRead(m, init);
      SizeMore(init, ch);
      if SizeOf(init) < Limit(16) {
        SizeStep(Run(m, init), ch);
      } else {
        StepStopped(Run(m, init), ch);
      }
    }
  }

  lemma OneDigit(ch: byte)
    requires SizeDigit(ch)
    ensures SizeOf([ch]) == DigitOf(ch) == Unhex(ch) < Limit(16)
  {
    hide Number;
    assert SizeDigits([ch]) == [DigitOf(ch)];
    NumberOne(DigitOf(ch), 16);
  }

  lemma {:induction false} ParametersRead(m: Machine, t: bytes)
    requires Idle(m, ChunkParameters) && m.nread + |t| <= MAX_HEADER_SIZE
    requires forall i :: 0 <= i < |t| ==> t[i] != CR
    ensures Run(m, t) == m.(nread := m.nread + |t|)
    decreases |t|
  {
    hide Step, Ready;
    if t != [] {
      ParametersRead(m, t[..|t| - 1]);
      ParameterStep(Run(m, t[..|t| - 1]), t[|t| - 1]);
    }
  }

  /** What a stream has led to, against the outcome of its size line. */
  ghost predicate LineTaken(m: Machine, s: bytes, l: SizeLine)
    requires Ready(m)
  {
    var r := Run(m, s);
    match l
    case Size(n, rest) => Ready(Sized(m, n)) && r == Run(Sized(m, n), rest)
    case Unfinished => r.stop.Running? && r.trace == m.trace && r.nread == m.nread + |s| && ParsingHeader(r.core.state)
    case Wrong(e) => r.stop == Failed(e) && r.trace == m.trace
  }

  /** The bytes behind the CR. */
  lemma ReturnRead(m: Machine, s: bytes)
    requires Idle(m, ChunkSizeAlmostDone) && m.nread + |s| <= MAX_HEADER_SIZE
    ensures LineTaken(m, s, AfterReturn(m.core.clen, s))
  {
    hide Step, Ready, Sized;
    if s == [] {
      EmptyRun(m, s);
    } else {
      HeadRun(m, s);
      LineFeedStep(m, s[0]);
      StoppedStays(Step(m, s[0]), s[1..]);
    }
  }

  lemma HeadRun(m: Machine, s: bytes)
    requires Ready(m) && s != []
    ensures Run(m, s) == Run(Step(m, s[0]), s[1..])
  {
    hide Step, Ready;
    assert s == [s[0]] + s[1..];
    RunConcat(m, [s[0]], s[1..]);
    EmptyRun(m, []);
    RunMore(m, [], s[0]);
    assert [] + [s[0]] == [s[0]];
  }

  /** A size line continued from inside it. */
  lemma LineContinues(m: Machine, a: bytes, st: State, size: nat, b: bytes, l: SizeLine)
    requires Ready(m)
    requires Run(m, a) == Sizing(m, st, size, m.nread + |a|) && LineTaken(Run(m, a), b, l)
    ensures LineTaken(m, a + b, l)
  {
    hide Run, Ready;
    RunConcat(m, a, b);
  }

  lemma ParametersThenReturn(m: Machine, t: bytes)
    requires Idle(m, ChunkParameters) && m.nread + |t| <= MAX_HEADER_SIZE
    ensures LineTaken(m, t, AfterParameters(m.core.clen, t))
  {
    hide Run, Ready, Step, AfterReturn, FindReturn, LineTaken;
    var j := FindReturn(t);
    ParametersRead(m, t[..j]);
    var m1 := Run(m, t[..j]);
    if j == |t| {
      assert t == t[..j] + [];
      NothingTaken(m1, []);
      LineContinues(m, t[..j], ChunkParameters, m.core.clen, [], Unfinished);
    } else {
      ParameterStep(m1, CR);
      RunMore(m, t[..j], CR);
      var e := t[..j] + [CR];
      assert t == e + t[j + 1..];
      ReturnRead(Step(m1, CR), t[j + 1..]);
      LineContinues(m, e, ChunkSizeAlmostDone, m.core.clen, t[j + 1..], AfterReturn(m.core.clen, t[j + 1..]));
    }
  }

  /** A size line within the limit, whatever it is. */
  lemma ShortLineRead(m: Machine, s: bytes)
    requires Idle(m, ChunkSizeStart) && |s| <= MAX_HEADER_SIZE
    ensures LineTaken(m, s, ShortLine(s))
  {
    hide Run, Ready, Step, AfterReturn, AfterParameters, DigitCount, SizeOf, Limit, LineTaken;
    var k := DigitCount(s);
    if s == [] {
      NothingTaken(m, s);
    } else if k == 0 {
      FirstDigitStep(m, s[0]);
      HeadRun(m, s);
      TakenWrong(m, s, s[1..], Step(m, s[0]));
    } else {
      var d, u := s[..k], s[k..];
      assert s == d + u;
      FirstDigitStep(m, s[0]);
      DigitsRead(m, d);
      RunConcat(m, d, u);
      var m1 := Run(m, d);
      if SizeOf(d) >= Limit(16) {
        TakenWrong(m, s, u, m1);
      } else if k == |s| {
        NothingTaken(m1, u);
        LineContinues(m, d, ChunkSize, SizeOf(d), u, Unfinished);
      } else {
        SizeEnds(m, m1, d, u);
      }
    }
  }

  lemma NothingTaken(m: Machine, s: bytes)
    requires Ready(m) && m.stop.Running? && s == [] && ParsingHeader(m.core.state)
    ensures LineTaken(m, s, Unfinished)
  {
    hide Ready;
  }

  lemma TakenWrong(m: Machine, s: bytes, rest: bytes, r: Machine)
    requires Ready(m) && Ready(r) && Run(m, s) == Run(r, rest) && r.stop.Failed? && r.trace == m.trace
    ensures LineTaken(m, s, Wrong(r.stop.error))
  {
    hide Run, Ready;
    StoppedStays(r, rest);
  }

  /** The byte after the digits. */
  lemma SizeEnds(m: Machine, m1: Machine, d: bytes, u: bytes)
    requires Idle(m, ChunkSizeStart) && m.nread == 0 && m1 == Run(m, d) == Sizing(m, ChunkSize, m1.core.clen, |d|)
    requires u != [] && !SizeDigit(u[0]) && |d + u| <= MAX_HEADER_SIZE
    ensures LineTaken(m, d + u,
                      if u[0] == CR then AfterReturn(m1.core.clen, u[1..])
                      else if u[0] == 59 || u[0] == SP then AfterParameters(m1.core.clen, u[1..])
                      else Wrong(HPE_INVALID_CHUNK_SIZE))
  {
    hide Run, Ready, Step, AfterReturn, AfterParameters, SizeDigit, LineTaken, DigitOf, Limit;
    SizeStep(m1, u[0]);
    var m2 := Step(m1, u[0]);
    var e := d + [u[0]];
    RunMore(m, d, u[0]);
    assert d + u == e + u[1..];
    if u[0] == CR {
      ReturnRead(m2, u[1..]);
      LineContinues(m, e, ChunkSizeAlmostDone, m1.core.clen, u[1..], AfterReturn(m1.core.clen, u[1..]));
    } else if u[0] == 59 || u[0] == SP {
      ParametersThenReturn(m2, u[1..]);
      LineContinues(m, e, ChunkParameters, m1.core.clen, u[1..], AfterParameters(m1.core.clen, u[1..]));
    } else {
      RunConcat(m, e, u[1..]);
      TakenWrong(m, d + u, u[1..], m2);
    }
  }

  /** Any size line: one that does not end within the limit overflows. */
  lemma LineRead(m: Machine, s: bytes)
    requires Idle(m, ChunkSizeStart)
    ensures LineTaken(m, s, LineOf(s))
  {
    hide Run, Ready, Step, ShortLine;
    FirstDigitStep(m, 0);
    if |s| <= MAX_HEADER_SIZE {
      ShortLineRead(m, s);
    } else {
      var head, tail := s[..MAX_HEADER_SIZE], s[MAX_HEADER_SIZE..];
      assert s == head + tail;
      ShortLineRead(m, head);
      RunConcat(m, head, tail);
      var r := Run(m, head);
      match ShortLine(head)
      case Size(n, rest) => RunConcat(Sized(m, n), rest, tail);
      case Wrong(_) => StoppedStays(r, tail);
      case Unfinished =>
        HeadRun(r, tail);
        OverflowStep(r, tail[0]);
        StoppedStays(Step(r, tail[0]), tail[1..]);
    }
  }

  lemma OverflowStep(m: Machine, ch: byte)
    requires Ready(m) && m.stop.Running? && ParsingHeader(m.core.state) && m.nread == MAX_HEADER_SIZE
    ensures Step(m, ch).stop == Failed(HPE_HEADER_OVERFLOW) && Step(m, ch).trace == m.trace
  {
    hide Sound, Chain;
  }

  // ----- the data of one chunk -----

  lemma LastChunkByte(m: Machine, ch: byte)
    requires Idle(m, ChunkData) && m.core.clen == 1
    ensures Step(m, ch) == m.(core := m.core.(clen := 0, state := ChunkDataAlmostDone),
              trace := Push(m.trace, Data(Body, [ch])))
  {
    hide MethodName, NameHeaderState, Push;
  }

  lemma ChunkBody(m: Machine, chunk: bytes)
    requires Idle(m, ChunkData) && m.core.clen == |chunk|
    ensures Run(m, chunk) == m.(core := m.core.(clen := 0, state := ChunkDataAlmostDone),
              trace := PushBody(m.trace, chunk))
  {
    hide Step, Push, Sound, InField, NameHeaderState, MethodName;
    assert chunk != [] by { AssertsKept(m.core); }
    var init, ch := chunk[..|chunk| - 1], chunk[|chunk| - 1];
    BodyRun(m, init);
    var mid := Run(m, init);
    LastChunkByte(mid, ch);
    assert chunk == init + [ch];
    if init != [] { PushFragments(m.trace, Body, init, [ch]); } else { assert chunk == [ch]; }
  }

  lemma ChunkReturnStep(m: Machine, ch: byte)
    requires Idle(m, ChunkDataAlmostDone)
    ensures if ch == CR then Step(m, ch) == m.(core := m.core.(state := ChunkDataDone))
            else Step(m, ch).stop == Failed(HPE_STRICT) && Step(m, ch).trace == m.trace
  {
    hide MethodName, NameHeaderState;
  }

  lemma ChunkFeedStep(m: Machine, ch: byte)
    requires Idle(m, ChunkDataDone)
    ensures if ch == LF then Step(m, ch) == m.(core := m.core.(state := ChunkSizeStart), nread := 0)
            else Step(m, ch).stop == Failed(HPE_STRICT) && Step(m, ch).trace == m.trace
  {
    hide MethodName, NameHeaderState;
  }

  /** The machine after chunks with this body, before the next size line. */
  function AfterChunks(m: Machine, body: bytes): Machine
  {
    m.(core := m.core.(clen := 0, state := ChunkSizeStart), nread := 0, trace := PushBody(m.trace, body))
  }

  /** What a stream of chunks has led to, against the reference. */
  ghost predicate Dechunks(m: Machine, s: bytes, d: Dechunked)
    requires Ready(m)
  {
    var r := Run(m, s);
    match d
    case Done(b, rest) => Ready(Sized(AfterChunks(m, b), 0)) && r == Run(Sized(AfterChunks(m, b), 0), rest)
    case More(b) => r.stop.Running? && r.trace == PushBody(m.trace, b)
    case Broken(b, e) => r.stop == Failed(e) && r.trace == PushBody(m.trace, b)
  }

  /** The bytes behind a chunk's data. */
  lemma ChunkEnds(m: Machine, s: bytes)
    requires Idle(m, ChunkDataAlmostDone)
    ensures s == [] ==> Run(m, s) == m
    ensures s != [] && s[0] != CR ==> Run(m, s).stop == Failed(HPE_STRICT) && Run(m, s).trace == m.trace
    ensures |s| == 1 && s[0] == CR ==> Run(m, s).stop.Running? && Run(m, s).trace == m.trace
    ensures |s| > 1 && s[0] == CR && s[1] != LF ==> Run(m, s).stop == Failed(HPE_STRICT) && Run(m, s).trace == m.trace
    ensures |s| > 1 && s[0] == CR && s[1] == LF ==>
              var r := m.(core := m.core.(state := ChunkSizeStart), nread := 0); Ready(r) && Run(m, s) == Run(r, s[2..])
  {
    hide Step, Run, Ready;
    if s == [] {
      EmptyRun(m, s);
    } else {
      HeadRun(m, s);
      ChunkReturnStep(m, s[0]);
      var m1 := Step(m, s[0]);
      if s[0] != CR {
        StoppedStays(m1, s[1..]);
      } else if |s| == 1 {
        EmptyRun(m1, s[1..]);
      } else {
        HeadRun(m1, s[1..]);
        ChunkFeedStep(m1, s[1]);
        assert s[1..][1..] == s[2..];
        StoppedStays(Step(m1, s[1]), s[2..]);
      }
    }
  }

  /** The data of a chunk whose size line has been read, and what follows it. */
  lemma ChunkRead(m: Machine, n: nat, rest: bytes)
    requires Idle(m, ChunkSizeStart) && n > 0 && Ready(Sized(m, n))
    ensures var r := Run(Sized(m, n), rest);
            if |rest| < n then r.stop.Running? && r.trace == PushBody(m.trace, rest)
            else
              var e := m.(core := m.core.(clen := 0, state := ChunkDataAlmostDone), nread := 0,
                  trace := PushBody(m.trace, rest[..n]));
              Ready(e) && r == Run(e, rest[n..])
  {
    hide Run, Ready, Push;
    var c := Sized(m, n);
    if |rest| < n {
      BodyRun(c, rest);
    } else {
      assert rest == rest[..n] + rest[n..];
      RunConcat(c, rest[..n], rest[n..]);
      ChunkBody(c, rest[..n]);
    }
  }

  lemma FirstChunk(m: Machine, chunk: bytes, s: bytes, t: bytes, d: Dechunked)
    requires Ready(m) && Ready(AfterChunks(m, chunk)) && Run(m, s) == Run(AfterChunks(m, chunk), t)
    requires Dechunks(AfterChunks(m, chunk), t, d)
    ensures Dechunks(m, s, Before(chunk, d))
  {
    hide Run, Ready, PushBody;
    var b := d.body;
    PushBodyTwice(m.trace, chunk, b);
    assert d.Done? ==> Sized(AfterChunks(AfterChunks(m, chunk), b), 0) == Sized(AfterChunks(m, chunk + b), 0);
  }

  /** The chunk states deliver, on any stream, exactly the reference's body, and end, wait or fail
      exactly where it does. */
  lemma {:induction false} ChunksRead(m: Machine, s: bytes)
    requires Idle(m, ChunkSizeStart)
    ensures Dechunks(m, s, Dechunk(s))
    decreases |s|
  {
    hide Run, Ready, LineOf, PushBody, AfterChunks, Sized;
    LineShrinks(s);
    LineRead(m, s);
    match LineOf(s)
    case Unfinished => NoBodyYet(m);
    case Wrong(_) => NoBodyYet(m);
    case Size(n, rest) =>
      if n == 0 {
        LastChunk(m);
      } else {
        ChunkThenRest(m, s, n, rest);
        if |rest| > n + 1 && rest[n] == CR && rest[n + 1] == LF {
          ChunksRead(AfterChunks(m, rest[..n]), rest[n + 2..]);
          FirstChunk(m, rest[..n], s, rest[n + 2..], Dechunk(rest[n + 2..]));
        }
      }
  }

  lemma NoBodyYet(m: Machine)
    ensures PushBody(m.trace, []) == m.trace
  {}

  lemma LastChunk(m: Machine)
    ensures Sized(AfterChunks(m, []), 0) == Sized(m, 0)
  {}

  lemma ChunkThenRest(m: Machine, s: bytes, n: nat, rest: bytes)
    requires Idle(m, ChunkSizeStart) && n > 0 && Ready(Sized(m, n)) && Run(m, s) == Run(Sized(m, n), rest)
    ensures |rest| <= n ==> Run(m, s).stop.Running? && Run(m, s).trace == PushBody(m.trace, rest)
    ensures |rest| > n && rest[n] != CR ==>
              Run(m, s).stop == Failed(HPE_STRICT) && Run(m, s).trace == PushBody(m.trace, rest[..n])
    ensures |rest| == n + 1 && rest[n] == CR ==>
              Run(m, s).stop.Running? && Run(m, s).trace == PushBody(m.trace, rest[..n])
    ensures |rest| > n + 1 && rest[n] == CR && rest[n + 1] != LF ==>
              Run(m, s).stop == Failed(HPE_STRICT) && Run(m, s).trace == PushBody(m.trace, rest[..n])
    ensures |rest| > n + 1 && rest[n] == CR && rest[n + 1] == LF ==>
              Idle(AfterChunks(m, rest[..n]), ChunkSizeStart)
                  && Run(m, s) == Run(AfterChunks(m, rest[..n]), rest[n + 2..])
  {
    hide Run, Ready, PushBody;
    ChunkRead(m, n, rest);
    if |rest| >= n {
      var e := m.(core := m.core.(clen := 0, state := ChunkDataAlmostDone), nread := 0,
          trace := PushBody(m.trace, rest[..n]));
      ChunkEnds(e, rest[n..]);
      assert |rest| == n ==> rest[..n] == rest;
      assert |rest| > n + 1 ==> rest[n..][1] == rest[n + 1] && rest[n..][2..] == rest[n + 2..];
    }
  }

  // ----- which sizes are accepted -----

  predicate AllDigits(d: bytes) { forall i :: 0 <= i < |d| ==> SizeDigit(d[i]) }

  /** A size without parameters: accepted exactly when the table takes every byte for a digit and the
      number stays below the limit, and the length is then that number. */
  lemma ChunkSizeAccepted(m: Machine, d: bytes)
    requires Idle(m, ChunkSizeStart) && 0 < |d| < MAX_HEADER_SIZE
    requires forall i :: 0 <= i < |d| ==> d[i] != CR && d[i] != 59 && d[i] != SP
    ensures var r := Run(m, d + [CR]);
            && (r.stop.Running? <==> AllDigits(d) && SizeOf(d) < Limit(16))
            && (r.stop.Running? ==> r == Sizing(m, ChunkSizeAlmostDone, SizeOf(d), |d| + 1))
  {
    hide Run, Ready, Step, SizeOf, SizeDigit, Limit, DigitCount;
    if AllDigits(d) {
      FirstDigitStep(m, d[0]);
      DigitsRead(m, d);
      RunMore(m, d, CR);
      assert !SizeDigit(CR) by { NotADigit(); }
      if SizeOf(d) < Limit(16) { SizeStep(Run(m, d), CR); } else { StepStopped(Run(m, d), CR); }
    } else {
      var s := d + [CR];
      ShortLineRead(m, s);
      assert ShortLine(s).Wrong? by { NotAllDigits(d); }
    }
  }

  lemma NotADigit()
    ensures !SizeDigit(CR)
  {}

  lemma NotAllDigits(d: bytes)
    requires !AllDigits(d) && forall i :: 0 <= i < |d| ==> d[i] != CR && d[i] != 59 && d[i] != SP
    ensures ShortLine(d + [CR]).Wrong?
  {
    hide SizeOf, SizeDigit, Limit, DigitCount;
    var s := d + [CR];
    var k := DigitCount(s);
    var j :| 0 <= j < |d| && !SizeDigit(d[j]);
    assert s[j] == d[j];
    assert k <= j && s[k] == d[k];
  }

  /** The number a hexadecimal text stands for. */
  function HexNumber(d: bytes): nat
    requires forall i :: 0 <= i < |d| ==> IsHex(d[i])
  {
    Number(seq(|d|, i requires 0 <= i < |d| => HexDigitValue(d[i])), 16)
  }

  /** A text the table takes for a size is hexadecimal exactly when it is ASCII, and then its number is
      the one it stands for. */
  lemma SizesAreHexadecimal(d: bytes)
    requires AllDigits(d)
    ensures (forall i :: 0 <= i < |d| ==> IsHex(d[i])) <==> (forall i :: 0 <= i < |d| ==> d[i] < 128)
    ensures (forall i :: 0 <= i < |d| ==> d[i] < 128) ==>
              (forall i :: 0 <= i < |d| ==> IsHex(d[i])) && SizeOf(d) == HexNumber(d)
  {
    hide Number, IsHex, Unhex, HexDigitValue;
    forall i | 0 <= i < |d| ensures IsHex(d[i]) <==> d[i] < 128 {
      if d[i] < 128 { TableOnAscii(d[i]); } else { TableAboveAscii(d[i]); }
    }
    if forall i :: 0 <= i < |d| ==> d[i] < 128 {
      forall i | 0 <= i < |d| ensures SizeDigits(d)[i] == HexDigitValue(d[i]) { TableOnAscii(d[i]); }
      assert SizeDigits(d) == seq(|d|, i requires 0 <= i < |d| => HexDigitValue(d[i]));
    }
  }

  /** A size line of the single byte 0x80 is no hexadecimal number, and is taken for the last chunk. */
  lemma NotHexadecimal(m: Machine)
    requires Idle(m, ChunkSizeStart)
    ensures !IsHex(128) && Run(m, [128] + [CR]) == Sizing(m, ChunkSizeAlmostDone, 0, 2)
  {
    hide Run, Ready, SizeOf;
    ChunkSizeAccepted(m, [128]);
    OneDigit(128);
  }
}
