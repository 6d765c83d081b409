/** The wrapper of src/luaw_http_parser.c: every callback pauses the parser and fills a single event
    slot, and the caller re-enters with the bytes that were not taken. */
module HttpPause {
  import opened Ascii
  import opened HttpTypes
  import opened HttpAutomaton
  import opened HttpRun
  import opened HttpReread
  import opened HttpExecute

  /** A call that pauses on a byte leaves the paused reading where it was: the rest of the work on that
      byte is what is done when it is looked at again. */
  lemma ByteResumes(m: Machine, r: Machine, ch: byte)
    requires Ready(m) && Ready(r) && m.stop.Running? && r.stop.Running? && LastRecount(m.core, r.core, ch)
    requires r.nread == Counted(m.core, m.nread) <= MAX_HEADER_SIZE && !r.core.state.ChunkSizeStart?
    requires ParsingHeader(r.core.state) ==> ParsingHeader(m.core.state)
    requires Step(m, ch) == Chain(r.core, r.nread, r.trace, ch)
    ensures PausedStep(m, ch) == PausedStep(r, ch)
  {
    hide Sound, Chain, InField, Recount;
    var n := r.nread + Recount(m.core, ch);
    OnlyHeadersRecount(m.core, ch);
    if n <= MAX_HEADER_SIZE && Recount(m.core, ch) > 0 {
      NotChunkSize(m.core, ch);
      ChainAgrees(m.core, r.nread, n, m.trace, ch);
      ChainAgrees(r.core, r.nread, n, r.trace, ch);
    }
  }

  lemma NotChunkSize(c: Core, ch: byte)
    requires Recount(c, ch) > 0
    ensures !c.state.ChunkSizeStart? && ParsingHeader(c.state)
  {}

  /** What a call that pauses achieves: the paused reading of its data is that of the bytes it did not
      take, from where it stopped. */
  lemma CallResumes(m: Machine, data: bytes, core: Core, nread: nat, n: nat, sent: seq<Event>)
    requires Ready(m) && m.stop.Running? && n <= |data| && Quiet(m, data, n)
    requires PausedAt(m, data, core, nread, n, sent, true) && !PausedRun(m, data).stop.Upgraded?
    ensures Ready(Machine(core, nread, sent, Running))
    ensures PausedRun(m, data) == PausedRun(Machine(core, nread, sent, Running), data[n..])
    ensures n == 0 ==> Rank(core.state) < Rank(m.core.state)
  {
    hide Sound, Chain, InField, Run, Step, PausedRun, PausedStep, Quiet, LastRecount, Flushed, FieldOf, MarkField, Rank;
    var r := Machine(core, nread, sent, Running);
    assert data == data[..n] + data[n..];
    PausedConcat(m, data[..n], data[n..]);
    QuietRun(m, data, n);
    var mk := Run(m, data[..n]);
    if n > 0 && mk == Machine(core, nread, sent, mk.stop) && !mk.stop.Failed? {
      if !mk.stop.Running? { PausedStopped(mk, data[n..]); }
    } else {
      PausedInside(m, data, core, nread, n, sent);
      ByteResumes(mk, r, data[n]);
      assert data[n..] == [data[n]] + data[n + 1..];
      PausedConcat(mk, [data[n]], data[n + 1..]);
      PausedConcat(r, [data[n]], data[n + 1..]);
      OnePaused(mk, data[n]);
      OnePaused(r, data[n]);
    }
  }

  lemma OnePaused(m: Machine, ch: byte)
    requires Ready(m)
    ensures PausedRun(m, [ch]) == PausedStep(m, ch)
  {
    hide PausedStep, Ready;
    assert [ch][..0] == [];
    assert PausedRun(m, []) == m;
  }

  lemma PausedInside(r: Machine, data: bytes, core: Core, nread: nat, n: nat, sent: seq<Event>)
    requires Ready(r) && Inside(r, data, Place(n, core, nread, map[], sent)) && !core.state.ChunkSizeStart?
    ensures n < |data| && Run(r, data[..n]).stop.Running? && nread <= MAX_HEADER_SIZE
    ensures Sound(core) && InField(core.state, sent)
    ensures Ready(Machine(core, nread, sent, Running))
    ensures Step(Run(r, data[..n]), data[n]) == Chain(core, nread, sent, data[n])
  {
    hide Sound, Chain, InField, Run, Step, FieldOf, MarkField;
  }

  // ----- the wrapper -----

  /** What one call of parse_http returns to Lua: an error message, or the event in the slot (there may
      be none) and the new offset. */
  datatype Parsed = ParseError | Parsed(event: Option<Event>, offset: nat)

  /** One call of parse_http on the rest of a buffer, against the paused reading of it. */
  ghost predicate Outcome(m0: Machine, data: bytes, r: Parsed, offset: nat,
                          core: Core, nread: nat, errno: Errno, trace: seq<Event>)
    requires Ready(m0)
  {
    match r
    case ParseError =>
      PausedRun(m0, data).stop == Failed(errno)
          && (!errno.HPE_HEADER_OVERFLOW? ==> Lost(trace, PausedRun(m0, data).trace))
    case Parsed(event, after) =>
      && errno.HPE_OK? && offset <= after <= offset + |data|
      && if event.None?
         then after == offset + |data| && PausedRun(m0, data) == Machine(core, nread, trace, Running)
         else Quiet(m0, data, after - offset)
              && PausedAt(m0, data, core, nread, after - offset, Push(trace, event.value), true)
  }

  /** A call without an event, or one that fails, reads its data as the paused reading does. */
  lemma CallReads(m: Machine, data: bytes, core: Core, nread: nat, errno: Errno, n: nat, sent: seq<Event>)
    requires Ready(m) && m.stop.Running? && Quiet(m, data, |data|) && !Run(m, data).stop.Upgraded?
    requires ReadAll(m, data, core, nread, errno, n, sent)
    ensures PausedRun(m, data).stop == Run(m, data).stop
    ensures Run(m, data).stop.Running? ==> PausedRun(m, data) == Machine(core, nread, sent, Running)
    ensures Run(m, data).stop.Failed? ==>
              PausedRun(m, data).stop == Failed(errno)
                  && (!errno.HPE_HEADER_OVERFLOW? ==> Lost(sent, PausedRun(m, data).trace))
  {
    hide Run, PausedRun, Quiet, Lost, Ready, Taken;
    QuietRun(m, data, |data|);
    assert data[..|data|] == data;
  }

  lemma FlattenOne(pieces: seq<bytes>)
    requires pieces != []
    ensures Flatten(pieces[..1]) == pieces[0]
  {
    assert pieces[..1][..0] == [];
  }

  /** The bytes from piece i on: that piece, and the bytes behind it. */
  lemma PieceThenRest(pieces: seq<bytes>, i: nat)
    requires i < |pieces|
    ensures Flatten(pieces[i..]) == pieces[i] + Flatten(pieces[i + 1..])
  {
    FlattenSplit(pieces[i..], 1);
    FlattenOne(pieces[i..]);
    assert pieces[i..][1..] == pieces[i + 1..];
  }

  class LuawHttpParser {
    const parser: HttpParser
    var slot: Option<Event>

    constructor (t: ParserType)
      ensures fresh(parser) && parser.errno == HPE_OK && slot == None
      ensures Machine(parser.core, parser.nread, [], Running) == Init(t)
    {
      var p := new HttpParser(t);
      parser := p;
      slot := None;
    }

    /** handle_http_callback: the one event of the call goes into the slot. */
    method Store(events: seq<Event>)
      requires |events| <= 1
      modifies this
      ensures slot == if events == [] then None else Some(events[0])
    {
      slot := None;
      if events != [] { slot := Some(events[0]); }
    }

    /** parse_http, called while there is content at the offset: one run of the parser, at most one
        event, and the parser un-paused again unless it failed. */
    method ParseHttp(buff: bytes, offset: nat, ghost trace: seq<Event>) returns (r: Parsed)
      requires offset < |buff| && parser.errno.HPE_OK?
      requires Ready(Machine(parser.core, parser.nread, trace, Running))
      modifies this, parser
      ensures var m0 := Machine(old(parser.core), old(parser.nread), trace, Running);
              Outcome(m0, buff[offset..], r, offset, parser.core, parser.nread, parser.errno, trace)
    {
      hide Run, Sound, Push, PausedAt, Lost, PausedRun, Quiet;
      ghost var m0 := Machine(parser.core, parser.nread, trace, Running);
      ghost var data := buff[offset..];
      slot := None;
      var n, events := parser.Execute(buff[offset..], (_, _) => true, trace);
      if events != [] {
        assert events == [events[0]];
        PushAllOne(trace, events[0]);
      } else {
        PushAllNone(trace);
      }
      var remaining := |buff| - (offset + n);
      if !parser.errno.HPE_PAUSED? {
        CallReads(m0, data, parser.core, parser.nread, parser.errno, n, trace);
        RunningTakesAll(m0, data);
        if Run(m0, data).stop.Failed? { FailedTakesLess(m0, data); }
      }
      if remaining > 0 && !parser.errno.HPE_PAUSED? {
        r := ParseError;
        return;
      }
      Store(events);
      r := Parsed(slot, offset + n);
      parser.Pause(false);
    }

    /** The loop over one buffer: parse, take the event, go on at the new offset. It ends, and what is left
        of the stream is read from where it ends as it would have been from where it began. */
    method ReadBuffer(buff: bytes, ghost rest: bytes, ghost trace: seq<Event>) returns (ok: bool, events: seq<Event>)
      requires parser.errno.HPE_OK? && Ready(Machine(parser.core, parser.nread, trace, Running))
      requires !PausedRun(Machine(parser.core, parser.nread, trace, Running), buff + rest).stop.Upgraded?
      modifies this, parser
      ensures var all := PausedRun(Machine(old(parser.core), old(parser.nread), trace, Running), buff + rest);
              var m := Machine(parser.core, parser.nread, PushAll(trace, events), Running);
              if ok then parser.errno.HPE_OK? && Ready(m) && PausedRun(m, rest) == all
              else all.stop == Failed(parser.errno) && (!parser.errno.HPE_HEADER_OVERFLOW? ==> Lost(m.trace, all.trace))
    {
      hide Sound, Run, Push, PushAll, PausedAt, Lost, Rank, PausedRun, Quiet, InField;
      ghost var all := PausedRun(Machine(parser.core, parser.nread, trace, Running), buff + rest);
      ok, events := true, [];
      PushAllNone(trace);
      var offset := 0;
      assert buff[0..] == buff;
      while offset < |buff|
        invariant offset <= |buff| && parser.errno.HPE_OK?
        invariant Ready(Machine(parser.core, parser.nread, PushAll(trace, events), Running))
        invariant PausedRun(Machine(parser.core, parser.nread, PushAll(trace, events), Running),
                  buff[offset..] + rest) == all
        decreases |buff| - offset, Rank(parser.core.state)
      {
        ghost var r := Machine(parser.core, parser.nread, PushAll(trace, events), Running);
        ghost var data := buff[offset..];
        PausedConcat(r, data, rest);
        if !PausedRun(r, data).stop.Running? { PausedStopped(PausedRun(r, data), rest); }
        var result := ParseHttp(buff, offset, PushAll(trace, events));
        if result.ParseError? {
          ok := false;
          return;
        }
        if result.event.None? {
          return;
        }
        ghost var n := result.offset - offset;
        CallResumes(r, data, parser.core, parser.nread, n, Push(r.trace, result.event.value));
        assert data[n..] == buff[result.offset..];
        PausedConcat(Machine(parser.core, parser.nread, Push(r.trace, result.event.value), Running), data[n..], rest);
        PushAllConcat(trace, events, [result.event.value]);
        PushAllOne(PushAll(trace, events), result.event.value);
        events := events + [result.event.value];
        offset := result.offset;
      }
      assert buff[offset..] + rest == rest;
    }

    /** A whole stream without upgrade, buffer by buffer. Pausing at every callback and re-reading the bytes
        that were not taken gives the struct, the joined trace and the errno of the reference, which never
        pauses, with no event lost. The one exception is a stream whose header bytes, with those counted
        again, pass the header limit: on it, and on no other, the paused parser reports an overflow. */
    method ReadStream(pieces: seq<bytes>, ghost trace: seq<Event>) returns (ok: bool, events: seq<Event>)
      requires parser.errno.HPE_OK? && Ready(Machine(parser.core, parser.nread, trace, Running))
      requires !Run(Machine(parser.core, parser.nread, trace, Running), Flatten(pieces)).stop.Upgraded?
      modifies this, parser
      ensures var m0 := Machine(old(parser.core), old(parser.nread), trace, Running);
              var m := Run(m0, Flatten(pieces));
              if Heavy(m0, Flatten(pieces)) then !ok && parser.errno.HPE_HEADER_OVERFLOW?
              else if ok
              then m.stop.Running? && parser.errno.HPE_OK? && parser.core == m.core && PushAll(trace, events) == m.trace
                   && parser.nread == m.nread + Extra(m0, Flatten(pieces))
              else m.stop == Failed(parser.errno) && !parser.errno.HPE_HEADER_OVERFLOW?
                   && Lost(PushAll(trace, events), m.trace)
    {
      hide Sound, Run, Push, PushAll, Lost, Chain, InField, PausedRun, Heavy, Extra;
      ghost var m0 := Machine(parser.core, parser.nread, trace, Running);
      ghost var all := PausedRun(m0, Flatten(pieces));
      CountersApart(m0, Flatten(pieces));
      ok, events := true, [];
      PushAllNone(trace);
      var i := 0;
      assert pieces[0..] == pieces;
      while i < |pieces|
        invariant 0 <= i <= |pieces| && parser.errno.HPE_OK?
        invariant Ready(Machine(parser.core, parser.nread, PushAll(trace, events), Running))
        invariant PausedRun(Machine(parser.core, parser.nread, PushAll(trace, events), Running),
                  Flatten(pieces[i..])) == all
      {
        PieceThenRest(pieces, i);
        var good, more := ReadBuffer(pieces[i], Flatten(pieces[i + 1..]), PushAll(trace, events));
        PushAllConcat(trace, events, more);
        events := events + more;
        if !good {
          ok := false;
          return;
        }
        i := i + 1;
      }
      assert pieces[i..] == [];
      NoneLeft(Machine(parser.core, parser.nread, PushAll(trace, events), Running));
    }
  }

  lemma NoneLeft(m: Machine)
    requires Ready(m)
    ensures PausedRun(m, Flatten([])) == m
  {}
}
