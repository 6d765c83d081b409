/** The bytes that a parser whose every callback pauses looks at in two calls, and the byte counter that
    counts them twice. */
module HttpReread {
  import opened Ascii
  import opened HttpTypes
  import opened HttpAutomaton
  import opened HttpRun

  predicate HeadEndState(s: State) { s.HeaderFieldStart? || s.HeaderValueLws? || s.HeadersAlmostDone? }

  /** How often a byte is counted again: once for a bare LF that ends a header value, and once for the LF
      that ends a head. */
  function Recount(c: Core, ch: byte): nat
  {
    if ch == LF && (c.state.HeaderValueText? || (HeadEndState(c.state) && !c.flags.trailing)) then 1 else 0
  }

  predicate MakesCall(a: Action) { a.emit.Some? || a.note.Some? }

  /** What one entry does to that number: a callback on the way to a header state uses it up, an entry
      without a callback keeps it, and where the byte is done with nothing is left of it. */
  predicate Recounts(c: Core, a: Action, ch: byte)
  {
    && (!a.ctl.Again? ==> Recount(c, ch) == 0)
    && (a.ctl.Again? && !MakesCall(a) ==> Recount(a.core, ch) == Recount(c, ch))
    && (a.ctl.Again? && MakesCall(a) ==>
          Recount(a.core, ch) == 0 && Recount(c, ch) == if ParsingHeader(a.core.state) then 1 else 0)
  }

  lemma ValueRecounts(c: Core, ch: byte)
    ensures c.state.HeaderValueText? ==> Recounts(c, ActHeaderValue(c, ch), ch)
    ensures c.state.StartReqOrRes? ==> Recounts(c, ActStartReqOrRes(c, ch), ch)
  {
    hide Match, LengthDigit, Lower;
  }

  lemma HeadRecounts(c: Core, ch: byte)
    ensures c.state.HeaderFieldStart? ==> Recounts(c, ActHeaderFieldStart(c, ch), ch)
    ensures c.state.HeaderValueLws? ==> Recounts(c, ActHeaderValueLws(c, ch), ch)
    ensures c.state.HeadersAlmostDone? ==> Recounts(c, ActHeadersAlmostDone(c, ch), ch)
  {
    hide Token, FirstHeaderState, ShouldKeepAlive, NeedsEof;
  }

  lemma BodyRecounts(c: Core, ch: byte)
    ensures c.state.BodyIdentity? && c.clen > 0 ==> Recounts(c, ActBodyIdentity(c, ch), ch)
  {}

  /** Every other state has done with the byte at once. */
  lemma OtherRecounts(c: Core, a: Action, ch: byte)
    requires Rank(c.state) == 0 && !HeadEndState(c.state) && !a.ctl.Again?
    ensures Recounts(c, a, ch)
  {}

  lemma ActRecounts(c: Core, ch: byte)
    requires Sound(c)
    ensures AssertsHold(c) && Recounts(c, Act(c, ch), ch)
  {
    hide Sound, Recounts, MethodName, NameHeaderState;
    hide ActHeaderValue, ActStartReqOrRes, ActHeaderFieldStart, ActHeaderValueLws, ActHeadersAlmostDone;
    hide ActBodyIdentity;
    ActKeeps(c, ch);
    match c.state
    case HeaderValueText => ValueRecounts(c, ch);
    case StartReqOrRes => ValueRecounts(c, ch);
    case HeaderFieldStart => HeadRecounts(c, ch);
    case HeaderValueLws => HeadRecounts(c, ch);
    case HeadersAlmostDone => HeadRecounts(c, ch);
    case BodyIdentity => BodyRecounts(c, ch);
    case _ => NoneAgain(c, Act(c, ch)); OtherRecounts(c, Act(c, ch), ch);
  }

  lemma NoneAgain(c: Core, a: Action)
    requires Good(c, a) && Rank(c.state) == 0
    ensures !a.ctl.Again?
  {
    hide Sound, Disciplined;
  }

  /** A byte that is not counted again, or is never reached by a parser that has counted too much. */
  predicate QuietAt(m: Machine, ch: byte)
  {
    m.stop.Running? && Counted(m.core, m.nread) <= MAX_HEADER_SIZE ==> Recount(m.core, ch) == 0
  }

  /** None of the first n bytes is counted again. */
  ghost predicate Quiet(m0: Machine, data: bytes, n: nat)
    requires Ready(m0) && n <= |data|
  {
    forall p :: 0 <= p < n ==> QuietAt(Run(m0, data[..p]), data[p])
  }

  lemma OnlyHeadersRecount(c: Core, ch: byte)
    ensures !ParsingHeader(c.state) ==> Recount(c, ch) == 0
    ensures Recount(c, ch) <= 1 && (ch != LF ==> Recount(c, ch) == 0)
  {}

  // ----- the byte counter decides nothing but the header limit -----

  /** The same outcome from two counters: both were reset, or neither was touched. */
  predicate Agree(m: Machine, r: Machine, n: nat, k: nat)
  {
    && m.core == r.core && m.trace == r.trace && m.stop == r.stop
    && ((m.nread == 0 && r.nread == 0) || (m.nread == n && r.nread == k))
  }

  predicate Overflowed(m: Machine) { m.stop == Failed(HPE_HEADER_OVERFLOW) }

  lemma {:induction false} ChainAgrees(c: Core, n: nat, k: nat, trace: seq<Event>, ch: byte)
    requires Sound(c) && n <= MAX_HEADER_SIZE && k <= MAX_HEADER_SIZE && InField(c.state, trace)
    requires CountedOne(c, n) && CountedOne(c, k)
    ensures Agree(Chain(c, n, trace, ch), Chain(c, k, trace, ch), n, k)
    ensures !Overflowed(Chain(c, n, trace, ch))
    decreases Rank(c.state)
  {
    hide Sound, Act, Deliver, Disciplined;
    ActKeeps(c, ch);
    var a := Act(c, ch);
    if !a.ctl.Fail? {
      DeliverInField(c, a, trace, ch);
      if a.ctl.Again? { ChainAgrees(a.core, n, k, Deliver(trace, a, ch), ch); }
    }
  }

  // ----- the reference of the paused parser -----

  /** A parser that has counted too much; nothing else about it matters. */
  const OVERFLOWED := Machine(Init(ParserType.Request).core, 0, [], Failed(HPE_HEADER_OVERFLOW))

  /** One byte of a parser whose every callback pauses: counted, and counted again if it is looked at
      again in a header state. */
  function PausedStep(m: Machine, ch: byte): (r: Machine)
    requires Ready(m)
    ensures Ready(r)
  {
    if !m.stop.Running? then m
    else
      var n := Counted(m.core, m.nread) + Recount(m.core, ch);
      if n > MAX_HEADER_SIZE then OVERFLOWED else Chain(m.core, n, m.trace, ch)
  }

  function PausedRun(m: Machine, data: bytes): (r: Machine)
    requires Ready(m)
    ensures Ready(r)
    decreases |data|
  {
    if data == [] then m else PausedStep(PausedRun(m, data[..|data| - 1]), data[|data| - 1])
  }

  lemma {:induction false} PausedConcat(m: Machine, a: bytes, b: bytes)
    requires Ready(m)
    ensures PausedRun(m, a + b) == PausedRun(PausedRun(m, a), b)
    decreases |b|
  {
    hide PausedStep, Ready;
    if b == [] {
      assert a + b == a;
    } else {
      var ab := a + b;
      assert ab[..|ab| - 1] == a + b[..|b| - 1] && ab[|ab| - 1] == b[|b| - 1];
      PausedConcat(m, a, b[..|b| - 1]);
    }
  }

  lemma {:induction false} PausedStopped(m: Machine, data: bytes)
    requires Ready(m) && !m.stop.Running?
    ensures PausedRun(m, data) == m
    decreases |data|
  {
    hide Chain, Ready;
    if data != [] { PausedStopped(m, data[..|data| - 1]); }
  }

  /** The same machine, up to what an overflow leaves behind. */
  predicate Alike(m: Machine, r: Machine) { if Overflowed(m) then r == OVERFLOWED else r == m }

  lemma QuietStep(m: Machine, ch: byte)
    requires Ready(m) && QuietAt(m, ch)
    ensures m.stop.Running? ==> Alike(Step(m, ch), PausedStep(m, ch))
  {
    hide Sound, Chain, InField, Recount;
    var n := Counted(m.core, m.nread);
    if m.stop.Running? && n <= MAX_HEADER_SIZE { ChainAgrees(m.core, n, n, m.trace, ch); }
  }

  /** Where no byte is counted again, the paused parser is the reference. */
  lemma {:induction false} QuietRun(m: Machine, data: bytes, n: nat)
    requires Ready(m) && m.stop.Running? && n <= |data| && Quiet(m, data, n)
    ensures Alike(Run(m, data[..n]), PausedRun(m, data[..n]))
    decreases n
  {
    hide Step, PausedStep, Ready, QuietAt;
    if n > 0 {
      var init := data[..n - 1];
      assert data[..n][..n - 1] == init && data[..n][n - 1] == data[n - 1];
      QuietRun(m, data, n - 1);
      var r := Run(m, init);
      if r.stop.Running? {
        QuietStep(r, data[n - 1]);
      } else {
        StepStopped(r, data[n - 1]);
        StoppedPaused(PausedRun(m, init), data[n - 1]);
      }
    }
  }

  lemma StoppedPaused(m: Machine, ch: byte)
    requires Ready(m) && !m.stop.Running?
    ensures PausedStep(m, ch) == m
  {}

  // ----- the two counters -----

  /** The bytes counted again since the counter was last reset. */
  function Extra(m: Machine, data: bytes): nat
    requires Ready(m)
    decreases |data|
  {
    if data == [] then 0
    else
      var init, ch := data[..|data| - 1], data[|data| - 1];
      var r := Run(m, init);
      if !r.stop.Running? then Extra(m, init)
      else if Step(r, ch).nread == 0 then 0
      else Extra(m, init) + Recount(r.core, ch)
  }

  /** What the paused parser has counted when it is done with the byte at p. */
  function Peak(m: Machine, data: bytes, p: nat): nat
    requires Ready(m) && p < |data|
  {
    var r := Run(m, data[..p]);
    Counted(r.core, r.nread) + Extra(m, data[..p]) + Recount(r.core, data[p])
  }

  ghost predicate HeavyAt(m: Machine, data: bytes, p: nat)
    requires Ready(m)
  {
    p < |data| && Run(m, data[..p]).stop.Running? && Peak(m, data, p) > MAX_HEADER_SIZE
  }

  /** Somewhere in the stream the header bytes, with those counted again, pass the limit. */
  ghost predicate Heavy(m: Machine, data: bytes)
    requires Ready(m)
  {
    exists p: nat :: HeavyAt(m, data, p)
  }

  /** One byte, given how far the two counters are apart. */
  lemma CountersStep(m: Machine, e: nat, ch: byte)
    requires Ready(m) && m.stop.Running? && Ready(m.(nread := m.nread + e)) && (m.nread == 0 ==> e == 0)
    ensures var n := Counted(m.core, m.nread) + e + Recount(m.core, ch);
            var r, x := Step(m, ch), PausedStep(m.(nread := m.nread + e), ch);
            if n > MAX_HEADER_SIZE then x == OVERFLOWED
            else !Overflowed(r) && x == r.(nread := r.nread + if r.nread == 0 then 0 else e + Recount(m.core, ch))
  {
    hide Sound, Chain, InField;
    var k := Counted(m.core, m.nread);
    var n := k + e + Recount(m.core, ch);
    OnlyHeadersRecount(m.core, ch);
    if n <= MAX_HEADER_SIZE {
      ChainAgrees(m.core, k, n, m.trace, ch);
    }
  }

  /** The paused parser is the reference with the bytes counted again on its counter, until that passes the
      limit, and then it has overflowed. */
  lemma {:induction false} CountersApart(m: Machine, data: bytes)
    requires Ready(m) && m.stop.Running?
    ensures var r, x := Run(m, data), PausedRun(m, data);
            && (r.nread == 0 ==> Extra(m, data) == 0 || !r.stop.Running?)
            && if Heavy(m, data) then x == OVERFLOWED
               else !Overflowed(r) && x.core == r.core && x.trace == r.trace && x.stop == r.stop
                    && (r.stop.Running? ==> x.nread == r.nread + Extra(m, data))
    decreases |data|
  {
    hide Step, PausedStep, Ready, Heavy, Recount;
    if data == [] {
      NothingHeavy(m, data);
    } else {
      var init, ch := data[..|data| - 1], data[|data| - 1];
      CountersApart(m, init);
      HeavyMore(m, init, ch);
      assert data == init + [ch];
      var r, x := Run(m, init), PausedRun(m, init);
      if Heavy(m, init) {
        StoppedPaused(x, ch);
        if !r.stop.Running? { StepStopped(r, ch); }
      } else if r.stop.Running? {
        CountersStep(r, Extra(m, init), ch);
      } else {
        StepStopped(r, ch);
        StoppedPaused(x, ch);
      }
    }
  }

  lemma NothingHeavy(m: Machine, data: bytes)
    requires Ready(m) && data == []
    ensures !Heavy(m, data)
  {}

  lemma HeavyMore(m: Machine, init: bytes, ch: byte)
    requires Ready(m)
    ensures var r := Run(m, init);
            Heavy(m, init + [ch]) <==>
              || Heavy(m, init)
              || (r.stop.Running? && Counted(r.core, r.nread) + Extra(m, init) + Recount(r.core, ch) > MAX_HEADER_SIZE)
  {
    hide Run, Ready, Recount, Extra;
    var data := init + [ch];
    assert data[..|init|] == init && data[|init|] == ch;
    forall p: nat | p < |init| ensures HeavyAt(m, data, p) <==> HeavyAt(m, init, p) {
      assert data[..p] == init[..p] && data[p] == init[p];
    }
    if Heavy(m, init) {
      var p: nat :| HeavyAt(m, init, p);
      assert HeavyAt(m, data, p);
    }
    if Heavy(m, data) {
      var p: nat :| HeavyAt(m, data, p);
      if p < |init| { assert HeavyAt(m, init, p); }
    }
    if Run(m, init).stop.Running? && Peak(m, data, |init|) > MAX_HEADER_SIZE {
      assert HeavyAt(m, data, |init|);
    }
  }
}
