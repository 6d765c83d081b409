/** Heads that are too long: whatever part of a request the header limit falls in, the parser reports an
    overflow there, and it reports none on a head that fits. */
module HttpOverflow {
  import opened Ascii
  import opened HttpTypes
  import opened HttpAutomaton
  import opened HttpRun
  import opened HttpReread
  import opened HttpWords
  import opened HttpLengths
  import opened HttpHeaders
  import opened HttpBody
  import opened HttpChunks
  import opened HttpMethods
  import opened HttpRequests

  // ----- the counter -----

  lemma CountsAtMostOne(m: Machine, ch: byte)
    requires Ready(m) && m.stop.Running?
    ensures Step(m, ch).nread <= m.nread + 1
    ensures Step(m, ch).nread == m.nread + 1 ==> Counted(m.core, m.nread) == m.nread + 1
  {
    hide Sound, Chain, InField;
    var n := Counted(m.core, m.nread);
    if n <= MAX_HEADER_SIZE { ChainAgrees(m.core, n, n, m.trace, ch); }
  }

  /** A byte counted once: the same from a counter that is further on, unless that is full. */
  lemma StepOutgrown(m: Machine, ch: byte, e: nat)
    requires Ready(m) && m.stop.Running? && Ready(m.(nread := m.nread + e))
    requires Step(m, ch).stop.Running? && Step(m, ch).nread == m.nread + 1
    ensures var x := Step(m.(nread := m.nread + e), ch);
            if m.nread + e < MAX_HEADER_SIZE then x == Step(m, ch).(nread := m.nread + e + 1) else Overflowed(x)
  {
    hide Sound, Chain, InField;
    CountsAtMostOne(m, ch);
    var n := m.nread + 1;
    if n + e <= MAX_HEADER_SIZE { ChainAgrees(m.core, n, n + e, m.trace, ch); }
  }

  lemma {:induction false} CountsAtMost(m: Machine, s: bytes)
    requires Ready(m) && Run(m, s).stop.Running?
    ensures m.stop.Running? && Run(m, s).nread <= m.nread + |s|
    decreases |s|
  {
    hide Step, Ready;
    if s != [] {
      var init, ch := s[..|s| - 1], s[|s| - 1];
      if !Run(m, init).stop.Running? { StepStopped(Run(m, init), ch); }
      CountsAtMost(m, init);
      CountsAtMostOne(Run(m, init), ch);
    }
  }

  /** A text whose every byte is counted: from a counter that is further on it is read in the same way if
      it fits, and overflows if it does not. */
  lemma {:induction false} Outgrown(m: Machine, s: bytes, e: nat)
    requires Ready(m) && Ready(m.(nread := m.nread + e))
    requires Run(m, s).stop.Running? && Run(m, s).nread == m.nread + |s|
    ensures var x := Run(m.(nread := m.nread + e), s);
            if m.nread + |s| + e <= MAX_HEADER_SIZE then x == Run(m, s).(nread := m.nread + |s| + e)
            else Overflowed(x)
    decreases |s|
  {
    hide Step, Ready;
    if s == [] {
      TooFull(m, e);
    } else {
      var init, ch := s[..|s| - 1], s[|s| - 1];
      var r, x := Run(m, init), Run(m.(nread := m.nread + e), init);
      if !r.stop.Running? { StepStopped(r, ch); }
      CountsAtMost(m, init);
      CountsAtMostOne(r, ch);
      Outgrown(m, init, e);
      if m.nread + |init| + e <= MAX_HEADER_SIZE {
        StepOutgrown(r, ch, e);
      } else {
        StepStopped(x, ch);
      }
    }
  }

  lemma TooFull(m: Machine, e: nat)
    requires Ready(m.(nread := m.nread + e)) && m.stop.Running?
    ensures m.nread + e <= MAX_HEADER_SIZE
  {}

  /** A parser that has counted to the limit overflows on the next header byte. */
  lemma FullThenMore(m: Machine, a: bytes, b: bytes)
    requires Ready(m) && b != []
    requires var r := Run(m, a); r.stop.Running? && r.nread == MAX_HEADER_SIZE && ParsingHeader(r.core.state)
    ensures Overflowed(Run(m, a + b))
  {
    hide Run, Chain, Sound, InField;
    RunConcat(m, a, b);
    var r := Run(m, a);
    HeadRun(r, b);
    StoppedStays(Step(r, b[0]), b[1..]);
  }

  lemma StaysOverflowed(m: Machine, a: bytes, b: bytes)
    requires Ready(m) && Overflowed(Run(m, a))
    ensures Overflowed(Run(m, a + b))
  {
    hide Run, Ready;
    RunConcat(m, a, b);
    StoppedStays(Run(m, a), b);
  }

  /** The room that is left. */
  function Room(m: Machine): nat requires m.nread <= MAX_HEADER_SIZE { MAX_HEADER_SIZE - m.nread }

  /** A text that does not fit, but of which what fits is read. */
  lemma Overflows(m: Machine, s: bytes)
    requires Ready(m) && m.nread <= MAX_HEADER_SIZE && Room(m) < |s|
    requires var r := Run(m, s[..Room(m)]);
             r.stop.Running? && r.nread == MAX_HEADER_SIZE && ParsingHeader(r.core.state)
    ensures Overflowed(Run(m, s))
  {
    hide Run, Ready;
    var k := Room(m);
    assert s == s[..k] + s[k..];
    FullThenMore(m, s[..k], s[k..]);
  }

  lemma Rewound(m: Machine)
    requires Ready(m) && m.stop.Running?
    ensures Ready(m.(nread := 0)) && m.nread <= MAX_HEADER_SIZE && m.(nread := 0).(nread := m.nread) == m
  {}

  // ----- the request line -----

  lemma {:induction false} WalkAlive(s: State, u: bytes, k: nat)
    requires k <= |u| && !Walk(s, u).Dead?
    ensures !Walk(s, u[..k]).Dead?
    decreases |u|
  {
    hide UrlChar;
    if k == |u| {
      assert u[..k] == u;
    } else {
      UrlDies(u[|u| - 1]);
      WalkAlive(s, u[..|u| - 1], k);
      assert u[..|u| - 1][..k] == u[..k];
    }
  }

  lemma UrlOverflows(m: Machine, u: bytes)
    requires Idle(m, ReqSpacesBeforeUrl) && IsUrl(m.core.verb, u) && m.nread <= MAX_HEADER_SIZE < m.nread + |u|
    ensures Overflowed(Run(m, u))
  {
    hide Run, Ready, Walk, Push, UrlStart, UrlChar;
    var k := Room(m);
    TailIsAlive(Walk(UrlStart(m.core.verb), u));
    WalkAlive(UrlStart(m.core.verb), u, k);
    if k == 0 { EmptyRun(m, u[..k]); } else { UrlRead(m, u[..k]); }
    Overflows(m, u);
  }

  lemma VersionOverflows(m: Machine, major: nat, minor: nat)
    requires Ready(m) && m.stop.Running? && UrlTailState(m.core.state) && 1 <= major <= 9 && minor <= 9
    requires m.nread + 11 > MAX_HEADER_SIZE
    ensures Overflowed(Run(m, [SP] + VersionText(major, minor)))
  {
    hide Run, Ready, Step, UrlTailState;
    Rewound(m);
    var z, t := m.(nread := 0), [SP] + VersionText(major, minor);
    UrlEnds(z);
    HeadRun(z, t);
    assert t[1..] == VersionText(major, minor);
    VersionRead(Step(z, SP), major, minor);
    VersionLength(major, minor);
    Outgrown(z, t, m.nread);
  }

  lemma VersionLength(major: nat, minor: nat)
    requires 1 <= major <= 9 && minor <= 9
    ensures |VersionText(major, minor)| == 10
  {}

  lemma RequestLineOverflows(m: Machine, q: Request)
    requires Idle(m, StartReq) && m.nread == 0 && IsRequest(q) && |RequestLine(q)| > MAX_HEADER_SIZE
    ensures Overflowed(Run(m, RequestLine(q)))
  {
    hide Run, Ready, MethodName, Push, VersionText, IsHeaderBlock, Walk, UrlTailState, UrlHeadState, UrlStart;
    var a, tail := MethodName(q.verb) + [SP], [SP] + VersionText(q.major, q.minor);
    MethodRead(m, q.verb);
    RunConcat(m, a, q.url + tail);
    var m1 := Run(m, a);
    if m1.nread + |q.url| > MAX_HEADER_SIZE {
      UrlOverflows(m1, q.url);
      StaysOverflowed(m1, q.url, tail);
    } else {
      TailIsAlive(Walk(UrlStart(q.verb), q.url));
      UrlRead(m1, q.url);
      RunConcat(m1, q.url, tail);
      VersionOverflows(Run(m1, q.url), q.major, q.minor);
    }
  }

  // ----- header lines -----

  lemma NameOverflows(m: Machine, name: bytes)
    requires Ready(m) && m.stop.Running? && m.core.state.HeaderFieldStart? && IsName(name)
    requires m.nread <= MAX_HEADER_SIZE < m.nread + |name|
    ensures Overflowed(Run(m, name))
  {
    hide Run, Ready, Push, Spells, Token;
    var k := Room(m);
    if k == 0 { EmptyRun(m, name[..k]); } else { NameRead(m, name[..k]); }
    Overflows(m, name);
  }

  lemma PadOverflows(m: Machine, pad: bytes)
    requires Ready(m) && m.stop.Running? && m.core.state.HeaderValueStart?
    requires m.nread <= MAX_HEADER_SIZE < m.nread + |pad| && forall i :: 0 <= i < |pad| ==> IsBlank(pad[i])
    ensures Overflowed(Run(m, pad))
  {
    hide Run, Ready;
    Blanks(m, pad[..Room(m)]);
    Overflows(m, pad);
  }

  lemma {:induction false} GoodBeginning(rho: HeaderState, v: bytes, k: nat)
    requires 0 < k <= |v| && !BadLength(rho, v)
    ensures !BadLength(rho, v[..k])
    decreases |v|
  {
    hide BadLength;
    if k == |v| {
      assert v[..k] == v;
    } else {
      var init := v[..|v| - 1];
      assert v == init + [v[|v| - 1]] && init[..k] == v[..k];
      if BadLength(rho, init) { StaysBad(rho, init, v[|v| - 1]); }
      GoodBeginning(rho, init, k);
    }
  }

  lemma ValueOverflows(m: Machine, v: bytes)
    requires Ready(m) && m.stop.Running? && m.core.state.HeaderValueStart? && IsValue(v)
    requires m.nread <= MAX_HEADER_SIZE < m.nread + |v| && !BadLength(Role(m.core.hstate), v)
    ensures Overflowed(Run(m, v))
  {
    hide Run, Ready, Push, BadLength, Role, Follows, LengthOf, EarlyFlags;
    var k := Room(m);
    if k == 0 {
      EmptyRun(m, v[..k]);
    } else {
      GoodBeginning(Role(m.core.hstate), v, k);
      ValueRead(m, v[..k]);
    }
    Overflows(m, v);
  }

  /** A value and its line end, behind a name. */
  lemma ValueLineOverflows(m: Machine, v: bytes)
    requires Ready(m) && m.stop.Running? && m.core.state.HeaderValueStart? && IsValue(v)
    requires m.nread >= 2 && m.nread + |v| + 2 > MAX_HEADER_SIZE
    requires v != [] ==> !BadLength(Role(m.core.hstate), v)
    ensures Overflowed(Run(m, v + [CR, LF]))
  {
    hide Run, Ready, Push, BadLength, Role, IsValue, LineFlags, LineLength;
    Rewound(m);
    if |v| + 2 <= MAX_HEADER_SIZE {
      var z := m.(nread := 0);
      ValueLine(z, v);
      Outgrown(z, v + [CR, LF], m.nread);
    } else {
      ValueOverflows(m, v);
      StaysOverflowed(m, v, [CR, LF]);
    }
  }

  lemma NameColonOverflows(m: Machine, name: bytes)
    requires Ready(m) && m.stop.Running? && m.core.state.HeaderFieldStart? && IsName(name)
    requires m.nread > 0 && m.nread + |name| + 1 > MAX_HEADER_SIZE
    ensures Overflowed(Run(m, name + [58]))
  {
    hide Run, Ready, Push, IsName, Role, Classify, FoldAll;
    Rewound(m);
    if |name| < MAX_HEADER_SIZE {
      var z := m.(nread := 0);
      NameClassified(z, name);
      Outgrown(z, name + [58], m.nread);
    } else {
      NameOverflows(m, name);
      StaysOverflowed(m, name, [58]);
    }
  }

  lemma LineOverflows(m: Machine, l: Line)
    requires Ready(m) && m.stop.Running? && m.core.state.HeaderFieldStart? && IsHeaderLine(l) && !BadLine(l)
    requires m.nread > 0 && m.nread + |LineText(l)| > MAX_HEADER_SIZE
    ensures Overflowed(Run(m, LineText(l)))
  {
    hide Run, Ready, Push, Role, Classify, FoldAll, IsValue, BadLength;
    var head, tail := l.name + [58], l.value + [CR, LF];
    Rewound(m);
    if m.nread + |head| > MAX_HEADER_SIZE {
      NameColonOverflows(m, l.name);
      StaysOverflowed(m, head, l.pad + tail);
    } else {
      NameClassified(m, l.name);
      var m1 := Run(m, head);
      RunConcat(m, head, l.pad + tail);
      if m1.nread + |l.pad| > MAX_HEADER_SIZE {
        PadOverflows(m1, l.pad);
        StaysOverflowed(m1, l.pad, tail);
      } else {
        Blanks(m1, l.pad);
        RunConcat(m1, l.pad, tail);
        ValueLineOverflows(Run(m1, l.pad), l.value);
      }
    }
  }

  lemma {:induction false} BlockOverflows(m: Machine, lines: seq<Line>)
    requires Ready(m) && m.stop.Running? && (m.core.state.HeaderFieldStart? || m.core.state.HeaderValueLws?)
    requires IsHeaderBlock(lines) && !BadBlock(lines) && 0 < m.nread <= MAX_HEADER_SIZE
    requires m.nread + |BlockText(lines)| > MAX_HEADER_SIZE
    ensures Overflowed(Run(m, BlockText(lines)))
    decreases |lines|
  {
    hide Run, Step, Ready, LineText, BadLine, IsHeaderLine, BlockRead, LineCore, BadBlock, IsHeaderBlock, LineEvents;
    var init, l := lines[..|lines| - 1], lines[|lines| - 1];
    SplitBlock(lines);
    if m.nread + |BlockText(init)| > MAX_HEADER_SIZE {
      BlockOverflows(m, init);
      StaysOverflowed(m, BlockText(init), LineText(l));
    } else {
      HeaderBlock(m, init);
      var mid := Run(m, BlockText(init));
      BlockState(m, init, mid);
      LineBegins(l);
      if mid.nread == MAX_HEADER_SIZE {
        FullThenMore(m, BlockText(init), LineText(l));
      } else {
        RunConcat(m, BlockText(init), LineText(l));
        NextLineRun(mid, LineText(l));
        LineOverflows(AtLine(mid), l);
      }
    }
  }

  // ----- the head -----

  /** The empty line, when there is no room for it. */
  lemma EmptyLineOverflows(m: Machine)
    requires Ready(m) && m.stop.Running? && (m.core.state.HeaderFieldStart? || m.core.state.HeaderValueLws?)
    requires m.nread <= MAX_HEADER_SIZE < m.nread + 2
    ensures Overflowed(Run(m, CRLF))
  {
    hide Run, Ready, Step;
    if m.nread == MAX_HEADER_SIZE {
      EmptyRun(m, []);
      FullThenMore(m, [], CRLF);
      assert [] + CRLF == CRLF;
    } else {
      NextLineRun(m, [CR]);
      EmptyLineBegins(AtLine(m));
      EmptyRun(AtLine(m), []);
      RunMore(AtLine(m), [], CR);
      assert [] + [CR] == [CR];
      FullThenMore(m, [CR], [LF]);
      assert [CR] + [LF] == CRLF;
    }
  }

  /** A head that is longer than the limit overflows, wherever the limit falls. */
  lemma LongHeadOverflows(m: Machine, q: Request)
    requires Idle(m, StartReq) && m.nread == 0 && IsRequest(q) && !BadBlock(q.lines)
    requires |HeadText(q)| > MAX_HEADER_SIZE
    ensures Overflowed(Run(m, HeadText(q)))
  {
    hide Run, Ready, Push, PushAll, RequestLine, BadBlock, IsHeaderBlock, IsUrl, BlockText, BlockCore, BlockEvents;
    var line, t := RequestLine(q), BlockText(q.lines);
    if |line| > MAX_HEADER_SIZE {
      RequestLineOverflows(m, q);
      StaysOverflowed(m, line, t + CRLF);
    } else {
      RequestLineRead(m, q);
      var l := Lined(m, q);
      RunConcat(m, line, t + CRLF);
      if l.nread + |t| > MAX_HEADER_SIZE {
        BlockOverflows(l, q.lines);
        StaysOverflowed(l, t, CRLF);
      } else {
        HeaderBlock(l, q.lines);
        var r := Run(l, t);
        BlockKeeps(l, q.lines, r);
        RunConcat(l, t, CRLF);
        EmptyLineOverflows(r);
      }
    }
  }

  /** The header limit, for a parser that has counted nothing: a request head overflows if and only if it is
      longer than the limit. */
  lemma HeadOverflows(m: Machine, q: Request)
    requires Idle(m, StartReq) && m.nread == 0 && IsRequest(q) && !BadBlock(q.lines)
    ensures Overflowed(Run(m, HeadText(q))) <==> |HeadText(q)| > MAX_HEADER_SIZE
  {
    hide Run, Ready, Push, RequestLine, BadBlock, IsHeaderBlock, IsUrl, BlockText, HeadText, Framed, Headed, Completed;
    if |HeadText(q)| > MAX_HEADER_SIZE {
      LongHeadOverflows(m, q);
    } else {
      var r := HeadRead(m, q);
      HeadedRuns(m, q, r);
      FramedRuns(r);
    }
  }

  lemma HeadedRuns(m: Machine, q: Request, r: Machine)
    requires 1 <= q.major <= 9 && q.minor <= 9 && Headed(m, q, r)
    ensures r.stop.Running?
  {
    hide BadBlock, BlockCore, BlockText, BlockEvents;
  }
}
