/** The request method, which the parser guesses from the first byte and corrects on the way: it accepts
    exactly the method names. */
module HttpMethods {
  import opened Ascii
  import opened HttpTypes
  import opened HttpAutomaton
  import opened HttpRun
  import opened HttpWords
  import opened HttpHeaders
  import opened HttpChunks

  /** The candidate after the bytes w, or None where the parser gives up. */
  function Guess(w: bytes): Option<Method>
  {
    if w == [] then None
    else if |w| == 1 then FirstMethod(w[0])
    else
      match Guess(w[..|w| - 1])
      case None => None
      case Some(m) => NextGuess(m, |w| - 1, w[|w| - 1])
  }

  function NextGuess(m: Method, i: nat, ch: byte): Option<Method>
  {
    if ch != 0 && i < |MethodName(m)| && ch == MethodName(m)[i] then Some(m)
    else if ch == 0 then None
    else OtherMethod(m, i, ch)
  }

  /** The bytes read are always a prefix of the candidate's name. */
  predicate Begins(m: Method, w: bytes) { 0 < |w| <= |MethodName(m)| && MethodName(m)[..|w|] == w }

  lemma FirstGuess(ch: byte)
    requires FirstMethod(ch).Some?
    ensures Begins(FirstMethod(ch).value, [ch])
  {}

  lemma {:induction false} GuessBegins(w: bytes)
    requires Guess(w).Some?
    ensures Begins(Guess(w).value, w)
    decreases |w|
  {
    hide MethodName, OtherMethod, FirstMethod, Parent, Depth;
    if |w| == 1 {
      assert w == [w[0]];
      FirstGuess(w[0]);
    } else {
      var init, ch := w[..|w| - 1], w[|w| - 1];
      GuessBegins(init);
      var m := Guess(init).value;
      if OtherMethod(m, |init|, ch).Some? {
        Correction(m, |init|, ch);
        ParentCorrects(OtherMethod(m, |init|, ch).value);
      }
      assert w == init + [ch];
      var o := Guess(w).value;
      assert MethodName(o)[..|w|] == MethodName(o)[..|init|] + [MethodName(o)[|init|]];
    }
  }

  // ----- every method is found -----

  /** The candidate a method is corrected from, and the position of the correction. */
  function Parent(m: Method): Option<(Method, nat)>
  {
    match m
    case CHECKOUT => Some((CONNECT, 1))
    case COPY => Some((CONNECT, 2))
    case MOVE => Some((MKCOL, 1))
    case MERGE => Some((MKCOL, 1))
    case MSEARCH => Some((MKCOL, 1))
    case MKACTIVITY => Some((MKCOL, 2))
    case SEARCH => Some((SUBSCRIBE, 1))
    case PROPFIND => Some((POST, 1))
    case PUT => Some((POST, 1))
    case PATCH => Some((POST, 1))
    case PURGE => Some((PUT, 2))
    case UNSUBSCRIBE => Some((UNLOCK, 2))
    case PROPPATCH => Some((PROPFIND, 4))
    case _ => None
  }

  function Depth(m: Method): nat
  {
    match m
    case PURGE => 2
    case PROPPATCH => 2
    case _ => if Parent(m).Some? then 1 else 0
  }

  /** Every correction is one of these. */
  lemma Correction(m: Method, i: nat, ch: byte)
    requires OtherMethod(m, i, ch).Some?
    ensures var o := OtherMethod(m, i, ch).value;
            Parent(o) == Some((m, i)) && i < |MethodName(o)| && ch == MethodName(o)[i]
  {}

  lemma SharedBeginning(m: Method)
    requires Parent(m).Some?
    ensures var (p, i) := Parent(m).value;
            && 0 < i < |MethodName(m)| && i < |MethodName(p)| && i <= 4
            && MethodName(m)[0] == MethodName(p)[0]
            && (i > 1 ==> MethodName(m)[1] == MethodName(p)[1])
            && (i > 2 ==> MethodName(m)[2] == MethodName(p)[2])
            && (i > 3 ==> MethodName(m)[3] == MethodName(p)[3])
  {}

  lemma ParentSwitches(m: Method)
    requires Parent(m).Some?
    ensures var (p, i) := Parent(m).value;
            && i < |MethodName(m)| && i < |MethodName(p)|
            && MethodName(m)[i] != MethodName(p)[i] && MethodName(m)[i] != 0
            && OtherMethod(p, i, MethodName(m)[i]) == Some(m)
  {}

  lemma ParentFirst(m: Method)
    requires Parent(m).Some?
    ensures var (p, i) := Parent(m).value; Depth(p) < Depth(m) && (Parent(p).Some? ==> Parent(p).value.1 < i)
  {}

  /** A correction keeps the bytes already read, and earlier corrections come first. */
  lemma ParentCorrects(m: Method)
    requires Parent(m).Some?
    ensures var (p, i) := Parent(m).value;
            && 0 < i < |MethodName(m)| && i < |MethodName(p)| && MethodName(m)[..i] == MethodName(p)[..i]
            && MethodName(m)[i] != MethodName(p)[i] && MethodName(m)[i] != 0
            && OtherMethod(p, i, MethodName(m)[i]) == Some(m)
            && Depth(p) < Depth(m)
            && (Parent(p).Some? ==> Parent(p).value.1 < i)
  {
    hide MethodName, OtherMethod, Parent, Depth;
    SharedBeginning(m);
    ParentSwitches(m);
    ParentFirst(m);
  }

  lemma RootIsFirst(m: Method)
    requires Parent(m).None?
    ensures FirstMethod(MethodName(m)[0]) == Some(m)
  {}

  /** The first position from which a method is the candidate of its own prefixes. */
  function Since(m: Method): nat { if Parent(m).Some? then Parent(m).value.1 + 1 else 1 }

  predicate NameByte(b: byte) { b == 45 || IsUpper(b) }

  lemma RootNames(m: Method)
    requires Parent(m).None?
    ensures forall i :: 0 <= i < |MethodName(m)| ==> NameByte(MethodName(m)[i])
  {}

  lemma CorrectedNames(m: Method)
    requires Parent(m).Some?
    ensures forall i :: 0 <= i < |MethodName(m)| ==> NameByte(MethodName(m)[i])
    ensures Since(m) <= |MethodName(m)|
  {}

  lemma NamesAreUpperCase(m: Method)
    ensures forall i :: 0 <= i < |MethodName(m)| ==> NameByte(MethodName(m)[i])
    ensures Since(m) <= |MethodName(m)|
  {
    hide MethodName, Parent, NameByte;
    if Parent(m).None? { RootNames(m); } else { CorrectedNames(m); }
  }

  lemma {:induction false} PrefixGuessed(m: Method, n: nat)
    requires Since(m) <= n <= |MethodName(m)|
    ensures Guess(MethodName(m)[..n]) == Some(m)
    decreases Depth(m), n
  {
    hide MethodName, OtherMethod, FirstMethod, Parent, Depth;
    var w := MethodName(m)[..n];
    NamesAreUpperCase(m);
    assert n > 0 ==> w[..n - 1] == MethodName(m)[..n - 1] && w[n - 1] == MethodName(m)[n - 1];
    if n > Since(m) {
      PrefixGuessed(m, n - 1);
    } else if Parent(m).Some? {
      var (p, i) := Parent(m).value;
      ParentCorrects(m);
      PrefixGuessed(p, i);
    } else {
      RootIsFirst(m);
    }
  }

  /** The guesses end at a method with nothing missing exactly for the method names. */
  lemma MethodsSpelled(w: bytes, m: Method)
    ensures Guess(w) == Some(m) && |w| == |MethodName(m)| <==> w == MethodName(m)
  {
    hide MethodName, Guess;
    if Guess(w) == Some(m) && |w| == |MethodName(m)| {
      GuessBegins(w);
      assert MethodName(m)[..|w|] == MethodName(m);
    }
    NamesAreUpperCase(m);
    PrefixGuessed(m, |MethodName(m)|);
    assert MethodName(m)[..|MethodName(m)|] == MethodName(m);
  }

  // ----- in the automaton -----

  /** The parser in the middle of a method. */
  function Guessing(m: Machine, v: Method, n: nat): Machine
  {
    Machine(m.core.(flags := NO_FLAGS, clen := ULLONG_MAX, verb := v, index := n, state := ReqMethod),
            m.nread + n, Push(m.trace, Notify(MessageBegin)), Running)
  }

  lemma FirstIsAlpha(ch: byte)
    ensures FirstMethod(ch).Some? ==> IsAlpha(ch)
  {}

  lemma FirstByte(m: Machine, ch: byte)
    requires Idle(m, StartReq) && m.nread < MAX_HEADER_SIZE && ch != CR && ch != LF
    ensures if FirstMethod(ch).Some? then Step(m, ch) == Guessing(m, FirstMethod(ch).value, 1)
            else Step(m, ch).stop == Failed(HPE_INVALID_METHOD)
  {
    hide MethodName, NameHeaderState, FirstMethod, IsAlpha, Push;
    FirstIsAlpha(ch);
  }

  lemma MethodEntry(c: Core, ch: byte)
    requires Sound(c) && c.state.ReqMethod?
    ensures c.index <= |MethodName(c.verb)| && AssertsHold(c) && Act(c, ch) == ActMethod(c, ch)
  {
    hide NameHeaderState, MethodName, OtherMethod;
  }

  lemma NextByte(m: Machine, ch: byte)
    requires Idle(m, ReqMethod) && m.nread < MAX_HEADER_SIZE && ch != SP && m.core.index < 255
    ensures m.core.index <= |MethodName(m.core.verb)|
    ensures var g := NextGuess(m.core.verb, m.core.index, ch);
            if g.Some? then Step(m, ch) == m.(core := m.core.(verb := g.value, index := m.core.index + 1),
                nread := m.nread + 1)
            else Step(m, ch).stop == Failed(HPE_INVALID_METHOD)
  {
    hide Sound, Act, Step, MethodName, OtherMethod, InField;
    MethodEntry(m.core, ch);
    SilentStep(m, ch, ActMethod(m.core, ch));
  }

  /** The bytes of a method. */
  lemma {:induction false} MethodBytes(m: Machine, w: bytes)
    requires Idle(m, StartReq) && w != [] && SP !in w && w[0] != CR && w[0] != LF && m.nread + |w| <= MAX_HEADER_SIZE
    ensures if Guess(w).Some? then Run(m, w) == Guessing(m, Guess(w).value, |w|)
            else Run(m, w).stop == Failed(HPE_INVALID_METHOD)
    decreases |w|
  {
    hide Step, Run, Ready, NextGuess, FirstMethod, MethodName;
    var init, ch := w[..|w| - 1], w[|w| - 1];
    assert w == init + [ch];
    RunMore(m, init, ch);
    if init == [] {
      EmptyRun(m, init);
      FirstByte(m, ch);
    } else {
      MethodBytes(m, init);
      if Guess(init).Some? {
        GuessBegins(init);
        NextByte(Run(m, init), ch);
      } else {
        StepStopped(Run(m, init), ch);
      }
    }
  }

  lemma NoSpaceInNames(m: Method, i: nat)
    requires i <= |MethodName(m)|
    ensures CharAt(MethodName(m), i) == 0 <==> i == |MethodName(m)|
    ensures CharAt(MethodName(m), i) != SP && OtherMethod(m, i, SP).None?
  {
    hide MethodName;
    NamesAreUpperCase(m);
  }

  lemma MethodEnds(m: Machine)
    requires Idle(m, ReqMethod) && m.nread < MAX_HEADER_SIZE && m.core.index < 255
    ensures if m.core.index == |MethodName(m.core.verb)|
            then Step(m, SP) == m.(core := m.core.(index := m.core.index + 1, state := ReqSpacesBeforeUrl),
                nread := m.nread + 1)
            else Step(m, SP).stop == Failed(HPE_INVALID_METHOD)
  {
    hide Sound, Act, Step, MethodName, OtherMethod, InField, CharAt;
    MethodEntry(m.core, SP);
    NoSpaceInNames(m.core.verb, m.core.index);
    SilentStep(m, SP, ActMethod(m.core, SP));
  }

  /** A request begins with a word and a space: it is accepted exactly when the word is a method name,
      and the method is then the one with that name. */
  lemma MethodAccepted(m: Machine, w: bytes)
    requires Idle(m, StartReq) && w != [] && SP !in w && w[0] != CR && w[0] != LF && m.nread + |w| < MAX_HEADER_SIZE
    ensures var r := Run(m, w + [SP]);
            && (r.stop.Running? <==> exists v :: MethodName(v) == w)
            && (r.stop.Running? ==>
                  && MethodName(r.core.verb) == w
                  && r == Guessing(m, r.core.verb, |w|).(core := r.core, nread := m.nread + |w| + 1)
                  && r.core == Guessing(m, r.core.verb, |w| + 1).core.(state := ReqSpacesBeforeUrl))
            && (!r.stop.Running? ==> r.stop == Failed(HPE_INVALID_METHOD))
  {
    hide Step, Run, Ready, MethodName, Guess;
    RunMore(m, w, SP);
    MethodBytes(m, w);
    forall v ensures Guess(w) == Some(v) && |w| == |MethodName(v)| <==> w == MethodName(v) {
      MethodsSpelled(w, v);
    }
    if Guess(w).Some? {
      GuessBegins(w);
      MethodEnds(Run(m, w));
    } else {
      StepStopped(Run(m, w), SP);
    }
  }

  // ----- line breaks before a message -----

  predicate LineBreaks(s: bytes) { forall i :: 0 <= i < |s| ==> s[i] == CR || s[i] == LF }

  /** A response parser at the start of a message reports one for every byte it does not refuse, and has
      begun one exactly when the byte is `H`. */
  lemma ResponseStarts(m: Machine, ch: byte)
    requires Idle(m, StartRes) && m.nread < MAX_HEADER_SIZE
    ensures var r := Step(m, ch);
            && (r.stop.Running? <==> ch == 72 || ch == CR || ch == LF)
            && (r.stop.Running? ==> r.trace == Push(m.trace, Notify(MessageBegin)) && r.nread == m.nread + 1)
            && (r.stop.Running? ==> r.core.state == if ch == 72 then ResH else StartRes)
  {
    hide MethodName, NameHeaderState, Push;
  }

  function Begun(n: nat): seq<Event> { seq(n, _ => Notify(MessageBegin)) }

  /** Before a response every leading line break is reported as a message of its own, so on_message_begin
      runs exactly once for a response if and only if no line break precedes it. */
  lemma {:induction false} ResponseBreaks(m: Machine, s: bytes)
    requires Idle(m, StartRes) && LineBreaks(s) && m.nread + |s| < MAX_HEADER_SIZE
    ensures var r := Run(m, s);
            && Idle(r, StartRes) && r.trace == m.trace + Begun(|s|) && r.nread == m.nread + |s|
            && Step(r, 72).stop.Running? && Step(r, 72).core.state == ResH
            && (Step(r, 72).trace == m.trace + Begun(1) <==> s == [])
    decreases |s|
  {
    hide Step, Ready;
    if s == [] {
      assert m.trace + Begun(0) == m.trace;
    } else {
      var init := s[..|s| - 1];
      ResponseBreaks(m, init);
      ResponseStarts(Run(m, init), s[|s| - 1]);
      assert m.trace + Begun(|init|) + [Notify(MessageBegin)] == m.trace + Begun(|s|);
    }
    ResponseStarts(Run(m, s), 72);
    assert m.trace + Begun(|s|) + [Notify(MessageBegin)] == m.trace + Begun(|s| + 1);
    assert |m.trace + Begun(|s| + 1)| == |m.trace| + |s| + 1;
  }

  lemma RequestBreak(m: Machine, ch: byte)
    requires Idle(m, StartReq) && m.nread < MAX_HEADER_SIZE && (ch == CR || ch == LF)
    ensures Step(m, ch) == m.(nread := m.nread + 1)
  {
    hide MethodName, NameHeaderState, FirstMethod, IsAlpha;
  }

  /** Before a request line breaks are skipped in silence. */
  lemma {:induction false} RequestBreaks(m: Machine, s: bytes)
    requires Idle(m, StartReq) && LineBreaks(s) && m.nread + |s| <= MAX_HEADER_SIZE
    ensures Run(m, s) == m.(nread := m.nread + |s|)
    decreases |s|
  {
    hide Step, Ready;
    if s != [] {
      RequestBreaks(m, s[..|s| - 1]);
      RequestBreak(Run(m, s[..|s| - 1]), s[|s| - 1]);
    }
  }
}
