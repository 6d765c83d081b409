/** The incremental matchers against plain string equality: header names, the words of the two framing
    headers, and the request method. */
module HttpWords {
  import opened Ascii
  import opened HttpTypes
  import opened HttpAutomaton
  import opened HttpRun

  /** ASCII lower case. */
  function Fold(b: byte): byte { if IsUpper(b) then b + 32 else b }

  function FoldAll(s: bytes): (r: bytes)
    ensures |r| == |s|
  {
    seq(|s|, i requires 0 <= i < |s| => Fold(s[i]))
  }

  lemma FoldMore(s: bytes, b: byte)
    ensures FoldAll(s + [b]) == FoldAll(s) + [Fold(b)]
  {}

  // ----- one byte at a time -----

  /** A byte whose first entry settles it. */
  lemma OneEntry(m: Machine, ch: byte)
    requires Ready(m) && m.stop.Running? && Counted(m.core, m.nread) <= MAX_HEADER_SIZE
    ensures AssertsHold(m.core)
    ensures var a := Act(m.core, ch);
            var n := Counted(m.core, m.nread);
            && (a.ctl.Advance? ==>
                  Step(m, ch) == Machine(a.core, if a.zero then 0 else n, Deliver(m.trace, a, ch), Running))
            && (a.ctl.Fail? ==> Step(m, ch) == Machine(a.core, n, m.trace, Failed(a.ctl.error)))
  {
    hide Sound, Act, Deliver, Good;
    ActKeeps(m.core, ch);
  }

  /** One entry of a chain, and the entry that looks at the byte again. */
  lemma ChainEntry(c: Core, nread: nat, trace: seq<Event>, ch: byte)
    requires Sound(c) && nread <= MAX_HEADER_SIZE && CountedOne(c, nread) && InField(c.state, trace)
    ensures AssertsHold(c)
    ensures var a := Act(c, ch);
            var n := if a.zero then 0 else nread;
            && (a.ctl.Advance? ==> Chain(c, nread, trace, ch) == Machine(a.core, n, Deliver(trace, a, ch), Running))
            && (a.ctl.Again? ==>
                  && Sound(a.core) && n == nread && CountedOne(a.core, n)
                      && InField(a.core.state, Deliver(trace, a, ch))
                  && Chain(c, nread, trace, ch) == Chain(a.core, n, Deliver(trace, a, ch), ch))
  {
    hide Sound, Act, Deliver, Disciplined, InField;
    ActKeeps(c, ch);
    if !Act(c, ch).ctl.Fail? { DeliverInField(c, Act(c, ch), trace, ch); }
  }

  /** The last byte of a stream. */
  lemma RunMore(m: Machine, s: bytes, ch: byte)
    requires Ready(m)
    ensures Run(m, s + [ch]) == Step(Run(m, s), ch)
  {
    hide Step, Ready;
    assert (s + [ch])[..|s|] == s;
  }

  // ----- a word, one character at a time -----

  /** A proper prefix of the word has been read, and index points at its last character. */
  predicate Partial(word: bytes, i: nat, w: bytes) { 0 < |w| < |word| && w <= word && i == |w| - 1 }

  /** One more character either leaves the word, completes it, or goes on. */
  lemma MatchReads(c: Core, word: bytes, w: bytes, t: byte, done: HeaderState)
    requires Partial(word, c.index, w) && |word| < 256 && t != 0
    ensures var r := Match(c, word, t, done);
            && (w + [t] == word ==> r.hstate == done)
            && (w + [t] < word ==> r.hstate == c.hstate && Partial(word, r.index, w + [t]))
            && (!(w + [t] <= word) ==> r.hstate == General)
  {
    var i := |w|;
    assert (w + [t])[i] == t;
    assert word[..i] == w;
    if t == word[i] { assert w + [t] == word[..i + 1]; }
  }

  // ----- header names -----

  /** No word the parser looks for begins like this. */
  predicate Unknown(w: bytes)
  {
    && !(w <= CONNECTION_NAME) && !(w <= PROXY_CONNECTION_NAME) && !(w <= CONTENT_LENGTH_NAME)
    && !(w <= TRANSFER_ENCODING_NAME) && !(w <= UPGRADE_NAME)
  }

  /** What a header state says about the lower-case characters read so far. */
  predicate Spells(h: HeaderState, i: nat, w: bytes)
  {
    match h
    case SeenC => w == [99] && i == 0
    case SeenCO => w == [99, 111] && i == 1
    case SeenCON => w == [99, 111, 110] && i == 2
    case MatchingConnection => Partial(CONNECTION_NAME, i, w) && |w| >= 4
    case MatchingProxyConnection => Partial(PROXY_CONNECTION_NAME, i, w)
    case MatchingContentLength => Partial(CONTENT_LENGTH_NAME, i, w) && |w| >= 4
    case MatchingTransferEncoding => Partial(TRANSFER_ENCODING_NAME, i, w)
    case MatchingUpgrade => Partial(UPGRADE_NAME, i, w)
    case Connection => w == CONNECTION_NAME || w == PROXY_CONNECTION_NAME
    case ContentLength => w == CONTENT_LENGTH_NAME
    case TransferEncoding => w == TRANSFER_ENCODING_NAME
    case Upgrade => w == UPGRADE_NAME
    case _ => Unknown(w)
  }

  /** The classification of a whole name. */
  function Classify(w: bytes): HeaderState
  {
    if w == CONNECTION_NAME || w == PROXY_CONNECTION_NAME then Connection
    else if w == CONTENT_LENGTH_NAME then ContentLength
    else if w == TRANSFER_ENCODING_NAME then TransferEncoding
    else if w == UPGRADE_NAME then Upgrade
    else General
  }

  /** Names that begin differently: the first character decides, and for the two
      names in `con` one of the next three. */
  lemma Unlike(w: bytes)
    requires w != []
    ensures w[0] != 99 ==> !(w <= CONNECTION_NAME) && !(w <= CONTENT_LENGTH_NAME)
    ensures w[0] != 112 ==> !(w <= PROXY_CONNECTION_NAME)
    ensures w[0] != 116 ==> !(w <= TRANSFER_ENCODING_NAME)
    ensures w[0] != 117 ==> !(w <= UPGRADE_NAME)
    ensures |w| > 1 && w[1] != 111 ==> !(w <= CONNECTION_NAME) && !(w <= CONTENT_LENGTH_NAME)
    ensures |w| > 2 && w[2] != 110 ==> !(w <= CONNECTION_NAME) && !(w <= CONTENT_LENGTH_NAME)
    ensures |w| > 3 && w[3] != 110 ==> !(w <= CONNECTION_NAME)
    ensures |w| > 3 && w[3] != 116 ==> !(w <= CONTENT_LENGTH_NAME)
  {}

  lemma UnknownStays(w: bytes, t: byte)
    requires Unknown(w)
    ensures Unknown(w + [t])
  {}

  lemma FirstCharacter(t: byte)
    requires t != 0
    ensures Spells(FirstHeaderState(t), 0, [t])
  {
    Unlike([t]);
  }

  /** `c`, `co` and `con` are the beginnings of two names. */
  lemma CharacterAfterC(c: Core, w: bytes, t: byte)
    requires c.hstate.SeenC? || c.hstate.SeenCO? || c.hstate.SeenCON?
    requires Spells(c.hstate, c.index, w) && t != 0
    ensures Spells(NameChar(c, t).hstate, NameChar(c, t).index, w + [t])
  {
    Unlike(w + [t]);
  }

  lemma CharacterInName(c: Core, w: bytes, t: byte)
    requires c.hstate.MatchingConnection? || c.hstate.MatchingContentLength?
    requires Spells(c.hstate, c.index, w) && t != 0
    ensures Spells(NameChar(c, t).hstate, NameChar(c, t).index, w + [t])
  {
    hide Match;
    Unlike(w + [t]);
    if c.hstate.MatchingConnection? {
      MatchReads(c, CONNECTION_NAME, w, t, Connection);
    } else {
      MatchReads(c, CONTENT_LENGTH_NAME, w, t, ContentLength);
    }
  }

  lemma CharacterInOtherName(c: Core, w: bytes, t: byte)
    requires c.hstate.MatchingProxyConnection? || c.hstate.MatchingTransferEncoding? || c.hstate.MatchingUpgrade?
    requires Spells(c.hstate, c.index, w) && t != 0
    ensures Spells(NameChar(c, t).hstate, NameChar(c, t).index, w + [t])
  {
    hide Match;
    Unlike(w + [t]);
    match c.hstate
    case MatchingProxyConnection => MatchReads(c, PROXY_CONNECTION_NAME, w, t, Connection);
    case MatchingTransferEncoding => MatchReads(c, TRANSFER_ENCODING_NAME, w, t, TransferEncoding);
    case MatchingUpgrade => MatchReads(c, UPGRADE_NAME, w, t, Upgrade);
  }

  lemma CharacterTooMany(c: Core, w: bytes, t: byte)
    requires c.hstate.Connection? || c.hstate.ContentLength? || c.hstate.TransferEncoding? || c.hstate.Upgrade?
    requires Spells(c.hstate, c.index, w)
    ensures Unknown(w + [t])
  {
    Unlike(w + [t]);
  }

  /** Every further token character keeps the header state in agreement with the text. */
  lemma CharacterRead(c: Core, w: bytes, t: byte)
    requires NameHeaderState(c.hstate) && Spells(c.hstate, c.index, w) && t != 0
    ensures Spells(NameChar(c, t).hstate, NameChar(c, t).index, w + [t])
  {
    hide Partial, Match, Unknown;
    match c.hstate
    case SeenC => CharacterAfterC(c, w, t);
    case SeenCO => CharacterAfterC(c, w, t);
    case SeenCON => CharacterAfterC(c, w, t);
    case MatchingConnection => CharacterInName(c, w, t);
    case MatchingContentLength => CharacterInName(c, w, t);
    case MatchingProxyConnection => CharacterInOtherName(c, w, t);
    case MatchingTransferEncoding => CharacterInOtherName(c, w, t);
    case MatchingUpgrade => CharacterInOtherName(c, w, t);
    case General => UnknownStays(w, t);
    case _ => CharacterTooMany(c, w, t);
  }

  predicate IsName(name: bytes) { name != [] && forall i :: 0 <= i < |name| ==> Token(name[i]) != 0 }

  lemma TokenFolds(b: byte)
    requires Token(b) != 0
    ensures Token(b) == Fold(b) && b != CR && b != LF && b != 58
  {}

  lemma NameStep(m: Machine, ch: byte, w: bytes)
    requires Ready(m) && m.stop.Running? && m.nread < MAX_HEADER_SIZE && Token(ch) != 0
    requires m.core.state.HeaderFieldName? && Spells(m.core.hstate, m.core.index, w)
    ensures var r := Step(m, ch);
            && r == Machine(m.core.(index := r.core.index, hstate := r.core.hstate), m.nread + 1,
                            Push(m.trace, Data(HeaderField, [ch])), Running)
            && Spells(r.core.hstate, r.core.index, w + [Fold(ch)])
  {
    hide Spells, NameChar, Token, Push, MethodName, NameHeaderState;
    TokenFolds(ch);
    CharacterRead(m.core, w, Token(ch));
  }

  lemma NameBegins(m: Machine, ch: byte)
    requires Ready(m) && m.stop.Running? && m.nread < MAX_HEADER_SIZE && Token(ch) != 0
    requires m.core.state.HeaderFieldStart?
    ensures var r := Step(m, ch);
            && r == Machine(m.core.(state := HeaderFieldName, index := r.core.index, hstate := r.core.hstate),
                            m.nread + 1, Push(m.trace, Data(HeaderField, [ch])), Running)
            && Spells(r.core.hstate, r.core.index, [Fold(ch)])
  {
    hide Spells, FirstHeaderState, Token, Push, MethodName, NameHeaderState;
    TokenFolds(ch);
    FirstCharacter(Token(ch));
  }

  /** The characters of a name are delivered as they are, and the header state agrees with them. */
  lemma {:induction false} NameRead(m: Machine, name: bytes)
    requires Ready(m) && m.stop.Running? && m.core.state.HeaderFieldStart?
    requires IsName(name) && m.nread + |name| <= MAX_HEADER_SIZE
    ensures var r := Run(m, name);
            && r == Machine(m.core.(state := HeaderFieldName, index := r.core.index, hstate := r.core.hstate),
                            m.nread + |name|, Push(m.trace, Data(HeaderField, name)), Running)
            && Spells(r.core.hstate, r.core.index, FoldAll(name))
    decreases |name|
  {
    hide Spells, Token, Push, Step, Ready;
    var init, ch := name[..|name| - 1], name[|name| - 1];
    assert name == init + [ch];
    FoldMore(init, ch);
    if init == [] {
      assert Run(m, init) == m;
      NameBegins(m, ch);
      assert FoldAll(name) == [Fold(ch)] && name == [ch];
    } else {
      NameRead(m, init);
      NameStep(Run(m, init), ch, FoldAll(init));
      PushFragments(m.trace, HeaderField, init, [ch]);
    }
  }

  /** The four names that matter; every other header state is read as "any header" by the value. */
  function Role(h: HeaderState): HeaderState
  {
    if h.Connection? || h.ContentLength? || h.TransferEncoding? || h.Upgrade? then h else General
  }

  lemma SpelledRole(h: HeaderState, i: nat, w: bytes)
    requires NameHeaderState(h) && Spells(h, i, w)
    ensures Role(h) == Classify(w)
  {
    if w != [] { Unlike(w); }
    assert w <= w;
  }

  lemma Colon(m: Machine)
    requires Ready(m) && m.stop.Running? && m.core.state.HeaderFieldName? && m.nread < MAX_HEADER_SIZE
    ensures Step(m, 58) == Machine(m.core.(state := HeaderValueStart), m.nread + 1, m.trace, Running)
  {
    hide NameChar, MethodName, NameHeaderState;
  }

  /** At the colon the header state is the classification of the whole name, in any case. */
  lemma NameClassified(m: Machine, name: bytes)
    requires Ready(m) && m.stop.Running? && m.core.state.HeaderFieldStart?
    requires IsName(name) && m.nread + |name| < MAX_HEADER_SIZE
    ensures var r := Run(m, name + [58]);
            && r == Machine(m.core.(state := HeaderValueStart, index := r.core.index, hstate := r.core.hstate),
                            m.nread + |name| + 1, Push(m.trace, Data(HeaderField, name)), Running)
            && Role(r.core.hstate) == Classify(FoldAll(name))
  {
    hide Spells, Push, Sound, NameHeaderState, Role, Classify, Run, Step, FoldAll, InField;
    NameRead(m, name);
    var r := Run(m, name);
    assert NameHeaderState(r.core.hstate) by { AssertsKept(r.core); }
    SpelledRole(r.core.hstate, r.core.index, FoldAll(name));
    RunMore(m, name, 58);
    Colon(r);
  }

  // ----- the words of a value -----

  /** The value is this word, in any case, and spaces after it. */
  predicate IsWord(v: bytes, word: bytes)
  {
    word <= FoldAll(v) && forall j :: |word| <= j < |v| ==> v[j] == SP
  }

  predicate LowerCase(word: bytes)
  {
    1 < |word| < 256 && forall i :: 0 <= i < |word| ==> word[i] == 45 || 97 <= word[i] <= 122
  }

  /** What the header state says about the value read so far, for one word. */
  predicate Watches(h: HeaderState, i: nat, v: bytes, word: bytes, matching: HeaderState, done: HeaderState)
  {
    if h == matching then Partial(word, i, FoldAll(v))
    else if h == done then IsWord(v, word)
    else !(FoldAll(v) <= word) && !IsWord(v, word)
  }

  /** LOWER only sets a bit, which for the characters of the words is folding the case. */
  lemma LowerFolds(b: byte, c: byte)
    requires b != CR && (c == 45 || 97 <= c <= 122)
    ensures Lower(b) == c <==> Fold(b) == c
  {}

  lemma WordBegins(ch: byte, word: bytes, matching: HeaderState, done: HeaderState, h: HeaderState)
    requires LowerCase(word) && ch != CR && h != done && (h == matching <==> Lower(ch) == word[0])
    ensures Watches(h, 0, [ch], word, matching, done)
  {
    LowerFolds(ch, word[0]);
    assert FoldAll([ch])[0] == Fold(ch);
  }

  lemma WordMatches(c: Core, v: bytes, ch: byte, word: bytes, done: HeaderState)
    requires LowerCase(word) && ch != CR && c.hstate != done && c.hstate != General && done != General
    requires Watches(c.hstate, c.index, v, word, c.hstate, done)
    ensures var r := Match(c, word, Lower(ch), done);
            Watches(r.hstate, r.index, v + [ch], word, c.hstate, done)
  {
    hide Match, FoldAll, Lower, Fold;
    var w := FoldAll(v);
    FoldMore(v, ch);
    MatchReads(c, word, w, Lower(ch), done);
    LowerFolds(ch, word[|w|]);
    assert (w + [Fold(ch)])[|w|] == Fold(ch) && (w + [Lower(ch)])[|w|] == Lower(ch);
    assert w == word[..|w|];
  }

  /** Past the word only spaces may follow, and a value that left the word never returns to it. */
  lemma WordLeft(h: HeaderState, i: nat, j: nat, v: bytes, ch: byte, word: bytes, matching: HeaderState,
                 done: HeaderState)
    requires LowerCase(word) && h != matching && matching != General && done != General && matching != done
    requires Watches(h, i, v, word, matching, done)
    ensures var r := if h == done && ch == SP then h else General;
            Watches(r, j, v + [ch], word, matching, done)
  {
    hide Fold;
    FoldMore(v, ch);
    assert (v + [ch])[|v|] == ch;
    assert forall k :: 0 <= k < |v| ==> (v + [ch])[k] == v[k];
  }
}
