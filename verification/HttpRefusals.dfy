/** Which bytes the parser refuses, state by state and in characters, and header names that are refused. */
module HttpRefusals {
  import opened Ascii
  import opened HttpTypes
  import opened HttpAutomaton
  import opened HttpRun
  import opened HttpWords
  import opened HttpLengths
  import opened HttpHeaders
  import opened HttpLines
  import CharacterTables

  predicate Break(b: byte) { b as char in {'\r', '\n'} }

  /** The characters of a token, by section 2.2 of RFC 2616. */
  predicate TokenCharacter(b: byte) { b < 128 && !CharacterTables.Control(b) && !CharacterTables.Separator(b) }

  /** What the size of a chunk may be spelled with; bytes above ASCII are taken for zeros. */
  predicate SizeCharacter(b: byte)
  {
    CharacterTables.Digit(b) || 'a' <= b as char <= 'f' || 'A' <= b as char <= 'F' || b >= 128
  }

  function SizeValue(b: byte): nat
    requires SizeCharacter(b)
  {
    if b >= 128 then 0
    else if CharacterTables.Digit(b) then b - '0' as int
    else if 'a' <= b as char then b - 'a' as int + 10
    else b - 'A' as int + 10
  }

  /** A decimal digit that takes a version or a status code above 999. */
  predicate PastThreeDigits(n: nat, b: byte) { CharacterTables.Digit(b) && n * 10 + (b - '0' as int) > 999 }

  predicate OfFirstLines(s: State)
  {
    || s.ResH? || s.ResHT? || s.ResHTT? || s.ResHTTP? || s.ReqHttpStart? || s.ReqHttpH? || s.ReqHttpHT?
    || s.ReqHttpHTT? || s.ReqHttpHTTP? || s.ResLineAlmostDone? || s.ReqLineAlmostDone? || s.ResStatusStart?
    || s.ResStatus?
  }

  predicate OfStarts(s: State) { s.Dead? || s.StartReqOrRes? || s.ResOrRespH? || s.StartRes? || s.StartReq? }

  predicate OfVersions(s: State)
  {
    || s.ResFirstMajor? || s.ResMajor? || s.ResFirstMinor? || s.ResMinor? || s.ResFirstStatusCode?
    || s.ResStatusCode? || s.ReqFirstMajor? || s.ReqMajor? || s.ReqFirstMinor? || s.ReqMinor?
  }

  predicate RefusesStart(c: Core, ch: byte)
  {
    match c.state
    case StartReqOrRes => false
    case ResOrRespH => ch as char !in {'T', 'E'}
    case StartRes => ch as char != 'H' && !Break(ch)
    case StartReq =>
      ch as char !in {'C', 'D', 'G', 'H', 'L', 'M', 'N', 'O', 'P', 'R', 'S', 'T', 'U'} && !Break(ch)
    case _ => !Break(ch)
  }

  predicate RefusesInFirstLine(c: Core, ch: byte)
  {
    match c.state
    case ResHTT => ch as char != 'P'
    case ReqHttpHTT => ch as char != 'P'
    case ResHTTP => ch as char != '/'
    case ReqHttpHTTP => ch as char != '/'
    case ReqHttpStart => ch as char !in {'H', ' '}
    case ResLineAlmostDone => ch as char != '\n'
    case ReqLineAlmostDone => ch as char != '\n'
    case ResStatusStart => false
    case ResStatus => false
    case _ => ch as char != 'T'
  }

  predicate RefusesInVersion(c: Core, ch: byte)
  {
    match c.state
    case ReqFirstMajor => !CharacterTables.Digit(ch) || ch as char == '0'
    case ResFirstStatusCode => !CharacterTables.Digit(ch) && ch as char != ' '
    case ResStatusCode =>
      (!CharacterTables.Digit(ch) && ch as char != ' ' && !Break(ch)) || PastThreeDigits(c.status, ch)
    case ResMajor => (!CharacterTables.Digit(ch) && ch as char != '.') || PastThreeDigits(c.major, ch)
    case ReqMajor => (!CharacterTables.Digit(ch) && ch as char != '.') || PastThreeDigits(c.major, ch)
    case ResMinor => (!CharacterTables.Digit(ch) && ch as char != ' ') || PastThreeDigits(c.minor, ch)
    case ReqMinor => (!CharacterTables.Digit(ch) && !Break(ch)) || PastThreeDigits(c.minor, ch)
    case _ => !CharacterTables.Digit(ch)
  }

  predicate RefusesInHeader(c: Core, ch: byte)
  {
    match c.state
    case HeaderFieldStart => !TokenCharacter(ch) && !Break(ch)
    case HeaderFieldName => !TokenCharacter(ch) && !Break(ch) && ch as char != ':'
    case HeaderValueStart =>
      c.hstate.ContentLength? && !CharacterTables.Digit(ch) && !Break(ch) && ch as char !in {' ', '\t'}
    case HeaderValueText =>
      && c.hstate.ContentLength? && !Break(ch) && ch as char != ' '
      && (!CharacterTables.Digit(ch) || c.clen * 10 + (ch - '0' as int) >= Limit(10))
    case HeaderValueLws => false
    case _ => ch as char != '\n'
  }

  predicate RefusesInChunk(c: Core, ch: byte)
  {
    match c.state
    case ChunkSizeStart => !SizeCharacter(ch)
    case ChunkSize =>
      || (!SizeCharacter(ch) && ch as char !in {'\r', ';', ' '})
      || (SizeCharacter(ch) && c.clen * 16 + SizeValue(ch) >= Limit(16))
    case ChunkParameters => false
    case ChunkData => false
    case ChunkDataAlmostDone => ch as char != '\r'
    case _ => ch as char != '\n'
  }

  /** The states whose refusals are not about a single character: those of methods and of URLs. */
  predicate OfWords(s: State) { s.ReqMethod? || s.ReqSpacesBeforeUrl? || UrlHeadState(s) || UrlTailState(s) }

  predicate Refuses(c: Core, ch: byte)
  {
    if OfStarts(c.state) then RefusesStart(c, ch)
    else if OfFirstLines(c.state) then RefusesInFirstLine(c, ch)
    else if OfVersions(c.state) then RefusesInVersion(c, ch)
    else if OfHeaders(c.state) then RefusesInHeader(c, ch)
    else if ChunkState(c.state) then RefusesInChunk(c, ch)
    else false
  }

  lemma StartRefuses(c: Core, ch: byte)
    requires Sound(c) && OfStarts(c.state)
    ensures AssertsHold(c) && (Act(c, ch).ctl.Fail? <==> RefusesStart(c, ch))
  {
    hide MethodName, NameHeaderState;
  }

  lemma FirstLineRefuses(c: Core, ch: byte)
    requires Sound(c) && OfFirstLines(c.state)
    ensures AssertsHold(c) && (Act(c, ch).ctl.Fail? <==> RefusesInFirstLine(c, ch))
  {
    hide MethodName, NameHeaderState;
  }

  lemma VersionRefuses(c: Core, ch: byte)
    requires Sound(c) && OfVersions(c.state)
    ensures AssertsHold(c) && (Act(c, ch).ctl.Fail? <==> RefusesInVersion(c, ch))
  {
    hide MethodName, NameHeaderState;
  }

  lemma NameRefuses(c: Core, ch: byte)
    requires Sound(c) && (c.state.HeaderFieldStart? || c.state.HeaderFieldName?)
    ensures AssertsHold(c) && (Act(c, ch).ctl.Fail? <==> RefusesInHeader(c, ch))
  {
    hide MethodName, NameHeaderState, NameChar, FirstHeaderState, Token, CharacterTables.Separator;
    CharacterTables.TokenTable(ch);
    SeparatorsApart();
  }

  lemma SeparatorsApart()
    ensures !TokenCharacter(CR) && !TokenCharacter(LF) && !TokenCharacter(58)
  {}

  lemma ValueRefuses(c: Core, ch: byte)
    requires Sound(c) && (c.state.HeaderValueStart? || c.state.HeaderValueText?)
    ensures AssertsHold(c) && (Act(c, ch).ctl.Fail? <==> RefusesInHeader(c, ch))
  {
    hide MethodName, NameHeaderState, Match, Lower, LengthDigit, Limit;
    if c.hstate.ContentLength? && IsNum(ch) { DigitAccepted(c, 10, ch - 48); }
  }

  lemma LineRefuses(c: Core, ch: byte)
    requires Sound(c) && OfHeaders(c.state)
    requires !c.state.HeaderFieldStart? && !c.state.HeaderFieldName?
    requires !c.state.HeaderValueStart? && !c.state.HeaderValueText?
    ensures AssertsHold(c) && (Act(c, ch).ctl.Fail? <==> RefusesInHeader(c, ch))
  {
    hide MethodName, NameHeaderState, ShouldKeepAlive, NeedsEof, FlagOf;
  }

  lemma SizeTable(ch: byte)
    ensures Unhex(ch) != -1 <==> SizeCharacter(ch)
    ensures SizeCharacter(ch) ==> Unhex(ch) == SizeValue(ch) < 16
  {}

  lemma ChunkRefuses(c: Core, ch: byte)
    requires Sound(c) && ChunkState(c.state)
    ensures AssertsHold(c) && (Act(c, ch).ctl.Fail? <==> RefusesInChunk(c, ch))
  {
    hide MethodName, NameHeaderState, Unhex, LengthDigit, Limit, SizeCharacter, SizeValue;
    SizeTable(ch);
    assert !SizeCharacter(13) by { SizeTable(13); BreakIsNoDigit(); }
    if SizeCharacter(ch) { DigitAccepted(c, 16, Unhex(ch)); }
  }

  lemma BreakIsNoDigit()
    ensures !SizeCharacter(13)
  {}

  lemma BodyRefuses(c: Core, ch: byte)
    requires Sound(c) && OfBodies(c.state)
    ensures AssertsHold(c) && !Act(c, ch).ctl.Fail?
  {
    hide MethodName, NameHeaderState, ShouldKeepAlive, NeedsEof;
  }

  lemma AllStates(s: State)
    ensures OfStarts(s) || OfFirstLines(s) || OfVersions(s) || OfHeaders(s) || ChunkState(s) || OfBodies(s)
            || OfWords(s)
    ensures OfBodies(s) ==> !OfStarts(s) && !OfFirstLines(s) && !OfVersions(s) && !OfHeaders(s) && !ChunkState(s)
  {}

  /** In every state but those of methods and URLs a byte is refused exactly where the grammar has no place
      for it, or where it would make a number too large. */
  lemma RefusedExactly(c: Core, ch: byte)
    requires Sound(c) && !OfWords(c.state)
    ensures AssertsHold(c) && (Act(c, ch).ctl.Fail? <==> Refuses(c, ch))
  {
    hide Act, Sound, AssertsHold, OfStarts, OfFirstLines, OfVersions, OfHeaders, ChunkState, OfBodies, OfWords;
    hide RefusesStart, RefusesInFirstLine, RefusesInVersion, RefusesInHeader, RefusesInChunk;
    AllStates(c.state);
    if OfStarts(c.state) {
      StartRefuses(c, ch);
    } else if OfFirstLines(c.state) {
      FirstLineRefuses(c, ch);
    } else if OfVersions(c.state) {
      VersionRefuses(c, ch);
    } else if OfHeaders(c.state) {
      HeaderRefuses(c, ch);
    } else if ChunkState(c.state) {
      ChunkRefuses(c, ch);
    } else {
      BodyRefuses(c, ch);
    }
  }

  lemma HeaderRefuses(c: Core, ch: byte)
    requires Sound(c) && OfHeaders(c.state)
    ensures AssertsHold(c) && (Act(c, ch).ctl.Fail? <==> RefusesInHeader(c, ch))
  {
    hide Act, Sound, AssertsHold, OfHeaders, RefusesInHeader;
    if c.state.HeaderFieldStart? || c.state.HeaderFieldName? {
      NameRefuses(c, ch);
    } else if c.state.HeaderValueStart? || c.state.HeaderValueText? {
      ValueRefuses(c, ch);
    } else {
      LineRefuses(c, ch);
    }
  }

  /** A header line that begins with, or goes on from a name to, a character that is no token, colon or line
      break is HPE_INVALID_HEADER_TOKEN. */
  lemma NameRefused(m: Machine, name: bytes, ch: byte)
    requires Ready(m) && m.stop.Running? && m.core.state.HeaderFieldStart?
    requires name == [] || IsName(name)
    requires !TokenCharacter(ch) && !Break(ch) && (name != [] ==> ch as char != ':')
    requires m.nread + |name| + 1 <= MAX_HEADER_SIZE
    ensures Run(m, name + [ch]).stop == Failed(HPE_INVALID_HEADER_TOKEN)
  {
    hide Run, Step, Ready, Push, Spells, IsName, TokenCharacter, Break;
    if name == [] { EmptyRun(m, name); } else { NameRead(m, name); }
    RunMore(m, name, ch);
    NameByteRefused(Run(m, name), ch);
  }

  lemma NameByteRefused(m: Machine, ch: byte)
    requires Ready(m) && m.stop.Running? && m.nread < MAX_HEADER_SIZE
    requires m.core.state.HeaderFieldStart? || (m.core.state.HeaderFieldName? && ch as char != ':')
    requires !TokenCharacter(ch) && !Break(ch)
    ensures Step(m, ch).stop == Failed(HPE_INVALID_HEADER_TOKEN)
  {
    hide Sound, Act, Step, InField, TokenCharacter, Break, Unhex;
    NameRefuses(m.core, ch);
    RefusedWith(m.core, ch);
    OneEntry(m, ch);
  }
}
