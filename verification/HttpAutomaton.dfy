/** The body of http_parser_execute's switch, one entry at a time: what the parser does with one
    byte in one state, including whether it asks to see the same byte again. */
module HttpAutomaton {
  import opened Ascii
  import opened HttpTypes

  /** How one entry of the switch ends: `break`, `goto reexecute_byte`, an early return after an
      upgrade, or `goto error`. */
  datatype Control = Advance | Again | Exit | Fail(error: Errno)

  /** The effects of one entry: the struct afterwards, whether `nread` was reset, then in the order the
      C code performs them the field whose mark is set at this byte, the field whose data callback
      runs, the notification, and the way out. */
  datatype Action = Action(core: Core, zero: bool, mark: Option<Field>, emit: Option<Field>, note: Option<Note>,
                           ctl: Control)

  function Go(c: Core, s: State): Action { Action(c.(state := s), false, None, None, None, Advance) }
  function Stay(c: Core): Action { Action(c, false, None, None, None, Advance) }
  function Redo(c: Core): Action { Action(c, false, None, None, None, Again) }
  function Error(c: Core, e: Errno): Action { Action(c, false, None, None, None, Fail(e)) }
  function MarkAt(c: Core, f: Field): Action { Action(c, false, Some(f), None, None, Advance) }
  function Emit(c: Core, f: Field): Action { Action(c, false, None, Some(f), None, Advance) }
  function Tell(c: Core, n: Note): Action { Action(c, false, None, None, Some(n), Advance) }

  /** STRICT_CHECK(ch != want), then a plain transition. */
  function Expect(c: Core, ch: byte, want: byte, s: State): Action
  {
    if ch != want then Error(c, HPE_STRICT) else Go(c, s)
  }

  // ----- framing decisions -----

  /** http_message_needs_eof */
  predicate NeedsEof(c: Core)
  {
    && !c.ptype.Request?
    && c.status / 100 != 1 && c.status != 204 && c.status != 304
    && !c.flags.chunked && c.clen == ULLONG_MAX
  }

  /** http_should_keep_alive */
  predicate ShouldKeepAlive(c: Core)
  {
    && (if c.major > 0 && c.minor > 0 then !c.flags.close else c.flags.keepAlive)
    && !NeedsEof(c)
  }

  function StartState(t: ParserType): State { if t.Request? then StartReq else StartRes }

  /** NEW_MESSAGE() of the strict build. */
  function NewMessage(c: Core): State { if ShouldKeepAlive(c) then StartState(c.ptype) else Dead }

  function Finish(c: Core): Action { Tell(c.(state := NewMessage(c)), MessageComplete) }

  // ----- start of a message -----

  function ActStartReqOrRes(c: Core, ch: byte): Action
  {
    if ch == CR || ch == LF then Stay(c)
    else
      var d := c.(flags := NO_FLAGS, clen := ULLONG_MAX);
      if ch == 72 then Tell(d.(state := ResOrRespH), MessageBegin)
      else Redo(d.(ptype := Request, state := StartReq))
  }

  function ActResOrRespH(c: Core, ch: byte): Action
  {
    if ch == 84 then Go(c.(ptype := Response), ResHT)
    else if ch != 69 then Error(c, HPE_INVALID_CONSTANT)
    else Go(c.(ptype := Request, verb := HEAD, index := 2), ReqMethod)
  }

  /** The notification follows the inner switch, so it also runs for a leading CR or LF. */
  function ActStartRes(c: Core, ch: byte): Action
  {
    var d := c.(flags := NO_FLAGS, clen := ULLONG_MAX);
    if ch == 72 then Tell(d.(state := ResH), MessageBegin)
    else if ch == CR || ch == LF then Tell(d, MessageBegin)
    else Error(d, HPE_INVALID_CONSTANT)
  }

  function FirstMethod(ch: byte): Option<Method>
  {
    match ch
    case 67 => Some(CONNECT)
    case 68 => Some(DELETE)
    case 71 => Some(GET)
    case 72 => Some(HEAD)
    case 76 => Some(LOCK)
    case 77 => Some(MKCOL)
    case 78 => Some(NOTIFY)
    case 79 => Some(OPTIONS)
    case 80 => Some(POST)
    case 82 => Some(REPORT)
    case 83 => Some(SUBSCRIBE)
    case 84 => Some(TRACE)
    case 85 => Some(UNLOCK)
    case _ => None
  }

  function ActStartReq(c: Core, ch: byte): Action
  {
    if ch == CR || ch == LF then Stay(c)
    else
      var d := c.(flags := NO_FLAGS, clen := ULLONG_MAX);
      if !IsAlpha(ch) then Error(d, HPE_INVALID_METHOD)
      else
        var e := d.(verb := DELETE, index := 1);
        match FirstMethod(ch)
        case None => Error(e, HPE_INVALID_METHOD)
        case Some(m) => Tell(e.(verb := m, state := ReqMethod), MessageBegin)
  }

  /** The method to switch to when the byte does not continue the current candidate. */
  function OtherMethod(m: Method, i: nat, ch: byte): Option<Method>
  {
    if m == CONNECT then
      if i == 1 && ch == 72 then Some(CHECKOUT) else if i == 2 && ch == 80 then Some(COPY) else None
    else if m == MKCOL then
      if i == 1 && ch == 79 then Some(MOVE)
      else if i == 1 && ch == 69 then Some(MERGE)
      else if i == 1 && ch == 45 then Some(MSEARCH)
      else if i == 2 && ch == 65 then Some(MKACTIVITY)
      else None
    else if m == SUBSCRIBE then
      if i == 1 && ch == 69 then Some(SEARCH) else None
    else if i == 1 && m == POST then
      if ch == 82 then Some(PROPFIND) else if ch == 85 then Some(PUT) else if ch == 65 then Some(PATCH) else None
    else if i == 2 then
      if m == PUT then
        if ch == 82 then Some(PURGE) else None
      else if m == UNLOCK then
        if ch == 83 then Some(UNSUBSCRIBE) else None
      else None
    else if i == 4 && m == PROPFIND && ch == 80 then Some(PROPPATCH)
    else None
  }

  function ActMethod(c: Core, ch: byte): Action
    requires c.index <= |MethodName(c.verb)|
  {
    var next := (c.index + 1) % 256;
    if ch == 0 then Error(c, HPE_INVALID_METHOD)
    else if ch == SP && CharAt(MethodName(c.verb), c.index) == 0 then Go(c.(index := next), ReqSpacesBeforeUrl)
    else if ch == CharAt(MethodName(c.verb), c.index) then Stay(c.(index := next))
    else
      match OtherMethod(c.verb, c.index, ch)
      case None => Error(c, HPE_INVALID_METHOD)
      case Some(m) => Stay(c.(verb := m, index := next))
  }

  // ----- URL -----

  /** parse_url_char */
  function UrlChar(s: State, ch: byte): (r: State)
    ensures r.Dead? || UrlHeadState(r) || UrlTailState(r)
  {
    if ch == SP || ch == CR || ch == LF || ch == TAB || ch == FF then Dead
    else
      match s
      case ReqSpacesBeforeUrl =>
        if ch == 47 || ch == 42 then ReqPath else if IsAlpha(ch) then ReqSchema else Dead
      case ReqSchema =>
        if IsAlpha(ch) then ReqSchema else if ch == 58 then ReqSchemaSlash else Dead
      case ReqSchemaSlash => if ch == 47 then ReqSchemaSlashSlash else Dead
      case ReqSchemaSlashSlash => if ch == 47 then ReqServerStart else Dead
      case ReqServerWithAt => if ch == 64 then Dead else ServerChar(ch)
      case ReqServerStart => ServerChar(ch)
      case ReqServer => ServerChar(ch)
      case ReqPath =>
        if IsUrlChar(ch) then ReqPath
        else if ch == 63 then ReqQueryStringStart
        else if ch == 35 then ReqFragmentStart
        else Dead
      case ReqQueryStringStart => QueryChar(ch)
      case ReqQueryString => QueryChar(ch)
      case ReqFragmentStart =>
        if IsUrlChar(ch) || ch == 63 then ReqFragment else if ch == 35 then ReqFragmentStart else Dead
      case ReqFragment =>
        if IsUrlChar(ch) || ch == 63 || ch == 35 then ReqFragment else Dead
      case _ => Dead
  }

  function ServerChar(ch: byte): State
  {
    if ch == 47 then ReqPath
    else if ch == 63 then ReqQueryStringStart
    else if ch == 64 then ReqServerWithAt
    else if IsUserinfo(ch) || ch == 91 || ch == 93 then ReqServer
    else Dead
  }

  function QueryChar(ch: byte): State
  {
    if IsUrlChar(ch) || ch == 63 then ReqQueryString else if ch == 35 then ReqFragmentStart else Dead
  }

  function Url1(c: Core, from: State, ch: byte): Action
  {
    var s := UrlChar(from, ch);
    if s == Dead then Error(c.(state := s), HPE_INVALID_URL) else Go(c, s)
  }

  function ActSpacesBeforeUrl(c: Core, ch: byte): Action
  {
    if ch == SP then Stay(c)
    else Url1(c, if c.verb == CONNECT then ReqServerStart else ReqSpacesBeforeUrl, ch).(mark := Some(Url))
  }

  function ActUrlHead(c: Core, ch: byte): Action
  {
    if ch == SP || ch == CR || ch == LF then Error(c, HPE_INVALID_URL) else Url1(c, c.state, ch)
  }

  function ActUrlTail(c: Core, ch: byte): Action
  {
    if ch == SP then Emit(c.(state := ReqHttpStart), Url)
    else if ch == CR then Emit(c.(major := 0, minor := 9, state := ReqLineAlmostDone), Url)
    else if ch == LF then Emit(c.(major := 0, minor := 9, state := HeaderFieldStart), Url)
    else Url1(c, c.state, ch)
  }

  // ----- versions and status -----

  function ActFirstMajor(c: Core, ch: byte, least: byte, s: State): Action
    requires least >= 48
  {
    if ch < least || ch > 57 then Error(c, HPE_INVALID_VERSION) else Go(c.(major := ch - 48), s)
  }

  function ActMajor(c: Core, ch: byte, s: State): Action
  {
    if ch == 46 then Go(c, s)
    else if !IsNum(ch) then Error(c, HPE_INVALID_VERSION)
    else
      var d := c.(major := c.major * 10 + (ch - 48));
      if d.major > 999 then Error(d, HPE_INVALID_VERSION) else Stay(d)
  }

  function ActFirstMinor(c: Core, ch: byte, s: State): Action
  {
    if !IsNum(ch) then Error(c, HPE_INVALID_VERSION) else Go(c.(minor := ch - 48), s)
  }

  function ActMinorDigit(c: Core, ch: byte): Action
  {
    if !IsNum(ch) then Error(c, HPE_INVALID_VERSION)
    else
      var d := c.(minor := c.minor * 10 + (ch - 48));
      if d.minor > 999 then Error(d, HPE_INVALID_VERSION) else Stay(d)
  }

  function ActResMinor(c: Core, ch: byte): Action
  {
    if ch == SP then Go(c, ResFirstStatusCode) else ActMinorDigit(c, ch)
  }

  function ActReqMinor(c: Core, ch: byte): Action
  {
    if ch == CR then Go(c, ReqLineAlmostDone)
    else if ch == LF then Go(c, HeaderFieldStart)
    else ActMinorDigit(c, ch)
  }

  function ActFirstStatusCode(c: Core, ch: byte): Action
  {
    if IsNum(ch) then Go(c.(status := ch - 48), ResStatusCode)
    else if ch == SP then Stay(c)
    else Error(c, HPE_INVALID_STATUS)
  }

  function ActStatusCode(c: Core, ch: byte): Action
  {
    if IsNum(ch) then
      var d := c.(status := c.status * 10 + (ch - 48));
      if d.status > 999 then Error(d, HPE_INVALID_STATUS) else Stay(d)
    else if ch == SP then Go(c, ResStatusStart)
    else if ch == CR then Go(c, ResLineAlmostDone)
    else if ch == LF then Go(c, HeaderFieldStart)
    else Error(c, HPE_INVALID_STATUS)
  }

  function ActStatusStart(c: Core, ch: byte): Action
  {
    if ch == CR then Go(c, ResLineAlmostDone)
    else if ch == LF then Go(c, HeaderFieldStart)
    else MarkAt(c.(state := ResStatus, index := 0), Status)
  }

  function ActStatus(c: Core, ch: byte): Action
  {
    if ch == CR then Emit(c.(state := ResLineAlmostDone), Status)
    else if ch == LF then Emit(c.(state := HeaderFieldStart), Status)
    else Stay(c)
  }

  function ActReqHttpStart(c: Core, ch: byte): Action
  {
    if ch == 72 then Go(c, ReqHttpH) else if ch == SP then Stay(c) else Error(c, HPE_INVALID_CONSTANT)
  }

  function ActReqLineAlmostDone(c: Core, ch: byte): Action
  {
    if ch != LF then Error(c, HPE_LF_EXPECTED) else Go(c, HeaderFieldStart)
  }

  // ----- header lines -----

  function FirstHeaderState(c: byte): (h: HeaderState)
    ensures NameHeaderState(h)
  {
    if c == 99 then SeenC
    else if c == 112 then MatchingProxyConnection
    else if c == 116 then MatchingTransferEncoding
    else if c == 117 then MatchingUpgrade
    else General
  }

  function ActHeaderFieldStart(c: Core, ch: byte): Action
  {
    if ch == CR then Go(c, HeadersAlmostDone)
    else if ch == LF then Redo(c.(state := HeadersAlmostDone))
    else if Token(ch) == 0 then Error(c, HPE_INVALID_HEADER_TOKEN)
    else MarkAt(c.(index := 0, state := HeaderFieldName, hstate := FirstHeaderState(Token(ch))), HeaderField)
  }

  /** One more character against a word: index is advanced, the match is dropped, kept or completed. */
  function Match(c: Core, word: bytes, t: byte, done: HeaderState): (r: Core)
    ensures r == c.(index := r.index, hstate := r.hstate)
    ensures r.hstate == General || r.hstate == done || r.hstate == c.hstate
  {
    var i := (c.index + 1) % 256;
    if i > |word| || t != CharAt(word, i) then c.(index := i, hstate := General)
    else if i == |word| - 1 then c.(index := i, hstate := done)
    else c.(index := i)
  }

  /** The header_state switch inside s_header_field, for a token character. */
  function NameChar(c: Core, t: byte): (r: Core)
    ensures r == c.(index := r.index, hstate := r.hstate)
    ensures NameHeaderState(c.hstate) ==> NameHeaderState(r.hstate)
  {
    var i := (c.index + 1) % 256;
    match c.hstate
    case SeenC => c.(index := i, hstate := if t == 111 then SeenCO else General)
    case SeenCO => c.(index := i, hstate := if t == 110 then SeenCON else General)
    case SeenCON =>
      c.(index := i,
         hstate := if t == 110 then MatchingConnection else if t == 116 then MatchingContentLength else General)
    case MatchingConnection => Match(c, CONNECTION_NAME, t, Connection)
    case MatchingProxyConnection => Match(c, PROXY_CONNECTION_NAME, t, Connection)
    case MatchingContentLength => Match(c, CONTENT_LENGTH_NAME, t, ContentLength)
    case MatchingTransferEncoding => Match(c, TRANSFER_ENCODING_NAME, t, TransferEncoding)
    case MatchingUpgrade => Match(c, UPGRADE_NAME, t, Upgrade)
    case _ => c.(hstate := General) // a token is never a space in the strict build
  }

  function ActHeaderField(c: Core, ch: byte): Action
  {
    if Token(ch) != 0 then Stay(NameChar(c, Token(ch)))
    else if ch == 58 then Emit(c.(state := HeaderValueStart), HeaderField)
    else if ch == CR then Emit(c.(state := HeaderAlmostDone), HeaderField)
    else if ch == LF then Emit(c.(state := HeaderFieldStart), HeaderField)
    else Error(c, HPE_INVALID_HEADER_TOKEN)
  }

  function ActHeaderValueStart(c: Core, ch: byte): Action
  {
    if ch == SP || ch == TAB then Stay(c)
    else
      var d := c.(state := HeaderValueText, index := 0);
      if ch == CR then
        Emit(d.(hstate := General, state := HeaderAlmostDone), HeaderValue).(mark := Some(HeaderValue))
      else if ch == LF then
        Emit(d.(state := HeaderFieldStart), HeaderValue).(mark := Some(HeaderValue))
      else
        match d.hstate
        case Upgrade => MarkAt(d.(flags := d.flags.(upgrade := true), hstate := General), HeaderValue)
        case TransferEncoding =>
          MarkAt(d.(hstate := if Lower(ch) == 99 then MatchingChunked else General), HeaderValue)
        case ContentLength =>
          if !IsNum(ch) then Error(d, HPE_INVALID_CONTENT_LENGTH).(mark := Some(HeaderValue))
          else MarkAt(d.(clen := ch - 48), HeaderValue)
        case Connection =>
          MarkAt(d.(hstate := if Lower(ch) == 107 then MatchingKeepAlive
                              else if Lower(ch) == 99 then MatchingClose
                              else General), HeaderValue)
        case _ => MarkAt(d.(hstate := General), HeaderValue)
  }

  /** One more digit of a length: the product as the 64-bit register holds it, and the overflow test,
      which looks at the old value. An accepted digit never wraps and never makes the length equal to
      the "absent" value. */
  function LengthDigit(c: Core, base: nat, digit: nat): (r: Option<Core>)
    requires (base == 10 || base == 16) && digit < base
    ensures r.Some? ==> r.value == c.(clen := c.clen * base + digit) && r.value.clen < ULLONG_MAX
    ensures r.None? ==> c.clen * base + digit + base > ULLONG_MAX
  {
    var t := ((c.clen * base) % TWO_64 + digit) % TWO_64;
    if (ULLONG_MAX - base) / base < c.clen then None else Some(c.(clen := t))
  }

  function ActHeaderValue(c: Core, ch: byte): Action
  {
    if ch == CR then Emit(c.(state := HeaderAlmostDone), HeaderValue)
    else if ch == LF then Emit(c.(state := HeaderAlmostDone), HeaderValue).(ctl := Again)
    else
      match c.hstate
      case ContentLength =>
        if ch == SP then Stay(c)
        else if !IsNum(ch) then Error(c, HPE_INVALID_CONTENT_LENGTH)
        else
          (match LengthDigit(c, 10, ch - 48)
           case None => Error(c, HPE_INVALID_CONTENT_LENGTH)
           case Some(d) => Stay(d))
      case MatchingChunked => Stay(Match(c, CHUNKED_WORD, Lower(ch), Chunked))
      case MatchingKeepAlive => Stay(Match(c, KEEP_ALIVE_WORD, Lower(ch), KeepAlive))
      case MatchingClose => Stay(Match(c, CLOSE_WORD, Lower(ch), Close))
      case Chunked => Stay(if ch != SP then c.(hstate := General) else c)
      case KeepAlive => Stay(if ch != SP then c.(hstate := General) else c)
      case Close => Stay(if ch != SP then c.(hstate := General) else c)
      case _ => Stay(c.(hstate := General))
  }

  /** The flag a finished value sets. */
  function FlagOf(f: Flags, h: HeaderState): Flags
  {
    match h
    case KeepAlive => f.(keepAlive := true)
    case Close => f.(close := true)
    case Chunked => f.(chunked := true)
    case _ => f
  }

  function ActHeaderAlmostDone(c: Core, ch: byte): Action
  {
    if ch != LF then Error(c, HPE_STRICT)
    else Go(c.(flags := FlagOf(c.flags, c.hstate)), HeaderValueLws)
  }

  function ActHeaderValueLws(c: Core, ch: byte): Action
  {
    if ch == SP || ch == TAB then Go(c, HeaderValueStart) else Redo(c.(state := HeaderFieldStart))
  }

  function ActHeadersAlmostDone(c: Core, ch: byte): Action
  {
    if ch != LF then Error(c, HPE_STRICT)
    else if c.flags.trailing then Finish(c)
    else
      var d := c.(state := HeadersDone, upgrade := c.flags.upgrade || c.verb == CONNECT);
      Action(d, false, None, None, Some(HeadersComplete), Again)
  }

  function ActHeadersDone(c: Core, ch: byte): Action
  {
    if ch != LF then Error(c, HPE_STRICT)
    else
      var a := if c.upgrade then Finish(c).(ctl := Exit)
               else if c.flags.chunked then Go(c, ChunkSizeStart)
               else if c.clen == 0 then Finish(c)
               else if c.clen != ULLONG_MAX then Go(c, BodyIdentity)
               else if c.ptype.Request? || !NeedsEof(c) then Finish(c)
               else Go(c, BodyIdentityEof);
      a.(zero := true)
  }

  // ----- bodies -----

  /** One byte of s_body_identity; the last one is seen again by s_message_done. */
  function ActBodyIdentity(c: Core, ch: byte): Action
    requires c.clen > 0
  {
    var d := c.(clen := c.clen - 1);
    if d.clen == 0 then Action(d.(state := MessageDone), false, Some(Body), Some(Body), None, Again)
    else MarkAt(d, Body)
  }

  function ActChunkSizeStart(c: Core, ch: byte): Action
  {
    if Unhex(ch) == -1 then Error(c, HPE_INVALID_CHUNK_SIZE)
    else Go(c.(clen := Unhex(ch)), ChunkSize)
  }

  function ActChunkSize(c: Core, ch: byte): Action
  {
    if ch == CR then Go(c, ChunkSizeAlmostDone)
    else if Unhex(ch) == -1 then
      if ch == 59 || ch == SP then Go(c, ChunkParameters) else Error(c, HPE_INVALID_CHUNK_SIZE)
    else
      match LengthDigit(c, 16, Unhex(ch))
      case None => Error(c, HPE_INVALID_CONTENT_LENGTH)
      case Some(d) => Stay(d)
  }

  function ActChunkParameters(c: Core, ch: byte): Action
  {
    if ch == CR then Go(c, ChunkSizeAlmostDone) else Stay(c)
  }

  function ActChunkSizeAlmostDone(c: Core, ch: byte): Action
  {
    if ch != LF then Error(c, HPE_STRICT)
    else
      var a := if c.clen == 0 then Go(c.(flags := c.flags.(trailing := true)), HeaderFieldStart) else Go(c, ChunkData);
      a.(zero := true)
  }

  function ActChunkData(c: Core, ch: byte): Action
    requires c.clen > 0
  {
    var d := c.(clen := c.clen - 1);
    MarkAt(if d.clen == 0 then d.(state := ChunkDataAlmostDone) else d, Body)
  }

  function ActChunkDataAlmostDone(c: Core, ch: byte): Action
  {
    if ch != CR then Error(c, HPE_STRICT) else Emit(c.(state := ChunkDataDone), Body)
  }

  function ActChunkDataDone(c: Core, ch: byte): Action
  {
    if ch != LF then Error(c, HPE_STRICT) else Go(c, ChunkSizeStart).(zero := true)
  }

  // ----- the switch -----

  predicate UrlHeadState(s: State) {
    s.ReqSchema? || s.ReqSchemaSlash? || s.ReqSchemaSlashSlash? || s.ReqServerStart?
  }

  predicate UrlTailState(s: State) {
    || s.ReqServer? || s.ReqServerWithAt? || s.ReqPath? || s.ReqQueryStringStart?
    || s.ReqQueryString? || s.ReqFragmentStart? || s.ReqFragment?
  }

  predicate ChunkState(s: State) {
    || s.ChunkSizeStart? || s.ChunkSize? || s.ChunkParameters? || s.ChunkSizeAlmostDone?
    || s.ChunkData? || s.ChunkDataAlmostDone? || s.ChunkDataDone?
  }

  /** The header states s_header_field can be in: everything else runs into its "Unknown header_state". */
  predicate NameHeaderState(h: HeaderState) {
    || h.General? || h.SeenC? || h.SeenCO? || h.SeenCON?
    || h.MatchingConnection? || h.MatchingProxyConnection? || h.MatchingContentLength?
    || h.MatchingTransferEncoding? || h.MatchingUpgrade?
    || h.Connection? || h.ContentLength? || h.TransferEncoding? || h.Upgrade?
  }

  /** Every assert() that guards an entry of the switch, except the one on `nread`, together with the
      bounds its table lookups rely on. `Act` cannot be called where one of them would fail. */
  predicate AssertsHold(c: Core)
  {
    && (c.state.ReqMethod? ==> c.index <= |MethodName(c.verb)|)
    && (c.state.HeaderFieldName? ==> NameHeaderState(c.hstate))
    && (c.state.HeaderValueText? ==> !c.hstate.Connection? && !c.hstate.TransferEncoding?)
    && (c.state.BodyIdentity? || c.state.ChunkData? ==> c.clen != 0 && c.clen != ULLONG_MAX)
    && (c.state.ChunkDataAlmostDone? ==> c.clen == 0)
    && (ChunkState(c.state) ==> c.flags.chunked)
  }

  /** One entry of the switch at `reexecute_byte`. The three body states consume one byte here; the
      source consumes as many as it has, which HttpExecute shows to be the same. */
  function Act(c: Core, ch: byte): (a: Action)
    requires AssertsHold(c)
  {
    match c.state
    case Dead => if ch == CR || ch == LF then Stay(c) else Error(c, HPE_CLOSED_CONNECTION)
    case StartReqOrRes => ActStartReqOrRes(c, ch)
    case ResOrRespH => ActResOrRespH(c, ch)
    case StartRes => ActStartRes(c, ch)
    case ResH => Expect(c, ch, 84, ResHT)
    case ResHT => Expect(c, ch, 84, ResHTT)
    case ResHTT => Expect(c, ch, 80, ResHTTP)
    case ResHTTP => Expect(c, ch, 47, ResFirstMajor)
    case ResFirstMajor => ActFirstMajor(c, ch, 48, ResMajor)
    case ResMajor => ActMajor(c, ch, ResFirstMinor)
    case ResFirstMinor => ActFirstMinor(c, ch, ResMinor)
    case ResMinor => ActResMinor(c, ch)
    case ResFirstStatusCode => ActFirstStatusCode(c, ch)
    case ResStatusCode => ActStatusCode(c, ch)
    case ResStatusStart => ActStatusStart(c, ch)
    case ResStatus => ActStatus(c, ch)
    case ResLineAlmostDone => Expect(c, ch, LF, HeaderFieldStart)
    case StartReq => ActStartReq(c, ch)
    case ReqMethod => ActMethod(c, ch)
    case ReqSpacesBeforeUrl => ActSpacesBeforeUrl(c, ch)
    case ReqSchema => ActUrlHead(c, ch)
    case ReqSchemaSlash => ActUrlHead(c, ch)
    case ReqSchemaSlashSlash => ActUrlHead(c, ch)
    case ReqServerStart => ActUrlHead(c, ch)
    case ReqServer => ActUrlTail(c, ch)
    case ReqServerWithAt => ActUrlTail(c, ch)
    case ReqPath => ActUrlTail(c, ch)
    case ReqQueryStringStart => ActUrlTail(c, ch)
    case ReqQueryString => ActUrlTail(c, ch)
    case ReqFragmentStart => ActUrlTail(c, ch)
    case ReqFragment => ActUrlTail(c, ch)
    case ReqHttpStart => ActReqHttpStart(c, ch)
    case ReqHttpH => Expect(c, ch, 84, ReqHttpHT)
    case ReqHttpHT => Expect(c, ch, 84, ReqHttpHTT)
    case ReqHttpHTT => Expect(c, ch, 80, ReqHttpHTTP)
    case ReqHttpHTTP => Expect(c, ch, 47, ReqFirstMajor)
    case ReqFirstMajor => ActFirstMajor(c, ch, 49, ReqMajor)
    case ReqMajor => ActMajor(c, ch, ReqFirstMinor)
    case ReqFirstMinor => ActFirstMinor(c, ch, ReqMinor)
    case ReqMinor => ActReqMinor(c, ch)
    case ReqLineAlmostDone => ActReqLineAlmostDone(c, ch)
    case HeaderFieldStart => ActHeaderFieldStart(c, ch)
    case HeaderFieldName => ActHeaderField(c, ch)
    case HeaderValueStart => ActHeaderValueStart(c, ch)
    case HeaderValueText => ActHeaderValue(c, ch)
    case HeaderValueLws => ActHeaderValueLws(c, ch)
    case HeaderAlmostDone => ActHeaderAlmostDone(c, ch)
    case ChunkSizeStart => ActChunkSizeStart(c, ch)
    case ChunkSize => ActChunkSize(c, ch)
    case ChunkParameters => ActChunkParameters(c, ch)
    case ChunkSizeAlmostDone => ActChunkSizeAlmostDone(c, ch)
    case HeadersAlmostDone => ActHeadersAlmostDone(c, ch)
    case HeadersDone => ActHeadersDone(c, ch)
    case ChunkData => ActChunkData(c, ch)
    case ChunkDataAlmostDone => ActChunkDataAlmostDone(c, ch)
    case ChunkDataDone => ActChunkDataDone(c, ch)
    case BodyIdentity => ActBodyIdentity(c, ch)
    case BodyIdentityEof => MarkAt(c, Body)
    case MessageDone => Finish(c)
  }
}
