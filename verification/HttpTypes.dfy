/** The parser struct of src/http_parser.h, its enumerations and the events its callbacks deliver. */
module HttpTypes {
  import opened Ascii

  const ULLONG_MAX: nat := 0xFFFF_FFFF_FFFF_FFFF
  const TWO_64: nat := 0x1_0000_0000_0000_0000
  const MAX_HEADER_SIZE: nat := 81920

  datatype ParserType = Request | Response | Both

  datatype State =
    | Dead
    | StartReqOrRes | ResOrRespH
    | StartRes | ResH | ResHT | ResHTT | ResHTTP
    | ResFirstMajor | ResMajor | ResFirstMinor | ResMinor
    | ResFirstStatusCode | ResStatusCode | ResStatusStart | ResStatus | ResLineAlmostDone
    | StartReq | ReqMethod | ReqSpacesBeforeUrl
    | ReqSchema | ReqSchemaSlash | ReqSchemaSlashSlash
    | ReqServerStart | ReqServer | ReqServerWithAt
    | ReqPath | ReqQueryStringStart | ReqQueryString | ReqFragmentStart | ReqFragment
    | ReqHttpStart | ReqHttpH | ReqHttpHT | ReqHttpHTT | ReqHttpHTTP
    | ReqFirstMajor | ReqMajor | ReqFirstMinor | ReqMinor | ReqLineAlmostDone
    | HeaderFieldStart | HeaderFieldName | HeaderValueStart | HeaderValueText | HeaderValueLws
    | HeaderAlmostDone
    | ChunkSizeStart | ChunkSize | ChunkParameters | ChunkSizeAlmostDone
    | HeadersAlmostDone | HeadersDone
    | ChunkData | ChunkDataAlmostDone | ChunkDataDone
    | BodyIdentity | BodyIdentityEof | MessageDone

  /** PARSING_HEADER: every state up to HeadersDone in the C enumeration. */
  predicate ParsingHeader(s: State) {
    !(s.ChunkData? || s.ChunkDataAlmostDone? || s.ChunkDataDone? || s.BodyIdentity? || s.BodyIdentityEof?
        || s.MessageDone?)
  }

  datatype HeaderState =
    | General | SeenC | SeenCO | SeenCON
    | MatchingConnection | MatchingProxyConnection | MatchingContentLength
    | MatchingTransferEncoding | MatchingUpgrade
    | Connection | ContentLength | TransferEncoding | Upgrade
    | MatchingChunked | MatchingKeepAlive | MatchingClose
    | Chunked | KeepAlive | Close

  datatype Method =
    | DELETE | GET | HEAD | POST | PUT | CONNECT | OPTIONS | TRACE
    | COPY | LOCK | MKCOL | MOVE | PROPFIND | PROPPATCH | SEARCH | UNLOCK
    | REPORT | MKACTIVITY | CHECKOUT | MERGE
    | MSEARCH | NOTIFY | SUBSCRIBE | UNSUBSCRIBE
    | PATCH | PURGE

  /** method_strings */
  function MethodName(m: Method): (s: bytes)
    ensures 3 <= |s| <= 11
  {
    match m
    case DELETE => [68, 69, 76, 69, 84, 69]
    case GET => [71, 69, 84]
    case HEAD => [72, 69, 65, 68]
    case POST => [80, 79, 83, 84]
    case PUT => [80, 85, 84]
    case CONNECT => [67, 79, 78, 78, 69, 67, 84]
    case OPTIONS => [79, 80, 84, 73, 79, 78, 83]
    case TRACE => [84, 82, 65, 67, 69]
    case COPY => [67, 79, 80, 89]
    case LOCK => [76, 79, 67, 75]
    case MKCOL => [77, 75, 67, 79, 76]
    case MOVE => [77, 79, 86, 69]
    case PROPFIND => [80, 82, 79, 80, 70, 73, 78, 68]
    case PROPPATCH => [80, 82, 79, 80, 80, 65, 84, 67, 72]
    case SEARCH => [83, 69, 65, 82, 67, 72]
    case UNLOCK => [85, 78, 76, 79, 67, 75]
    case REPORT => [82, 69, 80, 79, 82, 84]
    case MKACTIVITY => [77, 75, 65, 67, 84, 73, 86, 73, 84, 89]
    case CHECKOUT => [67, 72, 69, 67, 75, 79, 85, 84]
    case MERGE => [77, 69, 82, 71, 69]
    case MSEARCH => [77, 45, 83, 69, 65, 82, 67, 72]
    case NOTIFY => [78, 79, 84, 73, 70, 89]
    case SUBSCRIBE => [83, 85, 66, 83, 67, 82, 73, 66, 69]
    case UNSUBSCRIBE => [85, 78, 83, 85, 66, 83, 67, 82, 73, 66, 69]
    case PATCH => [80, 65, 84, 67, 72]
    case PURGE => [80, 85, 82, 71, 69]
  }

  /** The words the header automaton compares against, in lower case. */
  const CONNECTION_NAME: bytes := [99, 111, 110, 110, 101, 99, 116, 105, 111, 110]
  const PROXY_CONNECTION_NAME: bytes := [112, 114, 111, 120, 121, 45, 99, 111, 110, 110, 101, 99, 116, 105, 111, 110]
  const CONTENT_LENGTH_NAME: bytes := [99, 111, 110, 116, 101, 110, 116, 45, 108, 101, 110, 103, 116, 104]
  const TRANSFER_ENCODING_NAME: bytes :=
    [116, 114, 97, 110, 115, 102, 101, 114, 45, 101, 110, 99, 111, 100, 105, 110, 103]
  const UPGRADE_NAME: bytes := [117, 112, 103, 114, 97, 100, 101]
  const CHUNKED_WORD: bytes := [99, 104, 117, 110, 107, 101, 100]
  const KEEP_ALIVE_WORD: bytes := [107, 101, 101, 112, 45, 97, 108, 105, 118, 101]
  const CLOSE_WORD: bytes := [99, 108, 111, 115, 101]

  /** A C string read at an index up to and including its terminating NUL. */
  function CharAt(s: bytes, i: nat): (c: byte)
    requires i <= |s|
  {
    if i < |s| then s[i] else 0
  }

  datatype Errno =
    | HPE_OK | HPE_PAUSED
    | HPE_INVALID_EOF_STATE | HPE_HEADER_OVERFLOW | HPE_CLOSED_CONNECTION
    | HPE_INVALID_VERSION | HPE_INVALID_STATUS | HPE_INVALID_METHOD | HPE_INVALID_URL
    | HPE_LF_EXPECTED | HPE_INVALID_HEADER_TOKEN | HPE_INVALID_CONTENT_LENGTH
    | HPE_INVALID_CHUNK_SIZE | HPE_INVALID_CONSTANT | HPE_STRICT

  datatype Flags = Flags(chunked: bool, keepAlive: bool, close: bool, trailing: bool, upgrade: bool)

  const NO_FLAGS := Flags(false, false, false, false, false)

  /** The fields of struct http_parser that the switch reads and writes. Its byte counter `nread`, which
      the switch only ever resets, and `http_errno` are kept beside it. */
  datatype Core = Core(
    ptype: ParserType, flags: Flags, state: State, hstate: HeaderState, index: nat,
    clen: nat, major: nat, minor: nat, status: nat, verb: Method, upgrade: bool)

  datatype Field = Url | Status | HeaderField | HeaderValue | Body
  datatype Note = MessageBegin | HeadersComplete | MessageComplete

  /** One callback: a fragment of a field, or a notification. */
  datatype Event = Data(field: Field, text: bytes) | Notify(note: Note)

  /** Deliver one more event to a trace in which neighbouring fragments of one field are joined. */
  function Push(trace: seq<Event>, e: Event): (r: seq<Event>)
  {
    if e.Data? && |trace| > 0 && trace[|trace| - 1].Data? && trace[|trace| - 1].field == e.field then
      trace[..|trace| - 1] + [Data(e.field, trace[|trace| - 1].text + e.text)]
    else
      trace + [e]
  }

  function PushAll(trace: seq<Event>, es: seq<Event>): (r: seq<Event>)
  {
    if es == [] then trace else Push(PushAll(trace, es[..|es| - 1]), es[|es| - 1])
  }

  /** The events with neighbouring fragments of one field joined. */
  function Join(es: seq<Event>): (r: seq<Event>) { PushAll([], es) }

  lemma {:induction false} PushAllConcat(trace: seq<Event>, a: seq<Event>, b: seq<Event>)
    ensures PushAll(trace, a + b) == PushAll(PushAll(trace, a), b)
    decreases |b|
  {
    if b == [] {
      assert a + b == a;
    } else {
      var last := b[|b| - 1];
      assert (a + b)[..|a + b| - 1] == a + b[..|b| - 1];
      PushAllConcat(trace, a, b[..|b| - 1]);
    }
  }

  lemma PushAllNone(trace: seq<Event>)
    ensures PushAll(trace, []) == trace
  {}

  lemma PushAllOne(trace: seq<Event>, e: Event)
    ensures PushAll(trace, [e]) == Push(trace, e)
  {
    assert [e][..0] == [];
    assert PushAll(trace, []) == trace;
  }

  /** Two fragments of one field are worth their concatenation. */
  lemma PushFragments(trace: seq<Event>, f: Field, x: bytes, y: bytes)
    ensures Push(Push(trace, Data(f, x)), Data(f, y)) == Push(trace, Data(f, x + y))
  {
    var t := Push(trace, Data(f, x));
    var n := |trace|;
    if n > 0 && trace[n - 1].Data? && trace[n - 1].field == f {
      assert t[..|t| - 1] == trace[..n - 1];
      assert (trace[n - 1].text + x) + y == trace[n - 1].text + (x + y);
    } else {
      assert t[..|t| - 1] == trace;
    }
  }

  /** An empty fragment after another fragment of the same field changes nothing. */
  lemma PushEmptyFragment(trace: seq<Event>, f: Field)
    requires |trace| > 0 && trace[|trace| - 1].Data? && trace[|trace| - 1].field == f
    ensures Push(trace, Data(f, [])) == trace
  {
    assert trace[|trace| - 1].text + [] == trace[|trace| - 1].text;
    assert trace == trace[..|trace| - 1] + [trace[|trace| - 1]];
  }
}
