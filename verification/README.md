# Verified model of Luaw's protocol core

Luaw is a web server framework: a C core on libuv, scripted in Lua coroutines. This project models
the parts of it that carry the most state and proves what they promise, for every input, every cutting
of the input and every interleaving.

| module | what it models |
|---|---|
| `CharacterTables` | the character tables and words against RFC 3986 and RFC 2616, in characters |
| `Ascii`, `HttpTypes` | bytes and character tables; the parser struct, its enumerations, callbacks and joined traces |
| `HttpAutomaton` | the switch of `http_parser_execute` (strict build), one entry per function |
| `HttpRun` | the reference reading: one byte, one step, every callback delivered at once; the invariant of all reachable states |
| `HttpExecute` | `http_parser_execute` as it is: cursor, marks, bulk skips, re-read bytes, callbacks that may pause |
| `HttpOverflow` | the header limit: which heads overflow |
| `HttpReread`, `HttpHeadLimit` | the bytes a pausing parser counts twice, and the heads it can take |
| `HttpPause` | the one-event-per-call wrapper of `src/luaw_http_parser.c` |
| `HttpWords`, `HttpLengths`, `HttpMethods` | the incremental matchers and lengths against string equality and arithmetic |
| `HttpHeaders`, `HttpBody`, `HttpChunks`, `HttpRequests`, `HttpResponses` | header lines and blocks, framing, the chunked coding, whole requests and responses |
| `HttpKeepAlive` | what the lines of a message say: keep-alive, framing, upgrade |
| `HttpLines` | bare LF, folded lines, spaces, long versions, trailers, parsers for either kind |
| `HttpRefusals` | which bytes are refused, state by state |
| `HttpUrls`, `UrlGrammar` | the URLs a parser accepts and delivers, over any stream, and their grammar |
| `ChunkWriter` | the streaming writer of `lib/luaw_http.lua`, inverted by the chunk states |
| `LuaRequest`, `LuaResponse` | the Lua callbacks that glue fragments together and build the header table |
| `FormCodec`, `FormGrammar` | form parameters: the encoder, the decoder that rewrites its buffer in place, the grammar of what it accepts |
| `QueryParams` | parameters in the query of a URL, from the encoder to the decoder |
| `UrlSplit` | `http_parser_parse_url` and `http_parse_host` |
| `UrlAuthority`, `UrlWritten` | authorities and URLs written from their parts, and the grammar of what is accepted |
| `LpackCodec`, `LpackWire`, `LpackRoundTrip`, `LpackWriter`, `LpackReader` | LuaPack: encoding, bytes on the wire, queue with flushes, refilled reader |
| `TcpLifetime`, `TcpWaits`, `TcpRelease` | a connection under libuv and Lua as a transition system: its reference count, what becomes of every wait, and that a closed one is freed |
| `ThreadRegistry`, `RingBuffer`, `Scheduler`, `RunQueue` | thread ids, pooled coroutines, run queue |
| `RouteTrie`, `RouteSearch` | route registration and lookup, and what lookup finds |

`dafny verify dfyconfig.toml` checks everything.

How the parts fit. `HttpRun.Run` reads a stream byte by byte and joins neighbouring fragments of a
field. `HttpParser.Execute` is proved to do, call by call, what `Run` does, so everything proved about
`Run` (header lines, bodies, chunks, whole requests) holds for every cutting of the stream by `Feed`, and
for the pausing wrapper by `ReadStream`. `ServerRequest.ReadRequest` puts the chain together: a request
written out, sent in any pieces, read by the pausing parser and gathered by the Lua callbacks is the
request that was written.

What the proofs turned up in the code:

- `unhex[256]` has 128 initialisers, so bytes above 127 count as the digit 0 in a chunk size
  (`HttpLengths.TableAboveAscii`, `HttpChunks.NotHexadecimal`; `HttpChunks.SizesAreHexadecimal` says exactly when a size is what it seems).
- The status of a response is looked at after chunks and length: a 304 with a Content-Length gets a body
  (`HttpBody.NotModifiedWithLength`; `HttpBody.FramingIsRfc` says exactly when the framing is the RFC's).
- A parser that pauses at every callback counts the LF of the empty line twice, so a head of exactly the
  limit, which the unpaused parser takes, overflows (`LuaRequest.LongestHead`;
  `HttpPause.LuawHttpParser.ReadStream` and `HttpHeadLimit.HeadIsTheWeight` say exactly when).
- `luaw_parse_url` does not clear the struct it allocates: for a URL with a schema and no host the host is read
  before it is written (`UrlWritten.NoHost`; `UrlSplit.ParseUrl` says exactly when).
- "CONNECT requests can only contain hostname:port" is not so for a question mark behind the port or a bare
  `@` before the host (`UrlWritten.ConnectWithMark`; `UrlWritten.ConnectOnly` says exactly when).
- A folded Content-Length is not continued: the second part is a length of its own (`HttpLines.FoldedLine`).
- In `s_start_res` a leading CR or LF also reports the beginning of a message (`HttpMethods.ResponseBreaks`).
- The case `UINT_32` of `serialize_write_Q` has no room check: a dictionary of 65 words followed by a number
  is written over the end of the buffer and returned as success (`LpackWriter.DictionaryThenNumber`;
  `LpackWriter.LaidExactly` says exactly when).
- `serialize_write_Q` leaves 64 bytes for string prefixes however many strings are queued: 65 short
  strings in one flush are an error (`LpackWriter.ManyShortStrings`, `LpackWriter.FitsExactly`).
- A flush between a marker and its payload, and the final flush on an empty queue, are errors
  (`LpackWriter.CutItemIsError`, `LpackWriter.LoneBoolean`).
- `readNextBuffer` passes a 0-based offset to the 1-based `string.sub` and repeats one byte
  (`LpackReader.LpackReader.ReadNextBuffer`): a number across a refill is misread
  (`LpackReader.StraddledNumber`), and a further `read`, which begins with a refill, starts one byte early
  (`LpackReader.FurtherRead`); `ReadNumber` and `Read` say exactly when.
- An empty string comes back from LuaPack as nil (`LpackWire.NothingComesBack`).
- An empty buffer at the end of streaming sends a second terminator (`ChunkWriter.StreamedResponse.EndStreaming`).
- A write started over an unanswered one leaks the connection (`TcpLifetime.LeakedRun`, `TcpLifetime.FreedOnlyWithoutOverlap`).
- Adding a context to the run queue while it is queued can drop others (`RunQueue.AddedAgain`;
  `RunQueue.NothingLost` says exactly when).
- The comment in `handle_name_value_pair` that `&foo=` is allowed holds only for the last parameter
  (`FormCodec.EmptyValueInside`; `FormCodec.FormAccepted` says exactly which forms are accepted).

## Model

| member | source | states |
|---|---|---|
| `HttpRun.ActKeeps` | src/http_parser.c:659-1881 | From every state the invariant allows, and for every byte, no assert() guarding an entry of the switch can fail, no table lookup leaves its table, and the entry keeps the invariant: body lengths neither 0 nor the "absent" value, F_CHUNKED in every chunk state, at most the state's own mark pending, a byte is looked at again only in a state of smaller rank |
| `HttpRun.Chain` | src/http_parser.c:659-1881 | The chain of `goto reexecute_byte` for one byte ends, by the rank of the states, and leaves the invariant true; it can only be entered with nread equal to 1 at a chunk size |
| `HttpRun.Init` | src/http_parser.c:1950-1959 | http_parser_init establishes the invariant |
| `HttpRun.RunConcat` | src/http_parser.c:573-657 | Reading two texts one after the other is reading their concatenation, in final struct, counter, joined trace and number of bytes taken |
| `HttpRun.RunSettles` | src/http_parser.c:1603-1670 | Over any stream, the upgrade flag is up exactly when the parser has left through the upgrade exit, and a failure is never reported as success or as a pause |
| `HttpRun.FailedTakesLess` | src/http_parser.c:1893-1897 | A failing byte is never counted as taken |
| `HttpAutomaton.LengthDigit` | src/http_parser.c:1497-1520 | An accepted digit gives the exact value in base 10 or 16: the 64-bit product never wraps and never equals the "absent" value |
| `HttpAutomaton.NameChar` | src/http_parser.c:1283-1378 | A token character changes only index and header_state, and never leads to an unknown header_state |
| `HttpAutomaton.UrlChar` | src/http_parser.c:425-571 | parse_url_char answers with a URL state or s_dead, nothing else; which texts it gets through is UrlGrammar.UrlExactly |
| `CharacterTables.UrlTable` | src/http_parser.c:199-233 | normal_url_char by the characters of RFC 3986: a byte is one exactly when it is a path character of section 3.3, a slash, or one of eleven characters that the RFC does not have; no control character, space, `#`, `?` or byte above 126 is one |
| `CharacterTables.TokenTable` | src/http_parser.c:139-178 | tokens is the token rule of section 2.2 of RFC 2616: every ASCII character that is neither a control character nor a separator, in lower case |
| `CharacterTables.AuthorityTables` | src/http_parser.c:359-376 | User information is that of section 3.2.1 of RFC 3986; the classes of hosts, addresses, digits and letters, in characters |
| `CharacterTables.LowerTable` | src/http_parser.c:359 | LOWER yields a letter exactly for letters, and then the lower-case one |
| `CharacterTables.Characters` | src/http_parser.c:357-358 | The characters that have names |
| `CharacterTables.Words` | src/http_parser.c:120-127 | The header names and words the matchers compare with, as texts |
| `CharacterTables.MethodStrings` | src/http_parser.h:81-112 | The 26 method names, as texts |
| `HttpExecute.MarksRefine` | src/http_parser.c:61-109 | Setting a mark, keeping it over bytes and emptying it in a data callback delivers the same joined text as delivering every byte at once |
| `HttpExecute.BodyRun` | src/http_parser.c:1694-1735 | Skipping any number of body bytes at once equals stepping through them |
| `HttpExecute.EntryRefines` | src/http_parser.c:659-1881 | One entry of the switch with its marks and callbacks is one link of the byte-by-byte reference |
| `HttpExecute.HttpParser.constructor` | src/http_parser.c:1950-1959 | A new parser is the initial machine of the reference |
| `HttpExecute.HttpParser.Pause` | src/http_parser.c:2210-2223 | Pausing sets and clears HPE_PAUSED; it may not be asked of a failed parser |
| `HttpExecute.HttpParser.Entry` | src/http_parser.c:659-1881 | One entry with its marks: at most one callback, none left pending after it, and a repeated byte only with smaller rank |
| `HttpExecute.HttpParser.ReadBody` | src/http_parser.c:1694-1735 | The bulk states take what the call has of the body at once and end where the byte-by-byte reference ends |
| `HttpExecute.HttpParser.Turn` | src/http_parser.c:640-1881 | One turn of the loop, byte counter included, follows the reference whichever callbacks pause; a byte past the header limit fails with HPE_HEADER_OVERFLOW |
| `HttpExecute.HttpParser.Execute` | src/http_parser.c:573-1897 | http_parser_execute refines the byte-by-byte reference on every input and for every choice of callbacks that pause, by their place and by what they deliver: struct, counter, bytes taken, errno and joined callbacks; it stops at the first callback that pauses, with the rest of the work on the byte still to do, and if every callback pauses it has made exactly one; data of length 0 is the end of the stream |
| `HttpExecute.HttpParser.ReadData` | src/http_parser.c:640-1897 | The loop on data that is not empty, with any choice of pausing callbacks; it always ends |
| `HttpExecute.HttpParser.Leftovers` | src/http_parser.c:1877-1889 | The closing callbacks deliver what is under the marks, of which at most one is left |
| `HttpExecute.HttpParser.Feed` | src/http_parser.c:614-657 | Split independence: for every stream and every cutting into non-empty pieces the final struct, the number of bytes taken and the errno are those of the uncut stream, and so are the joined events, except that on a stream that fails the text pending under the mark at that point may be missing |
| `HttpReread.ActRecounts` | src/luaw_http_parser.c:206-213 | Which bytes a parser that pauses at every callback looks at twice in a header state: over the whole switch, exactly a bare LF that ends a value and the LF that ends a head |
| `HttpReread.CountersApart` | src/http_parser.c:640-657 | On every stream the paused reading has the struct, events and outcome of the unpaused one and a counter that is ahead by the bytes counted twice since its last reset, until that passes the header limit; from there it has overflowed |
| `HttpPause.CallResumes` | src/luaw_http_parser.c:274-337 | A call that pauses, anywhere in the work on a byte, leaves a parser from which the bytes not taken are read as the whole data would have been |
| `HttpPause.LuawHttpParser.constructor` | src/luaw_http_parser.c:180-189 | A new wrapper holds a freshly initialised parser and an empty slot |
| `HttpPause.LuawHttpParser.Store` | src/luaw_http_parser.c:206-213 | The single slot holds the one event of the call, or none |
| `HttpPause.LuawHttpParser.ParseHttp` | src/luaw_http_parser.c:274-337 | One call runs the parser once, returns at most one event and the new offset, reports an error exactly when the paused reading fails, and un-pauses otherwise |
| `HttpPause.LuawHttpParser.ReadBuffer` | src/luaw_http_parser.c:274-337 | Calling parse_http at the new offset until a buffer is used up always ends, loses no event and repeats none: what comes after the buffer is read as if nothing had paused |
| `HttpPause.LuawHttpParser.ReadStream` | src/luaw_http_parser.c:274-337 | Pause transparency, exactly: for every stream without upgrade and every cutting, the paused reading has the events, the struct and the errno of the unpaused one, with the bytes counted twice on its counter, except that it reports HPE_HEADER_OVERFLOW if and only if somewhere the header bytes with those counted twice pass the limit |
| `HttpHeadLimit.HeadIsTheWeight` | src/http_parser.c:640-657 | For a whole request written with any framing, the paused parser overflows if and only if the head is at least as long as the limit; the unpaused one takes a head of exactly the limit |
| `HttpWords.CharacterRead` | src/http_parser.c:1283-1378 | Every token character keeps header_state in agreement with the lower-case text read so far |
| `HttpWords.NameRead` | src/http_parser.c:1224-1402 | The bytes of a header name are delivered unchanged, header_state agreeing with them at every length |
| `HttpWords.NameClassified` | src/http_parser.c:1224-1402 | At the colon header_state is the classification of the whole lower-case name by string equality |
| `HttpWords.WordMatches` | src/http_parser.c:1521-1566 | A value being matched against a word is dropped, kept or completed exactly as comparing the text in lower case with the word says |
| `HttpWords.WordLeft` | src/http_parser.c:1521-1566 | After the word only spaces keep the match; a value that has left the word never returns to it |
| `HttpLengths.DigitAccepted` | src/http_parser.c:1443-1520 | The overflow test, which looks only at the value before the digit, is exactly a bound on the value after it: below 2^64 - 6 in base 10 and 2^64 - 16 in base 16 |
| `HttpLengths.NotALength` | src/http_parser.c:1497-1520 | A text that is no acceptable length cannot become one by appending |
| `HttpLengths.TableOnAscii` | src/http_parser.c:180-197 | On ASCII the unhex table takes a byte for a digit exactly when it is a hexadecimal digit, with its value |
| `HttpLengths.TableAboveAscii` | src/http_parser.c:180-197 | Above ASCII the table, of which only 128 entries are initialised, takes every byte for the digit 0 |
| `HttpHeaders.ValueRead` | src/http_parser.c:1404-1566 | The bytes of a value are delivered unchanged; a Content-Length fails with HPE_INVALID_CONTENT_LENGTH exactly when it is not digits and spaces with a decimal value under the limit |
| `HttpHeaders.FlagsDecided` | src/http_parser.c:1568-1589 | At the end of a line F_CHUNKED, keep-alive and close are set exactly when the value is that word, in any case, plus trailing spaces |
| `HttpHeaders.ValueLine` | src/http_parser.c:1404-1589 | A value and its line end: flags by string equality, content_length by decimal value with spaces dropped, the text delivered whole, empty values included |
| `HttpHeaders.HeaderLine` | src/http_parser.c:1224-1589 | A whole header line `name: value`: every flag, the length and the delivered text are functions of name and value, or the line is a malformed length and the parser fails |
| `HttpHeaders.NextLine` | src/http_parser.c:1591-1601 | A byte that does not fold the line is read as the first byte of the next one |
| `HttpHeaders.HeaderBlock` | src/http_parser.c:1224-1601 | Any block of header lines: flags gathered from all, length from the last that gives one, all names and values delivered in order; fails exactly when some length is malformed |
| `HttpKeepAlive.BlockSays` | src/http_parser.c:1224-1589 | What a block of header lines leaves: close, keep-alive, chunked and upgrade exactly when some line says so by name and value, and the last length given |
| `HttpKeepAlive.KeptAlive` | src/http_parser.c:1901-1942 | http_should_keep_alive behind any head, of a request or a response: if and only if the version is above x.0 and no Connection line says close, or it is x.0 and one says keep-alive, and the framing is not until the end of the connection |
| `HttpKeepAlive.FramedByLines` | src/http_parser.c:1651-1692 | The framing by the lines alone: chunks exactly when a line says chunked, else the last length given, else none for a request or a bodiless status, and else until the end of the connection |
| `HttpLines.LineEndsAlike` | src/http_parser.c:1029-1601 | In every state in which a line may end, a bare LF has the outcome of CR and LF: request line, status line, value, empty line |
| `HttpLines.FirstLineEnds` | src/http_parser.c:752-1222 | The end of a request or status line leads to the header lines; behind a URL it makes the version 0.9 |
| `HttpLines.ValueEnds` | src/http_parser.c:1404-1589 | The end of a value sets its flag and waits for a continuation |
| `HttpLines.FoldedRead` | src/http_parser.c:1591-1601 | A line that begins with blanks goes on with the value of the line before, without them |
| `HttpLines.FoldedLine` | src/http_parser.c:1404-1601 | A header line and its continuation: one name and one value of both texts; the continuation sets no flag, and that of a length is a length of its own, which replaces the first or is malformed |
| `HttpLines.NameAlone` | src/http_parser.c:1388-1398 | A name alone on its line is delivered without a value and changes neither flags nor length |
| `HttpLines.EmptyValueFeed` | src/http_parser.c:1404-1424 | An empty value ended by a bare LF is delivered, and the next line cannot continue it |
| `HttpBody.LastByte` | src/http_parser.c:1710-1740 | The last byte of a body completes the message in the same step |
| `HttpLines.ClosedConnection` | src/http_parser.c:662-672 | Behind the last message of a connection line breaks are ignored and anything else is HPE_CLOSED_CONNECTION |
| `HttpLines.RefusedWith` | src/http_parser.c:659-1881 | The errno of every refusal of the switch is that of its state |
| `HttpRefusals.RefusedExactly` | src/http_parser.c:659-1881 | In every state but those of methods and URLs (which MethodAccepted and UrlExactly have), a byte is refused if and only if the grammar, written in characters, has no place for it or it would make a version, status, length or chunk size too large |
| `HttpRefusals.NameRefused` | src/http_parser.c:1224-1402 | A header line that begins with, or goes on from a name to, a character that is no token, colon or line break is HPE_INVALID_HEADER_TOKEN |
| `HttpBody.IdentityBody` | src/http_parser.c:1694-1740 | Body conservation: the body of a message with Content-Length N is exactly the next N bytes, and the message is complete with the last of them |
| `HttpBody.FramingIsRfc` | src/http_parser.c:1651-1692 | The framing the code chooses is that of section 4.4 of RFC 2616 if and only if the message is not a 1xx, 204 or 304 response that announces chunks or a positive length: the status, which the RFC looks at first, is looked at last |
| `HttpBody.NotModifiedWithLength` | src/http_parser.c:1664-1688 | A 304 with Content-Length 5 has no body by the RFC; the parser waits for five bytes |
| `HttpBody.EmptyLine` | src/http_parser.c:1603-1692 | The empty line ends the head with on_headers_complete and the framing that flags, length, type and status ask for; behind CONNECT or an Upgrade header it completes the message and leaves the parser; in a trailer it completes the message |
| `HttpChunks.DigitsRead` | src/http_parser.c:1742-1793 | A chunk size read digit by digit is the number its digits spell, or fails exactly when that number reaches the limit |
| `HttpChunks.LineRead` | src/http_parser.c:1742-1820 | Any size line, with parameters or malformed, of any length: what the size states make of it is what a whole-line reading says, errno included |
| `HttpChunks.ChunkBody` | src/http_parser.c:1822-1843 | The bytes of a chunk are delivered unchanged |
| `HttpChunks.ChunksRead` | src/http_parser.c:1742-1858 | Body conservation: on every stream, well formed or not, the chunk states deliver the body of a recursive reference de-chunker, and end, wait or fail, with the same errno, exactly where it does |
| `HttpChunks.ChunkSizeAccepted` | src/http_parser.c:1742-1793 | A size is accepted exactly when the table takes all its bytes for digits and the number is below 2^64 - 16; content_length is then that number |
| `HttpChunks.SizesAreHexadecimal` | src/http_parser.c:180-197 | An accepted size is a hexadecimal text exactly when it is ASCII, and then content_length is its hexadecimal value |
| `HttpChunks.NotHexadecimal` | src/http_parser.c:180-197 | The single byte 0x80, no hexadecimal digit, is accepted as a chunk size of 0 |
| `HttpLines.TrailersRead` | src/http_parser.c:1603-1620 | A last chunk, any trailer lines and the empty line: the lines are delivered as headers are, and the message is complete |
| `HttpMethods.GuessBegins` | src/http_parser.c:905-1027 | Whatever candidate the parser has switched to, the bytes read are a beginning of its name |
| `HttpMethods.PrefixGuessed` | src/http_parser.c:905-1027 | Every one of the 26 methods is the candidate for its own beginnings once the parser has switched to it |
| `HttpMethods.MethodsSpelled` | src/http_parser.c:905-1027 | The candidate is a given method with nothing missing exactly for that method's name |
| `HttpMethods.MethodAccepted` | src/http_parser.c:905-1027 | A request line begins with a word and a space: it is accepted if and only if the word is in method_strings, parser->method is then the method of that name, and otherwise the errno is HPE_INVALID_METHOD |
| `HttpMethods.ResponseStarts` | src/http_parser.c:709-730 | At the start of a response on_message_begin is reported for CR and LF as for `H`, and every other byte is refused |
| `HttpMethods.ResponseBreaks` | src/http_parser.c:709-730 | Every leading line break is reported as a message of its own: the beginning of a response is reported exactly once if and only if no line break precedes it |
| `HttpMethods.RequestBreaks` | src/http_parser.c:905-915 | Before a request line breaks are skipped in silence |
| `HttpLines.EitherOther` | src/http_parser.c:674-700 | A parser for either kind skips line breaks and reads any first byte but `H` as a request parser does |
| `HttpLines.EitherDecides` | src/http_parser.c:674-707 | `HT` makes it a response parser, `HE` a request parser that has read the first two bytes of HEAD, and `H` with anything else is HPE_INVALID_CONSTANT |
| `HttpLines.EitherResponse` | src/http_parser.c:674-707 | Behind `HT` it stands exactly where a response parser would |
| `HttpRequests.UrlRead` | src/http_parser.c:1029-1100 | A URL up to the next break is walked as parse_url_char walks it, and delivered whole or refused |
| `HttpUrls.ActObeys` | src/http_parser.c:659-1881 | Every entry of the switch, by state: URL text is delivered only while parse_url_char moves from URL state to URL state, URL states are left only where a URL may end, and the method changes only before a URL or with the beginning of a message |
| `HttpUrls.DeliveredUrlsScan` | src/http_parser.c:1029-1100 | From a new parser of any type, over any stream: every URL delivered gets through parse_url_char, and a completed one does so from the start its method selects and ends in a state in which a URL may end |
| `HttpUrls.UrlAccepted` | src/http_parser.c:1029-1100 | A text without breaks followed by a space is accepted if and only if parse_url_char gets through it and may end there (which texts these are is UrlGrammar.UrlExactly); it is then delivered whole, and otherwise the errno is HPE_INVALID_URL |
| `UrlGrammar.UrlExactly` | src/http_parser.c:425-571 | The URLs of a request line are exactly the texts that can be written from schema and authority, path, query and fragment with something behind the schema |
| `UrlGrammar.RfcUrl` | src/http_parser.c:425-571 | Every absolute path and query of RFC 3986 (sections 3.3 and 3.4) is a URL for every method but CONNECT |
| `UrlGrammar.RfcUrlRead` | src/http_parser.c:1029-1100 | Such a URL gets through the request line and is delivered as it is |
| `HttpRequests.VersionRead` | src/http_parser.c:1102-1222 | The version of a request line is read as its two digits |
| `HttpLines.VersionNumber` | src/http_parser.c:752-820 | A major or minor number of any digits, of a request or a response, is their decimal value, or HPE_INVALID_VERSION if and only if that is above 999 |
| `HttpLines.NoVersion` | src/http_parser.c:1131-1180 | Anything but a digit where a number begins is HPE_INVALID_VERSION |
| `HttpLines.SpacesSkipped` | src/http_parser.c:1029-1110 | Before the URL, before the version of a request and before a status code any number of spaces is skipped |
| `HttpLines.SimpleRequest` | src/http_parser.c:1078-1090 | A request line that ends behind its URL is a request of HTTP 0.9 |
| `HttpRequests.RequestLineRead` | src/http_parser.c:905-1222 | Any request line is read back as its method, URL and version |
| `HttpRequests.HeadRead` | src/http_parser.c:905-1692 | Any request head, CONNECT and Upgrade included, is read back line by line, and its own lines decide the framing |
| `HttpRequests.RequestRead` | src/http_parser.c:905-1858 | Round trip of whole requests: any request written with the framing its header lines ask for gives exactly the trace of its URL, its header lines in order and its body; the parser then stands before the next request if version and Connection lines ask for that, and is closed otherwise |
| `HttpRequests.UpgradeRead` | src/http_parser.c:1603-1670 | A CONNECT or Upgrade request and anything behind it: the trace is URL, header lines and the two notifications, the upgrade flag is up, and exactly the head is taken |
| `HttpResponses.CodeRead` | src/http_parser.c:821-866 | A status code is the decimal number of its digits, or HPE_INVALID_STATUS if and only if that is above 999 |
| `HttpResponses.StatusLineRead` | src/http_parser.c:732-903 | Any status line is read back as its version, status code and reason, present, empty or missing |
| `HttpResponses.ResponseRead` | src/http_parser.c:732-1858 | Round trip of whole responses, for every framing that status and header lines ask for: the trace is the reason, the header lines in order and the body; the parser then stands before the next response if version and Connection lines ask for that, and is closed otherwise; a response that only the end of the connection ends is left waiting for that |
| `HttpResponses.HeadKept` | src/http_parser.c:1901-1942 | http_should_keep_alive at the end of a response head: if and only if version and Connection lines ask for it and the body does not go on until the end of the connection |
| `HttpResponses.ReceiveResponse` | src/http_parser.c:590-657 | A whole response in any pieces and then the end of the connection: the callbacks are those of the written response, message completion included, and the end of the stream is no error |
| `HttpOverflow.Outgrown` | src/http_parser.c:640-657 | A text whose every byte is counted is read from a fuller counter in exactly the same way if it fits, and is HPE_HEADER_OVERFLOW if it does not |
| `HttpOverflow.HeadOverflows` | src/http_parser.c:640-657 | A request head is HPE_HEADER_OVERFLOW if and only if it is longer than the limit, wherever the limit falls: in the URL, the version, a name, the blanks, a value, a line end or the empty line |
| `ChunkWriter.HexRoundTrip` | lib/luaw_http.lua:652 | The digits of "%x" are read back as the number by the chunk-size digits |
| `ChunkWriter.HexIsCanonical` | lib/luaw_http.lua:652 | They are lower-case hexadecimal digits without a leading zero |
| `ChunkWriter.ChunksInverted` | lib/luaw_http.lua:648-655 | Decoding inverts sendBuffer on any sequence of non-empty chunks, whatever follows them |
| `ChunkWriter.StreamParsed` | lib/luaw_http.lua:737-747 | A parser before the first chunk takes a streamed body as the concatenation of its chunks, completes the message, and leaves what follows |
| `ChunkWriter.StreamedResponse.constructor` | lib/luaw_http.lua:680-695 | A response that has begun streaming has sent no chunk and buffers nothing |
| `ChunkWriter.StreamedResponse.SendBuffer` | lib/luaw_http.lua:648-655 | The buffer goes out as one chunk and is emptied; an empty buffer goes out as a last chunk |
| `ChunkWriter.StreamedResponse.AppendBody` | lib/luaw_http.lua:697-710 | Nothing given is lost or reordered: sent chunks and buffer together are the parts so far; below the limit the part is only buffered, and from the limit on the whole buffer goes out as one chunk and is empty |
| `ChunkWriter.StreamedResponse.EndStreaming` | lib/luaw_http.lua:737-747 | Writer and parser invert: for any sequence of parts the sent bytes decode to their concatenation and complete the message; nothing is left unread if the buffer was non-empty, otherwise exactly one extra 5-byte terminator |
| `LuaRequest.FragmentsDoNotMatter` | lib/luaw_http.lua:143-162 | What the callbacks gather depends only on the joined events, not on the fragments they came in |
| `LuaRequest.TableLists` | lib/luaw_http.lua:164-184 | The header table lists every name with all its values in order, a string for one value and a table for several, and nothing else |
| `LuaRequest.MessageGathers` | lib/luaw_http.lua:206-285 | From any earlier state, the callbacks of a message leave its URL, its header table and its body; a connection that is not kept alive overwrites the Connection header |
| `LuaRequest.RequestGathers` | lib/luaw_http.lua:155-285 | Any fragmentation of a message's events gathers the same request |
| `LuaResponse.ResponseGathers` | lib/luaw_http.lua:206-285 | Any fragmentation of a response's events gathers its reason, its header table and its body |
| `LuaResponse.TrailersGather` | lib/luaw_http.lua:164-285 | Trailer lines end up in the header table, behind the lines of the head |
| `LuaResponse.ConnectionHeader` | lib/luaw_http.lua:196-201 | What a connection that is not kept alive gets is `Connection: close` |
| `LuaRequest.ServerRequest.constructor` | lib/luaw_http.lua:780-800 | A new request object is empty and owns a new request parser |
| `LuaRequest.ServerRequest.AddHeader` | lib/luaw_http.lua:164-184 | A further value of a name is appended to those there are |
| `LuaRequest.ServerRequest.HandleAccHttpHeader` | lib/luaw_http.lua:186-194 | A pending name with a pending value becomes a header and is cleared; otherwise both stay |
| `LuaRequest.ServerRequest.HandleKeepAlive` | lib/luaw_http.lua:196-201 | A connection that is not kept alive gets Connection: close and EOF; any other changes nothing |
| `LuaRequest.ServerRequest.Reset` | lib/luaw_http.lua:765-778 | A message begin clears everything but EOF |
| `LuaRequest.ServerRequest.OnData` | lib/luaw_http.lua:210-260 | Each data callback appends its fragment to its own field |
| `LuaRequest.ServerRequest.OnNotify` | lib/luaw_http.lua:206-285 | Each notification settles the pending header and sets its own marks |
| `LuaRequest.ServerRequest.OnEvents` | lib/luaw_http.lua:300-317 | Events are handled in order |
| `LuaRequest.ServerRequest.ReadRequest` | lib/luaw_http.lua:323-416 | End to end: a whole request in any pieces, through the pausing parser and the callbacks, gives the URL, header table and body of the written request, and closes the connection as its version and lines ask, if and only if its head is shorter than the header limit; a head of exactly the limit is a header overflow |
| `LuaRequest.KeptByItsLines` | src/http_parser.c:1924-1942 | http_should_keep_alive of a request, at the end of the head and at the end of the message alike: no Connection line says close for a version above x.0, and one says keep-alive otherwise |
| `LuaRequest.LongestHead` | src/http_parser.c:640-657 | A GET whose head has exactly the length of the limit: read by the unpaused parser, an overflow for the paused one |
| `FormCodec.DecodeHexStr` | src/luaw_http_parser.c:44-65 | In place: the text becomes its unescaped form, because the write index never passes the read index; nothing outside it changes |
| `FormCodec.DecodePart` | src/luaw_http_parser.c:67-75 | A name or value is unescaped where it stands, or left alone when it has no percent sign |
| `FormCodec.HandlePair` | src/luaw_http_parser.c:67-90 | A name and a value, both non-empty, make one parameter; nothing behind them in the buffer moves |
| `FormCodec.UrlDecode` | src/luaw_http_parser.c:96-178 | One pass that rewrites its own buffer returns the parameters, or the refusal, of a pure reading of the form |
| `FormCodec.EncodedText` | lib/luaw_http.lua:570-578 | Plus signs and escapes of urlEncode decode to the original text, and it contains no delimiter |
| `FormCodec.UrlEncodeParams` | lib/luaw_http.lua:580-609 | The pieces concatenate to the joined form without a trailing ampersand, and the announced length is theirs |
| `FormCodec.FormRoundTrip` | src/luaw_http_parser.c:96-178 | Round trip: for any list of pairs with non-empty names and values, decoding their form yields the same pairs in order |
| `FormCodec.FormAccepted` | src/luaw_http_parser.c:96-178 | Any list of parameters, empty names and values included: its form is accepted if and only if no name is empty and only the last value may be; a last name without a value is then dropped |
| `FormGrammar.FormExactly` | src/luaw_http_parser.c:96-178 | Any text as a form: accepted if and only if every piece between ampersands is name, equals sign and value, both non-empty and without a second equals sign, except that the last may be a name with or without an equals sign, or nothing; the parameters are those of the whole pieces, unescaped, in order |
| `FormGrammar.EncodedExactly` | lib/luaw_http.lua:570-578 | What urlEncode makes of each byte: letters, digits and `.*-_` stay, a space becomes a plus sign, everything else an escape of two upper-case digits |
| `FormGrammar.UnescapedExactly` | src/luaw_http_parser.c:44-65 | Any text of plain bytes and escapes, their digits in either case, is unescaped to what it means; a percent sign with fewer than two characters behind it stands for itself |
| `QueryParams.QueryRoundTrip` | lib/luaw_http.lua:228-252 | End to end: parameters with non-empty names and values, encoded behind a path of RFC 3986, get through the request line; the URL that is delivered is accepted by the splitter with path and query as its only parts, and the query decodes to the parameters, in order |
| `QueryParams.FormInQuery` | lib/luaw_http.lua:570-609 | An encoded form is made of the characters of a query |
| `QueryParams.PathAndQuery` | src/http_parser.c:2112-2208 | A path and a query are split where they were put together |
| `FormCodec.EmptyValueInside` | src/luaw_http_parser.c:67-90 | `a=&b=c` is refused and `b=c&a=` is accepted |
| `UrlSplit.ScanStep` | src/http_parser.c:425-571 | parse_url_char only moves forward through the parts, and between parts it consumes separators |
| `UrlSplit.ScanUrl` | src/http_parser.c:2112-2180 | The scan fails exactly on a text parse_url_char does not get through; otherwise it marks exactly the parts that the walk of the text defines, which are in order, disjoint, separated by separators only, each of its kind, and it knows whether the authority has an `@` |
| `UrlSplit.FieldsAreRegions` | src/http_parser.c:2112-2180 | What the marked parts mean: a byte lies in a part if and only if the state parse_url_char is in behind it belongs to that part |
| `UrlSplit.KnownState` | src/http_parser.c:2165-2168 | The scan never reaches "Unexpected state" |
| `UrlSplit.DeliveredUrlScans` | src/http_parser.c:1029-1100 | Over any stream from a new parser, the completed URL of the message at hand gets through the scan of http_parser_parse_url with is_connect as its method says |
| `UrlSplit.ParseHost` | src/http_parser.c:2039-2109 | An authority is accepted exactly when its automaton may end there, and is then split, at positions that the text alone determines, into user information, host or bracketed address, and port |
| `UrlSplit.PortIsWhole` | src/http_parser.c:2197-2205 | Reading on past the port field finds no digit, so the number read is the one the field spells |
| `UrlSplit.ParseUrl` | src/http_parser.c:2112-2208 | The answer is a function of text and is_connect: a URL is accepted if and only if parse_url_char gets through it, a schema has an authority, the authority may end where it does, CONNECT has exactly host and port, and the port is at most 65535; the fields are then those of the scan with the authority split, non-empty, in bounds, disjoint and ordered, each of its kind, and port is the decimal value of its field; on a struct that is not zeroed a field is read before it is written if and only if the scan finds a schema and no host |
| `UrlAuthority.SiteSplit` | src/http_parser.c:2039-2109 | Round trip of authorities: `user@host:port`, with or without user and port, with a name or a bracketed address, is accepted and split where it was put together |
| `UrlAuthority.SiteAccepted` | src/http_parser.c:1974-2109 | The grammar of authorities: a text is accepted if and only if it can be written like that |
| `UrlWritten.ReferenceRead` | src/http_parser.c:2112-2208 | Round trip of URLs: one written from schema, authority, path, query and fragment, most of which may be missing, is accepted if and only if it is proper (a schema has an authority, the port is at most 65535, a CONNECT has exactly host and port); every part that is not empty is found, with its own text, and no other; it lacks its host if and only if it has a schema and an empty authority |
| `UrlWritten.AcceptedExactly` | src/http_parser.c:2112-2208 | The grammar of URLs: the texts that are accepted are exactly the proper URLs that can be written from their parts; its characters are those of CharacterTables |
| `UrlWritten.WholeUrl` | src/http_parser.c:2112-2208 | `http://u@h:80/p` is accepted with its five parts and the port 80 |
| `UrlWritten.NoHost` | src/luaw_http_parser.c:362-367 | `http:///p` has a schema and no host: on the struct that luaw_parse_url allocates and does not clear, its host is read unwritten |
| `UrlWritten.ConnectWithMark` | src/http_parser.c:2190-2193 | CONNECT accepts `h:80?` |
| `UrlWritten.ConnectOnly` | src/http_parser.c:2190-2193 | An accepted CONNECT is a host and a port and nothing else if and only if it has no question mark and no `@` |
| `LpackCodec.BigEndianRoundTrip` | src/lua_lpack.c:36-85 | A number stored in w bytes of network order is read back |
| `LpackCodec.SwapIsNetworkOrder` | src/lua_lpack.c:36-85 | be16, be32 and be64 turn host order into network order and back on either kind of host |
| `LpackCodec.FindMinRange` | lib/luapack.lua:55-62 | The range found covers the number and is in the list; none is found exactly when none covers it |
| `LpackWire.RangeFound` | lib/luapack.lua:27-62 | The range found for an integer is that of the least width that can hold it, by the powers of 256; there is one exactly for the integers of 64 bits |
| `LpackWire.Searched` | lib/luapack.lua:27-62 | Which range is found for which integer |
| `LpackWire.NumberIsMinimal` | lib/luapack.lua:337-349 | An integer becomes its marker and then two's complement, most significant byte first, in the least of 1, 2, 4 and 8 bytes that can hold it |
| `LpackWire.StringIsMinimal` | lib/luapack.lua:351-369 | A string becomes a marker, its length in the least of 1, 2 and 4 bytes that can hold it, and its text |
| `LpackWire.WordIsMinimal` | lib/luapack.lua:351-369 | A dictionary word becomes a marker and its position in the least of 1 and 2 bytes that can hold it |
| `LpackWire.MarkersOnTheWire` | src/lua_lpack.h:31-64 | nil, booleans, empty arrays and empty maps, byte by byte |
| `LpackWire.ArrayOnTheWire` | lib/luapack.lua:371-410 | An array is its elements between the markers 2 and 4 |
| `LpackWire.MapOnTheWire` | lib/luapack.lua:371-410 | A map is its entries between the markers 1 and 4 |
| `LpackWire.DictionaryOnTheWire` | lib/luapack.lua:417-427 | A dictionary is its words between the markers 3 and 4 |
| `LpackWire.NumberRead` | src/lua_lpack.c:94-160 | Every number marker with every payload, also those no writer would choose: unsigned, or in two's complement by the top bit of the first byte |
| `LpackWire.WordRead` | lib/luapack.lua:171-180 | Every dictionary marker: the word at that position, or an error if there is none |
| `LpackWire.NothingComesBack` | lib/luapack.lua:107-130 | nil is read back as nil, and so is an empty string |
| `LpackWire.SmallNumbers` | lib/luapack.lua:337-349 | 5, -1, 300 and -200, byte by byte |
| `LpackCodec.BytesConcat` | src/lua_lpack.c:238-403 | The encoding of a queue that ends on a whole item followed by another is the concatenation of the encodings |
| `LpackRoundTrip.RoundTrip` | lib/luapack.lua:132-215 | LuaPack round trip: every nested value of booleans, integers up to 2^53, non-empty strings, arrays and string-keyed maps decodes from its encoding to itself, consuming exactly those bytes, with or without a dictionary |
| `LpackRoundTrip.ArrayRoundTrip` | lib/luapack.lua:371-410 | The elements of an array come back in order up to the end marker |
| `LpackRoundTrip.TableRoundTrip` | lib/luapack.lua:371-410 | The entries of a map come back, each under its key |
| `LpackRoundTrip.DictionaryAgrees` | lib/luapack.lua:417-427 | The positions the writer remembers are those at which the reader finds the words |
| `LpackRoundTrip.PromisedIsEncodable` | lib/luapack.lua:337-410 | For every such value findMinRange finds a range for every number and string |
| `LpackRoundTrip.StreamRoundTrip` | lib/luapack.lua:217-221 | A dictionary of non-empty words and any such value written under it are read back, and what follows in the stream is left alone |
| `LpackWriter.BytesNeeded` | src/lua_lpack.c:238-403 | A queue needs exactly writeQsize plus the 1, 2 or 4 prefix bytes of each of its strings |
| `LpackWriter.PutItem` | src/lua_lpack.c:238-403 | One turn of the loop stores the encoding of one item, behind a room check for everything but the payload of UINT_32, of which the part past the end of the buffer spills |
| `LpackWriter.LaidExactly` | src/lua_lpack.c:303-309 | The buffer is overrun if and only if some UINT_32 is the first item that does not fit and its marker does; the overrun is returned as success if and only if that item is the last; otherwise the encoding is returned if and only if it fits |
| `LpackWriter.SerializeWriteQ` | src/lua_lpack.c:238-403 | The in-place loop over a buffer of len + 64 bytes returns the encoding if and only if something was counted and it fits, overruns the buffer if and only if a UINT_32 is cut off by its end, and returns that as success if and only if it is the last item; all else is an error |
| `LpackWriter.FitsExactly` | src/lua_lpack.c:238-403 | A non-empty queue of whole items fits its buffer if and only if its string prefixes total at most 64; it overruns and still succeeds if and only if it ends in a UINT_32 and they total 65 to 68 |
| `LpackWriter.FlushedExactly` | lib/luapack.lua:273-286 | A flush of any queue succeeds if and only if something was counted, no item is cut, and the encoding is at most 64 bytes longer than counted, or 68 behind a last UINT_32 |
| `LpackWriter.CutItemIsError` | lib/luapack.lua:288-300 | A flush between a marker and its payload is an error |
| `LpackWriter.FlushesConserve` | lib/luapack.lua:273-300 | If no flush fails, what was flushed and what is queued together are the unflushed encoding |
| `LpackWriter.BelowLimit` | lib/luapack.lua:288-300 | Below the limit nothing is flushed and nothing fails |
| `LpackWriter.WrittenIsEncoding` | lib/luapack.lua:412-415 | A write that raises no error has written exactly the encoding, wherever it was flushed |
| `LpackWriter.WriteSucceeds` | lib/luapack.lua:412-415 | A write succeeds exactly when every flush on the way does and the last finds a non-empty queue whose prefixes fit; if the limit is not reached, exactly when the prefixes of all its strings total at most 64, or 68 behind a last UINT_32 |
| `LpackWriter.LoneBoolean` | lib/luapack.lua:412-415 | A boolean alone can be written if and only if the flush limit is above 1: at 1 the final flush finds an empty queue |
| `LpackWriter.DictionaryThenNumber` | src/lua_lpack.c:303-309 | A dictionary of 65 words and then a number above 65535 below the limit: the number is written over the end of the buffer and the write succeeds |
| `LpackWriter.ManyShortStrings` | src/lua_lpack.c:238-403 | An array of n short strings under the flush limit can be written if and only if n is at most 64 |
| `LpackWriter.LpackWriter.Flush` | lib/luapack.lua:273-286 | Fails exactly when serialize_write_Q does; otherwise the bytes, those of an overrun included, are passed on and the queue is empty |
| `LpackWriter.LpackWriter.QStore` | lib/luapack.lua:288-300 | An item is queued and counted, and the queue flushed when the count reaches the limit |
| `LpackWriter.LpackWriter.WriteMarker` | lib/luapack.lua:302-307 | A marker without payload is queued as one item |
| `LpackWriter.LpackWriter.WritePair` | lib/luapack.lua:337-369 | A marker and its payload are queued one after the other, with a flush possible in between |
| `LpackWriter.LpackWriter.WriteNumber` | lib/luapack.lua:337-349 | An integer is stored in the first range that covers it, which is that of the fewest bytes (LpackWire.NumberIsMinimal); one beyond 64 bits, which the source would store as a FLOAT or DOUBLE, is refused |
| `LpackWriter.LpackWriter.WriteString` | lib/luapack.lua:351-369 | A dictionary word is stored as its position, any other string with its length |
| `LpackWriter.LpackWriter.Serialize` | lib/luapack.lua:371-410 | Succeeds exactly when every part can be encoded (integers within 64 bits) and no flush fails, and then has queued the items of the value |
| `LpackWriter.LpackWriter.SerializeArray` | lib/luapack.lua:371-410 | The elements between their markers, in order |
| `LpackWriter.LpackWriter.SerializeTable` | lib/luapack.lua:371-410 | The entries between their markers, in the order they are visited |
| `LpackWriter.LpackWriter.SerializeEntry` | lib/luapack.lua:371-410 | A key and then its value |
| `LpackWriter.LpackWriter.Write` | lib/luapack.lua:412-415 | serialize and a final flush, which on an empty queue is an error |
| `LpackWriter.LpackWriter.UseDictionary` | lib/luapack.lua:417-427 | The words are written as an array under the old dictionary, then numbered from 1 |
| `LpackReader.OneBufferIsClear` | lib/luapack.lua:66-82 | In a stream that is not cut no number straddles a refill |
| `LpackReader.LpackReader.constructor` | lib/luapack.lua:223-231 | A new reader has the whole stream before it |
| `LpackReader.LpackReader.ReadNextBuffer` | lib/luapack.lua:66-82 | With unread bytes at a non-zero offset the rebuilt buffer holds exactly one already consumed byte too many; otherwise exactly the unread bytes and the new piece |
| `LpackReader.LpackReader.NextPiece` | lib/luapack.lua:66-82 | A refill of a used-up buffer loses and repeats nothing |
| `LpackReader.LpackReader.ReadNumber` | lib/luapack.lua:88-101 | A number of w bytes is read as from the uncut stream, and exactly its bytes are consumed, if and only if it is clear of refills; any other is read one byte too early, with the byte before it as its first, and its last byte stays |
| `LpackReader.StraddledNumber` | lib/luapack.lua:66-101 | The bytes 10 1 and 44 in two pieces: 300 is read as 2561 |
| `LpackReader.LuckyNumber` | lib/luapack.lua:66-101 | The bytes 10 10 and 10 in two pieces: 2570 is read as 2570, with one byte of it left over |
| `LpackReader.LpackReader.ReadString` | lib/luapack.lua:107-130 | A string is read as from the uncut stream wherever the refills fall |
| `LpackReader.LpackReader.ReadMarker` | lib/luapack.lua:103-105 | A marker is the next byte of the stream |
| `LpackReader.LpackReader.ReadValue` | lib/luapack.lua:132-215 | Refill independence: a value is read from any cutting of the stream as the decoder reads it from the whole, if no multi-byte number straddles a refill |
| `LpackReader.LpackReader.ReadArray` | lib/luapack.lua:132-215 | The elements up to the end marker, as the decoder reads them |
| `LpackReader.LpackReader.ReadTable` | lib/luapack.lua:132-215 | The entries up to the end marker, as the decoder reads them |
| `LpackReader.LpackReader.Deserialize` | lib/luapack.lua:132-215 | Dictionaries are taken over as they come, then one value is returned, as the decoder reads the whole stream |
| `LpackReader.LpackReader.Read` | lib/luapack.lua:217-221 | The refill and then one value: that of the stream behind the byte the refill repeats; that is the stream itself if and only if no piece is to come, the offset is 0 or nothing is unread |
| `LpackReader.FurtherRead` | lib/luapack.lua:217-221 | false true and true in two pieces: after the first value a further read returns false again |
| `LpackReader.ReadBack` | lib/luapack.lua:217-221 | End to end: a dictionary and a value written under it are read back from every cutting in which no multi-byte number straddles a refill |
| `TcpLifetime.CloseEffect` | src/luaw_tcp.c:102-152 | Closing unlinks the object, drops one reference, starts closing all three handles and leaves no thread recorded, whoever was resumed |
| `TcpLifetime.ReleaseKeeps` | src/luaw_common.h:43-51 | GC_REF after a write and after a closed handle keeps count, links and waits: the count stays ahead of the owners that are left, and the memory goes with the last |
| `TcpLifetime.NextKeeps` | src/luaw_tcp.c:46-362 | Every Lua call and every libuv callback, in any order the contract allows, keeps the invariant on counts, links and waits |
| `TcpLifetime.NoUseAfterFree` | src/luaw_tcp.c:46-362 | No step that can happen touches a connection that has been freed |
| `TcpLifetime.CountedExactly` | src/luaw_common.h:43-51 | With one write outstanding at a time, in every state of every run ref_count is the number of live owners, and the memory is freed exactly once, exactly when the last owner is gone |
| `TcpLifetime.FreedOnlyWithoutOverlap` | src/luaw_tcp.c:301-362 | If a write is ever started over an unanswered one, ref_count stays above the number of owners and the connection is never freed |
| `TcpLifetime.LeakedRun` | src/luaw_tcp.c:301-362 | Such a run: two writes, both answered, the object and all handles closed, no owner left, ref_count 1 and nothing freed |
| `TcpLifetime.ResumedOnce` | src/luaw_tcp.c:220-362 | Over every run no registered read or write wait is resumed twice: a resume goes to the registration of the thread id recorded, if there is one, and it is the clearing of that id that keeps it from being resumed again |
| `TcpWaits.ReaderFate` | src/luaw_tcp.c:220-299 | Every read that was registered, in every later state of every run: it is still recorded, or was resumed, or was given up by a later read, start_reading or close from Lua, and exactly one of these |
| `TcpWaits.WriterFate` | src/luaw_tcp.c:301-362 | The same for every write |
| `TcpWaits.ResumedExactly` | src/luaw_tcp.c:102-362 | Whom a call or callback resumes, from every reachable state: the recorded reader on data, a read error, a timeout or anything else that breaks the connection, the recorded writer on the answer of its write or on a break, the reader first; and nobody else |
| `TcpWaits.ReaderStep` | src/luaw_tcp.c:220-299 | A recorded read is resumed by exactly these, and stays recorded exactly if nothing resumes it or gives it up |
| `TcpWaits.WriterStep` | src/luaw_tcp.c:301-362 | The same for a recorded write |
| `TcpWaits.Registered` | src/luaw_tcp.c:271-362 | A registration is recorded under a number that no earlier one has |
| `TcpWaits.Settled` | src/luaw_tcp.c:220-362 | A wait that is no longer recorded is never recorded or resumed again |
| `TcpWaits.ClosedExactly` | src/luaw_tcp.c:102-362 | An open connection is closed by close and collection from Lua, by a read error, a timeout, a failed or refused write, a failed start and a read on an inactive handle, and by nothing else; then all handles are closing and nothing is recorded |
| `TcpWaits.ReadingExactly` | src/luaw_tcp.c:251-265 | A connection reads from start_reading until it is closed |
| `TcpWaits.TimersExactly` | src/luaw_tcp.c:220-362 | The read timer runs from a read with a timeout until something arrives or the connection is closed, the write timer from a write with a timeout until an answer or that |
| `TcpRelease.FreedInTheEnd` | src/luaw_tcp.c:84-152 | Closed, then freed: over every run, behind a close no more callbacks follow than were owed then, one can happen as long as any is owed, and when none is the connection has been freed, once, if and only if no write was ever started over an unanswered one |
| `TcpRelease.RestExactly` | src/luaw_tcp.c:84-152 | A closed connection waits for a callback exactly as long as one is owed to it |
| `TcpRelease.Dwindles` | src/luaw_tcp.c:84-362 | Every callback on a closed connection brings it nearer to rest, calls from Lua change nothing, and it stays closed |
| `TcpRelease.RestIsFreed` | src/luaw_common.h:43-51 | At rest nobody owns it and its count is the number of overlapping writes |
| `TcpLifetime.TcpConnection.constructor` | src/luaw_tcp.c:46-82 | A new connection has four owners |
| `TcpLifetime.TcpConnection.ResumeReader` | src/luaw_tcp.c:220-245 | The recorded reader is forgotten and its wait resumed |
| `TcpLifetime.TcpConnection.ResumeWriter` | src/luaw_tcp.c:301-324 | The recorded writer is forgotten and its wait resumed |
| `TcpLifetime.TcpConnection.CloseConnection` | src/luaw_tcp.c:102-152 | close_connection, a no-op the second time |
| `TcpLifetime.TcpConnection.LuaClose` | src/luaw_tcp.c:173-196 | Closing from Lua or from the garbage collector resumes nobody |
| `TcpLifetime.TcpConnection.StartReading` | src/luaw_tcp.c:251-265 | A failing start closes the connection |
| `TcpLifetime.TcpConnection.ReadCheck` | src/luaw_tcp.c:271-299 | An inactive handle closes the connection, thread id 0 changes nothing, otherwise the reader is recorded |
| `TcpLifetime.TcpConnection.WriteBuffer` | src/luaw_tcp.c:326-362 | A write takes a reference and records the writer; a failing one closes; an empty one changes nothing |
| `TcpLifetime.TcpConnection.OnReadCallback` | src/luaw_tcp.c:220-245 | Data resumes the reader that is recorded, no data and UV_ENOBUFS are no-ops, any other error closes |
| `TcpLifetime.TcpConnection.OnConnTimeout` | src/luaw_tcp.c:154-158 | A timeout closes |
| `TcpLifetime.TcpConnection.OnWriteCallback` | src/luaw_tcp.c:301-319 | The answer of a write resumes the writer or closes, once per request |
| `TcpLifetime.TcpConnection.OnWriteEnd` | src/luaw_tcp.c:319-323 | The reference of the write is returned after the coroutine comes back |
| `TcpLifetime.TcpConnection.OnClosedCallback` | src/luaw_tcp.c:90-100 | A closed handle returns its reference |
| `TcpLifetime.TcpConnection.Perform` | src/luaw_tcp.c:46-362 | Any Lua call or callback on the object is the step of the transition system, given that the memory it touches has not been freed |
| `TcpLifetime.TcpConnection.Drive` | src/luaw_tcp.c:46-362 | The object through any interleaving of calls and callbacks: freed memory is never touched, the invariant holds, no wait is resumed twice, and without overlapping writes its count is the number of owners and it is freed once, with the last of them |
| `ThreadRegistry.BorderIsHigh` | lib/luaw_data_structs_lib.lua:30-43 | Where `#reg` is used the table has no holes, so its length is certain |
| `ThreadRegistry.Registry.constructor` | lib/luaw_data_structs_lib.lua:53-59 | A new registry is empty |
| `ThreadRegistry.Registry.Length` | lib/luaw_data_structs_lib.lua:37 | Some border of the table |
| `ThreadRegistry.Registry.Ref` | lib/luaw_data_structs_lib.lua:30-43 | The id returned was not live and becomes live for the object; the free list stays acyclic and with the live ids shares out 1 to the high-water mark |
| `ThreadRegistry.Registry.Unref` | lib/luaw_data_structs_lib.lua:45-51 | The id is live no more and heads the free list; no other id changes |
| `ThreadRegistry.Registry.Lookup` | lib/luaw_scheduler.lua:179-181 | A slot holds an object exactly when its id is live |
| `RingBuffer.Ring.constructor` | lib/luaw_data_structs_lib.lua:131-140 | A new buffer is empty |
| `RingBuffer.Ring.Offer` | lib/luaw_data_structs_lib.lua:65-81 | First in, unless full |
| `RingBuffer.Ring.Take` | lib/luaw_data_structs_lib.lua:92-109 | First out, or nothing |
| `RingBuffer.Ring.OfferWithOverwrite` | lib/luaw_data_structs_lib.lua:120-128 | A full buffer loses its oldest object to the new one |
| `Scheduler.After` | lib/luaw_scheduler.lua:73-80 | A coroutine that reports the end of a call is still alive |
| `Scheduler.ServesItsCalls` | lib/luaw_scheduler.lua:73-80 | A coroutine that starts fresh ends its calls and can be used again until it has served timesReuseThread + 2 of them, and is dead behind the last |
| `Scheduler.ThreadScheduler.constructor` | lib/luaw_scheduler.lua:39-41 | No thread is live |
| `Scheduler.ThreadScheduler.NewThread` | lib/luaw_scheduler.lua:104-115 | The id was not live, the context is new, the coroutine is alive and owned by no other context: the oldest of the pool, or a new one if and only if the pool is empty |
| `Scheduler.ThreadScheduler.ResumeThread` | lib/luaw_scheduler.lua:138-177 | A finished or failed call releases id and coroutine; the coroutine goes to the back of the pool exactly when it is alive and there is room; other contexts keep theirs |
| `Scheduler.ThreadScheduler.ResumeThreadId` | lib/luaw_scheduler.lua:179-183 | Succeeds exactly for live ids |
| `Scheduler.ThreadScheduler.Drive` | lib/luaw_scheduler.lua:104-183 | Over any run of new threads and resumptions, live ids and unfinished contexts correspond one to one, and no pooled coroutine is dead, pooled twice or owned by an unfinished context |
| `RunQueue.AddsToBack` | lib/luaw_scheduler.lua:92-102 | A context that is not queued goes to the back |
| `RunQueue.PopsFromFront` | lib/luaw_scheduler.lua:231-248 | The context at the front is taken |
| `RunQueue.FirstInFirstOut` | lib/luaw_scheduler.lua:92-102 | Contexts added once each are all run, in order |
| `RunQueue.AddedAgain` | lib/luaw_scheduler.lua:92-102 | A context added while it is queued but not last, followed by another: exactly the contexts behind it drop out of the queue |
| `RunQueue.LastAddedAgain` | lib/luaw_scheduler.lua:92-102 | The last context added again: the next addition mends the queue and nothing is lost |
| `RunQueue.NothingLost` | lib/luaw_scheduler.lua:92-102 | Adding a context and then a new one keeps every queued context if and only if the first was not queued or was last |
| `RunQueue.Conserved` | lib/luaw_scheduler.lua:92-102 | What a first-in-first-out queue hands out and what it is left with are what was there and what was added, in order |
| `RunQueue.SchedulerQueue.constructor` | lib/luaw_scheduler.lua:42-44 | An empty queue |
| `RunQueue.SchedulerQueue.AddToRunQueue` | lib/luaw_scheduler.lua:92-102 | A queue of distinct contexts to which one that is not queued is added holds it last, behind all the others |
| `RunQueue.SchedulerQueue.TakeFromRunQueue` | lib/luaw_scheduler.lua:231-248 | A queue of distinct contexts hands out the first and holds the rest; an empty one hands out nothing |
| `RunQueue.SchedulerQueue.Drive` | lib/luaw_scheduler.lua:92-102 | The object through any run of additions and removals in which no context is added while queued: it hands out what it was given, in order, and loses nothing |
| `RouteTrie.Splitter` | lib/luaw_utils.lua:106-126 | One call returns the next non-empty segment and where to go on, or nothing when none is left |
| `RouteTrie.SplitPath` | lib/luaw_webapp.lua:68-72 | The loop over a path visits exactly its non-empty segments, in order |
| `RouteSearch.SegmentsBack` | lib/luaw_utils.lua:106-126 | A path is split into the segments it was put together from, however many slashes stand before, between and behind them |
| `RouteSearch.PatternTable` | lib/luaw_webapp.lua:245-282 | `:name` is a string parameter, `#name` a number, everything else a literal |
| `RouteTrie.OrderDoesNotMatter` | lib/luaw_webapp.lua:245-282 | The route and the handler found depend on the set of registered resources, not on the order of registration |
| `RouteSearch.SearchExactly` | lib/luaw_webapp.lua:74-116 | The route that is found, without the search: at every segment the literal child if a registered pattern has it, and otherwise the parameter; nothing is found if and only if there is no such route |
| `RouteSearch.BoundExactly` | lib/luaw_webapp.lua:74-116 | The path parameters: a name is bound exactly by the segments at which no registered pattern has the literal, and has the value of the last of them |
| `RouteSearch.ActionExactly` | lib/luaw_webapp.lua:74-116 | The handler is that of the one resource registered for route and method, or else for route and SERVICE |
| `RouteSearch.NoAction` | lib/luaw_webapp.lua:74-116 | There is none if and only if neither is registered |
| `RouteSearch.RegisteredIsFound` | lib/luaw_webapp.lua:74-116 | Registered, then found: a path that fits the pattern of a resource, no parameter of it hidden by a literal, gets its handler |
| `RouteSearch.LiteralIsFound` | lib/luaw_webapp.lua:74-116 | A resource without parameters is found by its own path, binding nothing, whatever else is registered |
| `RouteSearch.LiteralFirst` | lib/luaw_webapp.lua:74-116 | With `/u/:i` and `/u/n` registered, `/u/n` gets the second |
| `RouteTrie.WebApp.constructor` | lib/luaw_webapp.lua:245-247 | Only the root route |
| `RouteTrie.WebApp.RegisterResource` | lib/luaw_webapp.lua:245-282 | The route tables hold exactly the beginnings of the registered patterns with their handlers; a second handler for a route and method is refused and changes nothing |
| `RouteTrie.WebApp.FindAction` | lib/luaw_webapp.lua:74-116 | Lookup over the nested tables is the greedy matcher over the registered patterns (what that finds is RouteSearch.SearchExactly, BoundExactly and ActionExactly), with the method or SERVICE and the path parameters on the way |
| `RouteTrie.FindActionIn` | lib/luaw_webapp.lua:74-116 | The first segment chooses the application, the root application for want of it, and the segments behind it are looked up there |

## Left out

- Requires of the HTTP theorems: the results about header lines, methods, URLs and requests assume that what they read fits the 80 KiB header limit; that a request head overflows if and only if it does not is `HttpOverflow.HeadOverflows`. What the lines below leave out is covered by the automaton, by `ActKeeps`, `Execute`, `Feed` and `ReadStream`.
- HttpHeaders.ValueLine: the line ends in CRLF; `HttpLines.ValueEnds` is the bare LF.
- HttpHeaders.HeaderLine: the line ends in CRLF; `HttpLines.LineEndsAlike` is the bare LF.
- HttpHeaders.HeaderBlock: lines end in CRLF and are not folded; `HttpLines.LineEndsAlike` and `FoldedLine` cover these line by line, and not for a whole block.
- HttpRequests.VersionRead: one digit each side of the dot and CRLF; longer numbers are `HttpLines.VersionNumber`, a bare LF is `HttpLines.FirstLineEnds`.
- HttpRequests.RequestLineRead: single spaces, a version as in VersionRead and CRLF; extra spaces are `HttpLines.SpacesSkipped`.
- HttpRequests.HeadRead: lines as in HeaderBlock.
- HttpRequests.RequestRead: a head as in HeadRead and no upgrade; chunks are written without parameters and trailers (`HttpChunks.LineRead` and `HttpLines.TrailersRead` have them).
- HttpResponses.ResponseRead: a version of one digit each side of the dot, lines as in HeaderBlock, no upgrade, chunks without parameters and trailers.
- HttpResponses.StatusLineRead: a version as there, single spaces and CRLF.
- LuaRequest.ServerRequest.ReadRequest: requests as in RequestRead.
- HttpPause.LuawHttpParser.ReadBuffer: the Lua loop around it also re-initialises the parser at every message end; that is not modelled, so that a message after `Connection: close` fails here and is read by the code. ReadRequest begins where such a re-initialisation leaves the parser.
- HttpPause.LuawHttpParser.ParseHttp: called with no content left, or after an upgrade, is not modelled; the Lua loop reads new content first.
- HttpExecute.HttpParser.Execute: F_SKIPBODY and HPE_CB_ errors are not modelled, because every callback of the repository returns 0.
- LuaRequest.ServerRequest.OnNotify: the URL parsing, form decoding and parser re-initialisation that the notifications also trigger are not part of the object; keep-alive is a parameter here and is determined in ReadRequest.
- FormCodec.DecodeHexStr: malformed percent escapes, whose value depends on what sscanf leaves behind, are excluded.
- FormCodec.DecodePart: as DecodeHexStr.
- FormCodec.HandlePair: as DecodeHexStr.
- FormCodec.UrlDecode: as DecodeHexStr; parameters stored before a refusal are not reported.
- UrlSplit.ParseUrl: assumes a URL under 65536 bytes, as the 16-bit offsets do, and so do the results about what the splitter finds; what an unwritten field happens to hold is not modelled, only that it is read.
- LpackReader.LpackReader.ReadValue: truncated input, on which readNumber does not return, and keys that are not strings are excluded; that no number straddles a refill is sufficient for a whole value, and not necessary, because a misread number can have the right value by accident (`LpackReader.LuckyNumber`); for a single number the condition is exact.
- LpackReader.LpackReader.ReadArray: as ReadValue.
- LpackReader.LpackReader.ReadTable: as ReadValue.
- LpackReader.LpackReader.Deserialize: as ReadValue.
- LpackReader.LpackReader.Read: as ReadValue, for the numbers of the value; the refill it begins with is exact.
- LpackReader.LpackReader.ReadNumber: a stream that ends inside the number is excluded.
- LpackWriter.LpackWriter.WriteNumber: integers beyond 64 bits, for which the source falls through to FLOAT and DOUBLE, are refused.
- LpackWriter.LpackWriter.Serialize: as WriteNumber.
- LuaPack FLOAT and DOUBLE payloads, NaN and integers beyond 2^53: floating-point bits are not modelled.
- TcpLifetime: connect requests and DNS, and the content of what is read and written, are not modelled; libuv is a contract.
- ThreadRegistry.Registry.Unref: asks for a live id, as its only caller guarantees; the source does not check.
- ChunkWriter.StreamedResponse.AppendBody: assumes a positive buffer size and chunks below 2^64 - 16 bytes.
- RouteTrie.WebApp.RegisterResource: assumes no literal segment is `_path_param_`; nested tables are indexed by their path of keys, so sharing of subtables is not expressible (the source never shares them).
- Scheduler.ThreadScheduler.ResumeThread: thread states and join are not modelled, because the constants they compare with are not defined in the source.
- Multipart bodies, POST parameters in writeFullBody, view rendering, logging, timers, file system access and server start-up are not part of this model.
- Non-strict builds of the parser are not modelled.
