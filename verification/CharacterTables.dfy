/** The character tables and the words of src/http_parser.c against the grammars they stand for, written
    in characters: RFC 3986 for URLs, section 2.2 of RFC 2616 for tokens. */
module CharacterTables {
  import opened Ascii
  import opened HttpTypes
  import opened HttpWords

  /** A text of characters as bytes. */
  function Text(s: string): (t: bytes)
    ensures |t| == |s|
  {
    seq(|s|, i requires 0 <= i < |s| => s[i] as int % 256)
  }

  predicate Letter(b: byte) { 'a' <= b as char <= 'z' || 'A' <= b as char <= 'Z' }

  predicate Digit(b: byte) { '0' <= b as char <= '9' }

  /** Section 2.3 of RFC 3986. */
  predicate Unreserved(b: byte) { Letter(b) || Digit(b) || b as char in {'-', '.', '_', '~'} }

  /** Section 2.2 of RFC 3986. */
  predicate SubDelimiter(b: byte) { b as char in {'!', '$', '&', '\'', '(', ')', '*', '+', ',', ';', '='} }

  /** Section 3.3 of RFC 3986, a percent sign standing for the escape it begins. */
  predicate PathCharacter(b: byte) { Unreserved(b) || SubDelimiter(b) || b as char in {'%', ':', '@'} }

  /** What the parser takes in a path beyond the RFC. */
  predicate Tolerated(b: byte) { b as char in {'"', '<', '>', '[', '\\', ']', '^', '`', '{', '|', '}'} }

  /** Section 2.2 of RFC 2616. */
  predicate Separator(b: byte)
  {
    b as char in {'(', ')', '<', '>', '@', ',', ';', ':', '\\', '"', '/', '[', ']', '?', '=', '{', '}', ' ', '\t'}
  }

  predicate Control(b: byte) { b < 32 || b == 127 }

  /** The characters of a path, of a query and of a fragment: those of the RFC and eleven more, and no
      blank, control character, `#`, `?` or byte above 126. */
  lemma UrlTable(b: byte)
    ensures IsUrlChar(b) <==> PathCharacter(b) || b as char == '/' || Tolerated(b)
    ensures Control(b) || b as char in {' ', '#', '?'} || b > 126 ==> !IsUrlChar(b)
  {}

  /** A token is any character that is no control character and no separator; it is taken in lower case. */
  lemma TokenTable(b: byte)
    ensures Token(b) != 0 <==> b < 128 && !Control(b) && !Separator(b)
    ensures Token(b) != 0 ==> Token(b) == Fold(b)
  {}

  /** User information is that of section 3.2.1 of RFC 3986, host names are letters, digits, dots and
      hyphens, addresses hexadecimal digits, colons and dots. */
  lemma AuthorityTables(b: byte)
    ensures IsUserinfo(b) <==> Unreserved(b) || SubDelimiter(b) || b as char in {'%', ':'}
    ensures IsHostChar(b) <==> Letter(b) || Digit(b) || b as char in {'.', '-'}
    ensures IsHex(b) <==> Digit(b) || 'a' <= b as char <= 'f' || 'A' <= b as char <= 'F'
    ensures IsNum(b) <==> Digit(b)
    ensures IsAlpha(b) <==> Letter(b)
  {}

  /** LOWER on the characters it is used for. */
  lemma LowerTable(b: byte)
    ensures Letter(b) ==> Lower(b) == Fold(b) && 'a' <= Lower(b) as char <= 'z'
    ensures 'a' <= Lower(b) as char <= 'z' ==> Letter(b)
  {}

  /** The characters that have names. */
  lemma Characters()
    ensures TAB as char == '\t' && LF as char == '\n' && CR as char == '\r' && SP as char == ' ' && FF == 0x0C
  {}

  lemma HeaderNames()
    ensures CONNECTION_NAME == Text("connection") && PROXY_CONNECTION_NAME == Text("proxy-connection")
    ensures UPGRADE_NAME == Text("upgrade")
  {}

  lemma FramingNames()
    ensures CONTENT_LENGTH_NAME == Text("content-length") && TRANSFER_ENCODING_NAME == Text("transfer-encoding")
  {}

  lemma HeaderWords()
    ensures CHUNKED_WORD == Text("chunked") && KEEP_ALIVE_WORD == Text("keep-alive") && CLOSE_WORD == Text("close")
  {}

  /** The header names and words that the automaton compares with. */
  lemma Words()
    ensures CONNECTION_NAME == Text("connection") && PROXY_CONNECTION_NAME == Text("proxy-connection")
    ensures CONTENT_LENGTH_NAME == Text("content-length") && TRANSFER_ENCODING_NAME == Text("transfer-encoding")
    ensures UPGRADE_NAME == Text("upgrade") && CHUNKED_WORD == Text("chunked")
    ensures KEEP_ALIVE_WORD == Text("keep-alive") && CLOSE_WORD == Text("close")
  {
    hide Text;
    HeaderNames();
    FramingNames();
    HeaderWords();
  }

  lemma BasicMethods()
    ensures MethodName(DELETE) == Text("DELETE") && MethodName(GET) == Text("GET")
    ensures MethodName(HEAD) == Text("HEAD") && MethodName(POST) == Text("POST")
    ensures MethodName(PUT) == Text("PUT")
  {}

  lemma PathologicalMethods()
    ensures MethodName(CONNECT) == Text("CONNECT") && MethodName(OPTIONS) == Text("OPTIONS")
    ensures MethodName(TRACE) == Text("TRACE")
  {}

  lemma DavMethods()
    ensures MethodName(COPY) == Text("COPY") && MethodName(LOCK) == Text("LOCK")
    ensures MethodName(MKCOL) == Text("MKCOL") && MethodName(MOVE) == Text("MOVE")
  {}

  lemma PropertyMethods()
    ensures MethodName(PROPFIND) == Text("PROPFIND") && MethodName(PROPPATCH) == Text("PROPPATCH")
    ensures MethodName(SEARCH) == Text("SEARCH") && MethodName(UNLOCK) == Text("UNLOCK")
  {}

  lemma SubversionMethods()
    ensures MethodName(REPORT) == Text("REPORT") && MethodName(MKACTIVITY) == Text("MKACTIVITY")
    ensures MethodName(CHECKOUT) == Text("CHECKOUT") && MethodName(MERGE) == Text("MERGE")
  {}

  lemma UpnpMethods()
    ensures MethodName(MSEARCH) == Text("M-SEARCH") && MethodName(NOTIFY) == Text("NOTIFY")
    ensures MethodName(SUBSCRIBE) == Text("SUBSCRIBE")
  {}

  lemma LastMethods()
    ensures MethodName(UNSUBSCRIBE) == Text("UNSUBSCRIBE") && MethodName(PATCH) == Text("PATCH")
    ensures MethodName(PURGE) == Text("PURGE")
  {}

  /** method_strings */
  lemma MethodStrings()
    ensures MethodName(DELETE) == Text("DELETE") && MethodName(GET) == Text("GET")
    ensures MethodName(HEAD) == Text("HEAD") && MethodName(POST) == Text("POST")
    ensures MethodName(PUT) == Text("PUT")
    ensures MethodName(CONNECT) == Text("CONNECT") && MethodName(OPTIONS) == Text("OPTIONS")
    ensures MethodName(TRACE) == Text("TRACE")
    ensures MethodName(COPY) == Text("COPY") && MethodName(LOCK) == Text("LOCK")
    ensures MethodName(MKCOL) == Text("MKCOL") && MethodName(MOVE) == Text("MOVE")
    ensures MethodName(PROPFIND) == Text("PROPFIND") && MethodName(PROPPATCH) == Text("PROPPATCH")
    ensures MethodName(SEARCH) == Text("SEARCH") && MethodName(UNLOCK) == Text("UNLOCK")
    ensures MethodName(REPORT) == Text("REPORT") && MethodName(MKACTIVITY) == Text("MKACTIVITY")
    ensures MethodName(CHECKOUT) == Text("CHECKOUT") && MethodName(MERGE) == Text("MERGE")
    ensures MethodName(MSEARCH) == Text("M-SEARCH") && MethodName(NOTIFY) == Text("NOTIFY")
    ensures MethodName(SUBSCRIBE) == Text("SUBSCRIBE")
    ensures MethodName(UNSUBSCRIBE) == Text("UNSUBSCRIBE") && MethodName(PATCH) == Text("PATCH")
    ensures MethodName(PURGE) == Text("PURGE")
  {
    hide MethodName, Text;
    BasicMethods();
    PathologicalMethods();
    DavMethods();
    PropertyMethods();
    SubversionMethods();
    UpnpMethods();
    LastMethods();
  }
}
