/** What the header lines of a message say about it as a whole: whether the connection stays open, how the
    body is framed, whether another protocol is asked for. */
module HttpKeepAlive {
  import opened Ascii
  import opened HttpTypes
  import opened HttpAutomaton
  import opened HttpWords
  import opened HttpLengths
  import opened HttpHeaders
  import opened HttpBody

  predicate Named(l: Line, name: bytes) { FoldAll(l.name) == name }

  predicate OfConnection(l: Line) { Named(l, CONNECTION_NAME) || Named(l, PROXY_CONNECTION_NAME) }

  /** Some Connection line is this word. */
  predicate ConnectionSays(lines: seq<Line>, word: bytes)
  {
    exists i :: 0 <= i < |lines| && OfConnection(lines[i]) && IsWord(lines[i].value, word)
  }

  predicate SaysChunked(lines: seq<Line>)
  {
    exists i :: 0 <= i < |lines| && Named(lines[i], TRANSFER_ENCODING_NAME) && IsWord(lines[i].value, CHUNKED_WORD)
  }

  predicate AsksUpgrade(lines: seq<Line>)
  {
    exists i :: 0 <= i < |lines| && Named(lines[i], UPGRADE_NAME) && lines[i].value != []
  }

  /** The last length that is given. */
  function GivenLength(lines: seq<Line>): Option<nat>
    requires !BadBlock(lines)
    decreases |lines|
  {
    if lines == [] then None
    else
      var l := lines[|lines| - 1];
      SplitBlock(lines);
      if Named(l, CONTENT_LENGTH_NAME) && l.value != [] then Some(LengthOf(l.value))
      else GivenLength(lines[..|lines| - 1])
  }

  lemma Names(l: Line)
    ensures RoleOf(l).Connection? <==> OfConnection(l)
    ensures RoleOf(l).ContentLength? <==> Named(l, CONTENT_LENGTH_NAME)
    ensures RoleOf(l).TransferEncoding? <==> Named(l, TRANSFER_ENCODING_NAME)
    ensures RoleOf(l).Upgrade? <==> Named(l, UPGRADE_NAME)
  {
    hide FoldAll;
    NamesDiffer();
  }

  lemma NamesDiffer()
    ensures CONNECTION_NAME != CONTENT_LENGTH_NAME && CONNECTION_NAME != TRANSFER_ENCODING_NAME
    ensures CONNECTION_NAME != UPGRADE_NAME && PROXY_CONNECTION_NAME != CONTENT_LENGTH_NAME
    ensures PROXY_CONNECTION_NAME != TRANSFER_ENCODING_NAME && PROXY_CONNECTION_NAME != UPGRADE_NAME
    ensures CONTENT_LENGTH_NAME != TRANSFER_ENCODING_NAME && CONTENT_LENGTH_NAME != UPGRADE_NAME
    ensures TRANSFER_ENCODING_NAME != UPGRADE_NAME
  {
    assert CONNECTION_NAME[3] != CONTENT_LENGTH_NAME[3];
    assert |PROXY_CONNECTION_NAME| == 16 && |CONTENT_LENGTH_NAME| == 14 && |TRANSFER_ENCODING_NAME| == 17;
    assert |CONNECTION_NAME| == 10 && |UPGRADE_NAME| == 7;
  }

  predicate Any(lines: seq<Line>, p: Line -> bool) { exists i :: 0 <= i < |lines| && p(lines[i]) }

  lemma OneLineMore(lines: seq<Line>, p: Line -> bool)
    requires lines != []
    ensures Any(lines, p) <==> Any(lines[..|lines| - 1], p) || p(lines[|lines| - 1])
  {
    var init := lines[..|lines| - 1];
    if i :| 0 <= i < |lines| && p(lines[i]) {
      assert i < |init| ==> init[i] == lines[i];
    }
    if i :| 0 <= i < |init| && p(init[i]) {
      assert lines[i] == init[i];
    }
  }

  lemma SaysMore(lines: seq<Line>)
    requires lines != []
    ensures var init, l := lines[..|lines| - 1], lines[|lines| - 1];
            && (forall word :: ConnectionSays(lines, word) <==>
                  ConnectionSays(init, word) || (OfConnection(l) && IsWord(l.value, word)))
            && (SaysChunked(lines) <==>
                  SaysChunked(init) || (Named(l, TRANSFER_ENCODING_NAME) && IsWord(l.value, CHUNKED_WORD)))
            && (AsksUpgrade(lines) <==> AsksUpgrade(init) || (Named(l, UPGRADE_NAME) && l.value != []))
  {
    hide Named, IsWord, OfConnection;
    var init, l := lines[..|lines| - 1], lines[|lines| - 1];
    forall word
      ensures ConnectionSays(lines, word) <==>
                ConnectionSays(init, word) || (OfConnection(l) && IsWord(l.value, word))
    {
      var p := (l: Line) => OfConnection(l) && IsWord(l.value, word);
      OneLineMore(lines, p);
      assert ConnectionSays(lines, word) <==> Any(lines, p);
      assert ConnectionSays(init, word) <==> Any(init, p);
    }
    var p := (l: Line) => Named(l, TRANSFER_ENCODING_NAME) && IsWord(l.value, CHUNKED_WORD);
    OneLineMore(lines, p);
    assert (SaysChunked(lines) <==> Any(lines, p)) && (SaysChunked(init) <==> Any(init, p));
    var q := (l: Line) => Named(l, UPGRADE_NAME) && l.value != [];
    OneLineMore(lines, q);
    assert (AsksUpgrade(lines) <==> Any(lines, q)) && (AsksUpgrade(init) <==> Any(init, q));
  }

  /** The flags and the length that a block leaves, by what its lines say. */
  lemma {:induction false} BlockSays(c: Core, lines: seq<Line>)
    requires !BadBlock(lines)
    ensures var d := BlockCore(c, lines);
            && (d.flags.close <==> c.flags.close || ConnectionSays(lines, CLOSE_WORD))
            && (d.flags.keepAlive <==> c.flags.keepAlive || ConnectionSays(lines, KEEP_ALIVE_WORD))
            && (d.flags.chunked <==> c.flags.chunked || SaysChunked(lines))
            && (d.flags.upgrade <==> c.flags.upgrade || AsksUpgrade(lines))
            && d.clen == if GivenLength(lines).Some? then GivenLength(lines).value else c.clen
    decreases |lines|
  {
    hide ConnectionSays, SaysChunked, AsksUpgrade, IsWord, LengthOf, BadBlock, BadLine, RoleOf, Named, OfConnection;
    if lines == [] {
      NothingSaid(lines);
    } else {
      SplitBlock(lines);
      BlockSays(c, lines[..|lines| - 1]);
      SaysMore(lines);
      Names(lines[|lines| - 1]);
    }
  }

  lemma NothingSaid(lines: seq<Line>)
    requires lines == []
    ensures !ConnectionSays(lines, CLOSE_WORD) && !ConnectionSays(lines, KEEP_ALIVE_WORD)
    ensures !SaysChunked(lines) && !AsksUpgrade(lines)
  {}

  /** Whether a message of this version and these lines asks to keep the connection. */
  predicate AsksToStay(major: nat, minor: nat, lines: seq<Line>)
  {
    if major > 0 && minor > 0 then !ConnectionSays(lines, CLOSE_WORD) else ConnectionSays(lines, KEEP_ALIVE_WORD)
  }

  /** http_should_keep_alive at the end of a head: the message asks for it, and its end can be told without
      the end of the connection. */
  lemma KeptAlive(c: Core, lines: seq<Line>)
    requires !BadBlock(lines) && c.flags == NO_FLAGS && c.clen == ULLONG_MAX
    ensures var d := BlockCore(c, lines);
            ShouldKeepAlive(d) <==> AsksToStay(d.major, d.minor, lines) && !FramingOf(d).UntilEof?
  {
    hide BlockCore, BadBlock, ConnectionSays, SaysChunked, AsksUpgrade, GivenLength;
    BlockSays(c, lines);
  }

  /** The framing of a message by its lines: chunks, the last length given, nothing for a request, and
      for a response by its status. */
  lemma FramedByLines(c: Core, lines: seq<Line>)
    requires !BadBlock(lines) && c.flags == NO_FLAGS && c.clen == ULLONG_MAX
    ensures var d := BlockCore(c, lines);
            && (FramingOf(d).ByChunks? <==> SaysChunked(lines))
            && (!SaysChunked(lines) && GivenLength(lines).Some? && GivenLength(lines).value != ULLONG_MAX ==>
                  var n := GivenLength(lines).value;
                  FramingOf(d) == if n == 0 then NoBody else ByLength(n))
            && (!SaysChunked(lines) && GivenLength(lines).None? ==>
                  (FramingOf(d).UntilEof? <==> !d.ptype.Request? && !Bodiless(d))
                  && (FramingOf(d).NoBody? <==> d.ptype.Request? || Bodiless(d)))
  {
    hide BlockCore, BadBlock, ConnectionSays, SaysChunked, AsksUpgrade, GivenLength;
    BlockSays(c, lines);
  }
}
