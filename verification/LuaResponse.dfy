/** What the Lua callbacks gather of a response, and of a message with trailers. */
module LuaResponse {
  import opened Ascii
  import opened HttpTypes
  import opened HttpHeaders
  import opened HttpRequests
  import opened HttpResponses
  import opened LuaRequest
  import CharacterTables

  /** The events of a message up to the end of its head. */
  function HeadEvents(q: Response): seq<Event>
  {
    [Notify(MessageBegin)] + (if OrEmpty(q.reason) == [] then [] else [Data(Status, q.reason.value)])
    + BlockEvents(q.lines) + [Notify(HeadersComplete)]
  }

  function Reason(q: Response): Option<bytes> { if OrEmpty(q.reason) == [] then None else q.reason }

  lemma HeadGathered(g: Gathered, q: Response, k: Keep)
    ensures Gather(g, HeadEvents(q), k)
            == Gathered(Closing(TableOf(q.lines), k.atHeaders), None, None, None, Reason(q), [], None, true, false,
                        g.eof || !k.atHeaders)
  {
    hide BlockEvents, Added, TableOf;
    var a, c := [Notify(MessageBegin)], [Notify(HeadersComplete)];
    var b := if OrEmpty(q.reason) == [] then [] else [Data(Status, q.reason.value)];
    GatherConcat(g, a + b + BlockEvents(q.lines), c, k);
    GatherConcat(g, a + b, BlockEvents(q.lines), k);
    GatherConcat(g, a, b, k);
    GatherOne(g, a[0], k);
    var g1 := Gather(g, a, k);
    if b != [] { GatherOne(g1, b[0], k); } else { NothingGathered(g1, k); }
    var g2 := Gather(g, a + b, k);
    BlockGathers(g2, q.lines, k);
    GatherOne(Gather(g2, BlockEvents(q.lines), k), c[0], k);
  }

  lemma NothingGathered(g: Gathered, k: Keep)
    ensures Gather(g, [], k) == g
  {}

  /** The response a whole message makes, whatever was there before. */
  lemma ResponseGathered(g: Gathered, q: Response, body: bytes, k: Keep)
    ensures Gather(g, ResponseEvents(q, body), k)
            == Gathered(Closing(TableOf(q.lines), k.atHeaders && k.atEnd), None, None, None, Reason(q), [], Some(body),
                        true, true, g.eof || !k.atHeaders || !k.atEnd)
  {
    hide BlockEvents, Added, TableOf;
    var mid := if body == [] then [] else [Data(Body, body)];
    HeadGathered(g, q, k);
    var r := Gather(g, HeadEvents(q), k);
    assert ResponseEvents(q, body) == HeadEvents(q) + mid + [Notify(MessageComplete)];
    GatherConcat(g, HeadEvents(q) + mid, [Notify(MessageComplete)], k);
    GatherConcat(g, HeadEvents(q), mid, k);
    if body == [] {
      NothingGathered(r, k);
    } else {
      GatherOne(r, Data(Body, body), k);
      assert [] + body == body;
    }
    GatherOne(Gather(r, mid, k), Notify(MessageComplete), k);
  }

  lemma ResponseProper(q: Response, body: bytes)
    ensures Proper(ResponseEvents(q, body))
  {
    hide BlockEvents;
    BlockProper(q.lines);
    var b, es := BlockEvents(q.lines), ResponseEvents(q, body);
    var n := if OrEmpty(q.reason) == [] then 1 else 2;
    forall i | 0 <= i < |es| && es[i].Data? && es[i].field.HeaderValue? ensures i > 0 && OfHeader(es[i - 1]) {
      assert n <= i < |b| + n && es[i] == b[i - n];
      assert es[i - 1] == b[i - n - 1];
    }
  }

  /** Any fragmentation of a response's events gathers the same response: its reason, its header table and its
      body. */
  lemma ResponseGathers(g: Gathered, q: Response, body: bytes, es: seq<Event>, k: Keep)
    requires Consistent(g) && Join(es) == Join(ResponseEvents(q, body))
    ensures Gather(g, es, k)
            == Gathered(Closing(TableOf(q.lines), k.atHeaders && k.atEnd), None, None, None, Reason(q), [], Some(body),
                        true, true, g.eof || !k.atHeaders || !k.atEnd)
  {
    hide Join, Proper, ResponseEvents, Push, TableOf;
    ResponseProper(q, body);
    JoinProper(ResponseEvents(q, body));
    FragmentsDoNotMatter(g, es, k);
    FragmentsDoNotMatter(g, ResponseEvents(q, body), k);
    ResponseGathered(g, q, body, k);
  }

  /** The header that a connection which is not kept alive gets. */
  lemma ConnectionHeader()
    ensures CONNECTION == CharacterTables.Text("Connection") && CLOSE_WORD == CharacterTables.Text("close")
  {
    CharacterTables.HeaderWords();
  }

  // ----- trailers -----

  /** Lines that are gathered into a table which already has some. */
  lemma {:induction false} MoreLines(g: Gathered, before: seq<Line>, lines: seq<Line>, k: Keep)
    requires g.name.None? && g.value.None? && g.headers == TableOf(before)
    ensures var r := Gather(g, BlockEvents(lines), k);
            Settle(r) == g.(headers := TableOf(before + lines)) && r.name.None? == r.value.None?
    decreases |lines|
  {
    hide Added, LineEvents;
    if lines == [] {
      assert before + lines == before;
    } else {
      var init, l := lines[..|lines| - 1], lines[|lines| - 1];
      MoreLines(g, before, init, k);
      GatherConcat(g, BlockEvents(init), LineEvents(l), k);
      LineGathers(Gather(g, BlockEvents(init), k), l, k);
      var more := before + lines;
      assert more[..|more| - 1] == before + init && more[|more| - 1] == l;
    }
  }

  /** Trailer lines end up in the header table, behind the lines of the head. */
  lemma TrailersGather(g: Gathered, q: Response, body: bytes, trailers: seq<Line>, k: Keep)
    requires k.atHeaders && k.atEnd && body != []
    ensures Gather(g, HeadEvents(q) + [Data(Body, body)] + BlockEvents(trailers) + [Notify(MessageComplete)], k)
            == Gathered(TableOf(q.lines + trailers), None, None, None, Reason(q), [], Some(body), true, true, g.eof)
  {
    hide BlockEvents, Added, TableOf, HeadEvents;
    var head, mid, t, c := HeadEvents(q), [Data(Body, body)], BlockEvents(trailers), [Notify(MessageComplete)];
    HeadGathered(g, q, k);
    var r := Gather(g, head, k);
    GatherConcat(g, head + mid + t, c, k);
    GatherConcat(g, head + mid, t, k);
    GatherConcat(g, head, mid, k);
    GatherOne(r, mid[0], k);
    assert [] + body == body;
    var s := Gather(g, head + mid, k);
    MoreLines(s, q.lines, trailers, k);
    GatherOne(Gather(s, t, k), c[0], k);
  }
}
