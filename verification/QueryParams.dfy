/** From parameters to parameters: what a client encodes into the query of a URL, through the request line,
    the splitter of URLs and the decoder of forms. */
module QueryParams {
  import opened Ascii
  import opened HttpTypes
  import opened HttpRun
  import opened HttpChunks
  import opened UrlSplit
  import opened UrlGrammar
  import UrlAuthority
  import UrlWritten
  import FormCodec
  import FormGrammar
  import CharacterTables

  ghost predicate AllInQuery(s: bytes) { forall i :: 0 <= i < |s| ==> InQuery(s[i]) }

  lemma AllInQueryConcat(s: bytes, t: bytes)
    requires AllInQuery(s) && AllInQuery(t)
    ensures AllInQuery(s + t)
  {
    hide InQuery;
  }

  lemma ByteInQuery(b: byte)
    ensures AllInQuery(FormCodec.EncodeByte(b))
  {
    hide IsHex;
    FormGrammar.SafeTable(b);
    FormGrammar.UpperDigit(b / 16);
    FormGrammar.UpperDigit(b % 16);
    DigitInQuery(b / 16);
    DigitInQuery(b % 16);
  }

  lemma DigitInQuery(d: nat)
    requires d < 16
    ensures InQuery(FormCodec.HexUpper(d))
  {}

  lemma {:induction false} TextInQuery(s: bytes)
    ensures AllInQuery(FormCodec.UrlEncode(s))
    decreases |s|
  {
    hide InQuery, FormCodec.EncodeByte;
    if s != [] {
      ByteInQuery(s[0]);
      TextInQuery(s[1..]);
      AllInQueryConcat(FormCodec.EncodeByte(s[0]), FormCodec.UrlEncode(s[1..]));
    }
  }

  lemma DelimitersInQuery()
    ensures AllInQuery([FormCodec.EQUALS]) && AllInQuery([FormCodec.AMPERSAND])
  {}

  lemma PairInQuery(p: FormCodec.Param)
    ensures AllInQuery(FormCodec.EncodePair(p))
  {
    hide AllInQuery;
    DelimitersInQuery();
    TextInQuery(p.0);
    TextInQuery(p.1);
    AllInQueryConcat(FormCodec.UrlEncode(p.0), [FormCodec.EQUALS]);
    AllInQueryConcat(FormCodec.UrlEncode(p.0) + [FormCodec.EQUALS], FormCodec.UrlEncode(p.1));
  }

  /** An encoded form is made of the characters of a query (section 3.4 of RFC 3986). */
  lemma {:induction false} FormInQuery(ps: seq<FormCodec.Param>)
    ensures AllInQuery(FormCodec.EncodeParams(ps))
    decreases |ps|
  {
    hide InQuery, FormCodec.EncodePair;
    if ps != [] {
      PairInQuery(ps[0]);
      DelimitersInQuery();
      FormInQuery(ps[1..]);
      AllInQueryConcat(FormCodec.EncodePair(ps[0]), [FormCodec.AMPERSAND]);
      AllInQueryConcat(FormCodec.EncodePair(ps[0]) + [FormCodec.AMPERSAND], FormCodec.EncodeParams(ps[1..]));
    }
  }

  /** A path and a query are split where they were put together. */
  lemma PathAndQuery(path: bytes, query: bytes)
    requires path != [] && path[0] as char == '/' && forall i :: 0 <= i < |path| ==> InPath(path[i])
    requires query != [] && AllInQuery(query)
    ensures var url, parts := path + ([63] + query), PartsOf(path + ([63] + query), false);
            && Acceptable(url, false) && !LacksHost(url, false) && parts.Keys == {Path, Query}
            && Slice(url, parts[Path]) == path && Slice(url, parts[Query]) == query
  {
    hide InPath, InQuery, Acceptable, LacksHost, PartsOf, Slice, IsUrlChar;
    var u := UrlWritten.Reference(None, [], path, Some(query), None);
    var s := UrlAuthority.Site(None, false, [], None);
    assert UrlWritten.RefText(u) == path + ([63] + query);
    assert UrlWritten.IsReference(u, false) by { PathIsReference(path, query); }
    UrlWritten.ReferenceRead(u, s, false);
    var parts := PartsOf(UrlWritten.RefText(u), false);
    forall p ensures p in parts <==> p == Path || p == Query { TextsOf(u, s, p); }
    TextsOf(u, s, Path);
    TextsOf(u, s, Query);
  }

  lemma TextsOf(u: UrlWritten.Reference, s: UrlAuthority.Site, p: Part)
    requires u.schema.None? && u.authority == [] && u.query.Some? && u.fragment.None?
    ensures UrlWritten.TextOf(u, s, p) == if p == Path then u.path else if p == Query then u.query.value else []
  {}

  lemma PathIsReference(path: bytes, query: bytes)
    requires path != [] && path[0] as char == '/' && (forall i :: 0 <= i < |path| ==> InPath(path[i]))
    requires AllInQuery(query)
    ensures UrlWritten.IsReference(UrlWritten.Reference(None, [], path, Some(query), None), false)
  {
    hide InPath, IsUrlChar, CharacterTables.PathCharacter;
    forall i | 0 <= i < |path| ensures IsUrlChar(path[i]) { RfcCharacter(path[i]); }
    forall i | 0 <= i < |query| ensures UrlWritten.QueryByte(query[i]) {
      assert InQuery(query[i]);
      if query[i] != UrlWritten.MARK { RfcCharacter(query[i]); }
    }
  }

  /** What goes in comes out: parameters with non-empty names and values, encoded behind a path of RFC 3986,
      get through the request line of every method but CONNECT; the URL that is delivered is accepted by the
      splitter, with path and query as its only parts, and the query decodes to the parameters, in order. */
  lemma QueryRoundTrip(m: Machine, path: bytes, ps: seq<FormCodec.Param>)
    requires Idle(m, ReqSpacesBeforeUrl) && m.core.verb != CONNECT
    requires path != [] && path[0] as char == '/' && forall i :: 0 <= i < |path| ==> InPath(path[i])
    requires ps != [] && FormCodec.NonEmpty(ps)
    requires m.nread + |path| + 1 + |FormCodec.EncodeParams(ps)| < MAX_HEADER_SIZE
    ensures var url := path + ([63] + FormCodec.EncodeParams(ps));
            var r, parts := Run(m, url + [SP]), PartsOf(url, false);
            && r.stop.Running? && r.core.state == ReqHttpStart && r.trace == Push(m.trace, Data(Url, url))
            && Acceptable(url, false) && !LacksHost(url, false) && parts.Keys == {Path, Query}
            && Slice(url, parts[Path]) == path
            && FormCodec.ReadForm(Slice(url, parts[Query])) == Some(ps)
  {
    hide Run, Push, InPath, InQuery, PartsOf, Slice, Acceptable, LacksHost, FormCodec.ReadForm, Idle;
    var form := FormCodec.EncodeParams(ps);
    assert form != [] by { FormIsNotEmpty(ps); }
    hide FormCodec.EncodeParams;
    FormInQuery(ps);
    RfcUrlRead(m, path, Some(form));
    PathAndQuery(path, form);
    FormCodec.FormRoundTrip(ps);
  }

  lemma FormIsNotEmpty(ps: seq<FormCodec.Param>)
    requires ps != []
    ensures FormCodec.EncodeParams(ps) != []
  {
    hide FormCodec.UrlEncode;
  }
}
