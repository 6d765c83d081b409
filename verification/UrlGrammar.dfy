/** The URLs that a request line may carry, as a grammar, and the part of it that RFC 3986 defines. */
module UrlGrammar {
  import opened Ascii
  import opened HttpTypes
  import opened HttpAutomaton
  import opened HttpRun
  import opened HttpChunks
  import opened HttpRequests
  import opened HttpUrls
  import opened UrlSplit
  import opened UrlAuthority
  import opened UrlWritten
  import CharacterTables

  /** Something follows the schema. */
  predicate Ends(u: Reference) { u.authority != [] || u.path != [] || u.query.Some? }

  lemma EndIsTail(u: Reference, isConnect: bool)
    requires IsReference(u, isConnect)
    ensures UrlTailState(EndState(u, isConnect)) <==> Ends(u)
  {
    hide Stripped, IsSchema, Servers, IsPath, IsQuery, IsFragment;
  }

  lemma {:induction false} WalkHasNoBreaks(s: State, t: bytes)
    requires !Walk(s, t).Dead?
    ensures NoBreaks(t)
    decreases |t|
  {
    hide IsAlpha, IsUserinfo, IsUrlChar;
    if t != [] {
      UrlDies(t[|t| - 1]);
      WalkHasNoBreaks(s, t[..|t| - 1]);
    }
  }

  /** The URLs of a request line are exactly the texts that can be written from a schema and an authority,
      a path, a query and a fragment, with something behind the schema. */
  lemma UrlExactly(v: Method, t: bytes)
    ensures IsUrl(v, t) <==>
              exists u :: IsReference(u, v == CONNECT) && Ends(u) && RefText(u) == t
  {
    hide Walk, IsReference, RefText, Ends, EndState, NoBreaks;
    var isConnect := v == CONNECT;
    if IsUrl(v, t) {
      NotInSchema(Walk(UrlStart(v), t));
      var u := Rewritten(t, isConnect);
      FragmentScanned(u, isConnect);
      EndIsTail(u, isConnect);
    }
    forall u | IsReference(u, isConnect) && Ends(u) && RefText(u) == t ensures IsUrl(v, t) {
      FragmentScanned(u, isConnect);
      EndIsTail(u, isConnect);
      EndIsAlive(u, isConnect);
      WalkHasNoBreaks(UrlStart(v), t);
      if t == [] { EmptyScan(UrlStart(v)); }
    }
  }

  lemma NotInSchema(s: State)
    requires UrlTailState(s)
    ensures !SchemaState(s) && !s.Dead?
  {}

  predicate InPath(b: byte) { CharacterTables.PathCharacter(b) || b as char == '/' }

  predicate InQuery(b: byte) { InPath(b) || b as char == '?' }

  /** Sections 3.3 and 3.4 of RFC 3986: an absolute path of path characters and slashes, and a query of
      these and question marks, is a URL for every method but CONNECT. */
  lemma RfcUrl(v: Method, path: bytes, query: Option<bytes>)
    requires v != CONNECT && path != [] && path[0] as char == '/' && forall i :: 0 <= i < |path| ==> InPath(path[i])
    requires query.Some? ==> forall i :: 0 <= i < |query.value| ==> InQuery(query.value[i])
    ensures IsUrl(v, path + if query.Some? then [63] + query.value else [])
  {
    hide Walk, IsUrl, InPath, CharacterTables.PathCharacter, IsUrlChar;
    var u := Reference(None, [], path, query, None);
    assert RefText(u) == path + if query.Some? then [63] + query.value else [];
    forall i | 0 <= i < |path| ensures IsUrlChar(path[i]) { RfcCharacter(path[i]); }
    if query.Some? {
      forall i | 0 <= i < |query.value| ensures QueryByte(query.value[i]) {
        if query.value[i] != MARK { RfcCharacter(query.value[i]); }
      }
    }
    assert IsReference(u, false);
    UrlExactly(v, RefText(u));
  }

  lemma RfcCharacter(b: byte)
    requires InPath(b)
    ensures IsUrlChar(b)
  {
    CharacterTables.UrlTable(b);
  }

  /** Such a URL gets through the request line: it is delivered as it is. */
  lemma RfcUrlRead(m: Machine, path: bytes, query: Option<bytes>)
    requires Idle(m, ReqSpacesBeforeUrl) && m.core.verb != CONNECT
    requires path != [] && path[0] as char == '/' && forall i :: 0 <= i < |path| ==> InPath(path[i])
    requires query.Some? ==> forall i :: 0 <= i < |query.value| ==> InQuery(query.value[i])
    requires m.nread + |path| + (if query.Some? then 1 + |query.value| else 0) < MAX_HEADER_SIZE
    ensures var u := path + if query.Some? then [63] + query.value else [];
            var r := Run(m, u + [SP]);
            r.stop.Running? && r.core.state == ReqHttpStart && r.trace == Push(m.trace, Data(Url, u))
  {
    hide Run, Ready, Walk, InPath, InQuery, Push;
    RfcUrl(m.core.verb, path, query);
    UrlAccepted(m, path + if query.Some? then [63] + query.value else []);
  }
}
