/** Whole URLs written from their parts, and http_parser_parse_url as the inverse. */
module UrlWritten {
  import opened Ascii
  import opened HttpTypes
  import opened HttpAutomaton
  import opened HttpLengths
  import opened HttpRequests
  import opened UrlSplit
  import opened UrlAuthority

  /** `schema://authority/path?query#fragment`, most of which may be missing. */
  datatype Reference = Reference(
    schema: Option<bytes>, authority: bytes, path: bytes, query: Option<bytes>, fragment: Option<bytes>)

  const MARK: byte := 63
  const HASH: byte := 35

  predicate QueryByte(b: byte) { IsUrlChar(b) || b == MARK }

  predicate FragmentByte(b: byte) { QueryByte(b) || b == HASH }

  /** A text of authorities in which no `@` follows another. */
  predicate Servers(t: bytes)
  {
    && (forall i :: 0 <= i < |t| ==> ServerByte(t[i]))
    && (forall i :: 1 <= i < |t| ==> t[i - 1] != AT || t[i] != AT)
  }

  predicate IsPath(t: bytes, starred: bool)
  {
    t != [] ==> (t[0] == 47 || (t[0] == 42 && starred)) && forall i :: 1 <= i < |t| ==> IsUrlChar(t[i])
  }

  predicate IsSchema(t: bytes) { t != [] && forall i :: 0 <= i < |t| ==> IsAlpha(t[i]) }

  predicate IsQuery(t: bytes) { forall i :: 0 <= i < |t| ==> QueryByte(t[i]) }

  predicate IsFragment(t: bytes) { forall i :: 0 <= i < |t| ==> FragmentByte(t[i]) }

  /** The URL of a CONNECT begins with its authority; any other with a schema or a path. */
  predicate IsReference(u: Reference, isConnect: bool)
  {
    && (u.schema.Some? ==> !isConnect && IsSchema(u.schema.value))
    && (!isConnect && u.schema.None? ==>
          u.authority == [] && (u.path == [] ==> u.query.None? && u.fragment.None?))
    && Servers(u.authority)
    && IsPath(u.path, !isConnect && u.schema.None?)
    && (u.query.Some? ==> IsQuery(u.query.value))
    && (u.fragment.Some? ==> IsFragment(u.fragment.value) && (u.path != [] || u.query.Some?))
  }

  function SchemaText(u: Reference): bytes { if u.schema.Some? then u.schema.value + [COLON, 47, 47] else [] }

  function QueryText(u: Reference): bytes { if u.query.Some? then [MARK] + u.query.value else [] }

  function FragmentText(u: Reference): bytes { if u.fragment.Some? then [HASH] + u.fragment.value else [] }

  function RefText(u: Reference): bytes
  {
    SchemaText(u) + u.authority + u.path + QueryText(u) + FragmentText(u)
  }

  // ----- stretches of the scan -----

  lemma {:induction false} WalkConcat(s: State, a: bytes, b: bytes)
    ensures Walk(s, a + b) == Walk(Walk(s, a), b)
    decreases |b|
  {
    hide UrlChar, UrlHeadState, UrlTailState;
    if b == [] {
      assert a + b == a;
    } else {
      var ab := a + b;
      assert ab[..|ab| - 1] == a + b[..|b| - 1] && ab[|ab| - 1] == b[|b| - 1];
      WalkConcat(s, a, b[..|b| - 1]);
    }
  }

  /** From s on, the text lies in one part, or between parts. */
  predicate Stretch(s: State, t: bytes, part: Option<Part>)
  {
    forall j :: 1 <= j <= |t| ==> PartOf(Walk(s, t[..j])) == part
  }

  function Put(fields: Fields, p: Part, off: nat, t: bytes): Fields
  {
    if t == [] then fields else fields[p := Span(off, |t|)]
  }

  /** The last byte of a stretch, and the stretch without it. */
  lemma ShorterStretch(from: State, a: bytes, t: bytes, part: Option<Part>)
    requires Stretch(Walk(from, a), t, part) && t != []
    ensures Stretch(Walk(from, a), t[..|t| - 1], part) && PartOf(Walk(from, a + t)) == part
  {
    hide Walk, PartOf;
    var init := t[..|t| - 1];
    assert forall j :: 1 <= j <= |init| ==> init[..j] == t[..j];
    assert t[..|t|] == t;
    WalkConcat(from, a, t);
  }

  lemma LastScanned(from: State, a: bytes, t: bytes)
    requires t != []
    ensures var before, part := ScanFields(from, a + t[..|t| - 1]), PartOf(Walk(from, a + t));
            && (part.None? ==> ScanFields(from, a + t) == before)
            && (part.Some? ==>
                  var p := part.value;
                  ScanFields(from, a + t)
                  == before[p := if p in before then Span(before[p].off, before[p].len + 1)
                                 else Span(|a| + |t| - 1, 1)])
  {
    hide Walk, PartOf, ScanFields, LastPart;
    var at := a + t;
    assert at[..|at| - 1] == a + t[..|t| - 1] && at[..|at|] == at;
    FieldsMore(from, at, |at| - 1);
  }

  /** A stretch of a part that is new is that part. */
  lemma {:induction false} PartScanned(from: State, a: bytes, t: bytes, p: Part)
    requires Stretch(Walk(from, a), t, Some(p)) && p !in ScanFields(from, a)
    ensures ScanFields(from, a + t) == Put(ScanFields(from, a), p, |a|, t)
    decreases |t|
  {
    hide Walk, PartOf, ScanFields, Stretch;
    if t == [] {
      assert a + t == a;
    } else {
      ShorterStretch(from, a, t, Some(p));
      PartScanned(from, a, t[..|t| - 1], p);
      LastScanned(from, a, t);
    }
  }

  lemma {:induction false} NothingScanned(from: State, a: bytes, t: bytes)
    requires Stretch(Walk(from, a), t, None)
    ensures ScanFields(from, a + t) == ScanFields(from, a)
    decreases |t|
  {
    hide Walk, PartOf, ScanFields, Stretch;
    if t == [] {
      assert a + t == a;
    } else {
      ShorterStretch(from, a, t, None);
      NothingScanned(from, a, t[..|t| - 1]);
      LastScanned(from, a, t);
    }
  }

  /** Every byte leads to one state. */
  predicate GoesTo(s: State, t: bytes, k: State)
  {
    && t != [] && UrlChar(s, t[0]) == k
    && forall i :: 1 <= i < |t| ==> UrlChar(k, t[i]) == k
  }

  lemma GoesOn(s: State, t: bytes, k: State, i: nat)
    requires GoesTo(s, t, k) && i < |t| && (i > 0 ==> Walk(s, t[..i]) == k)
    ensures Walk(s, t[..i + 1]) == k
  {
    hide Walk;
    WalkOne(s, t, i);
    if i == 0 { NoWalk(s, t); }
  }

  lemma NoWalk(s: State, t: bytes)
    ensures Walk(s, t[..0]) == s
  {}

  lemma {:induction false} GoneTo(s: State, t: bytes, k: State, i: nat)
    requires GoesTo(s, t, k) && i < |t|
    ensures Walk(s, t[..i + 1]) == k
    decreases i
  {
    hide Walk, GoesTo;
    if i > 0 { GoneTo(s, t, k, i - 1); }
    GoesOn(s, t, k, i);
  }

  lemma Goes(s: State, t: bytes, k: State)
    requires GoesTo(s, t, k)
    ensures Walk(s, t) == k && Stretch(s, t, PartOf(k))
  {
    hide UrlChar, PartOf, Walk, UrlHeadState, UrlTailState, GoesTo;
    forall j | 1 <= j <= |t| ensures PartOf(Walk(s, t[..j])) == PartOf(k) { GoneTo(s, t, k, j - 1); }
    assert t[..|t|] == t;
    GoesSomewhere(s, t, k);
    GoneTo(s, t, k, |t| - 1);
  }

  lemma GoesSomewhere(s: State, t: bytes, k: State)
    requires GoesTo(s, t, k)
    ensures t != []
  {
    hide UrlChar;
  }

  /** The state behind some text of an authority. */
  function ServerState(t: bytes): State
  {
    if t == [] then ReqServerStart else if t[|t| - 1] == AT then ReqServerWithAt else ReqServer
  }

  lemma {:induction false} ServerAt(t: bytes, j: nat)
    requires Servers(t) && j <= |t|
    ensures Walk(ReqServerStart, t[..j]) == ServerState(t[..j])
    decreases j
  {
    hide UrlChar, Walk, UrlHeadState, UrlTailState, ServerByte;
    if j == 0 {
      assert t[..0] == [];
      EmptyScan(ReqServerStart);
    } else {
      WalkOne(ReqServerStart, t, j - 1);
      ServerAt(t, j - 1);
      ServerStep(ServerState(t[..j - 1]), t[j - 1]);
    }
  }

  lemma ServerStep(s: State, ch: byte)
    requires s.ReqServerStart? || s.ReqServer? || (s.ReqServerWithAt? && ch != AT)
    requires ServerByte(ch)
    ensures UrlChar(s, ch) == if ch == AT then ReqServerWithAt else ReqServer
  {}

  lemma AuthorityStretch(t: bytes)
    requires Servers(t)
    ensures Walk(ReqServerStart, t) == ServerState(t) && Stretch(ReqServerStart, t, Some(Host))
  {
    hide Walk;
    forall j | 1 <= j <= |t| ensures PartOf(Walk(ReqServerStart, t[..j])) == Some(Host) { ServerAt(t, j); }
    assert t[..|t|] == t;
    ServerAt(t, |t|);
  }

  // ----- the scan of a written URL -----

  /** The states behind the schema, the authority, the path, the query and the fragment. */
  function BaseState(u: Reference, isConnect: bool): State
  {
    if isConnect || u.schema.Some? then ReqServerStart else ReqSpacesBeforeUrl
  }

  function AuthorityState(u: Reference, isConnect: bool): State
  {
    if u.authority == [] then BaseState(u, isConnect) else ServerState(u.authority)
  }

  function PathState(u: Reference, isConnect: bool): State
  {
    if u.path == [] then AuthorityState(u, isConnect) else ReqPath
  }

  function QueryState(u: Reference, isConnect: bool): State
  {
    match u.query
    case None => PathState(u, isConnect)
    case Some(q) => if q == [] then ReqQueryStringStart else ReqQueryString
  }

  /** A fragment begins behind any number of `#`. */
  function Stripped(f: bytes): (g: bytes)
    ensures |g| <= |f| && g == f[|f| - |g|..]
    ensures forall i :: 0 <= i < |f| - |g| ==> f[i] == HASH
    ensures g != [] ==> g[0] != HASH
  {
    if f != [] && f[0] == HASH then Stripped(f[1..]) else f
  }

  function EndState(u: Reference, isConnect: bool): State
  {
    match u.fragment
    case None => QueryState(u, isConnect)
    case Some(f) => if Stripped(f) == [] then ReqFragmentStart else ReqFragment
  }

  function OrNone(t: Option<bytes>): bytes { if t.Some? then t.value else [] }

  function UpToPath(u: Reference): bytes { SchemaText(u) + u.authority + u.path }

  /** The parts as they were written, the authority still whole. */
  function SchemaFields(u: Reference): Fields { Put(map[], Schema, 0, OrNone(u.schema)) }

  function HostFields(u: Reference): Fields { Put(SchemaFields(u), Host, |SchemaText(u)|, u.authority) }

  function PathFields(u: Reference): Fields { Put(HostFields(u), Path, |SchemaText(u) + u.authority|, u.path) }

  function QueryFields(u: Reference): Fields { Put(PathFields(u), Query, |UpToPath(u)| + 1, OrNone(u.query)) }

  function RefFields(u: Reference): Fields
  {
    var f := Stripped(OrNone(u.fragment));
    Put(QueryFields(u), Fragment, |RefText(u)| - |f|, f)
  }

  lemma SchemaScanned(u: Reference, isConnect: bool)
    requires IsReference(u, isConnect)
    ensures var from := StartOf(isConnect);
            Walk(from, SchemaText(u)) == BaseState(u, isConnect) && ScanFields(from, SchemaText(u)) == SchemaFields(u)
  {
    hide Walk, ScanFields, PartOf, Servers, IsPath, IsQuery, IsFragment;
    var from := StartOf(isConnect);
    EmptyScan(from);
    if u.schema.Some? {
      var t, c := u.schema.value, [COLON, 47, 47];
      SchemaLetters(t);
      Goes(from, t, ReqSchema);
      assert [] + t == t;
      PartScanned(from, [], t, Schema);
      ColonSlashes();
      WalkConcat(from, t, c);
      NothingScanned(from, t, c);
    }
  }

  lemma EmptyScan(from: State)
    ensures Walk(from, []) == from && ScanFields(from, []) == map[]
  {}

  lemma SchemaLetters(t: bytes)
    requires IsSchema(t)
    ensures GoesTo(ReqSpacesBeforeUrl, t, ReqSchema) && PartOf(ReqSchema) == Some(Schema)
  {}

  lemma ColonSlashes()
    ensures var c := [COLON, 47, 47]; Walk(ReqSchema, c) == ReqServerStart && Stretch(ReqSchema, c, None)
  {
    hide UrlChar, Walk, UrlHeadState, UrlTailState;
    var c := [COLON, 47, 47];
    assert c[..0] == [] && c[..3] == c;
    EmptyScan(ReqSchema);
    SlashSteps();
    WalkOne(ReqSchema, c, 0);
    WalkOne(ReqSchema, c, 1);
    WalkOne(ReqSchema, c, 2);
  }

  lemma SlashSteps()
    ensures UrlChar(ReqSchema, COLON) == ReqSchemaSlash && UrlChar(ReqSchemaSlash, 47) == ReqSchemaSlashSlash
    ensures UrlChar(ReqSchemaSlashSlash, 47) == ReqServerStart
  {}

  lemma HostScanned(u: Reference, isConnect: bool)
    requires IsReference(u, isConnect)
    ensures var from, a := StartOf(isConnect), SchemaText(u) + u.authority;
            Walk(from, a) == AuthorityState(u, isConnect) && ScanFields(from, a) == HostFields(u)
  {
    hide Walk, ScanFields, PartOf, Servers, IsPath, IsQuery, IsFragment, SchemaText, IsSchema;
    var from, a := StartOf(isConnect), SchemaText(u);
    SchemaScanned(u, isConnect);
    if u.authority == [] {
      assert a + u.authority == a;
    } else {
      AuthorityStretch(u.authority);
      WalkConcat(from, a, u.authority);
      PartScanned(from, a, u.authority, Host);
    }
  }

  lemma PathScanned(u: Reference, isConnect: bool)
    requires IsReference(u, isConnect)
    ensures var from := StartOf(isConnect);
            Walk(from, UpToPath(u)) == PathState(u, isConnect) && ScanFields(from, UpToPath(u)) == PathFields(u)
  {
    hide Walk, ScanFields, PartOf, Servers, IsPath, IsQuery, IsFragment, SchemaText, IsSchema, ServerState;
    var from, a := StartOf(isConnect), SchemaText(u) + u.authority;
    HostScanned(u, isConnect);
    if u.path == [] {
      assert a + u.path == a;
    } else {
      PathLetters(u, isConnect);
      Goes(AuthorityState(u, isConnect), u.path, ReqPath);
      WalkConcat(from, a, u.path);
      PartScanned(from, a, u.path, Path);
    }
  }

  lemma PathLetters(u: Reference, isConnect: bool)
    requires IsReference(u, isConnect) && u.path != []
    ensures GoesTo(AuthorityState(u, isConnect), u.path, ReqPath) && PartOf(ReqPath) == Some(Path)
  {
    hide IsQuery, IsFragment, IsSchema, Servers, IsUserinfo;
  }

  lemma QueryScanned(u: Reference, isConnect: bool)
    requires IsReference(u, isConnect)
    ensures var from, a := StartOf(isConnect), UpToPath(u) + QueryText(u);
            Walk(from, a) == QueryState(u, isConnect) && ScanFields(from, a) == QueryFields(u)
  {
    hide Walk, ScanFields, PartOf, Servers, IsPath, IsFragment, SchemaText, IsSchema, ServerState, UpToPath, GoesTo;
    var from, a := StartOf(isConnect), UpToPath(u);
    PathScanned(u, isConnect);
    if u.query.None? {
      assert a + [] == a;
    } else {
      var q := u.query.value;
      QueryLetters(u, isConnect);
      Goes(PathState(u, isConnect), [MARK], ReqQueryStringStart);
      WalkConcat(from, a, [MARK]);
      NothingScanned(from, a, [MARK]);
      assert a + [MARK] + q == a + QueryText(u);
      if q == [] {
        assert a + [MARK] + q == a + [MARK];
      } else {
        Goes(ReqQueryStringStart, q, ReqQueryString);
        WalkConcat(from, a + [MARK], q);
        PartScanned(from, a + [MARK], q, Query);
      }
    }
  }

  lemma QueryLetters(u: Reference, isConnect: bool)
    requires IsReference(u, isConnect) && u.query.Some?
    ensures GoesTo(PathState(u, isConnect), [MARK], ReqQueryStringStart) && PartOf(ReqQueryStringStart).None?
    ensures u.query.value != [] ==> GoesTo(ReqQueryStringStart, u.query.value, ReqQueryString)
    ensures PartOf(ReqQueryString) == Some(Query)
  {
    hide IsFragment, IsSchema, Servers, IsUserinfo, IsPath;
  }

  lemma FragmentScanned(u: Reference, isConnect: bool)
    requires IsReference(u, isConnect)
    ensures var from := StartOf(isConnect);
            Walk(from, RefText(u)) == EndState(u, isConnect) && ScanFields(from, RefText(u)) == RefFields(u)
  {
    hide Walk, ScanFields, PartOf, Servers, IsPath, IsQuery, SchemaText, IsSchema, ServerState, GoesTo, QueryText;
    hide Stripped, QueryState, IsFragment, QueryFields;
    var from, a := StartOf(isConnect), UpToPath(u) + QueryText(u);
    QueryScanned(u, isConnect);
    if u.fragment.None? {
      assert RefText(u) == a;
      NothingStripped();
    } else {
      FragmentLetters(u, isConnect);
      NoFragmentYet(u);
      FragmentPart(from, a, u.fragment.value, QueryState(u, isConnect));
      assert a + FragmentText(u) == RefText(u);
    }
  }

  lemma NothingStripped()
    ensures Stripped([]) == []
  {}

  lemma NoFragmentYet(u: Reference)
    ensures Fragment !in QueryFields(u)
  {}

  lemma FragmentPart(from: State, a: bytes, f: bytes, s: State)
    requires Walk(from, a) == s && Fragment !in ScanFields(from, a)
    requires var g := Stripped(f);
             && GoesTo(s, [HASH] + f[..|f| - |g|], ReqFragmentStart)
             && (g != [] ==> GoesTo(ReqFragmentStart, g, ReqFragment))
             && PartOf(ReqFragmentStart).None? && PartOf(ReqFragment) == Some(Fragment)
    ensures var g := Stripped(f);
            && Walk(from, a + ([HASH] + f)) == (if g == [] then ReqFragmentStart else ReqFragment)
            && ScanFields(from, a + ([HASH] + f)) == Put(ScanFields(from, a), Fragment, |a| + 1 + |f| - |g|, g)
  {
    hide Walk, ScanFields, PartOf, GoesTo, Stripped;
    var g := Stripped(f);
    var h := [HASH] + f[..|f| - |g|];
    Goes(s, h, ReqFragmentStart);
    WalkConcat(from, a, h);
    NothingScanned(from, a, h);
    assert a + h + g == a + ([HASH] + f);
    if g == [] {
      assert a + h + g == a + h;
    } else {
      Goes(ReqFragmentStart, g, ReqFragment);
      WalkConcat(from, a + h, g);
      PartScanned(from, a + h, g, Fragment);
    }
  }

  lemma FragmentLetters(u: Reference, isConnect: bool)
    requires IsReference(u, isConnect) && u.fragment.Some?
    ensures var f := u.fragment.value;
            var g := Stripped(f);
            && GoesTo(QueryState(u, isConnect), [HASH] + f[..|f| - |g|], ReqFragmentStart)
            && (g != [] ==> GoesTo(ReqFragmentStart, g, ReqFragment))
    ensures PartOf(ReqFragmentStart).None? && PartOf(ReqFragment) == Some(Fragment)
  {
    hide IsSchema, Servers, IsUserinfo, IsPath, IsQuery, Stripped, UrlHeadState, UrlTailState, UrlChar, IsUrlChar;
    var f := u.fragment.value;
    var g := Stripped(f);
    assert forall i :: 0 <= i < |g| ==> g[i] == f[i + (|f| - |g|)];
    FragmentSteps();
    HashStep(u, isConnect);
  }

  lemma FragmentSteps()
    ensures UrlChar(ReqFragmentStart, HASH) == ReqFragmentStart
    ensures forall b :: FragmentByte(b) ==> UrlChar(ReqFragment, b) == ReqFragment
    ensures forall b :: QueryByte(b) ==> UrlChar(ReqFragmentStart, b) == ReqFragment
    ensures PartOf(ReqFragmentStart).None? && PartOf(ReqFragment) == Some(Fragment)
  {}

  lemma HashStep(u: Reference, isConnect: bool)
    requires IsReference(u, isConnect) && u.fragment.Some?
    ensures UrlChar(QueryState(u, isConnect), HASH) == ReqFragmentStart
  {
    hide IsSchema, Servers, IsUserinfo, IsPath, IsQuery, IsFragment;
  }

  // ----- every text that is scanned to the end -----

  /** Inside the schema and its `://`. */
  predicate SchemaState(s: State) { s.ReqSchema? || s.ReqSchemaSlash? || s.ReqSchemaSlashSlash? }

  function Slashes(s: State): bytes
  {
    if s.ReqSchemaSlash? then [COLON] else if s.ReqSchemaSlashSlash? then [COLON, 47] else []
  }

  lemma BackStep(s: State, ch: byte)
    ensures var t := UrlChar(s, ch);
            && !t.ReqSpacesBeforeUrl?
            && (t.ReqSchema? ==> IsAlpha(ch) && (s.ReqSpacesBeforeUrl? || s.ReqSchema?))
            && (t.ReqSchemaSlash? ==> ch == COLON && s.ReqSchema?)
            && (t.ReqSchemaSlashSlash? ==> ch == 47 && s.ReqSchemaSlash?)
            && (t.ReqServerStart? ==> ch == 47 && s.ReqSchemaSlashSlash?)
            && (s.Dead? ==> t.Dead?)
  {
    hide IsUserinfo, IsUrlChar;
  }

  lemma {:induction false} SchemaShape(from: State, t: bytes) returns (l: bytes)
    requires SchemaState(Walk(from, t)) && (from.ReqSpacesBeforeUrl? || from.ReqServerStart?)
    ensures from.ReqSpacesBeforeUrl? && IsSchema(l) && t == l + Slashes(Walk(from, t))
    decreases |t|
  {
    hide UrlChar, IsAlpha;
    var init, ch := t[..|t| - 1], t[|t| - 1];
    var s := Walk(from, init);
    BackStep(s, ch);
    assert t == init + [ch];
    if SchemaState(s) {
      l := SchemaShape(from, init);
      if s.ReqSchema? && Walk(from, t).ReqSchema? { l := l + [ch]; }
    } else {
      StillAtStart(from, init);
      l := [ch];
    }
  }

  lemma StillAtStart(from: State, t: bytes)
    requires Walk(from, t).ReqSpacesBeforeUrl?
    ensures t == [] && from.ReqSpacesBeforeUrl?
  {
    hide UrlChar;
    if t != [] { BackStep(Walk(from, t[..|t| - 1]), t[|t| - 1]); }
  }

  /** A URL with one more byte, which leads to state t. */
  function Appended(u: Reference, t: State, ch: byte): Reference
  {
    match t
    case ReqPath => u.(path := u.path + [ch])
    case ReqQueryStringStart => u.(query := Some([]))
    case ReqQueryString => u.(query := Some(OrNone(u.query) + [ch]))
    case ReqFragmentStart => u.(fragment := if u.fragment.None? then Some([]) else Some(u.fragment.value + [ch]))
    case ReqFragment => u.(fragment := Some(OrNone(u.fragment) + [ch]))
    case _ => u.(authority := u.authority + [ch])
  }

  /** Where the byte belongs. */
  predicate Fits(u: Reference, isConnect: bool, t: State, ch: byte)
  {
    match t
    case ReqServer => IsHostTail(u, isConnect, ch)
    case ReqServerWithAt => IsHostTail(u, isConnect, ch)
    case ReqPath =>
      && u.query.None? && u.fragment.None?
      && (u.path == [] ==> ch == 47 || (ch == 42 && !isConnect && u.schema.None?)) && (u.path != [] ==> IsUrlChar(ch))
    case ReqQueryStringStart =>
      && u.query.None? && u.fragment.None? && ch == MARK && (!isConnect && u.schema.None? ==> u.path != [])
    case ReqQueryString => u.query.Some? && u.fragment.None? && QueryByte(ch)
    case ReqFragmentStart => ch == HASH && (u.fragment.None? ==> u.path != [] || u.query.Some?)
    case ReqFragment => u.fragment.Some? && FragmentByte(ch)
    case _ => false
  }

  predicate IsHostTail(u: Reference, isConnect: bool, ch: byte)
  {
    && u.path == [] && u.query.None? && u.fragment.None? && (isConnect || u.schema.Some?)
    && ServerByte(ch) && (u.authority != [] && u.authority[|u.authority| - 1] == AT ==> ch != AT)
  }

  lemma ByteFits(u: Reference, isConnect: bool, ch: byte)
    requires IsReference(u, isConnect)
    requires var t := UrlChar(EndState(u, isConnect), ch); !t.Dead? && !SchemaState(t)
    ensures Fits(u, isConnect, UrlChar(EndState(u, isConnect), ch), ch)
  {
    hide IsUserinfo, IsUrlChar, Stripped, Servers, IsSchema, IsQuery, IsFragment, IsPath;
  }

  lemma AppendedText(u: Reference, isConnect: bool, t: State, ch: byte)
    requires Fits(u, isConnect, t, ch)
    ensures RefText(Appended(u, t, ch)) == RefText(u) + [ch]
  {
    hide IsUserinfo, IsUrlChar, ServerByte;
    var v := Appended(u, t, ch);
    JoinTail(SchemaText(u), u.authority, u.path, QueryText(u), FragmentText(u), ch);
    assert SchemaText(v) == SchemaText(u);
    match t
    case ReqQueryStringStart => assert QueryText(v) == QueryText(u) + [ch];
    case ReqQueryString => assert QueryText(v) == QueryText(u) + [ch];
    case ReqFragmentStart => assert FragmentText(v) == FragmentText(u) + [ch];
    case ReqFragment => assert FragmentText(v) == FragmentText(u) + [ch];
    case _ =>
  }

  lemma JoinTail(a: bytes, b: bytes, c: bytes, d: bytes, e: bytes, ch: byte)
    ensures a + b + c + d + (e + [ch]) == a + b + c + d + e + [ch]
    ensures e == [] ==> a + b + c + (d + [ch]) + e == a + b + c + d + e + [ch]
    ensures e == d == [] ==> a + b + (c + [ch]) + d + e == a + b + c + d + e + [ch]
    ensures e == d == c == [] ==> a + (b + [ch]) + c + d + e == a + b + c + d + e + [ch]
  {
    assert a + b + c + (d + [ch]) == a + b + c + d + [ch];
    assert a + b + (c + [ch]) == a + b + c + [ch];
    assert a + (b + [ch]) == a + b + [ch];
  }

  lemma AppendedIsOne(u: Reference, isConnect: bool, t: State, ch: byte)
    requires IsReference(u, isConnect) && Fits(u, isConnect, t, ch)
    ensures IsReference(Appended(u, t, ch), isConnect)
  {
    hide IsUserinfo, IsUrlChar, IsSchema, ServerByte;
  }

  /** A text that parse_url_char gets through, and does not leave in the middle of `schema://`, is a URL
      that can be written. */
  lemma {:induction false} Rewritten(buf: bytes, isConnect: bool) returns (u: Reference)
    requires var s := Walk(StartOf(isConnect), buf); !s.Dead? && !SchemaState(s)
    ensures IsReference(u, isConnect) && RefText(u) == buf
    decreases |buf|
  {
    hide UrlChar, IsReference, RefText, Appended, EndState, Fits;
    var from := StartOf(isConnect);
    if buf == [] {
      u := Reference(None, [], [], None, None);
      NothingWritten(isConnect);
    } else {
      var init, ch := buf[..|buf| - 1], buf[|buf| - 1];
      assert buf == init + [ch];
      var s := Walk(from, init);
      BackStep(s, ch);
      if SchemaState(s) {
        var l := SchemaShape(from, init);
        AfterSchema(s, ch);
        u := Reference(Some(l), [], [], None, None);
        SchemaWritten(u, l);
        assert l + [COLON, 47] + [47] == l + [COLON, 47, 47];
      } else {
        var v := Rewritten(init, isConnect);
        FragmentScanned(v, isConnect);
        u := Appended(v, UrlChar(s, ch), ch);
        ByteFits(v, isConnect, ch);
        AppendedText(v, isConnect, UrlChar(s, ch), ch);
        AppendedIsOne(v, isConnect, UrlChar(s, ch), ch);
      }
    }
  }

  lemma AfterSchema(s: State, ch: byte)
    requires SchemaState(s) && !UrlChar(s, ch).Dead? && !SchemaState(UrlChar(s, ch))
    ensures s.ReqSchemaSlashSlash? && ch == 47
  {}

  lemma NothingWritten(isConnect: bool)
    ensures var u := Reference(None, [], [], None, None); IsReference(u, isConnect) && RefText(u) == []
  {}

  lemma SchemaWritten(u: Reference, l: bytes)
    requires u == Reference(Some(l), [], [], None, None) && IsSchema(l)
    ensures IsReference(u, false) && RefText(u) == l + [COLON, 47, 47]
  {}

  // ----- what http_parser_parse_url makes of it -----

  /** A URL whose authority, if it has one, is the given site. */
  predicate Written(u: Reference, s: Site, isConnect: bool)
  {
    IsReference(u, isConnect) && (u.authority != [] ==> IsSite(s) && SiteText(s) == u.authority)
  }

  /** The text of each part; one that is missing or empty is not found. */
  function TextOf(u: Reference, s: Site, p: Part): bytes
  {
    match p
    case Schema => OrNone(u.schema)
    case UserInfo => if u.authority == [] then [] else OrNone(s.user)
    case Host => if u.authority == [] then [] else s.host
    case Port => if u.authority == [] then [] else OrNone(s.port)
    case Path => u.path
    case Query => OrNone(u.query)
    case Fragment => Stripped(OrNone(u.fragment))
  }

  function AllFields(u: Reference, s: Site): Fields
  {
    if u.authority == [] then RefFields(u) else Merged(RefFields(u), SpansOf(s, |SchemaText(u)|))
  }

  lemma SliceAt(a: bytes, t: bytes, b: bytes)
    ensures Slice(a + t + b, Span(|a|, |t|)) == t && End(Span(|a|, |t|)) <= |a + t + b|
  {}

  /** Where the scan finds the parts. */
  lemma SpansScanned(u: Reference)
    ensures var scan := RefFields(u);
            && (Schema in scan <==> OrNone(u.schema) != [])
            && (Schema in scan ==> scan[Schema] == Span(0, |OrNone(u.schema)|))
            && (Host in scan <==> u.authority != [])
            && (Host in scan ==> scan[Host] == Span(|SchemaText(u)|, |u.authority|))
            && (Path in scan <==> u.path != [])
            && (Path in scan ==> scan[Path] == Span(|SchemaText(u) + u.authority|, |u.path|))
            && (Query in scan <==> OrNone(u.query) != [])
            && (Query in scan ==> scan[Query] == Span(|UpToPath(u)| + 1, |OrNone(u.query)|))
            && UserInfo !in scan && Port !in scan
  {
    hide SchemaText, UpToPath, OrNone, Stripped, RefText;
  }

  /** The authority as the scan has marked it. */
  lemma AuthorityPlace(u: Reference, isConnect: bool)
    requires IsReference(u, isConnect)
    ensures var scan := RefFields(u);
            && (Schema in scan <==> u.schema.Some?)
            && (Host in scan <==> u.authority != [])
            && (Host in scan ==> scan[Host] == Span(|SchemaText(u)|, |u.authority|))
            && (Host in scan ==> Slice(RefText(u), scan[Host]) == u.authority && End(scan[Host]) <= |RefText(u)|)
            && UserInfo !in scan && Port !in scan
            && (HasAt(RefText(u), scan) <==> AT in u.authority)
  {
    hide IsPath, IsQuery, IsFragment, Servers, SchemaText, QueryText, FragmentText, RefFields, HasAt, Slice;
    var scan, a := RefFields(u), SchemaText(u);
    var rest := u.path + QueryText(u) + FragmentText(u);
    SpansScanned(u);
    assert RefText(u) == a + u.authority + rest;
    if u.authority == [] {
      NoAt(RefText(u), scan);
    } else {
      SliceAt(a, u.authority, rest);
      AtInside(a, u.authority, rest, scan);
    }
  }

  lemma NoAt(buf: bytes, scan: Fields)
    requires Host !in scan
    ensures !HasAt(buf, scan)
  {}

  lemma AtInside(a: bytes, t: bytes, b: bytes, scan: Fields)
    requires Host in scan && scan[Host] == Span(|a|, |t|)
    ensures HasAt(a + t + b, scan) <==> AT in t
  {
    var buf := a + t + b;
    assert forall i :: 0 <= i < |t| ==> buf[|a| + i] == t[i];
    if AT in t {
      var i :| 0 <= i < |t| && t[i] == AT;
      assert buf[|a| + i] == AT;
    }
  }

  /** The whole of a written URL is scanned, its authority accepted and split. */
  lemma WrittenParts(u: Reference, s: Site, isConnect: bool)
    requires Written(u, s, isConnect)
    ensures PartsOf(RefText(u), isConnect) == AllFields(u, s)
    ensures u.authority != [] ==> Host in RefFields(u) && MayEnd(AuthorityEnd(RefText(u), RefFields(u)))
  {
    hide IsReference, IsSite, SiteText, SpansOf, RefText, RefFields, HostWalk, SplitOf, Merged, ScanFields, Walk, HasAt;
    hide Slice, SchemaText, MayEnd;
    FragmentScanned(u, isConnect);
    AuthorityPlace(u, isConnect);
    if u.authority != [] {
      SiteChars(s);
      SiteSplit(s, |SchemaText(u)|);
    }
  }

  lemma UserPart(a: bytes, s: Site, b: bytes)
    requires s.user.Some?
    ensures Slice(a + SiteText(s) + b, Span(|a|, |s.user.value|)) == s.user.value
    ensures |a| + |s.user.value| <= |a + SiteText(s) + b|
  {
    hide Slice, HostText, PortText;
    var rest := [AT] + HostText(s) + PortText(s) + b;
    SliceAt(a, s.user.value, rest);
    assert a + SiteText(s) + b == a + s.user.value + rest;
  }

  lemma HostPart(a: bytes, s: Site, b: bytes)
    ensures var f := SpansOf(s, |a|).host;
            Slice(a + SiteText(s) + b, f) == s.host && End(f) <= |a + SiteText(s) + b|
  {
    hide Slice, UserText, PortText;
    if s.bracketed {
      HostSlice(a, s, b, [91], [93]);
    } else {
      assert [] + s.host + [] == s.host && a + UserText(s) + [] == a + UserText(s);
      HostSlice(a, s, b, [], []);
    }
  }

  lemma HostSlice(a: bytes, s: Site, b: bytes, l: bytes, r: bytes)
    requires HostText(s) == l + s.host + r
    ensures var f := Span(|a + UserText(s) + l|, |s.host|);
            Slice(a + SiteText(s) + b, f) == s.host && End(f) <= |a + SiteText(s) + b|
  {
    hide Slice, UserText, PortText, HostText;
    var before, rest := a + UserText(s) + l, r + PortText(s) + b;
    SliceAt(before, s.host, rest);
    assert a + SiteText(s) + b == before + s.host + rest;
  }

  lemma PortPart(a: bytes, s: Site, b: bytes)
    requires s.port.Some?
    ensures var f := Span(|a| + |UserText(s)| + |HostText(s)| + 1, |s.port.value|);
            Slice(a + SiteText(s) + b, f) == s.port.value && End(f) <= |a + SiteText(s) + b|
  {
    hide Slice, UserText, HostText;
    var before := a + UserText(s) + HostText(s) + [COLON];
    SliceAt(before, s.port.value, b);
    assert a + SiteText(s) + b == before + s.port.value + b;
  }

  /** The parts of an authority are where they were written. */
  lemma SitePart(a: bytes, s: Site, b: bytes)
    requires IsSite(s)
    ensures var d, buf := SpansOf(s, |a|), a + SiteText(s) + b;
            && (d.user.Some? <==> OrNone(s.user) != [])
            && (d.user.Some? ==> End(d.user.value) <= |buf| && Slice(buf, d.user.value) == s.user.value)
            && End(d.host) <= |buf| && Slice(buf, d.host) == s.host
            && (d.port.Some? <==> OrNone(s.port) != [])
            && (d.port.Some? ==> End(d.port.value) <= |buf| && Slice(buf, d.port.value) == s.port.value)
  {
    hide Slice, V6Char, IsHostChar, IsUserinfo, IsNum, SiteText, UserText, HostText;
    if s.user.Some? { UserPart(a, s, b); }
    HostPart(a, s, b);
    if s.port.Some? { PortPart(a, s, b); }
  }

  /** A part that the scan itself has marked. */
  lemma ScanPart(u: Reference, isConnect: bool, p: Part)
    requires IsReference(u, isConnect) && p != UserInfo && p != Host && p != Port
    ensures var scan, t := RefFields(u), TextOf(u, Site(None, false, [], None), p);
            && (p in scan <==> t != [])
            && (p in scan ==> End(scan[p]) <= |RefText(u)| && Slice(RefText(u), scan[p]) == t)
  {
    hide Slice, IsReference, Stripped, RefFields, RefText;
    SpansScanned(u);
    match p
    case Schema => if u.schema.Some? { SchemaPart(u); }
    case Path => PathPart(u);
    case Query => if u.query.Some? { QueryPart(u); }
    case Fragment => FragmentPlace(u);
    case _ =>
  }

  lemma SchemaPart(u: Reference)
    requires u.schema.Some?
    ensures var f := Span(0, |u.schema.value|); Slice(RefText(u), f) == u.schema.value && End(f) <= |RefText(u)|
  {
    hide Slice, QueryText, FragmentText;
    var rest := [COLON, 47, 47] + u.authority + u.path + QueryText(u) + FragmentText(u);
    SliceAt([], u.schema.value, rest);
    assert RefText(u) == [] + u.schema.value + rest;
  }

  lemma PathPart(u: Reference)
    ensures var f := Span(|SchemaText(u) + u.authority|, |u.path|);
            Slice(RefText(u), f) == u.path && End(f) <= |RefText(u)|
  {
    hide Slice, QueryText, FragmentText, SchemaText;
    var rest := QueryText(u) + FragmentText(u);
    SliceAt(SchemaText(u) + u.authority, u.path, rest);
    assert RefText(u) == SchemaText(u) + u.authority + u.path + rest;
  }

  lemma QueryPart(u: Reference)
    requires u.query.Some?
    ensures var f := Span(|UpToPath(u)| + 1, |u.query.value|);
            Slice(RefText(u), f) == u.query.value && End(f) <= |RefText(u)|
  {
    hide Slice, FragmentText, SchemaText;
    SliceAt(UpToPath(u) + [MARK], u.query.value, FragmentText(u));
    assert RefText(u) == UpToPath(u) + [MARK] + u.query.value + FragmentText(u);
  }

  lemma FragmentPlace(u: Reference)
    ensures var scan, t := RefFields(u), Stripped(OrNone(u.fragment));
            && (Fragment in scan <==> t != [])
            && (Fragment in scan ==>
                  End(scan[Fragment]) <= |RefText(u)| && Slice(RefText(u), scan[Fragment]) == t)
  {
    hide Slice, QueryFields, Stripped, RefText;
    NoFragmentYet(u);
    if u.fragment.Some? { LastSlice(u); } else { NothingStripped(); }
  }

  lemma LastSlice(u: Reference)
    requires u.fragment.Some?
    ensures var g, n := Stripped(u.fragment.value), |RefText(u)|;
            |g| <= n && Slice(RefText(u), Span(n - |g|, |g|)) == g
  {
    hide Slice, QueryText, SchemaText, Stripped;
    var f := u.fragment.value;
    var g := Stripped(f);
    var before := SchemaText(u) + u.authority + u.path + QueryText(u);
    var a := before + ([HASH] + f[..|f| - |g|]);
    assert [HASH] + f == [HASH] + f[..|f| - |g|] + g;
    assert RefText(u) == a + g + [];
    SliceAt(a, g, []);
  }

  lemma MergedAt(fields: Fields, d: Split)
    requires UserInfo !in fields && Port !in fields
    ensures var m := Merged(fields, d);
            && Host in m && m[Host] == d.host
            && (UserInfo in m <==> d.user.Some?) && (UserInfo in m ==> m[UserInfo] == d.user.value)
            && (Port in m <==> d.port.Some?) && (Port in m ==> m[Port] == d.port.value)
            && (forall p :: p != UserInfo && p != Host && p != Port ==>
                  (p in m <==> p in fields) && (p in m ==> m[p] == fields[p]))
  {}

  /** The parts of the authority are found. */
  lemma SiteFound(u: Reference, s: Site, isConnect: bool, p: Part)
    requires Written(u, s, isConnect) && u.authority != [] && (p == UserInfo || p == Host || p == Port)
    ensures var parts := AllFields(u, s);
            && (p in parts <==> TextOf(u, s, p) != [])
            && (p in parts ==> End(parts[p]) <= |RefText(u)| && Slice(RefText(u), parts[p]) == TextOf(u, s, p))
  {
    hide IsReference, RefFields, SpansOf, Slice, SiteText, SchemaText, Merged, HasAt, QueryText, FragmentText, Stripped;
    AuthorityPlace(u, isConnect);
    var rest := u.path + QueryText(u) + FragmentText(u);
    assert RefText(u) == SchemaText(u) + SiteText(s) + rest;
    SitePart(SchemaText(u), s, rest);
    MergedAt(RefFields(u), SpansOf(s, |SchemaText(u)|));
  }

  /** Every part is found, and is where it was written. */
  lemma PartFound(u: Reference, s: Site, isConnect: bool, p: Part)
    requires Written(u, s, isConnect)
    ensures var parts := AllFields(u, s);
            && (p in parts <==> TextOf(u, s, p) != [])
            && (p in parts ==> End(parts[p]) <= |RefText(u)| && Slice(RefText(u), parts[p]) == TextOf(u, s, p))
  {
    hide IsReference, RefFields, SpansOf, Slice, Stripped, SiteText, SchemaText, Merged, IsSite, RefText, HasAt;
    AuthorityPlace(u, isConnect);
    if p == UserInfo || p == Host || p == Port {
      if u.authority != [] { SiteFound(u, s, isConnect, p); }
    } else {
      ScanPart(u, isConnect, p);
      MergedAt(RefFields(u), SpansOf(s, |SchemaText(u)|));
    }
  }

  /** The number the port spells. */
  function PortValue(s: Site): nat
    requires IsSite(s) && s.port.Some?
  {
    Number(Digits(s.port.value), 10)
  }

  /** A schema has an authority, a port is at most 65535, and a CONNECT has host and port and no other part. */
  predicate Proper(u: Reference, s: Site, isConnect: bool)
    requires Written(u, s, isConnect)
  {
    && (u.schema.Some? ==> u.authority != [])
    && (u.authority != [] && s.port.Some? ==> PortValue(s) <= 0xffff)
    && (isConnect ==> forall p :: TextOf(u, s, p) != [] <==> p == Host || p == Port)
  }

  lemma PortWritten(u: Reference, s: Site, isConnect: bool)
    requires Written(u, s, isConnect) && Port in AllFields(u, s)
    ensures u.authority != [] && s.port.Some? && Numbered(RefText(u), AllFields(u, s))
    ensures PortNumber(RefText(u), AllFields(u, s)[Port]) == PortValue(s)
  {
    hide AllFields, RefText, Number, Digits;
    PartFound(u, s, isConnect, Port);
    var buf, f := RefText(u), AllFields(u, s)[Port];
    assert forall i :: f.off <= i < End(f) ==> buf[i] == s.port.value[i - f.off];
  }

  lemma WrittenReads(u: Reference, s: Site, isConnect: bool)
    requires Written(u, s, isConnect)
    ensures var buf, scan := RefText(u), ScanFields(StartOf(isConnect), RefText(u));
            && !Walk(StartOf(isConnect), buf).Dead?
            && (Schema in scan <==> u.schema.Some?) && (Host in scan <==> u.authority != [])
            && (Host in scan ==> MayEnd(AuthorityEnd(buf, scan)))
            && PartsOf(buf, isConnect) == AllFields(u, s)
    ensures u.authority != [] ==> IsSite(s)
  {
    hide Walk, ScanFields, PartsOf, AllFields, AuthorityEnd, MayEnd, RefText, RefFields, IsReference, IsSite, SiteText;
    hide HasAt, Slice, SchemaText;
    FragmentScanned(u, isConnect);
    EndIsAlive(u, isConnect);
    AuthorityPlace(u, isConnect);
    WrittenParts(u, s, isConnect);
  }

  lemma EndIsAlive(u: Reference, isConnect: bool)
    ensures !EndState(u, isConnect).Dead?
  {
    hide Stripped;
  }

  /** The round trip: a written URL is accepted exactly when it is proper, and then every part comes back
      as it was written. */
  lemma ReferenceRead(u: Reference, s: Site, isConnect: bool)
    requires Written(u, s, isConnect)
    ensures Acceptable(RefText(u), isConnect) <==> Proper(u, s, isConnect)
    ensures LacksHost(RefText(u), isConnect) <==> u.schema.Some? && u.authority == []
    ensures var parts := PartsOf(RefText(u), isConnect);
            && (forall p :: p in parts <==> TextOf(u, s, p) != [])
            && (forall p :: p in parts ==> Slice(RefText(u), parts[p]) == TextOf(u, s, p))
            && (Port in parts ==>
                  u.authority != [] && s.port.Some? && Numbered(RefText(u), parts)
                  && PortNumber(RefText(u), parts[Port]) == PortValue(s))
  {
    hide Written, AllFields, RefText, Slice, PartsOf, Walk, ScanFields, Numbered, PortNumber, TextOf;
    hide PortValue, AuthorityEnd, HasAt, MayEnd;
    var parts := AllFields(u, s);
    WrittenReads(u, s, isConnect);
    forall p
      ensures p in parts <==> TextOf(u, s, p) != []
      ensures p in parts ==> Slice(RefText(u), parts[p]) == TextOf(u, s, p)
    {
      PartFound(u, s, isConnect, p);
    }
    PortIsText(u, s, isConnect);
    if Port in parts { PortWritten(u, s, isConnect); }
    SameKeys(parts);
  }

  lemma PortIsText(u: Reference, s: Site, isConnect: bool)
    requires Written(u, s, isConnect)
    ensures TextOf(u, s, Port) != [] <==> u.authority != [] && s.port.Some?
  {
    hide SiteText, IsReference;
  }

  lemma SameKeys(parts: Fields)
    ensures parts.Keys == {Host, Port} <==> forall p :: p in parts <==> p == Host || p == Port
  {}

  // ----- the grammar -----

  /** A text that ends inside its schema has no host. */
  lemma SchemaOnly(buf: bytes, isConnect: bool)
    requires SchemaState(Walk(StartOf(isConnect), buf))
    ensures LacksHost(buf, isConnect)
  {
    hide UrlChar, IsSchema;
    var from := StartOf(isConnect);
    var l := SchemaShape(from, buf);
    var c := Slashes(Walk(from, buf));
    EmptyScan(from);
    SchemaLetters(l);
    Goes(from, l, ReqSchema);
    assert [] + l == l;
    PartScanned(from, [], l, Schema);
    SlashStretch(Walk(from, buf));
    NothingScanned(from, l, c);
    assert IsSchema(l) ==> l != [];
  }

  lemma SlashStretch(s: State)
    ensures Stretch(ReqSchema, Slashes(s), None)
  {
    ColonSlashes();
    var c := [COLON, 47, 47];
    assert c[..1] == [COLON] && c[..2] == [COLON, 47] && [COLON, 47][..1] == [COLON];
    assert forall j :: 1 <= j <= |Slashes(s)| ==> Slashes(s)[..j] == c[..j];
  }

  /** The texts that http_parser_parse_url accepts are the proper URLs, and no others. */
  lemma AcceptedExactly(buf: bytes, isConnect: bool)
    ensures Acceptable(buf, isConnect) <==>
              exists u, s :: Written(u, s, isConnect) && Proper(u, s, isConnect) && RefText(u) == buf
  {
    hide Written, Proper, RefText, Acceptable, Walk, LacksHost;
    if Acceptable(buf, isConnect) {
      var u, s := Reread(buf, isConnect);
      ReferenceRead(u, s, isConnect);
    }
    forall u, s | Written(u, s, isConnect) && Proper(u, s, isConnect) && RefText(u) == buf
      ensures Acceptable(buf, isConnect)
    {
      ReferenceRead(u, s, isConnect);
    }
  }

  lemma Reread(buf: bytes, isConnect: bool) returns (u: Reference, s: Site)
    requires Acceptable(buf, isConnect)
    ensures Written(u, s, isConnect) && RefText(u) == buf
  {
    hide Walk, RefText, IsReference, ScanFields, HostWalk, SiteText, IsSite, MayEnd, RefFields, HasAt, Slice;
    hide SchemaText, PartsOf, Numbered, PortNumber, SchemaState;
    if SchemaState(Walk(StartOf(isConnect), buf)) {
      SchemaOnly(buf, isConnect);
    }
    u := Rewritten(buf, isConnect);
    s := Site(None, false, [], None);
    if u.authority != [] {
      FragmentScanned(u, isConnect);
      AuthorityPlace(u, isConnect);
      SiteAccepted(u.authority);
      s :| IsSite(s) && SiteText(s) == u.authority;
    }
  }

  // ----- examples -----

  const HTTP: bytes := [104, 116, 116, 112]

  /** `u@h:80` and `h:80` */
  const WITH_USER := Site(Some([117]), false, [104], Some([56, 48]))
  const WITHOUT_USER := Site(None, false, [104], Some([56, 48]))

  lemma Sites()
    ensures IsSite(WITH_USER) && SiteText(WITH_USER) == [117, 64, 104, 58, 56, 48] && PortValue(WITH_USER) == 80
    ensures IsSite(WITHOUT_USER) && SiteText(WITHOUT_USER) == [104, 58, 56, 48] && PortValue(WITHOUT_USER) == 80
  {
    hide Digits, Number;
    Eighty();
  }

  lemma Eighty()
    ensures Digits([56, 48]) == [8, 0] && Number([8, 0], 10) == 80
  {
    assert [56, 48][..1] == [56] && [56][..0] == [];
    assert Digits([56]) == [8];
    assert [8, 0][..1] == [8] && [8][..0] == [];
  }

  const WHOLE := Reference(Some(HTTP), [117, 64, 104, 58, 56, 48], [47, 112], None, None)

  lemma WholeText()
    ensures Written(WHOLE, WITH_USER, false)
    ensures RefText(WHOLE) == [104, 116, 116, 112, 58, 47, 47, 117, 64, 104, 58, 56, 48, 47, 112]
  {
    hide IsSite, SiteText, PortValue;
    Sites();
  }

  lemma WholeScan()
    ensures RefFields(WHOLE) == map[Schema := Span(0, 4), Host := Span(7, 6), Path := Span(13, 2)]
  {
    hide Stripped;
    NothingStripped();
    assert |SchemaText(WHOLE)| == 7;
  }

  lemma WholeSpans()
    ensures SpansOf(WITH_USER, |SchemaText(WHOLE)|) == Split(Some(Span(7, 1)), Span(9, 1), Some(Span(11, 2)))
  {}

  lemma WholeFields()
    ensures AllFields(WHOLE, WITH_USER) == map[Schema := Span(0, 4), UserInfo := Span(7, 1), Host := Span(9, 1),
                                               Port := Span(11, 2), Path := Span(13, 2)]
  {
    hide RefFields, SpansOf, SchemaText;
    WholeScan();
    WholeSpans();
  }

  /** `http://u@h:80/p` is accepted, with its five parts and the port 80. */
  lemma WholeUrl()
    ensures var buf: bytes := [104, 116, 116, 112, 58, 47, 47, 117, 64, 104, 58, 56, 48, 47, 112];
            && Acceptable(buf, false)
            && PartsOf(buf, false) == map[Schema := Span(0, 4), UserInfo := Span(7, 1), Host := Span(9, 1),
                                          Port := Span(11, 2), Path := Span(13, 2)]
            && PortNumber(buf, PartsOf(buf, false)[Port]) == 80
  {
    hide Acceptable, PartsOf, LacksHost, PortNumber, Slice, Written, RefText, AllFields, PortValue, IsSite, SiteText;
    hide AuthorityEnd, RefFields;
    Sites();
    WholeText();
    WholeFields();
    WrittenParts(WHOLE, WITH_USER, false);
    ReferenceRead(WHOLE, WITH_USER, false);
  }

  /** `http:///p` has a schema and no host: on a struct that is not zeroed its host is read unwritten. */
  lemma NoHost()
    ensures LacksHost([104, 116, 116, 112, 58, 47, 47, 47, 112], false)
  {
    hide Acceptable, PartsOf, LacksHost, Slice;
    var s, u := Site(None, false, [], None), Reference(Some(HTTP), [], [47, 112], None, None);
    assert Written(u, s, false);
    ReferenceRead(u, s, false);
    assert RefText(u) == [104, 116, 116, 112, 58, 47, 47, 47, 112];
  }

  const MARKED := Reference(None, [104, 58, 56, 48], [], Some([]), None)

  lemma MarkedText()
    ensures Written(MARKED, WITHOUT_USER, true) && RefText(MARKED) == [104, 58, 56, 48, 63]
  {
    hide IsSite, SiteText, PortValue;
    Sites();
  }

  /** CONNECT takes `h:80?`, which is more than a host and a port: a mark without a query is no part. */
  lemma ConnectWithMark()
    ensures Acceptable([104, 58, 56, 48, 63], true)
  {
    hide Acceptable, PartsOf, LacksHost, PortNumber, Slice, RefText, PortValue, IsSite, SiteText, Written;
    Sites();
    MarkedText();
    ReferenceRead(MARKED, WITHOUT_USER, true);
  }

  /** An accepted CONNECT is a host and a port and nothing else if and only if it has no mark and no `@`. */
  lemma ConnectOnly(u: Reference, s: Site)
    requires Written(u, s, true) && Proper(u, s, true)
    ensures RefText(u) == HostText(s) + PortText(s) <==> u.query.None? && s.user.None?
  {
    hide IsSite, HostText, PortText, TextOf, Servers, PortValue;
    ConnectParts(u, s);
    assert RefText(u) == UserText(s) + HostText(s) + PortText(s) + QueryText(u) + FragmentText(u);
    if u.query.None? && s.user.None? {
      assert RefText(u) == HostText(s) + PortText(s);
    }
  }

  lemma ConnectParts(u: Reference, s: Site)
    requires Written(u, s, true) && Proper(u, s, true)
    ensures u.authority == SiteText(s) && u.path == [] && u.schema.None?
    ensures u.query.None? ==> u.fragment.None?
  {
    hide IsSite, SiteText, Servers, PortValue;
    assert TextOf(u, s, Host) != [] && TextOf(u, s, Path) == [];
  }
}
