/** The routes of a web application (lib/luaw_webapp.lua): nested tables keyed by path segment, with one
    key for all parameters, grown by registration and searched without backtracking. */
module RouteTrie {
  import opened Ascii

  type Segment = bytes
  type Verb = bytes
  type Handler = nat

  /** `_path_param_` */
  const PARAM_KEY: Segment := [95, 112, 97, 116, 104, 95, 112, 97, 114, 97, 109, 95]
  /** `SERVICE` */
  const SERVICE: Verb := [83, 69, 82, 86, 73, 67, 69]
  const SLASH: byte := 47

  // ----- splitting a path -----

  /** The non-empty stretches between slashes. */
  function Segments(path: bytes): seq<Segment> { SegmentsFrom([], path) }

  /** The segments of the rest, given what has been read of the current one. */
  function SegmentsFrom(current: bytes, rest: bytes): seq<Segment>
    decreases |rest|
  {
    if rest == [] then (if current == [] then [] else [current])
    else if rest[0] == SLASH then (if current == [] then [] else [current]) + SegmentsFrom([], rest[1..])
    else SegmentsFrom(current + [rest[0]], rest[1..])
  }

  /** One call of the splitter: the next segment and the position to go on from, or nothing. Positions
      are Lua's, so a position is the number of bytes behind it. */
  method Splitter(str: bytes, pos: nat) returns (r: Option<(nat, Segment)>)
    requires pos <= |str| + 1
    ensures pos > |str| ==> r.None?
    ensures pos <= |str| ==>
              match r
              case None => SegmentsFrom([], str[pos..]) == []
              case Some((next, seg)) =>
                && pos < next <= |str| + 1 && seg != []
                && SegmentsFrom([], str[pos..]) == [seg] + (if next <= |str| then SegmentsFrom([], str[next..]) else [])
  {
    var p := pos + 1;
    var start := p;
    while p <= |str|
      invariant pos < start <= p && (pos <= |str| ==> p <= |str| + 1) && (pos > |str| ==> p == start)
      invariant pos <= |str| ==> SegmentsFrom([], str[pos..]) == SegmentsFrom(str[start - 1..p - 1], str[p - 1..])
      decreases |str| + 1 - p
    {
      ScanOne(str, start, p);
      if str[p - 1] == SLASH {
        if p > start {
          return Some((p, str[start - 1..p - 1]));
        }
        start := p + 1;
      }
      p := p + 1;
    }
    if p > start {
      assert str[p - 1..] == [];
      return Some((p, str[start - 1..p - 1]));
    }
    return None;
  }

  lemma ScanOne(str: bytes, start: nat, p: nat)
    requires 1 <= start <= p <= |str|
    ensures var cur, rest := str[start - 1..p - 1], str[p - 1..];
            if str[p - 1] == SLASH
            then SegmentsFrom(cur, rest) == (if cur == [] then [] else [cur]) + SegmentsFrom(str[p..p], str[p..])
            else SegmentsFrom(cur, rest) == SegmentsFrom(str[start - 1..p], str[p..])
  {
    var cur, rest := str[start - 1..p - 1], str[p - 1..];
    assert rest[0] == str[p - 1] && rest[1..] == str[p..];
    assert str[start - 1..p] == cur + [str[p - 1]];
    assert str[p..p] == [];
  }

  /** The loop over a path, as both registration and lookup run it. */
  method SplitPath(path: bytes) returns (segs: seq<Segment>)
    ensures segs == Segments(path)
  {
    hide SegmentsFrom;
    segs := [];
    var pos := 0;
    assert path[0..] == path;
    while true
      invariant pos <= |path| + 1
      invariant Segments(path) == segs + (if pos <= |path| then SegmentsFrom([], path[pos..]) else [])
      decreases |path| + 1 - pos
    {
      var r := Splitter(path, pos);
      if r.None? {
        return;
      }
      segs := segs + [r.value.1];
      pos := r.value.0;
    }
  }

  // ----- registered resources -----

  datatype ParamType = StringParam | NumParam
  datatype Param = Param(name: bytes, kind: ParamType)

  datatype Resource = Resource(segs: seq<Segment>, verb: Verb, handler: Handler)

  /** `:name` and `#name` are parameters. */
  predicate IsParam(seg: Segment) { seg != [] && (seg[0] == 58 || seg[0] == 35) }

  function KeyOf(seg: Segment): Segment { if IsParam(seg) then PARAM_KEY else seg }

  function ParamOf(seg: Segment): Option<Param>
  {
    if IsParam(seg) then Some(Param(seg[1..], if seg[0] == 35 then NumParam else StringParam)) else None
  }

  function KeysOf(segs: seq<Segment>): (keys: seq<Segment>)
    ensures |keys| == |segs|
  {
    seq(|segs|, i requires 0 <= i < |segs| => KeyOf(segs[i]))
  }

  /** No literal segment is the parameter key. */
  predicate NoClash(r: Resource) { PARAM_KEY !in r.segs }

  /** The patterns that begin with these keys. */
  predicate Begins(r: Resource, keys: seq<Segment>) { keys <= KeysOf(r.segs) }

  predicate Known(rs: seq<Resource>, keys: seq<Segment>)
  {
    keys == [] || exists i :: 0 <= i < |rs| && Begins(rs[i], keys)
  }

  /** The first resource registered under these keys. */
  function FirstWith(rs: seq<Resource>, keys: seq<Segment>): (i: nat)
    ensures i <= |rs| && (forall j :: 0 <= j < i ==> !Begins(rs[j], keys)) && (i < |rs| ==> Begins(rs[i], keys))
  {
    if rs == [] then 0
    else
      var init := rs[..|rs| - 1];
      var i := FirstWith(init, keys);
      if i < |init| then i else if Begins(rs[|rs| - 1], keys) then |rs| - 1 else |rs|
  }

  /** The parameter of a route is the one of the resource that created it. */
  function ParamAt(rs: seq<Resource>, keys: seq<Segment>): Option<Param>
  {
    var i := FirstWith(rs, keys);
    if keys == [] || i == |rs| then None else ParamOf(rs[i].segs[|keys| - 1])
  }

  /** A resource for exactly this route and method. */
  predicate Matches(r: Resource, keys: seq<Segment>, verb: Verb) { KeysOf(r.segs) == keys && r.verb == verb }

  function HandlerAt(rs: seq<Resource>, keys: seq<Segment>, verb: Verb): Option<Handler>
  {
    if rs == [] then None
    else if Matches(rs[|rs| - 1], keys, verb) then Some(rs[|rs| - 1].handler)
    else HandlerAt(rs[..|rs| - 1], keys, verb)
  }

  // ----- the greedy reference -----

  datatype Found = Found(keys: seq<Segment>, params: map<bytes, (ParamType, Segment)>)

  /** A literal child first, then the parameter, and no way back. */
  function Greedy(rs: seq<Resource>, at: Found, segs: seq<Segment>): Option<Found>
    decreases |segs|
  {
    if segs == [] then Some(at)
    else
      var literal, param := at.keys + [segs[0]], at.keys + [PARAM_KEY];
      if Known(rs, literal) then Greedy(rs, at.(keys := literal), segs[1..])
      else if Known(rs, param) then
        var p := ParamAt(rs, param);
        var q := if p.Some? then at.params[p.value.name := (p.value.kind, segs[0])] else at.params;
        Greedy(rs, Found(param, q), segs[1..])
      else None
  }

  /** The action of a route: that of the method, or the one for any method. */
  function ActionAt(rs: seq<Resource>, keys: seq<Segment>, verb: Verb): Option<Handler>
  {
    var h := HandlerAt(rs, keys, verb);
    if h.Some? then h else HandlerAt(rs, keys, SERVICE)
  }

  const NOWHERE := Found([], map[])

  function Lookup(rs: seq<Resource>, verb: Verb, segs: seq<Segment>): Option<(Found, Option<Handler>)>
  {
    match Greedy(rs, NOWHERE, segs)
    case None => None
    case Some(f) => Some((f, ActionAt(rs, f.keys, verb)))
  }

  // ----- the order of registration -----

  /** The same resources, in whatever order. */
  ghost predicate SameResources(rs: seq<Resource>, qs: seq<Resource>) { forall r :: r in rs <==> r in qs }

  /** No two resources for one route and method. */
  ghost predicate Distinct(rs: seq<Resource>)
  {
    forall r, q :: r in rs && q in rs && r.verb == q.verb && KeysOf(r.segs) == KeysOf(q.segs) ==> r == q
  }

  lemma KnownSame(rs: seq<Resource>, qs: seq<Resource>, keys: seq<Segment>)
    requires SameResources(rs, qs)
    ensures Known(rs, keys) <==> Known(qs, keys)
  {
    hide Begins;
    if Known(rs, keys) && keys != [] {
      var i :| 0 <= i < |rs| && Begins(rs[i], keys);
      assert rs[i] in qs;
    }
    if Known(qs, keys) && keys != [] {
      var i :| 0 <= i < |qs| && Begins(qs[i], keys);
      assert qs[i] in rs;
    }
  }

  lemma {:induction false} HandlerFound(rs: seq<Resource>, keys: seq<Segment>, verb: Verb)
    ensures HandlerAt(rs, keys, verb).Some? <==> exists r :: r in rs && Matches(r, keys, verb)
    ensures HandlerAt(rs, keys, verb).Some? ==>
              exists r :: r in rs && Matches(r, keys, verb) && r.handler == HandlerAt(rs, keys, verb).value
    decreases |rs|
  {
    hide Matches;
    if rs != [] {
      var init, last := rs[..|rs| - 1], rs[|rs| - 1];
      HandlerFound(init, keys, verb);
      assert forall r :: r in rs <==> r in init || r == last;
    }
  }

  lemma HandlerSame(rs: seq<Resource>, qs: seq<Resource>, keys: seq<Segment>, verb: Verb)
    requires SameResources(rs, qs) && Distinct(rs)
    ensures HandlerAt(rs, keys, verb) == HandlerAt(qs, keys, verb)
  {
    hide HandlerAt;
    HandlerFound(rs, keys, verb);
    HandlerFound(qs, keys, verb);
  }

  /** The route found, and with it the handler, does not depend on the order of registration. */
  lemma {:induction false} GreedySame(rs: seq<Resource>, qs: seq<Resource>, a: Found, b: Found, segs: seq<Segment>)
    requires SameResources(rs, qs) && a.keys == b.keys
    ensures var f, g := Greedy(rs, a, segs), Greedy(qs, b, segs);
            f.Some? == g.Some? && (f.Some? ==> f.value.keys == g.value.keys)
    decreases |segs|
  {
    hide Known, ParamAt, SameResources;
    if segs != [] {
      var literal, param := a.keys + [segs[0]], a.keys + [PARAM_KEY];
      KnownSame(rs, qs, literal);
      KnownSame(rs, qs, param);
      if Known(rs, literal) {
        GreedySame(rs, qs, a.(keys := literal), b.(keys := literal), segs[1..]);
      } else if Known(rs, param) {
        var p, q := ParamAt(rs, param), ParamAt(qs, param);
        var x := if p.Some? then a.params[p.value.name := (p.value.kind, segs[0])] else a.params;
        var y := if q.Some? then b.params[q.value.name := (q.value.kind, segs[0])] else b.params;
        GreedySame(rs, qs, Found(param, x), Found(param, y), segs[1..]);
      }
    }
  }

  lemma OrderDoesNotMatter(rs: seq<Resource>, qs: seq<Resource>, verb: Verb, segs: seq<Segment>)
    requires SameResources(rs, qs) && Distinct(rs)
    ensures var f, g := Lookup(rs, verb, segs), Lookup(qs, verb, segs);
            f.Some? == g.Some? && (f.Some? ==> f.value.1 == g.value.1 && f.value.0.keys == g.value.0.keys)
  {
    hide Greedy, HandlerAt, SameResources, Distinct;
    GreedySame(rs, qs, NOWHERE, NOWHERE, segs);
    var f := Greedy(rs, NOWHERE, segs);
    if f.Some? {
      HandlerSame(rs, qs, f.value.keys, verb);
      HandlerSame(rs, qs, f.value.keys, SERVICE);
    }
  }

  // ----- the trie -----

  /** A node of the nested tables; the path of keys that leads to it is its index. */
  datatype Route = Route(param: Option<Param>, handlers: map<Verb, Handler>)

  type Routes = map<seq<Segment>, Route>

  ghost predicate Answers(route: Route, rs: seq<Resource>, keys: seq<Segment>)
  {
    forall v: Verb :: HandlerAt(rs, keys, v) == if v in route.handlers then Some(route.handlers[v]) else None
  }

  /** The tables hold exactly the beginnings of the registered patterns, each with its parameter and its
      handlers. */
  ghost predicate Trie(routes: Routes, rs: seq<Resource>)
  {
    && (forall k :: k in routes <==> Known(rs, k))
    && (forall k :: k in routes ==> routes[k].param == ParamAt(rs, k) && Answers(routes[k], rs, k))
  }

  /** The tables while a resource is being added: the first n of its routes are there. */
  ghost predicate Growing(routes: Routes, rs: seq<Resource>, r: Resource, n: nat)
    requires n <= |r.segs|
  {
    && (forall k :: k in routes <==> Known(rs, k) || k <= KeysOf(r.segs)[..n])
    && (forall k :: k in routes ==>
          && Answers(routes[k], rs, k)
          && routes[k].param == if Known(rs, k) || |k| > |r.segs| || k == [] then ParamAt(rs, k)
                                else ParamOf(r.segs[|k| - 1]))
  }

  lemma BeginGrowing(routes: Routes, rs: seq<Resource>, r: Resource)
    requires Trie(routes, rs)
    ensures Growing(routes, rs, r, 0)
  {
    hide Answers, ParamAt;
    assert KeysOf(r.segs)[..0] == [];
  }

  /** Prefixes one longer. */
  lemma OneKeyMore(keys: seq<Segment>, n: nat, k: seq<Segment>)
    requires n < |keys|
    ensures k <= keys[..n + 1] <==> k <= keys[..n] || k == keys[..n + 1]
    ensures keys[..n + 1] == keys[..n] + [keys[n]]
  {
    if k <= keys[..n + 1] && |k| <= n { assert k == keys[..n + 1][..|k|] == keys[..n][..|k|]; }
    if k <= keys[..n + 1] && |k| == n + 1 { assert k == keys[..n + 1]; }
    if k <= keys[..n] { assert k == keys[..n][..|k|] == keys[..n + 1][..|k|]; }
  }

  lemma {:induction false} NoHandlersUnknown(rs: seq<Resource>, k: seq<Segment>, v: Verb)
    requires !Known(rs, k)
    ensures HandlerAt(rs, k, v).None?
    decreases |rs|
  {
    if rs != [] {
      var init, last := rs[..|rs| - 1], rs[|rs| - 1];
      assert !Begins(last, k) by { assert rs[|rs| - 1] == last; }
      assert forall i :: 0 <= i < |init| ==> init[i] == rs[i];
      NoHandlersUnknown(init, k, v);
    }
  }

  lemma NewRoute(routes: Routes, rs: seq<Resource>, r: Resource, n: nat)
    requires n < |r.segs| && Growing(routes, rs, r, n)
    ensures var next := KeysOf(r.segs)[..n + 1];
            Growing(if next in routes then routes else routes[next := Route(ParamOf(r.segs[n]), map[])], rs, r, n + 1)
  {
    hide Known, ParamAt, ParamOf, Answers, KeysOf, HandlerAt;
    var keys := KeysOf(r.segs);
    var next := keys[..n + 1];
    var now := if next in routes then routes else routes[next := Route(ParamOf(r.segs[n]), map[])];
    if next !in routes { NoAnswersYet(rs, next, ParamOf(r.segs[n])); }
    forall k ensures k in now <==> Known(rs, k) || k <= keys[..n + 1] { OneKeyMore(keys, n, k); }
  }

  lemma NoAnswersYet(rs: seq<Resource>, k: seq<Segment>, p: Option<Param>)
    requires !Known(rs, k)
    ensures Answers(Route(p, map[]), rs, k)
  {
    hide Known, HandlerAt;
    forall v: Verb ensures HandlerAt(rs, k, v).None? { NoHandlersUnknown(rs, k, v); }
  }

  lemma KnownMore(rs: seq<Resource>, r: Resource, k: seq<Segment>)
    ensures Known(rs + [r], k) <==> Known(rs, k) || k <= KeysOf(r.segs)
    ensures ParamAt(rs + [r], k) == (if Known(rs, k) || k == [] || !(k <= KeysOf(r.segs)) then ParamAt(rs, k)
                                     else ParamOf(r.segs[|k| - 1]))
  {
    hide ParamOf, KeysOf;
    var more := rs + [r];
    assert forall i :: 0 <= i < |rs| ==> more[i] == rs[i];
    assert more[|rs|] == r && more[..|rs|] == rs;
    assert Begins(r, k) <==> k <= KeysOf(r.segs);
  }

  lemma HandlerMore(rs: seq<Resource>, r: Resource, k: seq<Segment>, v: Verb)
    ensures HandlerAt(rs + [r], k, v) == if Matches(r, k, v) then Some(r.handler) else HandlerAt(rs, k, v)
  {
    assert (rs + [r])[..|rs|] == rs;
  }

  /** All routes of the resource are there, and its handler is put in the last. */
  lemma Registered(routes: Routes, rs: seq<Resource>, r: Resource)
    requires Growing(routes, rs, r, |r.segs|) && KeysOf(r.segs) in routes
    ensures var keys := KeysOf(r.segs);
            Trie(routes[keys := routes[keys].(handlers := routes[keys].handlers[r.verb := r.handler])], rs + [r])
  {
    hide Known, ParamAt, ParamOf, KeysOf, HandlerAt;
    var keys := KeysOf(r.segs);
    assert keys[..|r.segs|] == keys;
    var now := routes[keys := routes[keys].(handlers := routes[keys].handlers[r.verb := r.handler])];
    forall k ensures k in now <==> Known(rs + [r], k) { KnownMore(rs, r, k); }
    forall k | k in now ensures now[k].param == ParamAt(rs + [r], k) && Answers(now[k], rs + [r], k) {
      KnownMore(rs, r, k);
      forall v: Verb
        ensures HandlerAt(rs + [r], k, v) == if v in now[k].handlers then Some(now[k].handlers[v]) else None
      {
        HandlerMore(rs, r, k, v);
        assert Answers(routes[k], rs, k);
      }
    }
  }

  /** A handler that is already there shows that no route was new. */
  lemma NothingNew(routes: Routes, rs: seq<Resource>, r: Resource)
    requires Growing(routes, rs, r, |r.segs|) && KeysOf(r.segs) in routes && r.verb in routes[KeysOf(r.segs)].handlers
    ensures Trie(routes, rs) && HandlerAt(rs, KeysOf(r.segs), r.verb).Some?
  {
    hide ParamAt, ParamOf, KeysOf, HandlerAt, Known;
    var keys := KeysOf(r.segs);
    assert keys[..|r.segs|] == keys;
    assert Answers(routes[keys], rs, keys);
    HandlerFound(rs, keys, r.verb);
    var q :| q in rs && Matches(q, keys, r.verb);
    forall k | k <= keys ensures Known(rs, k) { BeginningKnown(rs, q, k); }
    NotGrown(routes, rs, r);
  }

  lemma BeginningKnown(rs: seq<Resource>, q: Resource, k: seq<Segment>)
    requires q in rs && k <= KeysOf(q.segs)
    ensures Known(rs, k)
  {
    hide KeysOf;
    var i :| 0 <= i < |rs| && rs[i] == q;
    assert Begins(rs[i], k);
  }

  lemma NotGrown(routes: Routes, rs: seq<Resource>, r: Resource)
    requires Growing(routes, rs, r, |r.segs|) && forall k :: k <= KeysOf(r.segs) ==> Known(rs, k)
    ensures Trie(routes, rs)
  {
    hide ParamAt, ParamOf, KeysOf, Answers, Known;
    var keys := KeysOf(r.segs);
    assert keys[..|r.segs|] == keys;
  }

  /** Under parameter keys there is always a parameter to name. */
  lemma ParamsAreNamed(rs: seq<Resource>, keys: seq<Segment>)
    requires forall i :: 0 <= i < |rs| ==> NoClash(rs[i])
    requires Known(rs, keys) && keys != [] && keys[|keys| - 1] == PARAM_KEY
    ensures ParamAt(rs, keys).Some?
  {
    hide PARAM_KEY;
    var i := FirstWith(rs, keys);
    var seg := rs[i].segs[|keys| - 1];
    assert KeysOf(rs[i].segs)[|keys| - 1] == KeyOf(seg) == PARAM_KEY;
    assert seg in rs[i].segs;
  }

  class WebApp {
    var routes: Routes
    ghost var registered: seq<Resource>

    ghost predicate Valid()
      reads this
    {
      Trie(routes, registered) && Distinct(registered) && forall i :: 0 <= i < |registered| ==> NoClash(registered[i])
    }

    /** A web application with only its root. */
    constructor ()
      ensures Valid() && registered == []
    {
      routes, registered := map[[] := Route(None, map[])], [];
    }

    /** registerResource: the resource is added, unless its route already has a handler for its method;
        then nothing changes. */
    method RegisterResource(path: bytes, verb: Verb, handler: Handler) returns (ok: bool)
      requires Valid() && PARAM_KEY !in Segments(path)
      modifies this
      ensures Valid()
      ensures var r := Resource(Segments(path), verb, handler);
              && ok == HandlerAt(old(registered), KeysOf(r.segs), verb).None?
              && registered == if ok then old(registered) + [r] else old(registered)
    {
      hide Trie, Growing, KeysOf, ParamOf, HandlerAt, Segments, PARAM_KEY, Distinct;
      var segs := SplitPath(path);
      ghost var r := Resource(segs, verb, handler);
      ghost var keys := KeysOf(segs);
      var route: seq<Segment> := [];
      BeginGrowing(routes, registered, r);
      var i := 0;
      while i < |segs|
        invariant 0 <= i <= |segs| && route == keys[..i] && Growing(routes, registered, r, i)
                  && registered == old(registered)
      {
        var pathParam := ParamOf(segs[i]);
        var pseg := KeyOf(segs[i]);
        NewRoute(routes, registered, r, i);
        NextKey(segs, i);
        var nextRoute := route + [pseg];
        if nextRoute !in routes {
          routes := routes[nextRoute := Route(pathParam, map[])];
        }
        route := nextRoute;
        i := i + 1;
      }
      assert keys[..i] == keys;
      LastRoute(routes, registered, r);
      if verb in routes[route].handlers {
        NothingNew(routes, registered, r);
        return false;
      }
      Registered(routes, registered, r);
      StaysDistinct(registered, r);
      routes := routes[route := routes[route].(handlers := routes[route].handlers[verb := handler])];
      registered := registered + [r];
      ok := true;
    }

    /** findAction within an application, on the segments behind its own: what the greedy reference finds. */
    method FindAction(verb: Verb, segs: seq<Segment>) returns (r: Option<(Found, Option<Handler>)>)
      requires Valid()
      ensures r == Lookup(registered, verb, segs)
    {
      hide Known, ParamAt, HandlerAt, PARAM_KEY, Distinct;
      var at := NOWHERE;
      RootKnown(registered);
      var i := 0;
      assert segs[0..] == segs;
      while i < |segs|
        invariant 0 <= i <= |segs| && at.keys in routes
        invariant Greedy(registered, at, segs[i..]) == Greedy(registered, NOWHERE, segs)
      {
        var pseg := segs[i];
        var literal, param := at.keys + [pseg], at.keys + [PARAM_KEY];
        assert segs[i..][0] == pseg && segs[i..][1..] == segs[i + 1..];
        if literal in routes {
          at := at.(keys := literal);
        } else if param in routes {
          ParamsAreNamed(registered, param);
          var p := routes[param].param.value;
          at := Found(param, at.params[p.name := (p.kind, pseg)]);
        } else {
          return None;
        }
        i := i + 1;
      }
      assert segs[i..] == [];
      var route := routes[at.keys];
      assert Answers(route, registered, at.keys);
      var action := if verb in route.handlers then Some(route.handlers[verb])
                    else if SERVICE in route.handlers then Some(route.handlers[SERVICE])
                    else None;
      r := Some((at, action));
    }
  }

  /** The name under which an application answers for every path that no other claims. */
  const ROOT_APP: Segment := [SLASH]

  /** The application of a path: the one named like its first segment, or else the root application. */
  function AppFor(names: set<Segment>, segs: seq<Segment>): Option<Segment>
  {
    if segs == [] then None
    else if segs[0] in names then Some(segs[0])
    else if ROOT_APP in names then Some(ROOT_APP)
    else None
  }

  /** findAction: the first segment chooses the application, and only the segments behind it are looked up,
      also where the root application has been chosen for want of another. */
  method FindActionIn(apps: map<Segment, WebApp>, verb: Verb, path: bytes)
    returns (r: Option<(Segment, Found, Option<Handler>)>)
    requires forall a :: a in apps ==> apps[a].Valid()
    ensures var segs := Segments(path);
            match AppFor(apps.Keys, segs)
            case None => r.None?
            case Some(a) =>
              match Lookup(apps[a].registered, verb, segs[1..])
              case None => r.None?
              case Some((f, h)) => r == Some((a, f, h))
  {
    hide Lookup, Segments;
    var segs := SplitPath(path);
    if segs == [] {
      return None;
    }
    var name := if segs[0] in apps then segs[0] else ROOT_APP;
    if name !in apps {
      return None;
    }
    var found := apps[name].FindAction(verb, segs[1..]);
    r := if found.None? then None else Some((name, found.value.0, found.value.1));
  }

  lemma RootKnown(rs: seq<Resource>)
    ensures Known(rs, [])
  {}

  lemma NextKey(segs: seq<Segment>, i: nat)
    requires i < |segs|
    ensures KeysOf(segs)[..i + 1] == KeysOf(segs)[..i] + [KeyOf(segs[i])]
  {}

  lemma LastRoute(routes: Routes, rs: seq<Resource>, r: Resource)
    requires Growing(routes, rs, r, |r.segs|)
    ensures KeysOf(r.segs) in routes
    ensures r.verb in routes[KeysOf(r.segs)].handlers <==> HandlerAt(rs, KeysOf(r.segs), r.verb).Some?
  {
    hide KeysOf, HandlerAt;
    var keys := KeysOf(r.segs);
    assert keys[..|r.segs|] == keys;
    assert keys <= keys;
    assert Answers(routes[keys], rs, keys);
  }

  /** A resource that finds its place free differs from all before it. */
  lemma StaysDistinct(rs: seq<Resource>, r: Resource)
    requires Distinct(rs) && HandlerAt(rs, KeysOf(r.segs), r.verb).None?
    ensures Distinct(rs + [r])
  {
    hide HandlerAt, KeysOf;
    HandlerFound(rs, KeysOf(r.segs), r.verb);
    forall p, q | p in rs + [r] && q in rs + [r] && p.verb == q.verb && KeysOf(p.segs) == KeysOf(q.segs)
      ensures p == q
    {
      assert p in rs ==> !Matches(p, KeysOf(r.segs), r.verb);
      assert q in rs ==> !Matches(q, KeysOf(r.segs), r.verb);
    }
  }
}
