/** What route lookup finds, apart from how it searches: the keys that are followed, the parameters that are
    bound, and the resources that are reached. */
module RouteSearch {
  import opened Ascii
  import opened RouteTrie
  import CharacterTables

  // ----- paths -----

  predicate IsSegment(seg: bytes) { seg != [] && SLASH !in seg }

  function Slashes(n: nat): bytes { seq(n, _ => SLASH) }

  /** Segments written out, each behind some slashes. */
  function Spread(segs: seq<Segment>, gaps: seq<nat>): bytes
    requires |gaps| == |segs|
  {
    if segs == [] then [] else Slashes(gaps[0]) + segs[0] + Spread(segs[1..], gaps[1..])
  }

  lemma {:induction false} SkipSlashes(n: nat, rest: bytes)
    ensures SegmentsFrom([], Slashes(n) + rest) == SegmentsFrom([], rest)
  {
    if n == 0 {
      assert Slashes(0) + rest == rest;
    } else {
      var path := Slashes(n) + rest;
      assert path[0] == SLASH && path[1..] == Slashes(n - 1) + rest;
      SkipSlashes(n - 1, rest);
    }
  }

  lemma {:induction false} TakeSegment(current: bytes, seg: bytes, rest: bytes)
    requires SLASH !in seg
    ensures SegmentsFrom(current, seg + rest) == SegmentsFrom(current + seg, rest)
    decreases |seg|
  {
    if seg == [] {
      assert seg + rest == rest && current + seg == current;
    } else {
      var path := seg + rest;
      assert path[0] == seg[0] && path[1..] == seg[1..] + rest;
      assert seg[0] in seg;
      TakeSegment(current + [seg[0]], seg[1..], rest);
      assert current + [seg[0]] + seg[1..] == current + seg;
    }
  }

  /** A path is split into the segments it was put together from, however many slashes stand before,
      between and behind them. */
  lemma {:induction false} SegmentsBack(segs: seq<Segment>, gaps: seq<nat>, tail: nat)
    requires |gaps| == |segs| && forall i :: 0 <= i < |segs| ==> IsSegment(segs[i])
    requires forall i :: 1 <= i < |gaps| ==> gaps[i] > 0
    ensures Segments(Spread(segs, gaps) + Slashes(tail)) == segs
    decreases |segs|
  {
    if segs == [] {
      assert Spread(segs, gaps) + Slashes(tail) == Slashes(tail) + [];
      SkipSlashes(tail, []);
    } else {
      var seg := segs[0];
      var rest := Spread(segs[1..], gaps[1..]) + Slashes(tail);
      SegmentsBack(segs[1..], gaps[1..], tail);
      assert Spread(segs, gaps) + Slashes(tail) == Slashes(gaps[0]) + (seg + rest);
      SkipSlashes(gaps[0], seg + rest);
      TakeSegment([], seg, rest);
      assert [] + seg == seg;
      AfterSegment(segs, gaps, tail);
    }
  }

  lemma AfterSegment(segs: seq<Segment>, gaps: seq<nat>, tail: nat)
    requires segs != [] && |gaps| == |segs| && IsSegment(segs[0]) && forall i :: 1 <= i < |gaps| ==> gaps[i] > 0
    ensures var rest := Spread(segs[1..], gaps[1..]) + Slashes(tail);
            SegmentsFrom(segs[0], rest) == [segs[0]] + SegmentsFrom([], rest)
  {
    var rest := Spread(segs[1..], gaps[1..]) + Slashes(tail);
    if rest != [] { assert rest[0] == SLASH; }
  }

  /** `:name` is a string parameter, `#name` a number, and the words of the tables. */
  lemma PatternTable(seg: Segment)
    ensures IsParam(seg) <==> seg != [] && seg[0] as char in {':', '#'}
    ensures IsParam(seg) ==>
              ParamOf(seg) == Some(Param(seg[1..], if seg[0] as char == '#' then NumParam else StringParam))
    ensures PARAM_KEY == CharacterTables.Text("_path_param_") && SERVICE == CharacterTables.Text("SERVICE")
  {}

  // ----- the keys that are followed -----

  /** Every step takes the literal child if there is one, and otherwise the parameter. */
  ghost predicate Followed(rs: seq<Resource>, from: seq<Segment>, segs: seq<Segment>, keys: seq<Segment>)
  {
    && |keys| == |segs|
    && forall i :: 0 <= i < |keys| ==> StepTaken(rs, from + keys[..i], segs[i], keys[i])
  }

  predicate StepTaken(rs: seq<Resource>, at: seq<Segment>, seg: Segment, key: Segment)
  {
    if Known(rs, at + [seg]) then key == seg else key == PARAM_KEY && Known(rs, at + [PARAM_KEY])
  }

  lemma FollowedMore(rs: seq<Resource>, from: seq<Segment>, segs: seq<Segment>, keys: seq<Segment>)
    requires segs != [] && keys != []
    ensures Followed(rs, from, segs, keys) <==>
              StepTaken(rs, from, segs[0], keys[0]) && Followed(rs, from + [keys[0]], segs[1..], keys[1..])
  {
    hide StepTaken;
    assert from + keys[..0] == from;
    if Followed(rs, from, segs, keys) {
      assert StepTaken(rs, from + keys[..0], segs[0], keys[0]);
      forall i | 0 <= i < |keys[1..]|
        ensures StepTaken(rs, from + [keys[0]] + keys[1..][..i], segs[1..][i], keys[1..][i])
      {
        assert from + keys[..i + 1] == from + [keys[0]] + keys[1..][..i];
        assert StepTaken(rs, from + keys[..i + 1], segs[i + 1], keys[i + 1]);
      }
    }
    if StepTaken(rs, from, segs[0], keys[0]) && Followed(rs, from + [keys[0]], segs[1..], keys[1..]) {
      forall i | 0 <= i < |keys| ensures StepTaken(rs, from + keys[..i], segs[i], keys[i]) {
        if i > 0 {
          assert from + keys[..i] == from + [keys[0]] + keys[1..][..i - 1];
          assert StepTaken(rs, from + [keys[0]] + keys[1..][..i - 1], segs[1..][i - 1], keys[1..][i - 1]);
        }
      }
    }
  }

  /** The search finds the keys that are followed, and fails if and only if there are none. */
  lemma {:induction false} SearchExactly(rs: seq<Resource>, at: Found, segs: seq<Segment>, keys: seq<Segment>)
    ensures Followed(rs, at.keys, segs, keys) <==>
              Greedy(rs, at, segs).Some? && Greedy(rs, at, segs).value.keys == at.keys + keys
    ensures Greedy(rs, at, segs).Some? ==>
              var k := Greedy(rs, at, segs).value.keys;
              at.keys <= k && Followed(rs, at.keys, segs, k[|at.keys|..])
    decreases |segs|
  {
    hide Known, ParamAt;
    if segs == [] {
      assert at.keys + [] == at.keys;
      assert at.keys[|at.keys|..] == [];
    } else {
      var literal, param := at.keys + [segs[0]], at.keys + [PARAM_KEY];
      var key := if Known(rs, literal) then segs[0] else PARAM_KEY;
      if Known(rs, literal) || Known(rs, param) {
        var p := ParamAt(rs, param);
        var q := if p.Some? then at.params[p.value.name := (p.value.kind, segs[0])] else at.params;
        var next := if Known(rs, literal) then at.(keys := literal) else Found(param, q);
        assert Greedy(rs, at, segs) == Greedy(rs, next, segs[1..]);
        SearchStep(rs, at, segs, keys, key, next);
      } else if keys != [] {
        FollowedMore(rs, at.keys, segs, keys);
      }
    }
  }

  lemma {:induction false} SearchStep(rs: seq<Resource>, at: Found, segs: seq<Segment>, keys: seq<Segment>,
                                      key: Segment, next: Found)
    requires segs != [] && StepTaken(rs, at.keys, segs[0], key) && next.keys == at.keys + [key]
    requires Greedy(rs, at, segs) == Greedy(rs, next, segs[1..])
    ensures Followed(rs, at.keys, segs, keys) <==>
              Greedy(rs, at, segs).Some? && Greedy(rs, at, segs).value.keys == at.keys + keys
    ensures Greedy(rs, at, segs).Some? ==>
              var k := Greedy(rs, at, segs).value.keys;
              at.keys <= k && Followed(rs, at.keys, segs, k[|at.keys|..])
    decreases |segs|, 0
  {
    hide Known, Greedy, Followed;
    var g := Greedy(rs, next, segs[1..]);
    if keys == [] {
      SearchExactly(rs, next, segs[1..], []);
      NotFollowed(rs, at.keys, segs);
    } else {
      SearchExactly(rs, next, segs[1..], keys[1..]);
      FollowedMore(rs, at.keys, segs, keys);
      assert keys == [keys[0]] + keys[1..];
      OneStep(rs, at.keys, segs[0], keys[0], key);
    }
    if g.Some? {
      var k := g.value.keys;
      var tail := k[|at.keys|..];
      assert next.keys <= k && k == next.keys + k[|next.keys|..];
      assert tail == [key] + k[|next.keys|..];
      FollowedMore(rs, at.keys, segs, tail);
    }
  }

  lemma OneStep(rs: seq<Resource>, at: seq<Segment>, seg: Segment, a: Segment, b: Segment)
    requires StepTaken(rs, at, seg, b)
    ensures StepTaken(rs, at, seg, a) <==> a == b
  {}

  lemma NotFollowed(rs: seq<Resource>, from: seq<Segment>, segs: seq<Segment>)
    requires segs != []
    ensures !Followed(rs, from, segs, [])
  {}

  // ----- the parameters that are bound -----

  type Params = map<bytes, (ParamType, Segment)>

  /** What a step may bind: a name, its type and the segment. */
  datatype Binding = Nothing | Binding(name: bytes, kind: ParamType, seg: Segment)

  /** What step i binds: nothing where there is a literal child, and otherwise the parameter of the route. */
  function BoundAt(rs: seq<Resource>, from: seq<Segment>, segs: seq<Segment>, keys: seq<Segment>, i: nat): Binding
    requires i < |segs| == |keys|
  {
    var p := ParamAt(rs, from + keys[..i + 1]);
    if Known(rs, from + keys[..i] + [segs[i]]) || p.None? then Nothing
    else Binding(p.value.name, p.value.kind, segs[i])
  }

  function Bindings(rs: seq<Resource>, from: seq<Segment>, segs: seq<Segment>, keys: seq<Segment>): (b: seq<Binding>)
    requires |segs| == |keys|
    ensures |b| == |segs|
  {
    seq(|segs|, i requires 0 <= i < |segs| => BoundAt(rs, from, segs, keys, i))
  }

  lemma BindingsMore(rs: seq<Resource>, from: seq<Segment>, segs: seq<Segment>, keys: seq<Segment>)
    requires 0 < |segs| == |keys|
    ensures Bindings(rs, from, segs, keys)[1..] == Bindings(rs, from + [keys[0]], segs[1..], keys[1..])
  {
    hide Known, ParamAt;
    forall i | 1 <= i < |segs|
      ensures BoundAt(rs, from, segs, keys, i) == BoundAt(rs, from + [keys[0]], segs[1..], keys[1..], i - 1)
    {
      assert from + keys[..i] == from + [keys[0]] + keys[1..][..i - 1];
      assert from + keys[..i + 1] == from + [keys[0]] + keys[1..][..i];
    }
  }

  predicate Names(b: Binding, name: bytes) { b.Binding? && b.name == name }

  predicate NoneNames(bs: seq<Binding>, from: nat, name: bytes)
  {
    forall j :: from <= j < |bs| ==> !Names(bs[j], name)
  }

  predicate LastNames(bs: seq<Binding>, i: nat, name: bytes)
  {
    i < |bs| && Names(bs[i], name) && NoneNames(bs, i + 1, name)
  }

  /** A name has the value of the last binding that names it, and keeps what it had if none does. */
  ghost predicate HasLast(bs: seq<Binding>, before: Params, after: Params, name: bytes)
  {
    && (forall i: nat :: LastNames(bs, i, name) ==> name in after && after[name] == (bs[i].kind, bs[i].seg))
    && (NoneNames(bs, 0, name) ==>
          (name in after <==> name in before) && (name in after ==> after[name] == before[name]))
  }

  function Bound(params: Params, b: Binding): Params
  {
    if b.Binding? then params[b.name := (b.kind, b.seg)] else params
  }

  lemma NoneNamesLater(bs: seq<Binding>, from: nat, name: bytes)
    requires bs != []
    ensures NoneNames(bs[1..], from, name) <==> NoneNames(bs, from + 1, name)
  {
    if NoneNames(bs[1..], from, name) {
      forall j | from + 1 <= j < |bs| ensures !Names(bs[j], name) { assert bs[j] == bs[1..][j - 1]; }
    }
  }

  lemma LastMore(bs: seq<Binding>, before: Params, after: Params, name: bytes)
    requires bs != [] && HasLast(bs[1..], Bound(before, bs[0]), after, name)
    ensures HasLast(bs, before, after, name)
  {
    hide NoneNames;
    var rest := bs[1..];
    forall i: nat | LastNames(bs, i, name) ensures name in after && after[name] == (bs[i].kind, bs[i].seg) {
      if i == 0 {
        NoneNamesLater(bs, 0, name);
      } else {
        NoneNamesLater(bs, i, name);
        assert rest[i - 1] == bs[i];
        assert LastNames(rest, i - 1, name);
      }
    }
    if NoneNames(bs, 0, name) {
      NoneAtAll(bs, name);
      NoneNamesLater(bs, 0, name);
    }
  }

  lemma NoneAtAll(bs: seq<Binding>, name: bytes)
    requires bs != [] && NoneNames(bs, 0, name)
    ensures NoneNames(bs, 1, name) && !Names(bs[0], name)
  {}

  /** A parameter is bound only where no registered pattern has that literal, and keeps its last value. */
  lemma {:induction false} BoundExactly(rs: seq<Resource>, at: Found, segs: seq<Segment>, name: bytes)
    requires Greedy(rs, at, segs).Some?
    ensures var f := Greedy(rs, at, segs).value;
            && at.keys <= f.keys && |f.keys| == |at.keys| + |segs|
            && HasLast(Bindings(rs, at.keys, segs, f.keys[|at.keys|..]), at.params, f.params, name)
    decreases |segs|
  {
    hide Known, ParamAt, HasLast, Bindings;
    var f := Greedy(rs, at, segs).value;
    SearchExactly(rs, at, segs, []);
    var keys := f.keys[|at.keys|..];
    if segs == [] {
      NothingBound(rs, at, name);
    } else {
      var literal, param := at.keys + [segs[0]], at.keys + [PARAM_KEY];
      var p := ParamAt(rs, param);
      var q := if p.Some? then at.params[p.value.name := (p.value.kind, segs[0])] else at.params;
      var next := if Known(rs, literal) then at.(keys := literal) else Found(param, q);
      assert Greedy(rs, at, segs) == Greedy(rs, next, segs[1..]);
      BoundExactly(rs, next, segs[1..], name);
      FollowedMore(rs, at.keys, segs, keys);
      assert next.keys == at.keys + [keys[0]];
      assert f.keys[|next.keys|..] == keys[1..];
      assert at.keys + keys[..0] == at.keys && at.keys + keys[..1] == next.keys;
      BindingsMore(rs, at.keys, segs, keys);
      FirstBinding(rs, at.keys, segs, keys);
      LastMore(Bindings(rs, at.keys, segs, keys), at.params, f.params, name);
    }
  }

  lemma FirstBinding(rs: seq<Resource>, from: seq<Segment>, segs: seq<Segment>, keys: seq<Segment>)
    requires 0 < |segs| == |keys|
    ensures Bindings(rs, from, segs, keys)[0] == BoundAt(rs, from, segs, keys, 0)
  {}

  lemma NothingBound(rs: seq<Resource>, at: Found, name: bytes)
    ensures HasLast(Bindings(rs, at.keys, [], []), at.params, at.params, name)
  {}

  // ----- the resources that are reached -----

  /** The action is that of the one resource for route and method, or else for route and SERVICE. */
  lemma ActionExactly(rs: seq<Resource>, keys: seq<Segment>, verb: Verb, r: Resource)
    requires Distinct(rs) && r in rs && KeysOf(r.segs) == keys
    ensures r.verb == verb ==> ActionAt(rs, keys, verb) == Some(r.handler)
    ensures r.verb == SERVICE && (forall q :: q in rs ==> !Matches(q, keys, verb)) ==>
              ActionAt(rs, keys, verb) == Some(r.handler)
  {
    hide HandlerAt, KeysOf, SERVICE;
    HandlerFound(rs, keys, verb);
    HandlerFound(rs, keys, SERVICE);
  }

  lemma NoAction(rs: seq<Resource>, keys: seq<Segment>, verb: Verb)
    ensures ActionAt(rs, keys, verb).None? <==>
              forall q :: q in rs ==> !Matches(q, keys, verb) && !Matches(q, keys, SERVICE)
  {
    hide HandlerAt, Matches, SERVICE;
    HandlerFound(rs, keys, verb);
    HandlerFound(rs, keys, SERVICE);
  }

  /** The path fits the pattern, and no parameter of it is shadowed by a literal. */
  ghost predicate Reaches(rs: seq<Resource>, r: Resource, segs: seq<Segment>)
  {
    && |segs| == |r.segs|
    && forall i :: 0 <= i < |segs| ==>
         if IsParam(r.segs[i]) then !Known(rs, KeysOf(r.segs)[..i] + [segs[i]]) else segs[i] == r.segs[i]
  }

  /** Registered, then found: a path that reaches a resource gets its handler. */
  lemma RegisteredIsFound(rs: seq<Resource>, r: Resource, segs: seq<Segment>)
    requires Distinct(rs) && r in rs && Reaches(rs, r, segs)
    ensures var f := Lookup(rs, r.verb, segs);
            f.Some? && f.value.0.keys == KeysOf(r.segs) && f.value.1 == Some(r.handler)
  {
    hide Greedy, HandlerAt, Known, Distinct;
    var keys := KeysOf(r.segs);
    forall i | 0 <= i < |keys| ensures StepTaken(rs, [] + keys[..i], segs[i], keys[i]) {
      PatternStep(rs, r, segs, i);
    }
    SearchExactly(rs, NOWHERE, segs, keys);
    assert [] + keys == keys;
    ActionExactly(rs, keys, r.verb, r);
  }

  lemma PatternStep(rs: seq<Resource>, r: Resource, segs: seq<Segment>, i: nat)
    requires r in rs && Reaches(rs, r, segs) && i < |segs|
    ensures StepTaken(rs, [] + KeysOf(r.segs)[..i], segs[i], KeysOf(r.segs)[i])
  {
    hide PARAM_KEY;
    var keys := KeysOf(r.segs);
    assert [] + keys[..i] == keys[..i] && keys[..i + 1] == keys[..i] + [keys[i]];
    var k :| 0 <= k < |rs| && rs[k] == r;
    assert Begins(rs[k], keys[..i + 1]);
  }

  /** A resource without parameters is found by its own path, and binds nothing. */
  lemma LiteralIsFound(rs: seq<Resource>, r: Resource)
    requires Distinct(rs) && r in rs && forall i :: 0 <= i < |r.segs| ==> !IsParam(r.segs[i])
    ensures Lookup(rs, r.verb, r.segs) == Some((Found(r.segs, map[]), Some(r.handler)))
  {
    hide Greedy, HandlerAt, Known, Distinct, IsParam, HasLast;
    assert KeysOf(r.segs) == r.segs;
    RegisteredIsFound(rs, r, r.segs);
    var f := Greedy(rs, NOWHERE, r.segs).value;
    forall name ensures name !in f.params { BindsNothing(rs, r, name); }
    assert f.params == map[];
  }

  lemma BindsNothing(rs: seq<Resource>, r: Resource, name: bytes)
    requires r in rs && KeysOf(r.segs) == r.segs
    requires Greedy(rs, NOWHERE, r.segs).Some? && Greedy(rs, NOWHERE, r.segs).value.keys == r.segs
    ensures name !in Greedy(rs, NOWHERE, r.segs).value.params
  {
    hide Greedy, Known, ParamAt, LastNames;
    BoundExactly(rs, NOWHERE, r.segs, name);
    var bs := Bindings(rs, [], r.segs, r.segs);
    assert r.segs[0..] == r.segs;
    forall i | 0 <= i < |bs| ensures !Names(bs[i], name) { LiteralKnown(rs, r, i); }
  }

  lemma LiteralKnown(rs: seq<Resource>, r: Resource, i: nat)
    requires r in rs && i < |r.segs| && KeysOf(r.segs) == r.segs
    ensures Known(rs, [] + r.segs[..i] + [r.segs[i]])
  {
    assert [] + r.segs[..i] + [r.segs[i]] == r.segs[..i + 1];
    var k :| 0 <= k < |rs| && rs[k] == r;
    assert Begins(rs[k], r.segs[..i + 1]);
  }

  /** The literal comes before the parameter: `/u/n` is found although `/u/:i` was registered too. */
  lemma LiteralFirst(u: Segment, n: Segment, i: Segment, verb: Verb)
    requires !IsParam(u) && !IsParam(n) && IsParam(i) && n != PARAM_KEY
    ensures var rs := [Resource([u, i], verb, 1), Resource([u, n], verb, 2)];
            Lookup(rs, verb, [u, n]) == Some((Found([u, n], map[]), Some(2)))
  {
    hide Lookup, IsParam, PARAM_KEY;
    var rs := [Resource([u, i], verb, 1), Resource([u, n], verb, 2)];
    assert KeysOf([u, i])[1] == PARAM_KEY && KeysOf([u, n])[1] == n;
    LiteralIsFound(rs, rs[1]);
  }
}
