/** Form parameters: the encoder of lib/luaw_http.lua and the in-place decoder of
    src/luaw_http_parser.c. */
module FormCodec {
  import opened Ascii
  import opened HttpLengths

  const AMPERSAND: byte := 38
  const EQUALS: byte := 61
  const PERCENT: byte := 37
  const PLUS: byte := 43

  // ----- percent escapes -----

  function Escape(x: byte, y: byte): byte
    requires IsHex(x) && IsHex(y)
  {
    HexDigitValue(x) * 16 + HexDigitValue(y)
  }

  /** Every escape that has room for two digits has them. */
  predicate Escaped(s: bytes)
  {
    forall i :: 0 <= i < |s| - 2 && s[i] == PERCENT ==> IsHex(s[i + 1]) && IsHex(s[i + 2])
  }

  lemma EscapedSuffix(s: bytes, k: nat)
    requires Escaped(s) && k <= |s|
    ensures Escaped(s[k..])
  {
    hide IsHex;
    var t := s[k..];
    forall i | 0 <= i < |t| - 2 && t[i] == PERCENT ensures IsHex(t[i + 1]) && IsHex(t[i + 2]) {
      assert s[k + i] == PERCENT && s[k + i + 1] == t[i + 1] && s[k + i + 2] == t[i + 2];
    }
  }

  /** The text with its escapes replaced (section 2.1 of RFC 3986); a percent sign too close to the end
      stands for itself. */
  function Unescape(s: bytes): (r: bytes)
    requires Escaped(s)
    ensures |r| <= |s|
    decreases |s|
  {
    if s == [] then []
    else if s[0] == PERCENT && |s| > 2 then
      EscapedSuffix(s, 3);
      [Escape(s[1], s[2])] + Unescape(s[3..])
    else
      EscapedSuffix(s, 1);
      [s[0]] + Unescape(s[1..])
  }

  lemma {:induction false} NothingToUnescape(s: bytes)
    requires PERCENT !in s
    ensures Escaped(s) && Unescape(s) == s
    decreases |s|
  {
    if s != [] { NothingToUnescape(s[1..]); }
  }

  /** A buffer in the middle of being rewritten: up to w unescaped text, from r on as it was. */
  ghost predicate Rewriting(was: bytes, now: bytes, off: nat, end: nat, r: nat, w: nat)
  {
    && off <= w <= r <= end <= |was| == |now| && Escaped(was[off..end]) && Escaped(was[r..end])
    && now[off..w] + Unescape(was[r..end]) == Unescape(was[off..end])
    && now[r..] == was[r..] && now[..off] == was[..off]
  }

  lemma BeginRewriting(was: bytes, off: nat, end: nat)
    requires off <= end <= |was| && Escaped(was[off..end])
    ensures Rewriting(was, was, off, end, off, off)
  {
    assert was[off..off] == [];
  }

  /** The next character to write, and how many it stands for. */
  lemma NextCharacter(was: bytes, now: bytes, off: nat, end: nat, r: nat, w: nat)
    requires Rewriting(was, now, off, end, r, w) && r < end
    ensures now[r] == was[r]
    ensures end - r > 2 ==> now[r + 1] == was[r + 1] && now[r + 2] == was[r + 2]
    ensures now[r] == PERCENT && end - r > 2 ==> IsHex(now[r + 1]) && IsHex(now[r + 2])
  {
    hide IsHex, Unescape;
    assert now[r..][0] == was[r..][0];
    if end - r > 2 {
      var t := was[r..end];
      assert t[0] == was[r] && t[1] == was[r + 1] && t[2] == was[r + 2];
      assert now[r..][1] == was[r..][1] && now[r..][2] == was[r..][2];
    }
  }

  lemma RewriteOne(was: bytes, now: bytes, off: nat, end: nat, r: nat, w: nat, step: nat, ch: byte)
    requires Rewriting(was, now, off, end, r, w) && r < end
    requires if was[r] == PERCENT && end - r > 2
             then step == 3 && IsHex(was[r + 1]) && IsHex(was[r + 2]) && ch == Escape(was[r + 1], was[r + 2])
             else step == 1 && ch == was[r]
    ensures Rewriting(was, now[w := ch], off, end, r + step, w + 1)
  {
    hide Escape, IsHex;
    var t, u := was[r..end], was[r + step..end];
    assert t[step..] == u && t[0] == was[r];
    assert step == 3 ==> t[1] == was[r + 1] && t[2] == was[r + 2];
    EscapedSuffix(t, step);
    assert Unescape(t) == [ch] + Unescape(u);
    var next := now[w := ch];
    Rewritten(now, next, off, r, w, step, ch, Unescape(u));
    assert was[r..][step..] == was[r + step..];
  }

  lemma Rewritten(now: bytes, next: bytes, off: nat, r: nat, w: nat, step: nat, ch: byte, rest: bytes)
    requires off <= w <= r && 1 <= step && r + step <= |now| && next == now[w := ch]
    ensures next[off..w + 1] + rest == now[off..w] + ([ch] + rest)
    ensures next[r + step..] == now[r..][step..] && next[..off] == now[..off]
  {
    assert next[off..w + 1] == now[off..w] + [ch];
  }

  lemma EndRewriting(was: bytes, now: bytes, off: nat, end: nat, w: nat)
    requires Rewriting(was, now, off, end, end, w)
    ensures now[off..w] == Unescape(was[off..end]) && now[end..] == was[end..] && now[..off] == was[..off]
  {
    assert was[end..end] == [];
    assert now[off..w] + [] == now[off..w];
  }

  /** decode_hex_str. What is written never overtakes what is read, so rewriting the text in place is
      unescaping it. */
  method DecodeHexStr(a: array<byte>, off: nat, length: nat) returns (n: nat)
    requires off + length <= a.Length && Escaped(a[..][off..off + length])
    modifies a
    ensures n <= length && a[..][off..off + n] == Unescape(old(a[..][off..off + length]))
    ensures a[..][..off] == old(a[..][..off]) && a[..][off + length..] == old(a[..][off + length..])
  {
    hide Rewriting, Unescape, Escaped, Escape, IsHex;
    var r, w, left := off, off, length;
    ghost var end := off + length;
    ghost var was := a[..];
    BeginRewriting(was, off, end);
    while left > 0
      invariant off <= w <= r <= end && left == end - r
      invariant Rewriting(was, a[..], off, end, r, w)
    {
      NextCharacter(was, a[..], off, end, r, w);
      var ch, step := a[r], 1;
      if ch == PERCENT && left > 2 {
        ch, step := Escape(a[r + 1], a[r + 2]), 3;
      }
      RewriteOne(was, a[..], off, end, r, w, step, ch);
      ghost var now := a[..];
      a[w] := ch;
      assert a[..] == now[w := ch];
      r, left, w := r + step, left - step, w + 1;
    }
    n := w - off;
    EndRewriting(was, a[..], off, end, w);
  }

  // ----- parameters -----

  /** Plus signs as spaces. */
  function Spaces(s: bytes): (r: bytes)
    ensures |r| == |s|
  {
    seq(|s|, i requires 0 <= i < |s| => if s[i] == PLUS then SP else s[i])
  }

  /** The text of a name or a value. */
  function TextOf(s: bytes): bytes
  {
    if Escaped(Spaces(s)) then Unescape(Spaces(s)) else Spaces(s)
  }

  type Param = (bytes, bytes)

  /** A name and a value, both non-empty, make a parameter; a name alone makes none. */
  function Pair(name: bytes, value: bytes): seq<Param>
  {
    if name != [] && value != [] then [(TextOf(name), TextOf(value))] else []
  }

  datatype Stage = StartingName | InName | StartingValue | InValue

  predicate Delimiter(b: byte) { b == AMPERSAND || b == EQUALS }

  function Prefixed(ps: seq<Param>, r: Option<seq<Param>>): Option<seq<Param>>
  {
    if r.Some? then Some(ps + r.value) else None
  }

  /** The reading of a form, given the name and the value in progress; None is a 400 answer. */
  function Scan(stage: Stage, name: bytes, value: bytes, rest: bytes): Option<seq<Param>>
    decreases |rest|
  {
    if rest == [] then Some(Pair(name, value))
    else
      var ch, more := rest[0], rest[1..];
      match stage
      case StartingName =>
        if Delimiter(ch) then None else Prefixed(Pair(name, value), Scan(InName, [ch], [], more))
      case InName =>
        if ch == AMPERSAND then None
        else if ch == EQUALS then Scan(StartingValue, name, [], more)
        else Scan(InName, name + [ch], [], more)
      case StartingValue => if Delimiter(ch) then None else Scan(InValue, name, [ch], more)
      case InValue =>
        if ch == AMPERSAND then Scan(StartingName, name, value, more)
        else if ch == EQUALS then None
        else Scan(InValue, name, value + [ch], more)
  }

  function ReadForm(s: bytes): Option<seq<Param>> { Scan(StartingName, [], [], s) }

  /** The percent signs of a form are followed by two hexadecimal digits, or by fewer than two characters
      of the same name or value. */
  predicate Clean(s: bytes)
  {
    forall i :: 0 <= i < |s| - 2 && s[i] == PERCENT && !Delimiter(s[i + 1]) && !Delimiter(s[i + 2]) ==>
      IsHex(s[i + 1]) && IsHex(s[i + 2])
  }

  // ----- the decoder -----

  /** Where the scan is: the stage, and the extents of the name and the value in progress. */
  datatype Cursor = Cursor(stage: Stage, ns: nat, nl: nat, vs: nat, vl: nat)

  predicate Placed(c: Cursor, i: nat)
  {
    match c.stage
    case StartingName =>
      || (c.nl == 0 && c.vl == 0 && c.ns == c.vs == 0)
      || (c.nl > 0 && c.vl > 0 && c.ns + c.nl < c.vs && c.vs + c.vl < i)
    case InName => c.nl > 0 && c.vl == 0 && c.ns + c.nl == i && c.vs <= i
    case StartingValue => c.nl > 0 && c.vl == 0 && c.ns + c.nl < i && c.vs <= i
    case InValue => c.nl > 0 && c.vl > 0 && c.ns + c.nl < c.vs && c.vs + c.vl == i
  }

  /** A stretch of the buffer with plus signs replaced and no delimiter in it. */
  ghost predicate Stretch(s: bytes, now: bytes, x: nat, n: nat)
    requires |now| == |s|
  {
    x + n <= |s| && now[x..x + n] == Spaces(s[x..x + n]) && forall j :: x <= j < x + n ==> !Delimiter(s[j])
  }

  ghost predicate Scanning(s: bytes, now: bytes, i: nat, c: Cursor)
  {
    && i <= |s| == |now| && now[i..] == s[i..] && Placed(c, i)
    && Stretch(s, now, c.ns, c.nl) && Stretch(s, now, c.vs, c.vl)
  }

  lemma Begin(s: bytes)
    ensures Scanning(s, s, 0, Cursor(StartingName, 0, 0, 0, 0))
  {
    assert s[0..0] == [] == Spaces(s[0..0]);
  }

  /** A stretch in a clean form can be unescaped. */
  lemma StretchEscaped(s: bytes, now: bytes, x: nat, n: nat)
    requires Clean(s) && |now| == |s| && Stretch(s, now, x, n)
    ensures Escaped(now[x..x + n])
    ensures PERCENT !in s[x..x + n] ==> Unescape(now[x..x + n]) == now[x..x + n]
    ensures TextOf(s[x..x + n]) == Unescape(now[x..x + n])
  {
    hide IsHex, Unescape;
    var t, r := s[x..x + n], now[x..x + n];
    forall i | 0 <= i < |r| - 2 && r[i] == PERCENT ensures IsHex(r[i + 1]) && IsHex(r[i + 2]) {
      assert s[x + i] == PERCENT && !Delimiter(s[x + i + 1]) && !Delimiter(s[x + i + 2]);
      assert IsHex(s[x + i + 1]) && IsHex(s[x + i + 2]);
      NotAPlus(s[x + i + 1]);
      NotAPlus(s[x + i + 2]);
    }
    if PERCENT !in t {
      assert forall i :: 0 <= i < |r| ==> r[i] == t[i] || r[i] == SP;
      NothingToUnescape(r);
    }
  }

  lemma NotAPlus(b: byte)
    requires IsHex(b)
    ensures b != PLUS
  {}

  /** The stretch that ends here takes in one more byte. */
  lemma StretchGrows(s: bytes, now: bytes, next: bytes, i: nat, x: nat, n: nat)
    requires i < |s| == |now| && now[i..] == s[i..] && x + n == i && Stretch(s, now, x, n) && !Delimiter(s[i])
    requires next == now[i := if s[i] == PLUS then SP else s[i]]
    ensures Stretch(s, next, x, n + 1)
  {
    var t := s[x..x + n];
    assert s[x..x + n + 1] == t + [s[i]];
    assert next[x..x + n + 1] == now[x..x + n] + [next[i]];
    assert Spaces(t + [s[i]]) == Spaces(t) + [next[i]];
  }

  lemma StretchStays(s: bytes, now: bytes, next: bytes, i: nat, x: nat, n: nat, b: byte)
    requires i < |s| == |now| && x + n <= i && Stretch(s, now, x, n) && next == now[i := b]
    ensures Stretch(s, next, x, n) && next[i + 1..] == now[i..][1..]
  {
    assert next[x..x + n] == now[x..x + n];
  }

  lemma EmptyStretch(s: bytes, now: bytes, x: nat)
    requires |s| == |now| && x <= |s|
    ensures Stretch(s, now, x, 0)
  {
    assert now[x..x + 0] == [] == Spaces(s[x..x + 0]);
  }

  /** One turn of the switch: where the scan goes, or that the form is malformed. */
  function NextCursor(c: Cursor, i: nat, ch: byte): Option<Cursor>
  {
    match c.stage
    case StartingName => if Delimiter(ch) then None else Some(Cursor(InName, i, 1, c.vs, 0))
    case InName =>
      if ch == AMPERSAND then None
      else if ch == EQUALS then Some(c.(stage := StartingValue))
      else Some(c.(nl := c.nl + 1))
    case StartingValue => if Delimiter(ch) then None else Some(Cursor(InValue, c.ns, c.nl, i, 1))
    case InValue =>
      if ch == AMPERSAND then Some(c.(stage := StartingName))
      else if ch == EQUALS then None
      else Some(c.(vl := c.vl + 1))
  }

  /** The extents of a cursor lie in what has been read. */
  ghost predicate Within(s: bytes, i: nat, c: Cursor)
  {
    i <= |s| && c.ns + c.nl <= i && c.vs + c.vl <= i && (c.nl > 0 && c.vl > 0 ==> c.ns + c.nl <= c.vs)
  }

  ghost function NameOf(s: bytes, c: Cursor): bytes
    requires Within(s, |s|, c)
  {
    s[c.ns..c.ns + c.nl]
  }

  ghost function ValueOf(s: bytes, c: Cursor): bytes
    requires Within(s, |s|, c)
  {
    s[c.vs..c.vs + c.vl]
  }

  /** The flags that ask for unescaping say whether a percent sign was seen. */
  ghost predicate Noted(s: bytes, c: Cursor, hexName: bool, hexValue: bool)
    requires Within(s, |s|, c)
  {
    hexName == (PERCENT in NameOf(s, c)) && hexValue == (PERCENT in ValueOf(s, c))
  }

  /** The reading of the rest of a form from a cursor. */
  ghost function ScanFrom(s: bytes, i: nat, c: Cursor): Option<seq<Param>>
    requires Within(s, i, c)
  {
    Scan(c.stage, NameOf(s, c), ValueOf(s, c), s[i..])
  }

  /** One byte of the reading. */
  lemma ScanOne(stage: Stage, name: bytes, value: bytes, ch: byte, more: bytes)
    ensures Scan(stage, name, value, [ch] + more)
            == match stage
               case StartingName =>
                 if Delimiter(ch) then None else Prefixed(Pair(name, value), Scan(InName, [ch], [], more))
               case InName =>
                 if ch == AMPERSAND then None
                 else if ch == EQUALS then Scan(StartingValue, name, [], more)
                 else Scan(InName, name + [ch], [], more)
               case StartingValue => if Delimiter(ch) then None else Scan(InValue, name, [ch], more)
               case InValue =>
                 if ch == AMPERSAND then Scan(StartingName, name, value, more)
                 else if ch == EQUALS then None
                 else Scan(InValue, name, value + [ch], more)
  {
    hide Pair, Prefixed;
    assert ([ch] + more)[0] == ch && ([ch] + more)[1..] == more;
  }

  lemma SliceGrows(s: bytes, x: nat, i: nat)
    requires x <= i < |s|
    ensures s[x..i + 1] == s[x..i] + [s[i]]
  {}

  lemma ScanUnfolds(s: bytes, i: nat, c: Cursor)
    requires i < |s| && Placed(c, i) && Within(s, i, c)
    ensures var next := NextCursor(c, i, s[i]);
            if next.None? then ScanFrom(s, i, c).None?
            else Within(s, i + 1, next.value)
                 && ScanFrom(s, i, c) == (if c.stage.StartingName?
                                          then
                                            Prefixed(Pair(NameOf(s, c), ValueOf(s, c)), ScanFrom(s, i + 1, next.value))
                                          else ScanFrom(s, i + 1, next.value))
  {
    hide Pair, Prefixed, Scan;
    assert s[i..] == [s[i]] + s[i + 1..];
    ScanOne(c.stage, NameOf(s, c), ValueOf(s, c), s[i], s[i + 1..]);
    assert s[c.vs..c.vs] == [];
    assert s[i..i + 1] == [s[i]];
    SliceGrows(s, c.ns, i);
    SliceGrows(s, c.vs, i);
  }

  /** One turn keeps the buffer as the scan needs it; the plus sign is replaced behind the cursor. */
  lemma ScanGoesOn(s: bytes, now: bytes, next: bytes, i: nat, c: Cursor)
    requires i < |s| == |now| && now[i..] == s[i..] && Placed(c, i) && NextCursor(c, i, s[i]).Some?
    requires !c.stage.StartingName? ==> Stretch(s, now, c.ns, c.nl) && Stretch(s, now, c.vs, c.vl)
    requires next == now[i := if s[i] == PLUS then SP else s[i]]
    ensures Scanning(s, next, i + 1, NextCursor(c, i, s[i]).value)
  {
    hide Stretch;
    EmptyStretch(s, now, i);
    StretchStays(s, now, next, i, i, 0, next[i]);
    assert s[i..][1..] == s[i + 1..];
    if !Delimiter(s[i]) { StretchGrows(s, now, next, i, i, 0); }
    if c.stage.StartingName? {
      EmptyStretch(s, next, c.vs);
    } else {
      StretchStays(s, now, next, i, c.ns, c.nl, next[i]);
      StretchStays(s, now, next, i, c.vs, c.vl, next[i]);
      if c.stage.InName? && !Delimiter(s[i]) { StretchGrows(s, now, next, i, c.ns, c.nl); }
      if c.stage.InValue? && !Delimiter(s[i]) { StretchGrows(s, now, next, i, c.vs, c.vl); }
    }
  }

  lemma PercentGrows(s: bytes, x: nat, i: nat)
    requires x <= i < |s|
    ensures PERCENT in s[x..i + 1] <==> PERCENT in s[x..i] || s[i] == PERCENT
  {
    assert s[x..i + 1] == s[x..i] + [s[i]];
  }

  lemma PrefixedTwice(ps: seq<Param>, qs: seq<Param>, r: Option<seq<Param>>)
    ensures Prefixed(ps, Prefixed(qs, r)) == Prefixed(ps + qs, r)
  {
    if r.Some? { assert ps + (qs + r.value) == (ps + qs) + r.value; }
  }

  /** A name or a value, unescaped where it stands if it has anything to unescape. */
  method DecodePart(a: array<byte>, x: nat, length: nat, hex: bool, ghost s: bytes) returns (n: nat)
    requires |s| == a.Length && Clean(s) && x + length <= |s| && Stretch(s, a[..], x, length)
    requires hex == (PERCENT in s[x..x + length])
    modifies a
    ensures n <= length && a[..][x..x + n] == TextOf(s[x..x + length])
    ensures a[..][..x] == old(a[..][..x]) && a[..][x + length..] == old(a[..][x + length..])
  {
    hide Unescape, Escaped, Clean, Stretch, TextOf;
    StretchEscaped(s, a[..], x, length);
    n := length;
    if hex { n := DecodeHexStr(a, x, length); }
  }

  /** handle_name_value_pair: the parameter is unescaped where it stands, and nothing behind it moves. */
  method HandlePair(a: array<byte>, c: Cursor, hexName: bool, hexValue: bool, ghost s: bytes)
    returns (params: seq<Param>)
    requires |s| == a.Length && Clean(s) && Within(s, |s|, c)
    requires Stretch(s, a[..], c.ns, c.nl) && Stretch(s, a[..], c.vs, c.vl)
    requires Noted(s, c, hexName, hexValue)
    modifies a
    ensures params == Pair(NameOf(s, c), ValueOf(s, c))
    ensures a[..][c.vs + c.vl..] == old(a[..][c.vs + c.vl..])
  {
    hide Clean, Stretch, TextOf, Noted, NameOf, ValueOf, Within, Pair, Spaces;
    params := [];
    PairExtents(s, c, hexName, hexValue);
    if c.nl > 0 && c.vl > 0 {
      ghost var was := a[..];
      var nl := DecodePart(a, c.ns, c.nl, hexName, s);
      ghost var mid := a[..];
      Behind(was, mid, c.ns + c.nl, c.vs, c.vl);
      SameStretch(s, was, mid, c.vs, c.vl);
      var vl := DecodePart(a, c.vs, c.vl, hexValue, s);
      Ahead(mid, a[..], c.vs, c.ns, nl);
      var text := a[..];
      params := [(text[c.ns..c.ns + nl], text[c.vs..c.vs + vl])];
    }
  }

  lemma PairExtents(s: bytes, c: Cursor, hexName: bool, hexValue: bool)
    requires Within(s, |s|, c) && Noted(s, c, hexName, hexValue)
    ensures c.ns + c.nl <= |s| && c.vs + c.vl <= |s| && (c.nl > 0 && c.vl > 0 ==> c.ns + c.nl <= c.vs)
    ensures hexName == (PERCENT in s[c.ns..c.ns + c.nl]) && hexValue == (PERCENT in s[c.vs..c.vs + c.vl])
    ensures Pair(NameOf(s, c), ValueOf(s, c)) ==
            if c.nl > 0 && c.vl > 0 then [(TextOf(s[c.ns..c.ns + c.nl]), TextOf(s[c.vs..c.vs + c.vl]))] else []
  {
    hide TextOf;
  }

  lemma SameStretch(s: bytes, was: bytes, now: bytes, x: nat, n: nat)
    requires |s| == |was| == |now| && Stretch(s, was, x, n) && now[x..x + n] == was[x..x + n]
    ensures Stretch(s, now, x, n)
  {}

  lemma Behind(was: bytes, now: bytes, end: nat, x: nat, n: nat)
    requires |was| == |now| && end <= x && x + n <= |was| && now[end..] == was[end..]
    ensures now[x..x + n] == was[x..x + n] && now[x + n..] == was[x + n..]
  {
    forall j | end <= j < |was| ensures now[j] == was[j] {
      assert now[j] == now[end..][j - end] && was[j] == was[end..][j - end];
    }
  }

  lemma Ahead(was: bytes, now: bytes, begin: nat, x: nat, n: nat)
    requires |was| == |now| && x + n <= begin <= |was| && now[..begin] == was[..begin]
    ensures now[x..x + n] == was[x..x + n]
  {
    forall j | 0 <= j < begin ensures now[j] == was[j] {
      assert now[j] == now[..begin][j] && was[j] == was[..begin][j];
    }
  }

  lemma TakeApart(s: bytes, now: bytes, i: nat, c: Cursor)
    requires Scanning(s, now, i, c)
    ensures Within(s, i, c) && Within(s, |s|, c) && c.vs + c.vl <= i && Placed(c, i)
    ensures |now| == |s| && now[i..] == s[i..] && (i < |s| ==> now[i] == s[i])
    ensures Stretch(s, now, c.ns, c.nl) && Stretch(s, now, c.vs, c.vl)
  {
    hide Stretch;
    if i < |s| { assert now[i..][0] == s[i..][0]; }
  }

  lemma BeginScan(s: bytes)
    ensures var c := Cursor(StartingName, 0, 0, 0, 0);
            Within(s, 0, c) && Within(s, |s|, c) && ReadForm(s) == Prefixed([], ScanFrom(s, 0, c))
            && Noted(s, c, false, false)
  {
    hide Scan;
    assert s[0..] == s && s[0..0] == [];
    var r := ReadForm(s);
    if r.Some? { assert [] + r.value == r.value; }
  }

  lemma StillAhead(s: bytes, was: bytes, now: bytes, i: nat, k: nat)
    requires k <= i < |s| == |was| == |now| && was[i..] == s[i..] && now[k..] == was[k..]
    ensures now[i..] == s[i..] && now[i] == s[i]
  {
    Behind(was, now, k, i, 0);
    assert now[i..][0] == s[i..][0];
  }

  lemma HexNoted(s: bytes, i: nat, c: Cursor, hexName: bool, hexValue: bool)
    requires i < |s| && Placed(c, i) && Within(s, i, c) && NextCursor(c, i, s[i]).Some?
    requires if c.stage.StartingName? then !hexName && !hexValue else Noted(s, c, hexName, hexValue)
    ensures var n := NextCursor(c, i, s[i]).value;
            Within(s, i + 1, n) && Within(s, |s|, n)
            && Noted(s, n, hexName || (s[i] == PERCENT && n.stage.InName?),
                     hexValue || (s[i] == PERCENT && n.stage.InValue?))
  {
    assert s[i..i + 1] == [s[i]];
    PercentGrows(s, c.ns, i);
    PercentGrows(s, c.vs, i);
  }

  /** luaw_url_decode: one pass over the buffer, which is rewritten as it goes. */
  method UrlDecode(a: array<byte>) returns (r: Option<seq<Param>>)
    requires Clean(a[..])
    modifies a
    ensures r == ReadForm(old(a[..]))
  {
    hide Scan, Scanning, Stretch, NextCursor, Placed, Clean, Pair, ReadForm, ScanFrom, Noted, NameOf, ValueOf, Within;
    ghost var s := a[..];
    var c, i, params := Cursor(StartingName, 0, 0, 0, 0), 0, [];
    var hexName, hexValue := false, false;
    Begin(s);
    BeginScan(s);
    while i < a.Length
      invariant i <= a.Length && Scanning(s, a[..], i, c) && Within(s, i, c)
      invariant ReadForm(s) == Prefixed(params, ScanFrom(s, i, c))
      invariant Within(s, |s|, c) && Noted(s, c, hexName, hexValue)
      decreases a.Length - i
    {
      TakeApart(s, a[..], i, c);
      ScanUnfolds(s, i, c);
      var ch := a[i];
      var next := NextCursor(c, i, ch);
      if c.stage.StartingName? {
        ghost var was := a[..];
        var more := HandlePair(a, c, hexName, hexValue, s);
        StillAhead(s, was, a[..], i, c.vs + c.vl);
        if next.Some? { PrefixedTwice(params, more, ScanFrom(s, i + 1, next.value)); }
        params := params + more;
        hexName, hexValue := false, false;
      }
      if next.None? {
        return None;
      }
      HexNoted(s, i, c, hexName, hexValue);
      hexName := hexName || (ch == PERCENT && next.value.stage.InName?);
      hexValue := hexValue || (ch == PERCENT && next.value.stage.InValue?);
      ghost var now := a[..];
      if ch == PLUS { a[i] := SP; }
      assert a[..] == now[i := a[i]];
      ScanGoesOn(s, now, a[..], i, c);
      c := next.value;
      i := i + 1;
    }
    TakeApart(s, a[..], i, c);
    EndScan(s, c);
    var last := HandlePair(a, c, hexName, hexValue, s);
    r := Some(params + last);
  }

  lemma EndScan(s: bytes, c: Cursor)
    requires Within(s, |s|, c)
    ensures ScanFrom(s, |s|, c) == Some(Pair(NameOf(s, c), ValueOf(s, c)))
  {
    hide Pair;
    assert s[|s|..] == [];
  }

  // ----- the encoder -----

  predicate Safe(b: byte) { IsAlphaNum(b) || b == 46 || b == 42 || b == 45 || b == 95 }

  function HexUpper(d: nat): (b: byte)
    requires d < 16
    ensures IsHex(b) && HexDigitValue(b) == d && b != PLUS && !Delimiter(b) && b != PERCENT
  {
    if d < 10 then 48 + d else 55 + d
  }

  /** toURLSafeChar, on the characters that need it. */
  function EncodeByte(b: byte): (t: bytes)
    ensures t != [] && forall i :: 0 <= i < |t| ==> !Delimiter(t[i])
  {
    if Safe(b) then [b] else if b == SP then [PLUS] else [PERCENT, HexUpper(b / 16), HexUpper(b % 16)]
  }

  function UrlEncode(s: bytes): bytes
  {
    if s == [] then [] else EncodeByte(s[0]) + UrlEncode(s[1..])
  }

  function EncodePair(p: Param): bytes { UrlEncode(p.0) + [EQUALS] + UrlEncode(p.1) }

  /** urlEncodeParams, joined. */
  function EncodeParams(ps: seq<Param>): bytes
  {
    if ps == [] then []
    else if |ps| == 1 then EncodePair(ps[0])
    else EncodePair(ps[0]) + [AMPERSAND] + EncodeParams(ps[1..])
  }

  lemma SpacesConcat(s: bytes, t: bytes)
    ensures Spaces(s + t) == Spaces(s) + Spaces(t)
  {}

  lemma EscapedConcat(b: byte, t: bytes)
    requires Escaped(t) && (b == PERCENT ==> |t| < 2 || (IsHex(t[0]) && IsHex(t[1])))
    ensures Escaped([b] + t)
  {
    hide IsHex;
    var u := [b] + t;
    forall i | 0 <= i < |u| - 2 && u[i] == PERCENT ensures IsHex(u[i + 1]) && IsHex(u[i + 2]) {
      if i > 0 { assert t[i - 1] == u[i] && t[i] == u[i + 1] && t[i + 1] == u[i + 2]; }
    }
  }

  lemma UnescapePlain(b: byte, t: bytes)
    requires Escaped(t) && b != PERCENT
    ensures Escaped([b] + t) && Unescape([b] + t) == [b] + Unescape(t)
  {
    EscapedConcat(b, t);
    assert ([b] + t)[1..] == t;
  }

  lemma UnescapeEscape(x: byte, y: byte, t: bytes)
    requires Escaped(t) && IsHex(x) && IsHex(y) && x != PERCENT && y != PERCENT
    ensures Escaped([PERCENT, x, y] + t) && Unescape([PERCENT, x, y] + t) == [Escape(x, y)] + Unescape(t)
  {
    hide IsHex, Escape;
    var u := [PERCENT, x, y] + t;
    EscapedConcat(y, t);
    EscapedConcat(x, [y] + t);
    EscapedConcat(PERCENT, [x] + ([y] + t));
    assert u == [PERCENT] + ([x] + ([y] + t));
    assert u[3..] == t && u[1] == x && u[2] == y;
  }

  lemma OneByteDecoded(b: byte, t: bytes)
    requires Escaped(Spaces(t))
    ensures Escaped(Spaces(EncodeByte(b) + t))
    ensures Unescape(Spaces(EncodeByte(b) + t)) == [b] + Unescape(Spaces(t))
  {
    hide Unescape, Escaped, IsHex, HexDigitValue;
    var u := Spaces(t);
    SpacesConcat(EncodeByte(b), t);
    if Safe(b) {
      NotSpecial(b);
      assert Spaces([b]) == [b];
      UnescapePlain(b, u);
    } else if b == SP {
      assert Spaces([PLUS]) == [SP];
      UnescapePlain(SP, u);
    } else {
      var x, y := HexUpper(b / 16), HexUpper(b % 16);
      assert Spaces([PERCENT, x, y]) == [PERCENT, x, y];
      UnescapeEscape(x, y, u);
    }
  }

  lemma NotSpecial(b: byte)
    requires Safe(b)
    ensures b != PERCENT && b != PLUS
  {}

  /** What was encoded is decoded to itself. */
  lemma {:induction false} EncodedText(s: bytes)
    ensures TextOf(UrlEncode(s)) == s && Escaped(Spaces(UrlEncode(s)))
    ensures forall i :: 0 <= i < |UrlEncode(s)| ==> !Delimiter(UrlEncode(s)[i])
    ensures s != [] ==> UrlEncode(s) != []
    decreases |s|
  {
    hide EncodeByte, Delimiter, Spaces;
    if s == [] {
      assert Spaces([]) == [];
    } else {
      EncodedText(s[1..]);
      OneByteDecoded(s[0], UrlEncode(s[1..]));
      assert s == [s[0]] + s[1..];
    }
  }

  lemma {:induction false} ScanName(name: bytes, x: bytes, rest: bytes)
    requires forall i :: 0 <= i < |x| ==> !Delimiter(x[i])
    ensures Scan(InName, name, [], x + rest) == Scan(InName, name + x, [], rest)
    decreases |x|
  {
    if x == [] {
      assert x + rest == rest && name + x == name;
    } else {
      var s := x + rest;
      assert s[0] == x[0] && s[1..] == x[1..] + rest;
      ScanName(name + [x[0]], x[1..], rest);
      assert name + [x[0]] + x[1..] == name + x;
    }
  }

  lemma {:induction false} ScanValue(name: bytes, value: bytes, x: bytes, rest: bytes)
    requires forall i :: 0 <= i < |x| ==> !Delimiter(x[i])
    ensures Scan(InValue, name, value, x + rest) == Scan(InValue, name, value + x, rest)
    decreases |x|
  {
    if x == [] {
      assert x + rest == rest && value + x == value;
    } else {
      var s := x + rest;
      assert s[0] == x[0] && s[1..] == x[1..] + rest;
      ScanValue(name, value + [x[0]], x[1..], rest);
      assert value + [x[0]] + x[1..] == value + x;
    }
  }

  /** One encoded pair: the pair before it is settled, its own is in progress. */
  lemma ScanPair(n0: bytes, v0: bytes, n: bytes, v: bytes, rest: bytes)
    requires n != [] && v != []
    requires forall i :: 0 <= i < |n| ==> !Delimiter(n[i])
    requires forall i :: 0 <= i < |v| ==> !Delimiter(v[i])
    ensures Scan(StartingName, n0, v0, n + [EQUALS] + v + rest) == Prefixed(Pair(n0, v0), Scan(InValue, n, v, rest))
  {
    hide Pair, Prefixed;
    var s0 := n + [EQUALS] + v + rest;
    var s1 := [EQUALS] + v + rest;
    assert s0[0] == n[0] && s0[1..] == n[1..] + s1;
    ScanName([n[0]], n[1..], s1);
    assert [n[0]] + n[1..] == n;
    var s2 := v + rest;
    assert s1[0] == EQUALS && s1[1..] == s2;
    assert s2[0] == v[0] && s2[1..] == v[1..] + rest;
    ScanValue(n, [v[0]], v[1..], rest);
    assert [v[0]] + v[1..] == v;
  }

  predicate NonEmpty(ps: seq<Param>) { forall i :: 0 <= i < |ps| ==> ps[i].0 != [] && ps[i].1 != [] }

  lemma ValueAtEnd(n: bytes, v: bytes)
    ensures Scan(InValue, n, v, []) == Some(Pair(n, v))
  {}

  lemma ValueThenMore(n: bytes, v: bytes, rest: bytes)
    ensures Scan(InValue, n, v, [AMPERSAND] + rest) == Scan(StartingName, n, v, rest)
  {
    var s := [AMPERSAND] + rest;
    assert s[0] == AMPERSAND && s[1..] == rest;
  }

  /** A form written from parameters is clean and reads back as those parameters, in order. */
  lemma FormRoundTrip(ps: seq<Param>)
    requires NonEmpty(ps)
    ensures Clean(EncodeParams(ps)) && ReadForm(EncodeParams(ps)) == Some(ps)
  {
    hide Clean, EncodeParams, ReadForm;
    ParamsWhole(ps);
    WholeIsClean(EncodeParams(ps));
    FormAccepted(ps);
  }

  /** Every name is non-empty, and only the last value may be empty. */
  predicate Readable(ps: seq<Param>)
  {
    forall i :: 0 <= i < |ps| ==> ps[i].0 != [] && (i < |ps| - 1 ==> ps[i].1 != [])
  }

  /** The parameters that have a value. */
  function Valued(ps: seq<Param>): seq<Param>
  {
    if ps != [] && ps[|ps| - 1].1 == [] then ps[..|ps| - 1] else ps
  }

  lemma NameThenEquals(n0: bytes, v0: bytes, n: bytes, tail: bytes)
    requires n != [] && forall i :: 0 <= i < |n| ==> !Delimiter(n[i])
    ensures Scan(StartingName, n0, v0, n + [EQUALS] + tail) == Prefixed(Pair(n0, v0), Scan(StartingValue, n, [], tail))
  {
    hide Prefixed, Pair;
    var s0, s1 := n + [EQUALS] + tail, [EQUALS] + tail;
    assert s0[0] == n[0] && s0[1..] == n[1..] + s1;
    ScanName([n[0]], n[1..], s1);
    assert [n[0]] + n[1..] == n;
    assert s1[0] == EQUALS && s1[1..] == tail;
  }

  /** A name without a value: refused if anything follows, no parameter otherwise. */
  lemma ScanNameOnly(n0: bytes, v0: bytes, n: bytes, rest: bytes)
    requires n != [] && forall i :: 0 <= i < |n| ==> !Delimiter(n[i])
    ensures Scan(StartingName, n0, v0, n + [EQUALS] + ([AMPERSAND] + rest)).None?
    ensures Scan(StartingName, n0, v0, n + [EQUALS]) == Some(Pair(n0, v0))
  {
    NameThenEquals(n0, v0, n, [AMPERSAND] + rest);
    assert ([AMPERSAND] + rest)[0] == AMPERSAND;
    NameThenEquals(n0, v0, n, []);
    assert n + [EQUALS] + [] == n + [EQUALS];
    NameAlone(n0, v0, n);
  }

  lemma NameAlone(n0: bytes, v0: bytes, n: bytes)
    ensures Prefixed(Pair(n0, v0), Some(Pair(n, []))) == Some(Pair(n0, v0))
  {
    assert Pair(n0, v0) + [] == Pair(n0, v0);
  }

  lemma ScanNoName(n0: bytes, v0: bytes, rest: bytes)
    ensures Scan(StartingName, n0, v0, [EQUALS] + rest).None?
  {
    assert ([EQUALS] + rest)[0] == EQUALS;
  }

  lemma ReadableTail(ps: seq<Param>)
    requires |ps| > 1
    ensures Readable(ps) <==> ps[0].0 != [] && ps[0].1 != [] && Readable(ps[1..])
    ensures Valued(ps) == [ps[0]] + Valued(ps[1..])
  {
    var rest := ps[1..];
    assert forall i :: 0 <= i < |rest| ==> rest[i] == ps[i + 1];
    if Readable(rest) && ps[0].0 != [] && ps[0].1 != [] {
      forall i | 0 <= i < |ps| ensures ps[i].0 != [] && (i < |ps| - 1 ==> ps[i].1 != []) {
        if i > 0 { assert rest[i - 1] == ps[i]; }
      }
    }
    if Readable(ps) {
      forall i | 0 <= i < |rest| ensures rest[i].0 != [] && (i < |rest| - 1 ==> rest[i].1 != []) {
        assert rest[i] == ps[i + 1];
      }
    }
  }

  /** The first parameter of a form, and what follows it. */
  lemma ScanFirst(n0: bytes, v0: bytes, p: Param, tail: bytes)
    requires tail == [] || tail[0] == AMPERSAND
    ensures var n, v := UrlEncode(p.0), UrlEncode(p.1);
            Scan(StartingName, n0, v0, n + [EQUALS] + v + tail)
            == if p.0 == [] || (p.1 == [] && tail != []) then None
               else if p.1 == [] then Some(Pair(n0, v0))
               else Prefixed(Pair(n0, v0), Scan(InValue, n, v, tail))
  {
    hide Scan, UrlEncode, Pair, Prefixed, TextOf, Escaped, Spaces, Delimiter;
    var n, v := UrlEncode(p.0), UrlEncode(p.1);
    EncodedText(p.0);
    EncodedText(p.1);
    if p.0 == [] {
      NothingEncoded(p.0);
      assert n + [EQUALS] + v + tail == [EQUALS] + (v + tail);
      ScanNoName(n0, v0, v + tail);
    } else if p.1 == [] {
      NothingEncoded(p.1);
      assert n + [EQUALS] + v + tail == n + [EQUALS] + tail;
      if tail == [] {
        ScanNameOnly(n0, v0, n, []);
        assert n + [EQUALS] + tail == n + [EQUALS];
      } else {
        assert tail == [AMPERSAND] + tail[1..];
        ScanNameOnly(n0, v0, n, tail[1..]);
      }
    } else {
      ScanPair(n0, v0, n, v, tail);
    }
  }

  lemma {:induction false} ScanAnyParams(n0: bytes, v0: bytes, ps: seq<Param>)
    requires ps != []
    ensures Scan(StartingName, n0, v0, EncodeParams(ps))
            == if Readable(ps) then Some(Pair(n0, v0) + Valued(ps)) else None
    decreases |ps|
  {
    hide Scan, UrlEncode, TextOf, Readable, Valued;
    var p, rest := ps[0], ps[1..];
    var n, v := UrlEncode(p.0), UrlEncode(p.1);
    var tail := if rest == [] then [] else [AMPERSAND] + EncodeParams(rest);
    assert EncodeParams(ps) == n + [EQUALS] + v + tail;
    ScanFirst(n0, v0, p, tail);
    assert p.0 != [] && p.1 != [] ==> Pair(n, v) == [p] by { EncodedText(p.0); EncodedText(p.1); }
    if rest == [] {
      OneReadable(p);
      assert ps == [p];
      ValueAtEnd(n, v);
      assert Pair(n0, v0) + [] == Pair(n0, v0);
    } else {
      ReadableTail(ps);
      ValueThenMore(n, v, EncodeParams(rest));
      ScanAnyParams(n, v, rest);
    }
  }

  lemma NothingEncoded(t: bytes)
    requires t == []
    ensures UrlEncode(t) == []
  {}

  lemma OneReadable(p: Param)
    ensures Readable([p]) <==> p.0 != []
    ensures Valued([p]) == if p.1 == [] then [] else [p]
  {}

  /** Any list of parameters: its form is accepted if and only if no name is empty and only the last value
      may be, and a last name without a value is dropped. */
  lemma FormAccepted(ps: seq<Param>)
    ensures ReadForm(EncodeParams(ps)) == if Readable(ps) then Some(Valued(ps)) else None
  {
    hide EncodeParams, Scan, Valued, Readable;
    if ps == [] {
      NoParams();
      NoneReadable();
    } else {
      ScanAnyParams([], [], ps);
      assert Pair([], []) + Valued(ps) == Valued(ps);
    }
  }

  lemma NoneReadable()
    ensures Readable([]) && Valued([]) == []
  {}

  /** `a=&b=c` is refused: a parameter without a value is accepted only at the end. */
  lemma EmptyValueInside()
    ensures ReadForm([97, EQUALS, AMPERSAND, 98, EQUALS, 99]).None?
    ensures ReadForm([98, EQUALS, 99, AMPERSAND, 97, EQUALS]) == Some([([98], [99])])
  {
    hide Scan;
    var a, bc: Param := ([97], []), ([98], [99]);
    assert UrlEncode([97]) == [97] && UrlEncode([98]) == [98] && UrlEncode([99]) == [99] && UrlEncode([]) == [];
    assert [a, bc][1..] == [bc] && [bc, a][1..] == [a];
    assert EncodeParams([a, bc]) == [97, EQUALS, AMPERSAND, 98, EQUALS, 99];
    assert EncodeParams([bc, a]) == [98, EQUALS, 99, AMPERSAND, 97, EQUALS];
    FormAccepted([a, bc]);
    FormAccepted([bc, a]);
    assert [a, bc][0].1 == [];
    assert Valued([bc, a]) == [bc];
  }

  lemma NoParams()
    ensures EncodeParams([]) == [] && ReadForm([]) == Some([])
  {}

  /** Every percent sign has its two digits. */
  predicate Whole(s: bytes)
  {
    forall i :: 0 <= i < |s| && s[i] == PERCENT ==> i + 2 < |s| && IsHex(s[i + 1]) && IsHex(s[i + 2])
  }

  lemma WholeIsClean(s: bytes)
    requires Whole(s)
    ensures Clean(s)
  {
    hide IsHex, Delimiter;
  }

  lemma WholeConcat(s: bytes, t: bytes)
    requires Whole(s) && Whole(t)
    ensures Whole(s + t)
  {
    hide IsHex;
    var u := s + t;
    forall i | 0 <= i < |u| && u[i] == PERCENT ensures i + 2 < |u| && IsHex(u[i + 1]) && IsHex(u[i + 2]) {
      if i < |s| {
        assert s[i] == PERCENT;
      } else {
        assert t[i - |s|] == PERCENT;
      }
    }
  }

  lemma {:induction false} EncodedWhole(s: bytes)
    ensures Whole(UrlEncode(s))
    decreases |s|
  {
    hide Whole;
    if s == [] {
      assert Whole([]) by { NothingWhole(); }
    } else {
      EncodedWhole(s[1..]);
      ByteWhole(s[0]);
      WholeConcat(EncodeByte(s[0]), UrlEncode(s[1..]));
    }
  }

  lemma NothingWhole()
    ensures Whole([]) && Whole([EQUALS]) && Whole([AMPERSAND])
  {}

  lemma ByteWhole(b: byte)
    ensures Whole(EncodeByte(b))
  {
    hide HexDigitValue;
    if Safe(b) { NotSpecial(b); }
  }

  lemma {:induction false} ParamsWhole(ps: seq<Param>)
    ensures Whole(EncodeParams(ps))
    decreases |ps|
  {
    hide Whole, UrlEncode;
    NothingWhole();
    if ps != [] {
      var p := ps[0];
      EncodedWhole(p.0);
      EncodedWhole(p.1);
      WholeConcat(UrlEncode(p.0), [EQUALS]);
      WholeConcat(UrlEncode(p.0) + [EQUALS], UrlEncode(p.1));
      ParamsWhole(ps[1..]);
      WholeConcat(EncodePair(p), [AMPERSAND]);
      WholeConcat(EncodePair(p) + [AMPERSAND], EncodeParams(ps[1..]));
    }
  }

  /** The form with an ampersand behind every pair. */
  function Terminated(ps: seq<Param>): bytes
  {
    if ps == [] then [] else EncodePair(ps[0]) + [AMPERSAND] + Terminated(ps[1..])
  }

  lemma {:induction false} TerminatedAppend(ps: seq<Param>, p: Param)
    ensures Terminated(ps + [p]) == Terminated(ps) + (EncodePair(p) + [AMPERSAND])
    decreases |ps|
  {
    hide EncodePair;
    var qs := ps + [p];
    if ps == [] {
      assert qs[1..] == [];
    } else {
      assert qs[0] == ps[0] && qs[1..] == ps[1..] + [p];
      TerminatedAppend(ps[1..], p);
    }
  }

  lemma {:induction false} OneTooMany(ps: seq<Param>)
    requires ps != []
    ensures Terminated(ps) == EncodeParams(ps) + [AMPERSAND]
    decreases |ps|
  {
    hide EncodePair;
    if |ps| == 1 {
      assert Terminated(ps[1..]) == [];
    } else {
      OneTooMany(ps[1..]);
    }
  }

  lemma AppendFour(parts: seq<bytes>, a: bytes, b: bytes, c: bytes, d: bytes)
    ensures Flatten(parts + [a] + [b] + [c] + [d]) == Flatten(parts) + (a + b + c + d)
  {
    hide Flatten;
    AppendFlat(parts, a);
    AppendFlat(parts + [a], b);
    AppendFlat(parts + [a] + [b], c);
    AppendFlat(parts + [a] + [b] + [c], d);
  }

  /** urlEncodeParams: the pieces of the form, and the length that is announced for it. */
  method UrlEncodeParams(ps: seq<Param>) returns (parts: seq<bytes>, contentLength: nat)
    ensures Flatten(parts) == EncodeParams(ps) && contentLength == |EncodeParams(ps)|
  {
    hide UrlEncode, EncodeParams;
    parts, contentLength := [], 0;
    var i := 0;
    while i < |ps|
      invariant 0 <= i <= |ps| && contentLength == |Flatten(parts)|
      invariant Flatten(parts) == Terminated(ps[..i]) && (i > 0 <==> |parts| > 0)
                && (i > 0 ==> parts[|parts| - 1] == [AMPERSAND])
    {
      var key, val := UrlEncode(ps[i].0), UrlEncode(ps[i].1);
      AppendFour(parts, key, [EQUALS], val, [AMPERSAND]);
      TerminatedAppend(ps[..i], ps[i]);
      assert ps[..i + 1] == ps[..i] + [ps[i]];
      parts := parts + [key] + [[EQUALS]] + [val] + [[AMPERSAND]];
      contentLength := contentLength + |key| + 1 + |val| + 1;
      i := i + 1;
    }
    assert ps[..i] == ps;
    if ps == [] {
      NoParams();
    }
    if |parts| > 0 {
      LastDropped(ps, parts);
      parts := parts[..|parts| - 1];
      contentLength := contentLength - 1;
    }
  }

  lemma LastDropped(ps: seq<Param>, parts: seq<bytes>)
    requires |parts| > 0 && ps != [] && Flatten(parts) == Terminated(ps) && parts[|parts| - 1] == [AMPERSAND]
    ensures Flatten(parts[..|parts| - 1]) == EncodeParams(ps) && |Flatten(parts)| == |EncodeParams(ps)| + 1
  {
    hide EncodeParams, Terminated;
    OneTooMany(ps);
    var init := Flatten(parts[..|parts| - 1]);
    assert init + [AMPERSAND] == EncodeParams(ps) + [AMPERSAND];
    assert init == (init + [AMPERSAND])[..|init|];
  }
}
