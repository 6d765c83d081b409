/** The forms that the decoder accepts, as a grammar over the pieces between ampersands, and the bytes that
    the encoder makes of each character. */
module FormGrammar {
  import opened Ascii
  import opened HttpLengths
  import opened FormCodec
  import CharacterTables

  // ----- the encoder -----

  const UPPER_DIGITS: string := "0123456789ABCDEF"

  /** Letters, digits and `.*-_` stay, a space becomes a plus sign, and everything else an escape with two
      upper-case digits. */
  lemma EncodedExactly(b: byte)
    ensures EncodeByte(b) ==
            if CharacterTables.Letter(b) || CharacterTables.Digit(b) || b as char in {'.', '*', '-', '_'} then [b]
            else if b as char == ' ' then CharacterTables.Text("+")
            else CharacterTables.Text("%" + [UPPER_DIGITS[b / 16]] + [UPPER_DIGITS[b % 16]])
  {
    hide IsHex, CharacterTables.Text, HexUpper, IsAlphaNum, CharacterTables.Letter, CharacterTables.Digit;
    SafeTable(b);
    EscapeText(b);
    assert CharacterTables.Text("+") == [PLUS] by { PlusText(); }
  }

  lemma SafeTable(b: byte)
    ensures Safe(b) <==> CharacterTables.Letter(b) || CharacterTables.Digit(b) || b as char in {'.', '*', '-', '_'}
  {
    CharacterTables.AuthorityTables(b);
  }

  lemma PlusText()
    ensures CharacterTables.Text("+") == [PLUS]
  {}

  lemma EscapeText(b: byte)
    ensures CharacterTables.Text("%" + [UPPER_DIGITS[b / 16]] + [UPPER_DIGITS[b % 16]])
            == [PERCENT, HexUpper(b / 16), HexUpper(b % 16)]
  {
    hide IsHex, HexUpper, UPPER_DIGITS;
    UpperDigit(b / 16);
    UpperDigit(b % 16);
  }

  lemma UpperDigit(d: nat)
    requires d < 16
    ensures |UPPER_DIGITS| == 16 && HexUpper(d) == UPPER_DIGITS[d] as int && HexUpper(d) < 128
  {}

  // ----- the decoder of escapes -----

  const LOWER_DIGITS: string := "0123456789abcdef"

  /** A piece of a text: a byte that stands for itself, or an escape, its digits in either case. */
  datatype Token = Plain(b: byte) | Octet(b: byte, firstLower: bool, secondLower: bool)

  function DigitOf(d: nat, lower: bool): byte
    requires d < 16
  {
    (if lower then LOWER_DIGITS[d] else UPPER_DIGITS[d]) as int % 256
  }

  function TokenText(t: Token): bytes
  {
    if t.Plain? then [t.b] else [PERCENT, DigitOf(t.b / 16, t.firstLower), DigitOf(t.b % 16, t.secondLower)]
  }

  function Written(ts: seq<Token>): bytes { if ts == [] then [] else TokenText(ts[0]) + Written(ts[1..]) }

  function Meant(ts: seq<Token>): bytes { seq(|ts|, i requires 0 <= i < |ts| => ts[i].b) }

  lemma DigitRead(d: nat, lower: bool)
    requires d < 16
    ensures IsHex(DigitOf(d, lower)) && HexDigitValue(DigitOf(d, lower)) == d
  {}

  lemma PlainRead(b: byte, rest: bytes)
    requires b != PERCENT && Escaped(rest)
    ensures Escaped([b] + rest) && Unescape([b] + rest) == [b] + Unescape(rest)
  {
    hide IsHex;
    var s := [b] + rest;
    forall i | 0 <= i < |s| - 2 && s[i] == PERCENT ensures IsHex(s[i + 1]) && IsHex(s[i + 2]) {
      assert rest[i - 1] == PERCENT && rest[i] == s[i + 1] && rest[i + 1] == s[i + 2];
    }
    assert s[1..] == rest;
  }

  lemma OctetEscaped(x: byte, y: byte, rest: bytes)
    requires IsHex(x) && IsHex(y) && Escaped(rest)
    ensures Escaped([PERCENT, x, y] + rest)
  {
    HexIsNoPercent(x);
    HexIsNoPercent(y);
    hide IsHex;
    var s := [PERCENT, x, y] + rest;
    forall i | 0 <= i < |s| - 2 && s[i] == PERCENT ensures IsHex(s[i + 1]) && IsHex(s[i + 2]) {
      if i >= 3 { assert rest[i - 3] == PERCENT && rest[i - 2] == s[i + 1] && rest[i - 1] == s[i + 2]; }
    }
  }

  lemma OctetRead(x: byte, y: byte, rest: bytes)
    requires IsHex(x) && IsHex(y) && Escaped(rest)
    ensures Escaped([PERCENT, x, y] + rest)
    ensures Unescape([PERCENT, x, y] + rest) == [HexDigitValue(x) * 16 + HexDigitValue(y)] + Unescape(rest)
  {
    hide IsHex, Escaped, HexDigitValue;
    OctetEscaped(x, y, rest);
    var s := [PERCENT, x, y] + rest;
    assert s[3..] == rest && s[1] == x && s[2] == y;
  }

  lemma TokenRead(t: Token, rest: bytes)
    requires (t.Plain? ==> t.b != PERCENT) && Escaped(rest)
    ensures Escaped(TokenText(t) + rest) && Unescape(TokenText(t) + rest) == [t.b] + Unescape(rest)
  {
    hide IsHex, DigitOf, HexDigitValue, Escaped, Unescape;
    if t.Plain? {
      PlainRead(t.b, rest);
    } else {
      DigitRead(t.b / 16, t.firstLower);
      DigitRead(t.b % 16, t.secondLower);
      OctetRead(DigitOf(t.b / 16, t.firstLower), DigitOf(t.b % 16, t.secondLower), rest);
    }
  }

  lemma HexIsNoPercent(b: byte)
    ensures IsHex(b) ==> b != PERCENT
  {}

  /** Any text of plain bytes and escapes, in either case, is what it means; a percent sign with fewer than
      two characters behind it stands for itself. */
  lemma {:induction false} UnescapedExactly(ts: seq<Token>, tail: bytes)
    requires forall i :: 0 <= i < |ts| && ts[i].Plain? ==> ts[i].b != PERCENT
    requires tail == [] || (tail[0] == PERCENT && |tail| <= 2)
    ensures Escaped(Written(ts) + tail) && Unescape(Written(ts) + tail) == Meant(ts) + tail
    decreases |ts|
  {
    hide TokenText, Escaped, Unescape;
    if ts == [] {
      assert Written(ts) + tail == tail && Meant(ts) + tail == tail;
      TailStands(tail);
    } else {
      var rest := ts[1..];
      assert forall i :: 0 <= i < |rest| ==> rest[i] == ts[i + 1];
      UnescapedExactly(rest, tail);
      TokenRead(ts[0], Written(rest) + tail);
      assert Written(ts) + tail == TokenText(ts[0]) + (Written(rest) + tail);
      assert Meant(ts) == [ts[0].b] + Meant(rest);
    }
  }

  lemma TailStands(tail: bytes)
    requires |tail| <= 2
    ensures Escaped(tail) && Unescape(tail) == tail
  {
    if tail != [] {
      assert tail == [tail[0]] + tail[1..];
      TailStands(tail[1..]);
    }
  }

  // ----- the pieces of a form -----

  /** The texts between ampersands; there is always one more than ampersands. */
  function Pieces(s: bytes): (ps: seq<bytes>)
    ensures ps != []
  {
    if s == [] then [[]]
    else if s[0] == AMPERSAND then [[]] + Pieces(s[1..])
    else var rest := Pieces(s[1..]); [[s[0]] + rest[0]] + rest[1..]
  }

  /** Where the first equals sign of a piece is, or its length. */
  function Equals(p: bytes): (i: nat)
    ensures i <= |p| && (i < |p| ==> p[i] == EQUALS) && forall j :: 0 <= j < i ==> p[j] != EQUALS
  {
    if p == [] || p[0] == EQUALS then 0 else Equals(p[1..]) + 1
  }

  function NameIn(p: bytes): bytes { p[..Equals(p)] }

  function ValueIn(p: bytes): bytes { if Equals(p) < |p| then p[Equals(p) + 1..] else [] }

  /** `name=value`, neither of them empty, and no second equals sign. */
  predicate Whole(p: bytes) { NameIn(p) != [] && ValueIn(p) != [] && EQUALS !in ValueIn(p) }

  /** What may stand at the end: nothing, a name, or a name and an equals sign. */
  predicate Trailing(p: bytes) { p == [] || (NameIn(p) != [] && ValueIn(p) == []) }

  /** Every piece is whole, or only trailing and the last. */
  predicate Accepted(ps: seq<bytes>)
  {
    forall i :: 0 <= i < |ps| ==> Whole(ps[i]) || (i == |ps| - 1 && Trailing(ps[i]))
  }

  function PairsOf(ps: seq<bytes>): seq<Param>
  {
    if ps == [] then []
    else (if Whole(ps[0]) then [(TextOf(NameIn(ps[0])), TextOf(ValueIn(ps[0])))] else []) + PairsOf(ps[1..])
  }

  predicate NoAmpersand(p: bytes) { AMPERSAND !in p }

  lemma {:induction false} FirstPiece(s: bytes)
    ensures var p := Pieces(s)[0];
            && NoAmpersand(p) && |p| <= |s| && p == s[..|p|]
            && (|Pieces(s)| == 1 <==> |p| == |s|)
            && (|p| < |s| ==> s[|p|] == AMPERSAND && Pieces(s)[1..] == Pieces(s[|p| + 1..]))
    decreases |s|
  {
    if s != [] && s[0] != AMPERSAND {
      FirstPiece(s[1..]);
      var q := Pieces(s[1..])[0];
      var p := Pieces(s)[0];
      assert p == [s[0]] + q && s[1..][..|q|] == s[1..|q| + 1];
      assert s == [s[0]] + s[1..];
      if |q| < |s[1..]| { assert s[1..][|q| + 1..] == s[|p| + 1..]; }
    }
  }

  /** One piece, when a pair is pending. */
  lemma PieceScanned(n0: bytes, v0: bytes, p: bytes, tail: bytes)
    requires NoAmpersand(p) && (tail == [] || tail[0] == AMPERSAND)
    ensures Scan(StartingName, n0, v0, p + tail)
            == if Whole(p) then Prefixed(Pair(n0, v0), Scan(InValue, NameIn(p), ValueIn(p), tail))
               else if Trailing(p) && tail == [] then Some(Pair(n0, v0))
               else None
  {
    hide Scan, Pair, Prefixed, Spaces, Escaped;
    var n, v := NameIn(p), ValueIn(p);
    if p == [] {
      assert p + tail == tail;
      NothingHere(n0, v0, tail);
    } else if Equals(p) == |p| {
      assert p == n;
      NameOnly(n0, v0, n, tail);
    } else if n == [] {
      assert p + tail == [EQUALS] + (v + tail);
      ScanNoName(n0, v0, v + tail);
    } else {
      assert p + tail == n + [EQUALS] + (v + tail);
      NameThenEquals(n0, v0, n, v + tail);
      ValueScanned(n0, v0, n, v, tail);
    }
  }

  lemma NothingHere(n0: bytes, v0: bytes, tail: bytes)
    requires tail == [] || tail[0] == AMPERSAND
    ensures Scan(StartingName, n0, v0, tail) == if tail == [] then Some(Pair(n0, v0)) else None
  {}

  lemma NameOnly(n0: bytes, v0: bytes, n: bytes, tail: bytes)
    requires n != [] && (forall i :: 0 <= i < |n| ==> !Delimiter(n[i])) && (tail == [] || tail[0] == AMPERSAND)
    ensures Scan(StartingName, n0, v0, n + tail) == if tail == [] then Some(Pair(n0, v0)) else None
  {
    hide Pair;
    var s := n + tail;
    assert s[0] == n[0] && s[1..] == n[1..] + tail;
    ScanName([n[0]], n[1..], tail);
    assert [n[0]] + n[1..] == n;
    NameAlone(n0, v0, n);
    NoPair(n);
  }

  lemma NoPair(n: bytes)
    ensures Pair(n, []) == []
  {}

  lemma ValueScanned(n0: bytes, v0: bytes, n: bytes, v: bytes, tail: bytes)
    requires n != [] && NoAmpersand(v) && (tail == [] || tail[0] == AMPERSAND)
    ensures Prefixed(Pair(n0, v0), Scan(StartingValue, n, [], v + tail))
            == if v == [] then (if tail == [] then Some(Pair(n0, v0)) else None)
               else if EQUALS in v then None
               else Prefixed(Pair(n0, v0), Scan(InValue, n, v, tail))
  {
    hide Pair;
    if v == [] {
      assert v + tail == tail;
      NameAlone(n0, v0, n);
      NoPair(n);
    } else {
      var s := v + tail;
      assert s[0] == v[0] && s[1..] == v[1..] + tail;
      if v[0] != EQUALS {
        var rest := v[1..];
        var k := Equals(rest);
        assert rest == rest[..k] + rest[k..];
        assert forall i :: 0 <= i < k ==> rest[i] in v;
        ScanValue(n, [v[0]], rest[..k], rest[k..] + tail);
        assert rest[..k] + (rest[k..] + tail) == rest + tail;
        if k < |rest| {
          assert (rest[k..] + tail)[0] == EQUALS && rest[k] in v;
        } else {
          assert rest[..k] == rest && rest[k..] + tail == tail && [v[0]] + rest == v;
          assert EQUALS !in v;
        }
      }
    }
  }

  lemma AcceptedMore(ps: seq<bytes>)
    requires |ps| > 1
    ensures Accepted(ps) <==> Whole(ps[0]) && Accepted(ps[1..])
  {
    hide Whole, Trailing;
    var rest := ps[1..];
    if Accepted(ps) {
      assert Whole(ps[0]);
      forall i | 0 <= i < |rest| ensures Whole(rest[i]) || (i == |rest| - 1 && Trailing(rest[i])) {
        assert rest[i] == ps[i + 1];
      }
    }
    if Whole(ps[0]) && Accepted(rest) {
      forall i | 0 <= i < |ps| ensures Whole(ps[i]) || (i == |ps| - 1 && Trailing(ps[i])) {
        if i > 0 { assert ps[i] == rest[i - 1]; }
      }
    }
  }

  lemma {:induction false} FormScanned(n0: bytes, v0: bytes, s: bytes)
    ensures Scan(StartingName, n0, v0, s)
            == if Accepted(Pieces(s)) then Some(Pair(n0, v0) + PairsOf(Pieces(s))) else None
    decreases |s|
  {
    hide Scan, Whole, Trailing, Pieces, Accepted, TextOf;
    FirstPiece(s);
    var ps := Pieces(s);
    var p := ps[0];
    var tail := s[|p|..];
    assert s == p + tail;
    PieceScanned(n0, v0, p, tail);
    if tail == [] {
      assert ps == [p];
      LastPiece(p);
      if Whole(p) { ValueAtEnd(NameIn(p), ValueIn(p)); }
      PairOfWhole(p);
      assert Pair(n0, v0) + [] == Pair(n0, v0);
    } else {
      var rest := s[|p| + 1..];
      assert tail == [AMPERSAND] + rest;
      AcceptedMore(ps);
      if Whole(p) {
        ValueThenMore(NameIn(p), ValueIn(p), rest);
        FormScanned(NameIn(p), ValueIn(p), rest);
        PairOfWhole(p);
      }
    }
  }

  lemma LastPiece(p: bytes)
    ensures Accepted([p]) <==> Whole(p) || Trailing(p)
    ensures PairsOf([p]) == if Whole(p) then [(TextOf(NameIn(p)), TextOf(ValueIn(p)))] else []
  {
    hide Whole, Trailing, TextOf;
    var ps := [p];
    assert ps[0] == p && ps[1..] == [];
    assert PairsOf([]) == [];
    if Accepted(ps) { assert Whole(ps[0]) || Trailing(ps[0]); }
  }

  lemma PairOfWhole(p: bytes)
    ensures Whole(p) ==> Pair(NameIn(p), ValueIn(p)) == [(TextOf(NameIn(p)), TextOf(ValueIn(p)))]
  {
    hide TextOf;
  }

  /** Any text as a form: it is accepted if and only if all its pieces are whole, the last of them possibly
      only a name, with or without an equals sign, or nothing; and its parameters are those of the whole
      pieces, in order. */
  lemma FormExactly(s: bytes)
    ensures ReadForm(s) == if Accepted(Pieces(s)) then Some(PairsOf(Pieces(s))) else None
  {
    hide Scan, Pieces, Accepted, PairsOf;
    FormScanned([], [], s);
    assert Pair([], []) + PairsOf(Pieces(s)) == PairsOf(Pieces(s));
  }
}
