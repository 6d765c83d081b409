/** LuaPack on the wire: which bytes a value becomes, by arithmetic and with the numbers of the type_tag
    enumeration of src/lua_lpack.h written out, and that no shorter form was there to take. */
module LpackWire {
  import opened Ascii
  import opened LpackCodec

  /** A number of w bytes can hold n, signed or unsigned; eight bytes are always signed. */
  predicate Holds(w: nat, n: int)
  {
    if w == 8 then -0x8000_0000_0000_0000 <= n < 0x8000_0000_0000_0000
    else 2 * n + Pow256(w) >= 0 && n < Pow256(w)
  }

  predicate Width(w: nat) { w == 1 || w == 2 || w == 4 || w == 8 }

  /** The marker of a number of w bytes. */
  function MarkerOf(w: nat, negative: bool): byte
    requires Width(w)
  {
    if w == 8 then 16
    else if negative then (if w == 1 then 13 else if w == 2 then 14 else 15)
    else if w == 1 then 8 else if w == 2 then 10 else 12
  }

  /** A queue of a marker and its payload. */
  lemma TwoItemBytes(tag: byte, payload: Item)
    requires FirstItem([Num(tag), payload]).Some? && !BareMarker(tag)
    ensures Bytes([Num(tag), payload]) == Some(FirstItem([Num(tag), payload]).value.0)
  {
    var q := [Num(tag), payload];
    var (s, k) := FirstItem(q).value;
    assert k == 2 && q[2..] == [];
    assert Bytes([]) == Some([]);
    assert s + [] == s;
  }

  lemma Powers()
    ensures Pow256(1) == 0x100 && Pow256(2) == 0x1_0000 && Pow256(4) == 0x1_0000_0000
    ensures Pow256(8) == 0x1_0000_0000_0000_0000
  {
    assert Pow256(3) == 0x100_0000;
    assert Pow256(5) == 0x100_0000_0000;
    assert Pow256(6) == 0x1_0000_0000_0000;
    assert Pow256(7) == 0x100_0000_0000_0000;
  }

  /** The range that is found: that of the least width. */
  lemma RangeFound(n: int)
    ensures FindMinRange(n, INT_RANGES).Some? <==> Holds(8, n)
    ensures Holds(8, n) ==>
              var r := FindMinRange(n, INT_RANGES).value;
              && Width(r.size) && Holds(r.size, n) && r.tag == MarkerOf(r.size, n < 0)
              && (forall v :: Width(v) && Holds(v, n) ==> r.size <= v)
  {
    Powers();
    Searched(n);
  }

  /** The search, range by range. */
  lemma Searched(n: int)
    ensures FindMinRange(n, INT_RANGES)
            == if 0 <= n < 0x100 then Some(Range(UINT_8, 1, 0, 0xFF))
               else if 0 <= n < 0x1_0000 then Some(Range(UINT_16, 2, 0, 0xFFFF))
               else if 0 <= n < 0x1_0000_0000 then Some(Range(UINT_32, 4, 0, 0xFFFF_FFFF))
               else if -0x80 <= n < 0 then Some(Range(INT_8, 1, -0x80, 0x7F))
               else if -0x8000 <= n < 0 then Some(Range(INT_16, 2, -0x8000, 0x7FFF))
               else if -0x8000_0000 <= n < 0 then Some(Range(INT_32, 4, -0x8000_0000, 0x7FFF_FFFF))
               else if Holds(8, n) then Some(Range(INT_64, 8, -0x8000_0000_0000_0000, 0x7FFF_FFFF_FFFF_FFFF))
               else None
  {
    hide FindMinRange;
    var g := [Range(INT_64, 8, -0x8000_0000_0000_0000, 0x7FFF_FFFF_FFFF_FFFF)] + [];
    var f := [Range(INT_32, 4, -0x8000_0000, 0x7FFF_FFFF)] + g;
    var e := [Range(INT_16, 2, -0x8000, 0x7FFF)] + f;
    var d := [Range(INT_8, 1, -0x80, 0x7F)] + e;
    var c := [Range(UINT_32, 4, 0, 0xFFFF_FFFF)] + d;
    var b := [Range(UINT_16, 2, 0, 0xFFFF)] + c;
    var a := [Range(UINT_8, 1, 0, 0xFF)] + b;
    assert INT_RANGES == a;
    FindFirst(n, a[0], b);
    FindFirst(n, b[0], c);
    FindFirst(n, c[0], d);
    FindFirst(n, d[0], e);
    FindFirst(n, e[0], f);
    FindFirst(n, f[0], g);
    FindFirst(n, g[0], []);
    FindNone(n);
  }

  lemma FindFirst(n: int, r: Range, rest: seq<Range>)
    ensures FindMinRange(n, [r] + rest)
            == if r.least <= n <= r.most then Some(r) else FindMinRange(n, rest)
  {
    assert ([r] + rest)[1..] == rest;
  }

  lemma FindNone(n: int)
    ensures FindMinRange(n, []) == None
  {}

  /** An integer in the fewest bytes that can hold it: a marker, and then the integer in two's complement,
      most significant byte first. */
  lemma NumberIsMinimal(n: int)
    ensures FindMinRange(n, INT_RANGES).Some? <==> Holds(8, n)
    ensures Holds(8, n) ==>
              var s := Bytes(NumberItems(n));
              && s.Some? && s.value != []
              && var w := |s.value| - 1;
                 && Width(w) && Holds(w, n) && (forall v :: Width(v) && Holds(v, n) ==> w <= v)
                 && s.value == [MarkerOf(w, n < 0)] + BigEndian(w, Modulo(n, Pow256(w)))
  {
    hide FindMinRange, INT_RANGES, Holds;
    RangeFound(n);
    if Holds(8, n) {
      var r := FindMinRange(n, INT_RANGES).value;
      Markers(r.size, n < 0);
      TwoItemBytes(r.tag, Num(n));
    }
  }

  lemma Markers(w: nat, negative: bool)
    requires Width(w)
    ensures var tag := MarkerOf(w, negative); NumberWidth(tag) == w && !BareMarker(tag)
  {}

  predicate PrefixHolds(w: nat, n: nat) { n < Pow256(w) }

  lemma StringSearched(n: nat)
    ensures FindMinRange(n, STRING_RANGES)
            == if n < 0x100 then Some(Range(STRING, 1, 0, 0xFF))
               else if n < 0x1_0000 then Some(Range(BIG_STRING, 2, 0, 0xFFFF))
               else if n < 0x1_0000_0000 then Some(Range(HUGE_STRING, 4, 0, 0xFFFF_FFFF))
               else None
    ensures FindMinRange(n, DICT_ENTRY_RANGES)
            == if n < 0x100 then Some(Range(DICT_ENTRY, 1, 0, 0xFF))
               else if n < 0x1_0000 then Some(Range(BIG_DICT_ENTRY, 2, 0, 0xFFFF))
               else None
  {
    hide FindMinRange;
    var c := [Range(HUGE_STRING, 4, 0, 0xFFFF_FFFF)] + [];
    var b := [Range(BIG_STRING, 2, 0, 0xFFFF)] + c;
    var a := [Range(STRING, 1, 0, 0xFF)] + b;
    assert STRING_RANGES == a;
    FindFirst(n, a[0], b);
    FindFirst(n, b[0], c);
    FindFirst(n, c[0], []);
    var e := [Range(BIG_DICT_ENTRY, 2, 0, 0xFFFF)] + [];
    var d := [Range(DICT_ENTRY, 1, 0, 0xFF)] + e;
    assert DICT_ENTRY_RANGES == d;
    FindFirst(n, d[0], e);
    FindFirst(n, e[0], []);
    FindNone(n);
  }

  lemma TextBytes(w: nat, s: bytes)
    requires (w == 1 || w == 2 || w == 4) && PrefixHolds(w, |s|)
    ensures var tag := if w == 1 then STRING else if w == 2 then BIG_STRING else HUGE_STRING;
            Bytes([Num(tag), Text(s)]) == Some([if w == 1 then 19 else if w == 2 then 20 else 21]
                                               + BigEndian(w, |s|) + s)
  {
    hide BigEndian, Pow256, Bytes;
    var tag := if w == 1 then STRING else if w == 2 then BIG_STRING else HUGE_STRING;
    assert Modulo(|s|, Pow256(w)) == |s| by { SmallModulo(|s|, Pow256(w)); }
    TwoItemBytes(tag, Text(s));
  }

  lemma SmallModulo(n: nat, m: nat)
    requires n < m
    ensures Modulo(n, m) == n
  {}

  /** A string that is not in the dictionary: a marker, its length in the fewest of 1, 2 and 4 bytes, and
      its text. */
  lemma StringIsMinimal(s: bytes, words: Words)
    requires s !in words
    ensures EncodableString(s, words) <==> PrefixHolds(4, |s|)
    ensures PrefixHolds(4, |s|) ==>
              var w := if PrefixHolds(1, |s|) then 1 else if PrefixHolds(2, |s|) then 2 else 4;
              Bytes(StringItems(s, words)) == Some([if w == 1 then 19 else if w == 2 then 20 else 21]
                                                   + BigEndian(w, |s|) + s)
  {
    hide FindMinRange, STRING_RANGES, Bytes, BigEndian, Pow256;
    Powers();
    StringSearched(|s|);
    if PrefixHolds(4, |s|) {
      TextBytes(if PrefixHolds(1, |s|) then 1 else if PrefixHolds(2, |s|) then 2 else 4, s);
    }
  }

  /** A word of the dictionary: a marker and its position, in one byte if it fits and else in two. */
  lemma WordIsMinimal(s: bytes, words: Words)
    requires s in words
    ensures EncodableString(s, words) <==> PrefixHolds(2, words[s])
    ensures PrefixHolds(2, words[s]) ==>
              var w := if PrefixHolds(1, words[s]) then 1 else 2;
              Bytes(StringItems(s, words)) == Some([if w == 1 then 9 else 11] + BigEndian(w, words[s]))
  {
    hide FindMinRange, DICT_ENTRY_RANGES;
    Powers();
    StringSearched(words[s]);
    if PrefixHolds(2, words[s]) {
      var r := FindMinRange(words[s], DICT_ENTRY_RANGES).value;
      TwoItemBytes(r.tag, Num(words[s]));
    }
  }

  lemma BareBytes(tag: byte)
    requires BareMarker(tag)
    ensures Bytes([Num(tag)]) == Some([tag])
  {
    var q := [Num(tag)];
    assert q[1..] == [] && Bytes([]) == Some([]);
    assert [tag] + [] == [tag];
  }

  /** nil and the booleans are their markers; an array stands between the marker 2 and the end marker 4, a
      map between 1 and 4, and an empty array is written as an empty map. */
  lemma MarkersOnTheWire(words: Words, b: bool)
    ensures Bytes(Items(Nil, words)) == Some([5])
    ensures Bytes(Items(Bool(b), words)) == Some([if b then 6 else 7])
    ensures Bytes(Items(Arr([]), words)) == Some([1, 4]) && Bytes(Items(Table([]), words)) == Some([1, 4])
  {
    BareBytes(5);
    BareBytes(6);
    BareBytes(7);
    BareBytes(1);
    BareBytes(4);
    var start, end := [Num(1)], [Num(4)];
    BytesConcat(start, end);
    assert start + end == [Num(1), Num(4)] && [1] + [4] == [1, 4];
    assert Items(Arr([]), words) == [Num(1), Num(4)];
    assert Items(Table([]), words) == [Num(1)] + [] + [Num(4)] == [Num(1), Num(4)];
  }

  /** The elements of an array follow one another between its markers. */
  lemma ArrayOnTheWire(items: seq<Value>, words: Words)
    requires items != [] && Encodable(Arr(items), words) && Bytes(ArrayItems(items, words)).Some?
    ensures Bytes(Items(Arr(items), words)) == Some([2] + Bytes(ArrayItems(items, words)).value + [4])
  {
    hide Bytes;
    var inner := ArrayItems(items, words);
    BareBytes(2);
    BareBytes(4);
    BytesConcat([Num(2)], inner);
    BytesConcat([Num(2)] + inner, [Num(4)]);
  }

  lemma MapOnTheWire(entries: seq<Entry>, words: Words)
    requires Encodable(Table(entries), words) && Bytes(EntryItems(entries, words)).Some?
    ensures Bytes(Items(Table(entries), words)) == Some([1] + Bytes(EntryItems(entries, words)).value + [4])
  {
    hide Bytes;
    var inner := EntryItems(entries, words);
    BareBytes(1);
    BareBytes(4);
    BytesConcat([Num(1)], inner);
    BytesConcat([Num(1)] + inner, [Num(4)]);
  }

  /** A dictionary is its words as strings between the markers 3 and 4. */
  lemma DictionaryOnTheWire(dict: seq<bytes>, words: Words)
    requires forall i :: 0 <= i < |dict| ==> EncodableString(dict[i], words)
    ensures var inner := ArrayItems(Strings(dict), words);
            Bytes(inner).Some? ==>
              Bytes([Num(DICT_START)] + inner + [Num(RECORD_END)]) == Some([3] + Bytes(inner).value + [4])
  {
    hide Bytes;
    var inner := ArrayItems(Strings(dict), words);
    BareBytes(3);
    BareBytes(4);
    if Bytes(inner).Some? {
      BytesConcat([Num(3)], inner);
      BytesConcat([Num(3)] + inner, [Num(4)]);
    }
  }

  // ----- reading -----

  /** The two's complement of the bytes: their number, less the power if the first has its top bit set. */
  function Complement(s: bytes): int
    requires s != []
  {
    FromBigEndian(s) - if s[0] >= 128 then Pow256(|s|) else 0
  }

  lemma {:induction false} TopBit(s: bytes)
    requires s != []
    ensures 2 * FromBigEndian(s) >= Pow256(|s|) <==> s[0] >= 128
    decreases |s|
  {
    if |s| == 1 {
      assert s[..0] == [] && Pow256(0) == 1;
    } else {
      var init := s[..|s| - 1];
      TopBit(init);
      EvenPower(|init|);
      Halves(FromBigEndian(init), Pow256(|init|), s[|s| - 1]);
    }
  }

  lemma Halves(f: nat, p: nat, b: byte)
    requires p % 2 == 0
    ensures 2 * (256 * f + b) >= 256 * p <==> 2 * f >= p
  {
    var half := p / 2;
    assert p == 2 * half;
  }

  lemma EvenPower(w: nat)
    requires w > 0
    ensures Pow256(w) % 2 == 0
  {}

  /** Every number marker with every payload, also those that no writer would choose: the markers 8, 10 and
      12 are read without a sign, 13 to 16 in two's complement. */
  lemma NumberRead(tag: byte, s: bytes, rest: bytes, dict: seq<bytes>)
    requires tag in {8, 10, 12, 13, 14, 15, 16}
    requires |s| == if tag in {8, 13} then 1 else if tag in {10, 14} then 2 else if tag in {12, 15} then 4 else 8
    ensures var r := Decode([tag] + s + rest, dict);
            && r.Ok? && r.rest == rest
            && r.value == Int(if tag <= 12 then FromBigEndian(s) else Complement(s))
  {
    hide DecodeTable, DecodeArray, FromBigEndian, Pow256;
    var t := ([tag] + s + rest)[1..];
    assert t == s + rest && t[..|s|] == s && t[|s|..] == rest;
    TopBit(s);
  }

  /** Every dictionary marker: the word at that position, counted from 1, or an error if there is none. */
  lemma WordRead(tag: byte, s: bytes, rest: bytes, dict: seq<bytes>)
    requires tag in {9, 11} && |s| == if tag == 9 then 1 else 2
    ensures var r, n := Decode([tag] + s + rest, dict), FromBigEndian(s);
            if 1 <= n <= |dict| then r.Ok? && r.rest == rest && r.value == Str(dict[n - 1]) else r.Bad?
  {
    hide DecodeTable, DecodeArray, FromBigEndian, Pow256;
    var t := ([tag] + s + rest)[1..];
    assert t == s + rest && t[..|s|] == s && t[|s|..] == rest;
  }

  /** What the promised values leave out: nil comes back as nil, and the empty string does too. */
  lemma NothingComesBack(rest: bytes, dict: seq<bytes>)
    ensures Decode([5] + rest, dict) == Ok(Nil, rest, [])
    ensures Bytes(StringItems([], map[])) == Some([19, 0]) && Decode([19, 0] + rest, dict) == Ok(Nil, rest, [])
    ensures Decode([1, 4] + rest, dict) == Ok(Table([]), rest, [])
  {
    hide STRING_RANGES, FindMinRange, DecodeTable;
    Powers();
    StringIsMinimal([], map[]);
    assert BigEndian(1, 0) == [0] by { assert BigEndian(0, 0) == []; }
    assert [19] + [0] + [] == [19, 0];
    assert ([5] + rest)[1..] == rest;
    EmptyText(rest, dict);
    EmptyMap(rest, dict);
  }

  lemma EmptyText(rest: bytes, dict: seq<bytes>)
    ensures Decode([19, 0] + rest, dict) == Ok(Nil, rest, [])
  {
    hide DecodeTable, DecodeArray;
    var s := [19, 0] + rest;
    var t := s[1..];
    assert t[..1] == [0] && t[1..] == rest && [0][..0] == [];
    assert FromBigEndian([0]) == 0;
    assert rest[0..] == rest;
  }

  lemma EmptyMap(rest: bytes, dict: seq<bytes>)
    ensures Decode([1, 4] + rest, dict) == Ok(Table([]), rest, [])
  {
    var s := [1, 4] + rest;
    var t := s[1..];
    assert t[0] == 4 && t[1..] == rest;
    assert DecodeTable(t, dict, []) == Ok([], rest, []);
  }

  /** 5, -1, 300 and -200 on the wire. */
  lemma SmallNumbers()
    ensures Holds(8, 5) && Holds(8, -1) && Holds(8, 300) && Holds(8, -200)
    ensures FindMinRange(5, INT_RANGES).Some? && Bytes(NumberItems(5)) == Some([8, 5])
    ensures FindMinRange(-1, INT_RANGES).Some? && Bytes(NumberItems(-1)) == Some([13, 255])
    ensures FindMinRange(300, INT_RANGES).Some? && Bytes(NumberItems(300)) == Some([10, 1, 44])
    ensures FindMinRange(-200, INT_RANGES).Some? && Bytes(NumberItems(-200)) == Some([14, 255, 56])
  {
    hide FindMinRange, INT_RANGES, Bytes, BigEndian, Pow256;
    Powers();
    Searched(5);
    Searched(-1);
    Searched(300);
    Searched(-200);
    OneByte(8, 5, 5);
    OneByte(13, -1, 255);
    TwoByte(10, 300, 300);
    TwoByte(14, -200, 65336);
  }

  lemma OneByte(tag: byte, n: int, m: nat)
    requires (tag == 8 || tag == 13) && Modulo(n, 0x100) == m
    ensures Bytes([Num(tag), Num(n)]) == Some([tag, m % 256])
  {
    hide BigEndian, Pow256, Bytes;
    Powers();
    TwoItemBytes(tag, Num(n));
    OneAndTwo(m);
    assert [tag] + [m % 256] == [tag, m % 256];
  }

  lemma TwoByte(tag: byte, n: int, m: nat)
    requires (tag == 10 || tag == 14) && Modulo(n, 0x1_0000) == m
    ensures Bytes([Num(tag), Num(n)]) == Some([tag, m / 256 % 256, m % 256])
  {
    hide BigEndian, Pow256, Bytes;
    Powers();
    TwoItemBytes(tag, Num(n));
    OneAndTwo(m);
    assert [tag] + [m / 256 % 256, m % 256] == [tag, m / 256 % 256, m % 256];
  }

  lemma OneAndTwo(n: nat)
    ensures BigEndian(1, n) == [n % 256] && BigEndian(2, n) == [n / 256 % 256, n % 256]
  {
    LastByte(1, n);
    LastByte(1, n / 256);
    LastByte(2, n);
    NoBytesLeft(n / 256);
    NoBytesLeft(n / 256 / 256);
    hide BigEndian;
  }

  lemma LastByte(w: nat, n: nat)
    requires w > 0
    ensures BigEndian(w, n) == BigEndian(w - 1, n / 256) + [n % 256]
  {}

  lemma NoBytesLeft(n: nat)
    ensures BigEndian(0, n) == []
  {}
}
