/** Every value LuaPack is promised to carry decodes from its encoding to itself, with or without a
    dictionary, and decoding takes exactly the bytes of the encoding. */
module LpackRoundTrip {
  import opened Ascii
  import opened LpackCodec

  /** The writer's positions and the reader's list describe the same dictionary. */
  predicate SameDictionary(words: Words, dict: seq<bytes>)
  {
    forall w :: w in words ==> 1 <= words[w] <= |dict| && dict[words[w] - 1] == w
  }

  /** Bytes that decode to v, whatever follows them, and leave what follows. */
  predicate Carries(s: bytes, rest: bytes, dict: seq<bytes>, v: Value)
  {
    var r := Decode(s + rest, dict);
    && s != [] && s[0] != RECORD_END
    && r.Ok? && r.value == v && r.rest == rest
  }

  lemma NumberReadsBack(w: nat, n: nat, rest: bytes)
    requires n < Pow256(w)
    ensures var r := DecodeNumber(BigEndian(w, n) + rest, w);
            r.Ok? && r.value == n && r.rest == rest
  {
    BigEndianRoundTrip(w, n);
    assert (BigEndian(w, n) + rest)[..w] == BigEndian(w, n);
    assert (BigEndian(w, n) + rest)[w..] == rest;
  }

  lemma Widths()
    ensures Pow256(1) == 0x100 && Pow256(2) == 0x1_0000 && Pow256(4) == 0x1_0000_0000
    ensures Pow256(8) == 0x1_0000_0000_0000_0000
  {
    assert Pow256(3) == 256 * Pow256(2);
    assert Pow256(5) == 256 * Pow256(4);
    assert Pow256(7) == 256 * Pow256(6);
  }

  /** The chosen width holds the number, and the sign of the marker is the sign the number needs. */
  lemma IntRange(n: int)
    requires FindMinRange(n, INT_RANGES).Some?
    ensures var r := FindMinRange(n, INT_RANGES).value;
            && r.size == NumberWidth(r.tag) > 0 && r.tag != DICT_ENTRY && r.tag != BIG_DICT_ENTRY
            && !BareMarker(r.tag)
            && var m := Modulo(n, Pow256(r.size));
               n == if Signed(r.tag) then AsSigned(r.size, m) else m
  {
    hide FindMinRange, Pow256;
    Widths();
  }

  lemma TwoItems(tag: byte, payload: Item)
    requires !BareMarker(tag)
    requires NumberWidth(tag) > 0 ==> payload.Num?
    requires NumberWidth(tag) == 0 ==> PrefixWidth(tag) > 0 && payload.Text?
    ensures FirstItem([Num(tag), payload]).Some?
    ensures Bytes([Num(tag), payload]) == Some(FirstItem([Num(tag), payload]).value.0)
  {
    var q := [Num(tag), payload];
    assert FirstItem(q).value.1 == 2;
    assert q[2..] == [];
    assert FirstItem(q).value.0 + [] == FirstItem(q).value.0;
  }

  lemma NumberCarried(n: int, rest: bytes, dict: seq<bytes>)
    requires FindMinRange(n, INT_RANGES).Some?
    ensures Bytes(NumberItems(n)).Some? && Carries(Bytes(NumberItems(n)).value, rest, dict, Int(n))
  {
    hide BigEndian, FindMinRange, FromBigEndian, AsSigned;
    var r := FindMinRange(n, INT_RANGES).value;
    IntRange(n);
    TwoItems(r.tag, Num(n));
    var w := NumberWidth(r.tag);
    var s := BigEndian(w, Modulo(n, Pow256(w)));
    NumberReadsBack(w, Modulo(n, Pow256(w)), rest);
    assert ([r.tag] + s + rest)[1..] == s + rest;
  }

  lemma StringRange(n: nat)
    requires FindMinRange(n, STRING_RANGES).Some?
    ensures var r := FindMinRange(n, STRING_RANGES).value;
            && PrefixWidth(r.tag) > 0 == NumberWidth(r.tag) && !BareMarker(r.tag)
            && Modulo(n, Pow256(PrefixWidth(r.tag))) == n
  {
    Widths();
  }

  lemma EntryRange(n: nat)
    requires FindMinRange(n, DICT_ENTRY_RANGES).Some?
    ensures var r := FindMinRange(n, DICT_ENTRY_RANGES).value;
            && (r.tag == DICT_ENTRY || r.tag == BIG_DICT_ENTRY) && r.size == NumberWidth(r.tag)
            && Modulo(n, Pow256(NumberWidth(r.tag))) == n
  {
    Widths();
  }

  lemma WordCarried(t: bytes, words: Words, rest: bytes, dict: seq<bytes>)
    requires EncodableString(t, words) && SameDictionary(words, dict) && t in words
    ensures Bytes(StringItems(t, words)).Some? && Carries(Bytes(StringItems(t, words)).value, rest, dict, Str(t))
  {
    hide BigEndian, FindMinRange, FromBigEndian;
    var n := words[t];
    var tag := FindMinRange(n, DICT_ENTRY_RANGES).value.tag;
    EntryRange(n);
    TwoItems(tag, Num(n));
    var w := NumberWidth(tag);
    NumberReadsBack(w, n, rest);
    assert ([tag] + BigEndian(w, n) + rest)[1..] == BigEndian(w, n) + rest;
  }

  lemma TextCarried(t: bytes, words: Words, rest: bytes, dict: seq<bytes>)
    requires EncodableString(t, words) && t !in words && t != []
    ensures Bytes(StringItems(t, words)).Some? && Carries(Bytes(StringItems(t, words)).value, rest, dict, Str(t))
  {
    hide BigEndian, FindMinRange, FromBigEndian;
    var tag := FindMinRange(|t|, STRING_RANGES).value.tag;
    StringRange(|t|);
    TwoItems(tag, Text(t));
    var w := PrefixWidth(tag);
    NumberReadsBack(w, |t|, t + rest);
    assert ([tag] + BigEndian(w, |t|) + t + rest)[1..] == BigEndian(w, |t|) + (t + rest);
    assert (t + rest)[..|t|] == t && (t + rest)[|t|..] == rest;
  }

  lemma StringCarried(t: bytes, words: Words, rest: bytes, dict: seq<bytes>)
    requires EncodableString(t, words) && SameDictionary(words, dict) && t != []
    ensures Bytes(StringItems(t, words)).Some? && Carries(Bytes(StringItems(t, words)).value, rest, dict, Str(t))
  {
    if t in words { WordCarried(t, words, rest, dict); } else { TextCarried(t, words, rest, dict); }
  }

  lemma MarkerBytes(tag: byte, q: seq<Item>)
    requires BareMarker(tag)
    ensures Bytes([Num(tag)] + q) == Prepend([tag], Bytes(q))
  {
    assert ([Num(tag)] + q)[1..] == q;
  }

  lemma MarkerAlone(tag: byte)
    requires BareMarker(tag)
    ensures Bytes([Num(tag)]) == Some([tag])
  {
    MarkerBytes(tag, []);
    assert [Num(tag)] + [] == [Num(tag)];
    assert [tag] + [] == [tag];
  }

  /** The items between a container's start marker and its end. */
  lemma ContainerBytes(start: byte, q: seq<Item>)
    requires BareMarker(start) && Bytes(q).Some?
    ensures Bytes([Num(start)] + q + [Num(RECORD_END)]) == Some([start] + Bytes(q).value + [RECORD_END])
  {
    hide FirstItem, Bytes;
    MarkerAlone(RECORD_END);
    BytesConcat(q, [Num(RECORD_END)]);
    MarkerBytes(start, q + [Num(RECORD_END)]);
    assert [Num(start)] + q + [Num(RECORD_END)] == [Num(start)] + (q + [Num(RECORD_END)]);
    assert [start] + (Bytes(q).value + [RECORD_END]) == [start] + Bytes(q).value + [RECORD_END];
  }

  lemma BoolCarried(b: bool, rest: bytes, dict: seq<bytes>)
    ensures Carries([if b then BOOL_TRUE else BOOL_FALSE], rest, dict, Bool(b))
  {
    var tag := if b then BOOL_TRUE else BOOL_FALSE;
    assert ([tag] + rest)[1..] == rest;
  }

  lemma ArrayCarried(s: bytes, items: seq<Value>, rest: bytes, dict: seq<bytes>)
    requires var r := DecodeArray(s + [RECORD_END] + rest, dict, []); r.Ok? && r.value == items && r.rest == rest
    ensures Carries([ARRAY_START] + s + [RECORD_END], rest, dict, Arr(items))
  {
    hide DecodeArray, DecodeTable, DecodeNumber;
    assert ([ARRAY_START] + s + [RECORD_END] + rest)[1..] == s + [RECORD_END] + rest;
  }

  lemma TableCarried(s: bytes, entries: seq<Entry>, rest: bytes, dict: seq<bytes>)
    requires var r := DecodeTable(s + [RECORD_END] + rest, dict, []); r.Ok? && r.value == entries && r.rest == rest
    ensures Carries([MAP_START] + s + [RECORD_END], rest, dict, Table(entries))
  {
    hide DecodeArray, DecodeTable, DecodeNumber;
    assert ([MAP_START] + s + [RECORD_END] + rest)[1..] == s + [RECORD_END] + rest;
  }

  /** LuaPack round trip. */
  lemma {:induction false} RoundTrip(v: Value, words: Words, rest: bytes, dict: seq<bytes>)
    requires WellFormed(v) && Encodable(v, words) && SameDictionary(words, dict)
    ensures Bytes(Items(v, words)).Some? && Carries(Bytes(Items(v, words)).value, rest, dict, v)
    decreases v
  {
    hide FindMinRange, Bytes, DecodeArray, DecodeTable, Carries, SameDictionary;
    match v
    case Bool(b) =>
      MarkerAlone(if b then BOOL_TRUE else BOOL_FALSE);
      BoolCarried(b, rest, dict);
    case Int(n) => NumberCarried(n, rest, dict);
    case Str(t) => StringCarried(t, words, rest, dict);
    case Arr(items) =>
      ArrayRoundTrip(items, words, rest, dict, []);
      ContainerBytes(ARRAY_START, ArrayItems(items, words));
      assert [] + items == items;
      ArrayCarried(Bytes(ArrayItems(items, words)).value, items, rest, dict);
    case Table(entries) =>
      assert [] + entries == entries;
      TableRoundTrip(entries, words, rest, dict, []);
      ContainerBytes(MAP_START, EntryItems(entries, words));
      TableCarried(Bytes(EntryItems(entries, words)).value, entries, rest, dict);
  }

  lemma {:induction false} ArrayRoundTrip(items: seq<Value>, words: Words, rest: bytes, dict: seq<bytes>,
                                          acc: seq<Value>)
    requires SameDictionary(words, dict)
    requires forall i :: 0 <= i < |items| ==> WellFormed(items[i]) && Encodable(items[i], words)
    ensures Bytes(ArrayItems(items, words)).Some?
    ensures var r := DecodeArray(Bytes(ArrayItems(items, words)).value + [RECORD_END] + rest, dict, acc);
            r.Ok? && r.value == acc + items && r.rest == rest
    decreases items
  {
    hide FindMinRange, Decode, FirstItem, Items;
    if items == [] {
      assert ([] + [RECORD_END] + rest)[1..] == rest;
      assert acc + items == acc;
    } else {
      var v, tail := items[0], items[1..];
      ArrayRoundTrip(tail, words, rest, dict, acc + [v]);
      var after := Bytes(ArrayItems(tail, words)).value + [RECORD_END] + rest;
      RoundTrip(v, words, after, dict);
      BytesConcat(Items(v, words), ArrayItems(tail, words));
      assert Bytes(ArrayItems(items, words)).value + [RECORD_END] + rest == Bytes(Items(v, words)).value + after;
      assert acc + [v] + tail == acc + items;
    }
  }

  lemma {:induction false} TableRoundTrip(entries: seq<Entry>, words: Words, rest: bytes, dict: seq<bytes>,
                                          acc: seq<Entry>)
    requires SameDictionary(words, dict)
    requires WellFormed(Table(acc + entries))
    requires forall i :: 0 <= i < |entries| ==>
               EncodableString(entries[i].key, words) && Encodable(entries[i].val, words)
    ensures Bytes(EntryItems(entries, words)).Some?
    ensures var r := DecodeTable(Bytes(EntryItems(entries, words)).value + [RECORD_END] + rest, dict, acc);
            r.Ok? && r.value == acc + entries && r.rest == rest
    decreases entries
  {
    hide FindMinRange, Decode, DecodeTable, Bytes, Items, StringItems, EncodableString, Carries, SameDictionary, HasKey;
    if entries == [] {
      TableEnds(rest, dict, acc);
      NoItems();
      assert acc + entries == acc;
    } else {
      var e, tail := entries[0], entries[1..];
      assert acc + [e] + tail == acc + entries;
      assert (acc + entries)[|acc|] == e;
      NewKey(acc, entries);
      TableRoundTrip(tail, words, rest, dict, acc + [e]);
      var after := Bytes(EntryItems(tail, words)).value + [RECORD_END] + rest;
      RoundTrip(e.val, words, after, dict);
      var val := Bytes(Items(e.val, words)).value;
      StringCarried(e.key, words, val + after, dict);
      var key := Bytes(StringItems(e.key, words)).value;
      BytesConcat(StringItems(e.key, words), Items(e.val, words));
      BytesConcat(OneEntry(e, words), EntryItems(tail, words));
      EntryDecoded(key, val, after, dict, acc, e);
      assert Bytes(EntryItems(entries, words)).value + [RECORD_END] + rest == key + (val + after);
    }
  }

  lemma NoItems()
    ensures Bytes([]) == Some([])
  {}

  lemma TableEnds(rest: bytes, dict: seq<bytes>, acc: seq<Entry>)
    ensures DecodeTable([] + [RECORD_END] + rest, dict, acc) == Ok(acc, rest, [])
  {
    assert ([] + [RECORD_END] + rest)[1..] == rest;
  }

  lemma EntryDecoded(key: bytes, val: bytes, after: bytes, dict: seq<bytes>, acc: seq<Entry>, e: Entry)
    requires Carries(key, val + after, dict, Str(e.key)) && Carries(val, after, dict, e.val)
    requires !HasKey(acc, e.key) && !e.val.Nil?
    ensures var r, t := DecodeTable(key + (val + after), dict, acc), DecodeTable(after, dict, acc + [e]);
            t.Ok? ==> r.Ok? && r.value == t.value && r.rest == t.rest
  {
    hide Decode, HasKey;
  }

  lemma NewKey(acc: seq<Entry>, entries: seq<Entry>)
    requires entries != [] && WellFormed(Table(acc + entries))
    ensures !HasKey(acc, entries[0].key)
  {
    var all := acc + entries;
    forall i | 0 <= i < |acc| ensures acc[i].key != entries[0].key {
      assert all[i] == acc[i] && all[|acc|] == entries[0];
    }
  }

  // ----- with a dictionary -----

  predicate UsableWords(dict: seq<bytes>)
  {
    |dict| <= 0xFFFF && forall i :: 0 <= i < |dict| ==> 0 < |dict[i]| <= 0xFFFF_FFFF
  }

  /** The positions the writer remembers are those at which the reader finds the words. */
  lemma {:induction false} DictionaryAgrees(dict: seq<bytes>)
    ensures SameDictionary(WordsOf(dict), dict)
  {
    if dict != [] { DictionaryAgrees(dict[..|dict| - 1]); }
  }

  lemma StringEncodable(t: bytes, dict: seq<bytes>)
    requires UsableWords(dict) && |t| <= 0xFFFF_FFFF
    ensures EncodableString(t, WordsOf(dict))
  {
    DictionaryAgrees(dict);
    var words := WordsOf(dict);
    if t in words {
      assert Range(BIG_DICT_ENTRY, 2, 0, 0xFFFF) == DICT_ENTRY_RANGES[1];
    } else {
      assert Range(HUGE_STRING, 4, 0, 0xFFFF_FFFF) == STRING_RANGES[2];
    }
  }

  /** No findMinRange fails for the values LuaPack is promised to carry. */
  lemma {:induction false} PromisedIsEncodable(v: Value, dict: seq<bytes>)
    requires WellFormed(v) && UsableWords(dict)
    ensures Encodable(v, WordsOf(dict))
    decreases v
  {
    hide WordsOf, EncodableString;
    match v
    case Bool(_) =>
    case Int(n) => assert Range(INT_64, 8, -0x8000_0000_0000_0000, 0x7FFF_FFFF_FFFF_FFFF) == INT_RANGES[6];
    case Str(t) => StringEncodable(t, dict);
    case Arr(items) =>
      forall i | 0 <= i < |items| ensures Encodable(items[i], WordsOf(dict)) {
        PromisedIsEncodable(items[i], dict);
      }
    case Table(entries) =>
      forall i | 0 <= i < |entries|
        ensures EncodableString(entries[i].key, WordsOf(dict)) && Encodable(entries[i].val, WordsOf(dict))
      {
        StringEncodable(entries[i].key, dict);
        PromisedIsEncodable(entries[i].val, dict);
      }
  }

  /** The items of a dictionary followed by a value. */
  ghost function StreamItems(dict: seq<bytes>, v: Value): (q: seq<Item>)
    requires forall i :: 0 <= i < |dict| ==> Encodable(Strings(dict)[i], map[])
    requires Encodable(v, WordsOf(dict))
  {
    [Num(DICT_START)] + ArrayItems(Strings(dict), map[]) + [Num(RECORD_END)] + Items(v, WordsOf(dict))
  }

  lemma DecodesNoDictionary(s: bytes, dict: seq<bytes>)
    requires Decode(s, dict).Ok?
    ensures s != [] && s[0] != DICT_START && DecodeStream(s, dict) == Decode(s, dict)
  {}

  /** Reading a dictionary and then going on with it. */
  lemma DictionaryRead(dict: seq<bytes>, after: bytes)
    requires UsableWords(dict)
    ensures forall i :: 0 <= i < |dict| ==> Encodable(Strings(dict)[i], map[])
    ensures var q := [Num(DICT_START)] + ArrayItems(Strings(dict), map[]) + [Num(RECORD_END)];
            && Bytes(q).Some?
            && var r, t := DecodeStream(Bytes(q).value + after, []), DecodeStream(after, dict);
               if t.Bad? then r.Bad? else r.Ok? && r.value == t.value && r.rest == t.rest
  {
    hide FindMinRange, Bytes, Items, Decode, DecodeArray, Encodable, WellFormed;
    var items := Strings(dict);
    forall i | 0 <= i < |dict| ensures WellFormed(items[i]) && Encodable(items[i], map[]) {
      PlainWord(dict[i]);
    }
    ArrayRoundTrip(items, map[], after, [], []);
    ContainerBytes(DICT_START, ArrayItems(items, map[]));
    var list := Bytes(ArrayItems(items, map[])).value;
    assert ([DICT_START] + list + [RECORD_END] + after)[1..] == list + [RECORD_END] + after;
    assert [] + items == items;
    assert Texts(items) == dict;
  }

  /** A dictionary of non-empty words and any promised value written under it come back as that value,
      and what follows them in the stream is left alone. */
  lemma StreamRoundTrip(dict: seq<bytes>, v: Value, rest: bytes)
    requires UsableWords(dict) && WellFormed(v)
    ensures forall i :: 0 <= i < |dict| ==> Encodable(Strings(dict)[i], map[])
    ensures Encodable(v, WordsOf(dict))
    ensures Bytes(StreamItems(dict, v)).Some?
    ensures var r := DecodeStream(Bytes(StreamItems(dict, v)).value + rest, []);
            r.Ok? && r.value == v && r.rest == rest
  {
    hide FindMinRange, Bytes, Items, Decode, DecodeStream, Encodable, WellFormed, ArrayItems, WordsOf, SameDictionary;
    var words := WordsOf(dict);
    PromisedIsEncodable(v, dict);
    DictionaryAgrees(dict);
    RoundTrip(v, words, rest, dict);
    var body := Bytes(Items(v, words)).value;
    DecodesNoDictionary(body + rest, dict);
    DictionaryRead(dict, body + rest);
    var q := [Num(DICT_START)] + ArrayItems(Strings(dict), map[]) + [Num(RECORD_END)];
    BytesConcat(q, Items(v, words));
    assert Bytes(q).value + (body + rest) == Bytes(q).value + body + rest;
  }

  lemma PlainWord(t: bytes)
    requires 0 < |t| <= 0xFFFF_FFFF
    ensures WellFormed(Str(t)) && Encodable(Str(t), map[])
  {
    assert Range(HUGE_STRING, 4, 0, 0xFFFF_FFFF) == STRING_RANGES[2];
  }
}
