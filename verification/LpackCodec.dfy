/** LuaPack as a format: the values, the queue of markers and payloads that lib/luapack.lua builds for
    a value, the bytes that src/lua_lpack.c makes of a queue, and the decoding of a byte stream. */
module LpackCodec {
  import opened Ascii

  // ----- big-endian numbers -----

  function Pow256(w: nat): (r: nat)
    ensures r > 0
  {
    if w == 0 then 1 else 256 * Pow256(w - 1)
  }

  /** The w bytes of n, most significant first. */
  function BigEndian(w: nat, n: nat): (s: bytes)
    ensures |s| == w
  {
    if w == 0 then [] else BigEndian(w - 1, n / 256) + [n % 256]
  }

  function FromBigEndian(s: bytes): (n: nat)
    ensures n < Pow256(|s|)
  {
    if s == [] then 0 else 256 * FromBigEndian(s[..|s| - 1]) + s[|s| - 1]
  }

  lemma {:induction false} BigEndianRoundTrip(w: nat, n: nat)
    requires n < Pow256(w)
    ensures FromBigEndian(BigEndian(w, n)) == n
  {
    if w > 0 {
      BigEndianRoundTrip(w - 1, n / 256);
      assert BigEndian(w, n)[..w - 1] == BigEndian(w - 1, n / 256);
    }
  }

  /** A C integer as it lies in memory on a host of either endianness. */
  function HostBytes(bigEndianHost: bool, w: nat, n: nat): bytes
  {
    if bigEndianHost then BigEndian(w, n) else Reversed(BigEndian(w, n))
  }

  function Reversed(s: bytes): (r: bytes)
    ensures |r| == |s|
    ensures forall i :: 0 <= i < |s| ==> r[i] == s[|s| - 1 - i]
  {
    if s == [] then [] else [s[|s| - 1]] + Reversed(s[..|s| - 1])
  }

  /** be16, be32 and be64: copy on a big-endian host, reverse on the others. */
  function Swap(bigEndianHost: bool, s: bytes): bytes
  {
    if bigEndianHost then s else Reversed(s)
  }

  /** Whatever the host, be16/be32/be64 turn a C integer into network order and back. */
  lemma SwapIsNetworkOrder(bigEndianHost: bool, w: nat, n: nat)
    ensures Swap(bigEndianHost, HostBytes(bigEndianHost, w, n)) == BigEndian(w, n)
    ensures Swap(bigEndianHost, BigEndian(w, n)) == HostBytes(bigEndianHost, w, n)
  {
    if !bigEndianHost {
      var s := BigEndian(w, n);
      assert Reversed(Reversed(s)) == s;
    }
  }

  // ----- type tags -----

  const MAP_START: byte := 1
  const ARRAY_START: byte := 2
  const DICT_START: byte := 3
  const RECORD_END: byte := 4
  const NIL: byte := 5
  const BOOL_TRUE: byte := 6
  const BOOL_FALSE: byte := 7
  const UINT_8: byte := 8
  const DICT_ENTRY: byte := 9
  const UINT_16: byte := 10
  const BIG_DICT_ENTRY: byte := 11
  const UINT_32: byte := 12
  const INT_8: byte := 13
  const INT_16: byte := 14
  const INT_32: byte := 15
  const INT_64: byte := 16
  const STRING: byte := 19
  const BIG_STRING: byte := 20
  const HUGE_STRING: byte := 21

  /** The table a type is described by: tag, size and the numbers it covers. */
  datatype Range = Range(tag: byte, size: nat, least: int, most: int)

  const INT_RANGES: seq<Range> := [
    Range(UINT_8, 1, 0, 0xFF), Range(UINT_16, 2, 0, 0xFFFF), Range(UINT_32, 4, 0, 0xFFFF_FFFF),
    Range(INT_8, 1, -0x80, 0x7F), Range(INT_16, 2, -0x8000, 0x7FFF), Range(INT_32, 4, -0x8000_0000, 0x7FFF_FFFF),
    Range(INT_64, 8, -0x8000_0000_0000_0000, 0x7FFF_FFFF_FFFF_FFFF)]

  const STRING_RANGES: seq<Range> := [
    Range(STRING, 1, 0, 0xFF), Range(BIG_STRING, 2, 0, 0xFFFF), Range(HUGE_STRING, 4, 0, 0xFFFF_FFFF)]

  const DICT_ENTRY_RANGES: seq<Range> := [Range(DICT_ENTRY, 1, 0, 0xFF), Range(BIG_DICT_ENTRY, 2, 0, 0xFFFF)]

  /** findMinRange: the first range of the list that covers the number. */
  function FindMinRange(num: int, ranges: seq<Range>): (r: Option<Range>)
    ensures r.Some? ==> r.value in ranges && r.value.least <= num <= r.value.most
    ensures r.None? ==> forall x :: x in ranges ==> !(x.least <= num <= x.most)
  {
    if ranges == [] then None
    else if ranges[0].least <= num <= ranges[0].most then Some(ranges[0])
    else FindMinRange(num, ranges[1..])
  }

  /** How many payload bytes follow a marker of a number; 0 for every other marker. */
  function NumberWidth(tag: byte): nat
  {
    if tag == UINT_8 || tag == INT_8 || tag == DICT_ENTRY then 1
    else if tag == UINT_16 || tag == INT_16 || tag == BIG_DICT_ENTRY then 2
    else if tag == UINT_32 || tag == INT_32 then 4
    else if tag == INT_64 then 8
    else 0
  }

  /** How many length bytes precede a string; 0 for every other marker. */
  function PrefixWidth(tag: byte): nat
  {
    if tag == STRING then 1 else if tag == BIG_STRING then 2 else if tag == HUGE_STRING then 4 else 0
  }

  predicate Signed(tag: byte) { tag == INT_8 || tag == INT_16 || tag == INT_32 || tag == INT_64 }

  predicate BareMarker(tag: byte) { MAP_START <= tag <= BOOL_FALSE }

  /** The two's complement reading of a w-byte number. */
  function AsSigned(w: nat, n: nat): int { if 2 * n >= Pow256(w) then n - Pow256(w) else n }

  // ----- values -----

  datatype Value =
    | Nil
    | Bool(b: bool)
    | Int(n: int)
    | Str(s: bytes)
    | Arr(items: seq<Value>)
    | Table(entries: seq<Entry>)

  datatype Entry = Entry(key: bytes, val: Value)

  const MAX_INT: int := 0x20_0000_0000_0000

  predicate HasKey(entries: seq<Entry>, key: bytes) { exists i :: 0 <= i < |entries| && entries[i].key == key }

  /** The values LuaPack is promised to carry: integers a double holds exactly, non-empty strings whose
      length a 32-bit prefix holds, non-empty arrays, tables with distinct non-empty string keys. */
  ghost predicate WellFormed(v: Value)
  {
    match v
    case Nil => false
    case Bool(_) => true
    case Int(n) => -MAX_INT <= n <= MAX_INT
    case Str(s) => 0 < |s| <= 0xFFFF_FFFF
    case Arr(items) => items != [] && forall i :: 0 <= i < |items| ==> WellFormed(items[i])
    case Table(entries) =>
      && (forall i :: 0 <= i < |entries| ==> WellFormed(entries[i].val) && 0 < |entries[i].key| <= 0xFFFF_FFFF)
      && (forall i, j :: 0 <= i < j < |entries| ==> entries[i].key != entries[j].key)
  }

  // ----- what the writer queues for a value -----

  /** An element of the write queue: a marker or number, or a string. */
  datatype Item = Num(n: int) | Text(s: bytes)

  /** The words of the dictionary in use with their positions; empty when there is none. */
  type Words = map<bytes, nat>

  /** Values for which no findMinRange fails. */
  ghost predicate Encodable(v: Value, words: Words)
  {
    match v
    case Nil => true
    case Bool(_) => true
    case Int(n) => FindMinRange(n, INT_RANGES).Some?
    case Str(s) => EncodableString(s, words)
    case Arr(items) => forall i :: 0 <= i < |items| ==> Encodable(items[i], words)
    case Table(entries) =>
      forall i :: 0 <= i < |entries| ==> EncodableString(entries[i].key, words) && Encodable(entries[i].val, words)
  }

  predicate EncodableString(s: bytes, words: Words)
  {
    if s in words then FindMinRange(words[s], DICT_ENTRY_RANGES).Some? else FindMinRange(|s|, STRING_RANGES).Some?
  }

  function NumberItems(n: int): (q: seq<Item>)
    requires FindMinRange(n, INT_RANGES).Some?
  {
    [Num(FindMinRange(n, INT_RANGES).value.tag), Num(n)]
  }

  function StringItems(s: bytes, words: Words): (q: seq<Item>)
    requires EncodableString(s, words)
  {
    if s in words then [Num(FindMinRange(words[s], DICT_ENTRY_RANGES).value.tag), Num(words[s])]
    else [Num(FindMinRange(|s|, STRING_RANGES).value.tag), Text(s)]
  }

  /** serialize: the items of a value in the order they are queued. */
  ghost function Items(v: Value, words: Words): (q: seq<Item>)
    requires Encodable(v, words)
    decreases v, 0
  {
    match v
    case Nil => [Num(NIL)]
    case Bool(b) => [Num(if b then BOOL_TRUE else BOOL_FALSE)]
    case Int(n) => NumberItems(n)
    case Str(s) => StringItems(s, words)
    case Arr(items) =>
      if items == [] then [Num(MAP_START), Num(RECORD_END)]
      else [Num(ARRAY_START)] + ArrayItems(items, words) + [Num(RECORD_END)]
    case Table(entries) => [Num(MAP_START)] + EntryItems(entries, words) + [Num(RECORD_END)]
  }

  ghost function ArrayItems(items: seq<Value>, words: Words): (q: seq<Item>)
    requires forall i :: 0 <= i < |items| ==> Encodable(items[i], words)
    decreases items, 2
  {
    if items == [] then [] else Items(items[0], words) + ArrayItems(items[1..], words)
  }

  ghost function EntryItems(entries: seq<Entry>, words: Words): (q: seq<Item>)
    requires forall i :: 0 <= i < |entries| ==>
               EncodableString(entries[i].key, words) && Encodable(entries[i].val, words)
    decreases entries, 2
  {
    if entries == [] then [] else OneEntry(entries[0], words) + EntryItems(entries[1..], words)
  }

  ghost function OneEntry(e: Entry, words: Words): (q: seq<Item>)
    requires EncodableString(e.key, words) && Encodable(e.val, words)
    decreases e, 1
  {
    StringItems(e.key, words) + Items(e.val, words)
  }

  /** The words of a dictionary as array elements. */
  function Strings(dict: seq<bytes>): (items: seq<Value>)
    ensures |items| == |dict| && forall i :: 0 <= i < |dict| ==> items[i] == Str(dict[i])
  {
    seq(|dict|, i requires 0 <= i < |dict| => Str(dict[i]))
  }

  /** dictionary[dw] = i, word by word: a word that occurs twice has its last position. */
  function WordsOf(dict: seq<bytes>): (words: Words)
  {
    if dict == [] then map[] else WordsOf(dict[..|dict| - 1])[dict[|dict| - 1] := |dict|]
  }

  // ----- what serialize_write_Q makes of a queue -----

  function Prepend(s: bytes, r: Option<bytes>): Option<bytes>
  {
    if r.Some? then Some(s + r.value) else None
  }

  function Modulo(n: int, m: nat): (r: nat)
    requires m > 0
    ensures r < m
  {
    n % m
  }

  /** The bytes of the first whole item of a queue, and how many queue elements it takes. None if the
      queue does not start with a marker, or lacks the payload its marker calls for. */
  function FirstItem(q: seq<Item>): (r: Option<(bytes, nat)>)
    requires q != []
    ensures r.Some? ==> 1 <= r.value.1 <= 2 && r.value.1 <= |q| && |r.value.0| >= 1
  {
    if !q[0].Num? || !(0 <= q[0].n < 256) then None
    else
      var tag := q[0].n;
      if BareMarker(tag) then Some(([tag], 1))
      else if NumberWidth(tag) > 0 then
        if |q| >= 2 && q[1].Num?
        then Some(([tag] + BigEndian(NumberWidth(tag), Modulo(q[1].n, Pow256(NumberWidth(tag)))), 2))
        else None
      else if PrefixWidth(tag) > 0 then
        if |q| >= 2 && q[1].Text?
        then Some(([tag] + BigEndian(PrefixWidth(tag), Modulo(|q[1].s|, Pow256(PrefixWidth(tag)))) + q[1].s, 2))
        else None
      else None
  }

  /** The bytes of a queue; None if it does not end on a whole item. */
  function Bytes(q: seq<Item>): (r: Option<bytes>)
    decreases |q|
  {
    if q == [] then Some([])
    else if FirstItem(q).None? then None
    else Prepend(FirstItem(q).value.0, Bytes(q[FirstItem(q).value.1..]))
  }

  lemma FirstItemPrefix(a: seq<Item>, b: seq<Item>)
    requires a != [] && FirstItem(a).Some?
    ensures FirstItem(a + b) == FirstItem(a)
  {
    assert (a + b)[0] == a[0];
    assert |a| >= 2 ==> (a + b)[1] == a[1];
  }

  /** The bytes of two queues one after the other. */
  lemma {:induction false} BytesConcat(a: seq<Item>, b: seq<Item>)
    requires Bytes(a).Some?
    ensures Bytes(a + b) == Prepend(Bytes(a).value, Bytes(b))
    decreases |a|
  {
    hide FirstItem;
    if a == [] {
      assert a + b == b;
      if Bytes(b).Some? { assert [] + Bytes(b).value == Bytes(b).value; }
    } else {
      var k := FirstItem(a).value.1;
      FirstItemPrefix(a, b);
      BytesConcat(a[k..], b);
      assert (a + b)[k..] == a[k..] + b;
      if Bytes(b).Some? {
        assert FirstItem(a).value.0 + (Bytes(a[k..]).value + Bytes(b).value)
            == (FirstItem(a).value.0 + Bytes(a[k..]).value) + Bytes(b).value;
      }
    }
  }

  // ----- decoding -----

  /** A multi-byte number in a stream: how many bytes are left at its first byte, and its width. */
  datatype Extent = Extent(left: nat, width: nat)

  /** A decoded value, the bytes after it, and the multi-byte numbers that were read on the way. Bad is
      everything else: input that ends too early, input the reader rejects, and input no writer makes. */
  datatype Decoded<T> = Ok(value: T, rest: bytes, nums: seq<Extent>) | Bad

  /** read_number of a w-byte number. */
  function DecodeNumber(s: bytes, w: nat): (r: Decoded<nat>)
    ensures r.Ok? ==> |r.rest| == |s| - w
  {
    if |s| < w then Bad
    else Ok(FromBigEndian(s[..w]), s[w..], if w > 1 then [Extent(|s|, w)] else [])
  }

  /** One value after its marker has been looked at: deserialize without a container. */
  function Decode(s: bytes, dict: seq<bytes>): (r: Decoded<Value>)
    ensures r.Ok? ==> |r.rest| < |s|
    decreases |s|, 0
  {
    if s == [] then Bad
    else
      var tag, t := s[0], s[1..];
      if tag == NIL then Ok(Nil, t, [])
      else if tag == BOOL_TRUE then Ok(Bool(true), t, [])
      else if tag == BOOL_FALSE then Ok(Bool(false), t, [])
      else if tag == ARRAY_START then
        match DecodeArray(t, dict, [])
        case Bad => Bad
        case Ok(items, rest, nums) => Ok(Arr(items), rest, nums)
      else if tag == MAP_START then
        match DecodeTable(t, dict, [])
        case Bad => Bad
        case Ok(entries, rest, nums) => Ok(Table(entries), rest, nums)
      else if NumberWidth(tag) > 0 then DecodeNumeric(tag, DecodeNumber(t, NumberWidth(tag)), dict)
      else if PrefixWidth(tag) > 0 then DecodeText(DecodeNumber(t, PrefixWidth(tag)))
      else Bad
  }

  function DecodeNumeric(tag: byte, n: Decoded<nat>, dict: seq<bytes>): (r: Decoded<Value>)
    ensures r.Ok? ==> n.Ok? && r.rest == n.rest
  {
    if n.Bad? then Bad
    else if tag == DICT_ENTRY || tag == BIG_DICT_ENTRY then
      if 1 <= n.value <= |dict| then Ok(Str(dict[n.value - 1]), n.rest, n.nums) else Bad
    else Ok(Int(if Signed(tag) then AsSigned(NumberWidth(tag), n.value) else n.value), n.rest, n.nums)
  }

  /** The text after a length; a string of length 0 comes back as nil. */
  function DecodeText(n: Decoded<nat>): (r: Decoded<Value>)
    ensures r.Ok? ==> n.Ok? && |r.rest| <= |n.rest|
  {
    if n.Bad? || |n.rest| < n.value then Bad
    else Ok(if n.value == 0 then Nil else Str(n.rest[..n.value]), n.rest[n.value..], n.nums)
  }

  function Texts(items: seq<Value>): (dict: seq<bytes>)
    requires forall i :: 0 <= i < |items| ==> items[i].Str?
  {
    seq(|items|, i requires 0 <= i < |items| => items[i].s)
  }

  /** A stream from its start: dictionaries first, then one value. */
  function DecodeStream(s: bytes, dict: seq<bytes>): (r: Decoded<Value>)
    decreases |s|
  {
    if s != [] && s[0] == DICT_START then
      match DecodeArray(s[1..], dict, [])
      case Bad => Bad
      case Ok(items, rest, nums) =>
        if !(forall i :: 0 <= i < |items| ==> items[i].Str?) then Bad
        else
          match DecodeStream(rest, Texts(items))
          case Bad => Bad
          case Ok(v, rest', more) => Ok(v, rest', nums + more)
    else Decode(s, dict)
  }

  function DecodeArray(s: bytes, dict: seq<bytes>, acc: seq<Value>): (r: Decoded<seq<Value>>)
    ensures r.Ok? ==> |r.rest| < |s|
    decreases |s|, 1
  {
    if s == [] then Bad
    else if s[0] == RECORD_END then Ok(acc, s[1..], [])
    else
      match Decode(s, dict)
      case Bad => Bad
      case Ok(v, rest, nums) =>
        if v.Nil? then Bad
        else
          match DecodeArray(rest, dict, acc + [v])
          case Bad => Bad
          case Ok(items, rest', more) => Ok(items, rest', nums + more)
  }

  function DecodeTable(s: bytes, dict: seq<bytes>, acc: seq<Entry>): (r: Decoded<seq<Entry>>)
    ensures r.Ok? ==> |r.rest| < |s|
    decreases |s|, 1
  {
    if s == [] then Bad
    else if s[0] == RECORD_END then Ok(acc, s[1..], [])
    else
      match Decode(s, dict)
      case Bad => Bad
      case Ok(k, rest, nums) =>
        if !k.Str? || HasKey(acc, k.s) then Bad
        else
          match Decode(rest, dict)
          case Bad => Bad
          case Ok(v, rest', nums') =>
            if v.Nil? then Bad
            else
              match DecodeTable(rest', dict, acc + [Entry(k.s, v)])
              case Bad => Bad
              case Ok(entries, rest'', more) => Ok(entries, rest'', nums + nums' + more)
  }
}
