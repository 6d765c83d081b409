/** The LuaPack reader: a buffer that is refilled as it runs out, and the recursive deserializer on top
    of it. However the stream is cut, it reads what the decoder reads from the whole stream, unless a
    number of more than one byte lies across a refill that finds unread bytes at a non-zero offset. */
module LpackReader {
  import opened Ascii
  import opened LpackCodec
  import opened LpackRoundTrip

  /** string.sub(s, i) of Lua: 1-based, and 0 means the whole string. */
  function LuaSub(s: bytes, i: nat): bytes
    requires i <= |s| + 1
  {
    if i == 0 then s else s[i - 1..]
  }

  /** The positions, counted in bytes left, at which the pieces of a stream start. */
  ghost function Starts(pieces: seq<bytes>): set<nat>
  {
    set i: nat | i < |pieces| :: |Flatten(pieces[i..])|
  }

  /** A number that a refill cannot damage: it starts where a piece starts, or no piece starts inside it. */
  ghost predicate Clear(e: Extent, starts: set<nat>)
  {
    e.left in starts || forall c :: c in starts ==> !(e.left - e.width < c < e.left)
  }

  ghost predicate AllClear(nums: seq<Extent>, starts: set<nat>)
  {
    forall i :: 0 <= i < |nums| ==> Clear(nums[i], starts)
  }

  /** In a stream that is not cut, every number is clear. */
  lemma OneBufferIsClear(s: bytes, e: Extent)
    requires e.left <= |s|
    ensures Clear(e, Starts([s]))
  {
    assert [s][0..] == [s];
    assert Flatten([s]) == s by { assert [s][..0] == []; assert Flatten([s]) == Flatten([]) + s; }
  }

  class LpackReader {
    var input: seq<bytes>
    var EOF: bool
    var buffer: bytes
    var offset: nat
    var dictionary: seq<bytes>
    ghost var starts: set<nat>

    /** The rest of the stream: what is unread in the buffer, and what readFn will still return. */
    ghost function Left(): bytes
      reads this
      requires offset <= |buffer|
    {
      buffer[offset..] + Flatten(input)
    }

    /** Every piece start is still to come, already behind, or exactly here at the start of the buffer,
        and the start of a buffer is one. */
    ghost predicate Placed()
      reads this
      requires offset <= |buffer|
    {
      && (forall c :: c in starts ==> c <= |Flatten(input)| || c > |Left()| || (c == |Left()| && offset == 0))
      && (offset == 0 && buffer != [] ==> |Left()| in starts)
    }

    /** The pieces to come are non-empty and start where `starts` says. */
    ghost predicate Valid()
      reads this
    {
      && offset <= |buffer| && Starts(input) <= starts && (EOF ==> input == [])
      && (forall c :: c in starts && c <= |Flatten(input)| ==> c in Starts(input))
      && forall i :: 0 <= i < |input| ==> input[i] != []
    }

    constructor (pieces: seq<bytes>)
      requires forall i :: 0 <= i < |pieces| ==> pieces[i] != []
      ensures Valid() && Placed() && Left() == Flatten(pieces) && starts == Starts(pieces)
      ensures input == pieces && buffer == [] && offset == 0 && dictionary == [] && !EOF
    {
      input, EOF, buffer, offset, dictionary, starts := pieces, false, [], 0, [], Starts(pieces);
      new;
      assert buffer[offset..] + Flatten(input) == Flatten(input);
    }

    /** readNextBuffer. With unread bytes at a non-zero offset the new buffer holds exactly one byte too
        many: the one before the first unread byte. */
    method ReadNextBuffer()
      requires Valid()
      modifies this`input, this`EOF, this`buffer, this`offset
      ensures Valid()
      ensures old(input) == [] ==> EOF && buffer == old(buffer) && offset == old(offset) && input == []
      ensures old(input) != [] ==>
                && offset == 0 && input == old(input)[1..] && EOF == old(EOF)
                && Left() == if 0 < old(offset) < |old(buffer)| then [old(buffer)[old(offset) - 1]] + old(Left())
                             else old(Left())
    {
      hide Starts, Flatten;
      if !EOF {
        if input == [] {
          EOF := true;
        } else {
          var newBuffer := input[0];
          FlattenFirst(input);
          StartsTail(input);
          StartsSplit(input);
          input := input[1..];
          if |buffer| > offset {
            buffer := LuaSub(buffer, offset) + newBuffer;
          } else {
            buffer := newBuffer;
          }
          offset := 0;
          assert buffer[0..] == buffer;
        }
      }
    }

    /** A refill when the buffer is used up: nothing is lost or repeated. */
    method NextPiece()
      requires Valid() && Placed() && offset == |buffer| && input != []
      modifies this`input, this`EOF, this`buffer, this`offset
      ensures Valid() && Placed() && Left() == old(Left()) && input == old(input)[1..] && offset == 0
    {
      hide Starts, Flatten;
      FlattenFirst(input);
      StartsTail(input);
      StartsSplit(input);
      ReadNextBuffer();
    }

    /** No piece starts inside the next w bytes, unless it is still to come, and a buffer starts with one. */
    ghost predicate Whole(w: nat)
      reads this
      requires offset <= |buffer|
    {
      && (offset == 0 && buffer != [] ==> |Left()| in starts)
      && (forall c :: c in starts ==> c <= |Flatten(input)| || c > |Left()| - w)
    }

    /** The refills of readNumber once the buffer is used up or untouched: nothing is lost or repeated. */
    method FillTo(w: nat)
      requires Valid() && w <= |Left()| && (|buffer| - offset < w ==> offset == 0 || offset == |buffer|)
      modifies this`input, this`EOF, this`buffer, this`offset
      ensures Valid() && Left() == old(Left()) && |buffer| - offset >= w
      ensures old(Whole(w)) ==> Whole(w)
      ensures old(offset) + w <= |old(buffer)| ==>
                buffer == old(buffer) && input == old(input) && offset == old(offset)
    {
      hide Starts, Flatten;
      while |buffer| - offset < w
        invariant Valid() && Left() == old(Left())
        invariant |buffer| - offset < w ==> offset == 0 || offset == |buffer|
        invariant old(Whole(w)) ==> Whole(w)
        invariant old(offset) + w <= |old(buffer)| ==>
                    buffer == old(buffer) && input == old(input) && offset == old(offset)
        decreases |input|
      {
        if input == [] { NothingLeft(); }
        FlattenFirst(input);
        StartsTail(input);
        StartsSplit(input);
        ReadNextBuffer();
      }
    }

    /** A number that is in the buffer. */
    method TakeNumber(w: nat) returns (n: nat)
      requires Valid() && 1 <= w <= |buffer| - offset
      modifies this`offset
      ensures Valid() && n == FromBigEndian(old(Left())[..w]) && Left() == old(Left())[w..] && offset == old(offset) + w
      ensures old(Whole(w)) ==> Placed()
    {
      hide Starts, Flatten, FromBigEndian;
      assert Left()[..w] == buffer[offset..offset + w];
      n := FromBigEndian(buffer[offset..offset + w]);
      offset := offset + w;
      assert old(Left())[w..] == Left();
    }

    /** readNumber of a w-byte number, on a stream that still has w bytes. A clear number is read as the
        decoder reads it. Any other is read one byte too early: its first byte is the last one consumed
        before it, and its own last byte stays in the stream. */
    method ReadNumber(w: nat) returns (n: nat)
      requires Valid() && Placed() && 1 <= w <= |Left()|
      modifies this`input, this`EOF, this`buffer, this`offset
      ensures Valid() && starts == old(starts)
      ensures w == 1 || Clear(Extent(old(|Left()|), w), starts) ==>
                Placed() && n == FromBigEndian(old(Left())[..w]) && Left() == old(Left())[w..]
      ensures w > 1 && !Clear(Extent(old(|Left()|), w), starts) ==>
                && 0 < old(offset) < |old(buffer)|
                && var seen := [old(buffer)[old(offset) - 1]] + old(Left());
                   n == FromBigEndian(seen[..w]) && Left() == seen[w..]
      ensures w > 1 ==> (Left() == old(Left())[w..] <==> Clear(Extent(old(|Left()|), w), starts))
      ensures old(offset) + w <= |old(buffer)| ==>
                buffer == old(buffer) && input == old(input) && offset == old(offset) + w
    {
      hide Starts, Flatten, FromBigEndian, Clear;
      SafeToRefill(w);
      if 0 < |buffer| - offset < w && offset > 0 {
        if input == [] { NothingLeft(); }
        ReadNextBuffer();
      }
      FillTo(w);
      n := TakeNumber(w);
    }

    /** readString: nil for length 0, otherwise the text, which may be spread over any number of pieces. */
    method ReadString(len: nat) returns (text: Option<bytes>)
      requires Valid() && Placed() && len <= |Left()|
      modifies this`input, this`EOF, this`buffer, this`offset
      ensures Valid() && Placed() && starts == old(starts)
      ensures text == if len == 0 then None else Some(old(Left())[..len])
      ensures Left() == old(Left())[len..]
    {
      hide Starts, Flatten;
      ghost var left := Left();
      var accm: bytes, desired: nat := [], len;
      assert left[..0] == [];
      while desired > 0
        invariant Valid() && Placed() && starts == old(starts) && desired <= len
        invariant Left() == left[len - desired..] && accm == left[..len - desired]
        decreases desired, |input|
      {
        var remaining := |buffer| - offset;
        var readLen := if remaining >= desired then desired else remaining;
        var value := buffer[offset..offset + readLen];
        ghost var here := len - desired;
        assert left[here..][..readLen] == value;
        assert left[..here + readLen] == left[..here] + value;
        assert left[here..][readLen..] == left[here + readLen..];
        offset := offset + readLen;
        desired := desired - readLen;
        accm := accm + value;
        assert Left() == left[len - desired..];
        if desired > 0 {
          if input == [] { NothingLeft(); }
          NextPiece();
        }
      }
      text := if len == 0 then None else Some(accm);
    }

    method ReadMarker() returns (t: byte)
      requires Valid() && Placed() && Left() != []
      modifies this`input, this`EOF, this`buffer, this`offset
      ensures Valid() && Placed() && starts == old(starts)
      ensures t == old(Left())[0] && Left() == old(Left())[1..]
      ensures old(offset) < |old(buffer)| ==> buffer == old(buffer) && input == old(input) && offset == old(offset) + 1
    {
      hide Starts, Flatten;
      ghost var left := Left();
      OneByteNumber(left);
      var n := ReadNumber(1);
      t := n;
    }

    /** One value of deserialize, after its marker. */
    method ReadValue(t: byte) returns (v: Value)
      requires Valid() && Placed()
      requires var d := Decode([t] + Left(), dictionary); d.Ok? && AllClear(d.nums, starts)
      modifies this`input, this`EOF, this`buffer, this`offset
      ensures Valid() && Placed() && starts == old(starts)
      ensures var d := Decode([t] + old(Left()), dictionary); v == d.value && Left() == d.rest
      decreases |Left()|, 1
    {
      hide Starts, Flatten, DecodeArray, DecodeTable, FromBigEndian, Clear;
      ghost var left := Left();
      assert ([t] + left)[1..] == left;
      if t == NIL {
        v := Nil;
      } else if t == BOOL_TRUE {
        v := Bool(true);
      } else if t == BOOL_FALSE {
        v := Bool(false);
      } else if t == ARRAY_START {
        var items := ReadArray();
        v := Arr(items);
      } else if t == MAP_START {
        var entries := ReadTable();
        v := Table(entries);
      } else if NumberWidth(t) > 0 {
        if NumberWidth(t) > 1 { assert Decode([t] + left, dictionary).nums[0] == Extent(|left|, NumberWidth(t)); }
        var n := ReadNumber(NumberWidth(t));
        if t == DICT_ENTRY || t == BIG_DICT_ENTRY {
          v := Str(dictionary[n - 1]);
        } else {
          v := Int(if Signed(t) then AsSigned(NumberWidth(t), n) else n);
        }
      } else {
        if PrefixWidth(t) > 1 { assert Decode([t] + left, dictionary).nums[0] == Extent(|left|, PrefixWidth(t)); }
        var len := ReadNumber(PrefixWidth(t));
        var text := ReadString(len);
        v := if text.None? then Nil else Str(text.value);
      }
    }

    /** deserialize into an array, up to RECORD_END. */
    method ReadArray() returns (items: seq<Value>)
      requires Valid() && Placed()
      requires var d := DecodeArray(Left(), dictionary, []); d.Ok? && AllClear(d.nums, starts)
      modifies this`input, this`EOF, this`buffer, this`offset
      ensures Valid() && Placed() && starts == old(starts)
      ensures var d := DecodeArray(old(Left()), dictionary, []); items == d.value && Left() == d.rest
      decreases |Left()|, 0
    {
      hide Starts, Flatten, Decode, Clear;
      ghost var d := DecodeArray(Left(), dictionary, []);
      items := [];
      while true
        invariant Valid() && Placed() && starts == old(starts) && |Left()| <= old(|Left()|)
        invariant var e := DecodeArray(Left(), dictionary, items);
                  e.Ok? && e.value == d.value && e.rest == d.rest && AllClear(e.nums, starts)
        decreases |Left()|
      {
        ghost var left := Left();
        var t := ReadMarker();
        if t == RECORD_END {
          return;
        }
        assert left == [t] + Left();
        ArrayClear(left, dictionary, items, starts);
        var v := ReadValue(t);
        items := items + [v];
      }
    }

    /** deserialize into a table: keys and values alternate. */
    method ReadTable() returns (entries: seq<Entry>)
      requires Valid() && Placed()
      requires var d := DecodeTable(Left(), dictionary, []); d.Ok? && AllClear(d.nums, starts)
      modifies this`input, this`EOF, this`buffer, this`offset
      ensures Valid() && Placed() && starts == old(starts)
      ensures var d := DecodeTable(old(Left()), dictionary, []); entries == d.value && Left() == d.rest
      decreases |Left()|, 0
    {
      hide Starts, Flatten, Decode, Clear, HasKey;
      ghost var d := DecodeTable(Left(), dictionary, []);
      entries := [];
      while true
        invariant Valid() && Placed() && starts == old(starts) && |Left()| <= old(|Left()|)
        invariant var e := DecodeTable(Left(), dictionary, entries);
                  e.Ok? && e.value == d.value && e.rest == d.rest && AllClear(e.nums, starts)
        decreases |Left()|
      {
        ghost var left := Left();
        var t := ReadMarker();
        if t == RECORD_END {
          return;
        }
        assert left == [t] + Left();
        TableClear(left, dictionary, entries, starts);
        var key := ReadValue(t);
        ghost var middle := Left();
        t := ReadMarker();
        assert middle == [t] + Left();
        var val := ReadValue(t);
        entries := entries + [Entry(key.s, val)];
      }
    }

    /** deserialize without a container: dictionaries are taken over as they come, then one value is
        returned. */
    method Deserialize() returns (v: Value)
      requires Valid() && Placed()
      requires var d := DecodeStream(Left(), dictionary); d.Ok? && AllClear(d.nums, starts)
      modifies this
      ensures Valid() && Placed()
      ensures var d := DecodeStream(old(Left()), old(dictionary)); v == d.value && Left() == d.rest
    {
      hide Starts, Flatten, Decode, DecodeArray, Clear;
      ghost var d := DecodeStream(Left(), dictionary);
      while true
        invariant Valid() && Placed() && starts == old(starts)
        invariant var e := DecodeStream(Left(), dictionary);
                  e.Ok? && e.value == d.value && e.rest == d.rest && AllClear(e.nums, starts)
        decreases |Left()|
      {
        ghost var left := Left();
        StreamClear(left, dictionary, starts);
        var t := ReadMarker();
        if t != DICT_START {
          assert left == [t] + Left();
          v := ReadValue(t);
          return;
        }
        var items := ReadArray();
        dictionary := seq(|items|, i requires 0 <= i < |items| && items[i].Str? => items[i].s);
        assert dictionary == Texts(items);
      }
    }

    /** The stream as a call of read sees it: it begins with a refill, which repeats the byte before the
        first unread one if there are unread bytes at a non-zero offset. */
    ghost function Seen(): bytes
      reads this
      requires offset <= |buffer|
    {
      if input != [] && 0 < offset < |buffer| then [buffer[offset - 1]] + Left() else Left()
    }

    /** Where refills can fall from then on. */
    ghost function Cuts(): set<nat>
      reads this
      requires offset <= |buffer|
    {
      if input != [] then Starts(input[1..]) + {|Seen()|} else if offset == 0 && buffer != [] then {|Left()|} else {}
    }

    /** The refill that read begins with, and the pieces as they then lie. */
    method Refill()
      requires Valid()
      modifies this`input, this`EOF, this`buffer, this`offset, this`starts
      ensures Valid() && Placed() && Left() == old(Seen()) && starts == old(Cuts())
    {
      hide Starts, Flatten;
      ghost var seen, cuts := Seen(), Cuts();
      if input == [] {
        NoStarts();
        ReadNextBuffer();
        starts := cuts;
      } else {
        FlattenFirst(input);
        StartsSplit(input);
        ReadNextBuffer();
        assert Left() == seen;
        starts := cuts;
        assert |Left()| > |Flatten(input)|;
      }
    }

    /** read: a refill, then one value of the stream as it is seen, if its numbers are clear. The stream is
        seen as it is exactly when no piece is to come, or the offset is zero, or nothing is unread. */
    method Read() returns (v: Value)
      requires Valid()
      requires var d := DecodeStream(Seen(), dictionary); d.Ok? && AllClear(d.nums, Cuts())
      modifies this
      ensures Valid() && Placed()
      ensures var d := DecodeStream(old(Seen()), old(dictionary)); v == d.value && Left() == d.rest
      ensures old(Seen()) == old(Left()) <==> old(input) == [] || old(offset) == 0 || old(offset) == |old(buffer)|
    {
      hide DecodeStream, AllClear, Cuts;
      SeenAsItIs();
      Refill();
      v := Deserialize();
    }

    lemma SeenAsItIs()
      requires offset <= |buffer|
      ensures Seen() == Left() <==> input == [] || offset == 0 || offset == |buffer|
    {
      if input != [] && 0 < offset < |buffer| { assert |Seen()| == |Left()| + 1; }
    }

    /** A number meets a refill with unread bytes at a non-zero offset exactly when it is not clear. */
    lemma SafeToRefill(w: nat)
      requires Valid() && Placed() && 1 <= w <= |Left()|
      ensures w == 1 ==> |buffer| - offset < w ==> offset == |buffer|
      ensures w > 1 ==>
                (Clear(Extent(|Left()|, w), starts) <==> (|buffer| - offset < w ==> offset == 0 || offset == |buffer|))
      ensures (|buffer| - offset < w ==> offset == 0 || offset == |buffer|) ==>
                forall c :: c in starts ==> c <= |Flatten(input)| || c > |Left()| - w
    {
      hide Starts;
      if 0 < |buffer| - offset < w {
        if input == [] {
          NothingLeft();
        } else {
          StartsTail(input);
        }
      }
      if offset == |buffer| && input != [] { StartsTail(input); }
    }

    lemma NothingLeft()
      requires Valid() && input == []
      ensures |Left()| == |buffer| - offset
    {}
  }

  lemma NoStarts()
    ensures Starts([]) == {} && Flatten([]) == []
  {}

  lemma FlattenFirst(pieces: seq<bytes>)
    requires pieces != []
    ensures Flatten(pieces) == pieces[0] + Flatten(pieces[1..])
  {
    FlattenSplit(pieces, 1);
    assert pieces[..1][..0] == [];
    assert Flatten(pieces[..1]) == [] + pieces[0];
  }

  lemma StartsTail(pieces: seq<bytes>)
    requires pieces != []
    ensures Starts(pieces[1..]) <= Starts(pieces)
    ensures |Flatten(pieces)| in Starts(pieces)
  {
    assert pieces[0..] == pieces;
    forall i: nat | i < |pieces[1..]| ensures |Flatten(pieces[1..][i..])| in Starts(pieces) {
      assert pieces[1..][i..] == pieces[i + 1..];
    }
  }

  lemma StartsSplit(pieces: seq<bytes>)
    requires pieces != []
    ensures forall c :: c in Starts(pieces) ==> c == |Flatten(pieces)| || c in Starts(pieces[1..])
    ensures forall c :: c in Starts(pieces[1..]) ==> c <= |Flatten(pieces[1..])|
  {
    forall i: nat | i < |pieces|
      ensures |Flatten(pieces[i..])| == |Flatten(pieces)| || |Flatten(pieces[i..])| in Starts(pieces[1..])
    {
      if i == 0 {
        assert pieces[0..] == pieces;
      } else {
        assert pieces[i..] == pieces[1..][i - 1..];
      }
    }
    var tail := pieces[1..];
    forall i: nat | i < |tail| ensures |Flatten(tail[i..])| <= |Flatten(tail)| {
      FlattenSplit(tail, i);
    }
  }

  lemma OneByteNumber(s: bytes)
    requires s != []
    ensures DecodeNumber(s, 1).Ok? && DecodeNumber(s, 1).value == s[0] && DecodeNumber(s, 1).rest == s[1..]
  {
    assert s[..1] == [s[0]];
    assert FromBigEndian(s[..1][..0]) == 0;
  }

  lemma ClearSplit(a: seq<Extent>, b: seq<Extent>, starts: set<nat>)
    requires AllClear(a + b, starts)
    ensures AllClear(a, starts) && AllClear(b, starts)
  {
    hide Clear;
    forall i | 0 <= i < |a| ensures Clear(a[i], starts) { assert (a + b)[i] == a[i]; }
    forall i | 0 <= i < |b| ensures Clear(b[i], starts) { assert (a + b)[|a| + i] == b[i]; }
  }

  /** The numbers of an array's first element and those of the rest. */
  lemma ArrayClear(s: bytes, dict: seq<bytes>, acc: seq<Value>, starts: set<nat>)
    requires var d := DecodeArray(s, dict, acc); d.Ok? && AllClear(d.nums, starts)
    requires s[0] != RECORD_END
    ensures var d := Decode(s, dict);
            && d.Ok? && AllClear(d.nums, starts)
            && AllClear(DecodeArray(d.rest, dict, acc + [d.value]).nums, starts)
  {
    hide Decode, AllClear;
    var d := Decode(s, dict);
    ClearSplit(d.nums, DecodeArray(d.rest, dict, acc + [d.value]).nums, starts);
  }

  lemma TableClear(s: bytes, dict: seq<bytes>, acc: seq<Entry>, starts: set<nat>)
    requires var d := DecodeTable(s, dict, acc); d.Ok? && AllClear(d.nums, starts)
    requires s[0] != RECORD_END
    ensures var k := Decode(s, dict);
            && k.Ok? && k.value.Str? && AllClear(k.nums, starts)
            && var v := Decode(k.rest, dict);
               && v.Ok? && AllClear(v.nums, starts)
               && AllClear(DecodeTable(v.rest, dict, acc + [Entry(k.value.s, v.value)]).nums, starts)
  {
    hide Decode, AllClear, HasKey;
    var k := Decode(s, dict);
    var v := Decode(k.rest, dict);
    var more := DecodeTable(v.rest, dict, acc + [Entry(k.value.s, v.value)]).nums;
    ClearSplit(k.nums + v.nums, more, starts);
    ClearSplit(k.nums, v.nums, starts);
  }

  lemma StreamClear(s: bytes, dict: seq<bytes>, starts: set<nat>)
    requires var d := DecodeStream(s, dict); d.Ok? && AllClear(d.nums, starts)
    ensures s != []
    ensures s[0] != DICT_START ==> DecodeStream(s, dict) == Decode(s, dict)
    ensures s[0] == DICT_START ==>
              var d := DecodeArray(s[1..], dict, []);
              && d.Ok? && AllClear(d.nums, starts) && (forall i :: 0 <= i < |d.value| ==> d.value[i].Str?)
              && AllClear(DecodeStream(d.rest, Texts(d.value)).nums, starts)
  {
    hide AllClear, DecodeArray;
    if s[0] == DICT_START {
      var d := DecodeArray(s[1..], dict, []);
      ClearSplit(d.nums, DecodeStream(d.rest, Texts(d.value)).nums, starts);
    }
  }

  /** End to end: a dictionary and a value written under it are read back from any cutting of the bytes
      in which the numbers are clear. */
  method ReadBack(dict: seq<bytes>, v: Value, pieces: seq<bytes>) returns (got: Value)
    requires UsableWords(dict) && WellFormed(v)
    requires forall i :: 0 <= i < |dict| ==> Encodable(Strings(dict)[i], map[])
    requires Encodable(v, WordsOf(dict)) && Bytes(StreamItems(dict, v)) == Some(Flatten(pieces))
    requires forall i :: 0 <= i < |pieces| ==> pieces[i] != []
    requires var d := DecodeStream(Flatten(pieces), []); d.Ok? ==> AllClear(d.nums, Starts(pieces))
    ensures got == v
  {
    hide Bytes, DecodeStream, AllClear, Starts, Items, Encodable, WellFormed, StreamItems;
    StreamRoundTrip(dict, v, []);
    assert Flatten(pieces) + [] == Flatten(pieces);
    var reader := new LpackReader(pieces);
    NoStarts();
    EmptyStream();
    FirstCuts(pieces);
    got := reader.Read();
  }

  lemma EmptyStream()
    ensures DecodeStream([], []).Bad?
  {}

  /** The first refill takes nothing away from the cutting. */
  lemma FirstCuts(pieces: seq<bytes>)
    requires pieces != []
    ensures Starts(pieces[1..]) + {|Flatten(pieces)|} == Starts(pieces)
  {
    StartsTail(pieces);
    StartsSplit(pieces);
  }

  lemma TwoPieces(a: bytes, b: bytes)
    ensures Flatten([a, b]) == a + b && Flatten([b]) == b && Starts([a, b]) == {|a| + |b|, |b|} && [a, b][1..] == [b]
  {
    var pieces := [a, b];
    NoStarts();
    FlattenFirst(pieces);
    FlattenFirst([b]);
    assert pieces[1..] == [b] && [b][1..] == [];
    FirstCuts(pieces);
    FirstCuts([b]);
  }

  /** A reader that has taken the first byte of two pieces. */
  method ReadFirst(a: bytes, b: bytes) returns (reader: LpackReader, first: byte)
    requires |a| > 1 && b != []
    ensures fresh(reader) && reader.Valid() && reader.Placed() && first == a[0] && reader.dictionary == []
    ensures reader.buffer == a && reader.input == [b] && reader.offset == 1 && reader.starts == {|a| + |b|, |b|}
  {
    hide Flatten, Starts;
    TwoPieces(a, b);
    reader := new LpackReader([a, b]);
    reader.NextPiece();
    assert reader.Left() == reader.buffer + b;
    assert reader.buffer == (a + b)[..|a|];
    first := reader.ReadMarker();
  }

  /** The number 300 in two bytes, cut in the middle behind its marker: it is read as 2561. */
  method StraddledNumber() returns (n: nat)
    ensures n == 2561 && FromBigEndian([1, 44]) == 300
  {
    hide Starts;
    var reader, t := ReadFirst([UINT_16, 1], [44]);
    TwoPieces([UINT_16, 1], [44]);
    assert reader.Left() == [1, 44];
    assert !Clear(Extent(2, 2), reader.starts) by { assert 1 in reader.starts; }
    n := reader.ReadNumber(2);
    TwoBytes(UINT_16, 1);
    TwoBytes(1, 44);
  }

  /** The number 2570, cut in the same place: its bytes are those of its marker, and by that accident it is
      read right, though one byte of it stays in the stream. */
  method LuckyNumber() returns (n: nat, reader: LpackReader)
    ensures n == 2570 == FromBigEndian([10, 10]) && reader.offset <= |reader.buffer| && reader.Left() == [10]
  {
    hide Starts;
    var t;
    reader, t := ReadFirst([UINT_16, 10], [10]);
    TwoPieces([UINT_16, 10], [10]);
    assert reader.Left() == [10, 10];
    assert !Clear(Extent(2, 2), reader.starts) by { assert 1 in reader.starts; }
    n := reader.ReadNumber(2);
    TwoBytes(UINT_16, 10);
    assert ([UINT_16] + [10, 10])[2..] == [10];
  }

  lemma TwoBytes(x: byte, y: byte)
    ensures FromBigEndian([x, y]) == 256 * x + y && forall z: byte :: ([x] + [y, z])[..2] == [x, y]
  {
    assert [x, y][..1] == [x] && [x][..0] == [];
    assert FromBigEndian([x]) == x;
  }

  /** false, true, true in two pieces: after the first value, a further read returns false again. */
  method FurtherRead() returns (first: byte, second: Value)
    ensures first == BOOL_FALSE && second == Bool(false)
    ensures var d := DecodeStream([BOOL_TRUE, BOOL_TRUE], []); d.Ok? && d.value == Bool(true)
  {
    hide Starts;
    var reader;
    reader, first := ReadFirst([BOOL_FALSE, BOOL_TRUE], [BOOL_TRUE]);
    TwoPieces([BOOL_FALSE, BOOL_TRUE], [BOOL_TRUE]);
    assert reader.Seen() == [BOOL_FALSE, BOOL_TRUE, BOOL_TRUE];
    second := reader.Read();
  }
}
