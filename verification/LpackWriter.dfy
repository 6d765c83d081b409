/** The LuaPack writer: a queue of markers and payloads that is flushed by size, and the C routine that
    lays a queue out in a buffer 64 bytes larger than the size the queue counted. */
module LpackWriter {
  import opened Ascii
  import opened LpackCodec
  import opened LpackRoundTrip

  // ----- accounting -----

  /** What qstore has counted for a queue: one byte a marker, the width of a number, the length of a
      string without its prefix. */
  function QueueSize(q: seq<Item>): (n: nat)
    decreases |q|
  {
    if q == [] then 0
    else if FirstItem(q).None? then |q|
    else
      var k := FirstItem(q).value.1;
      (if k == 1 then 1 else 1 + PayloadSize(q[0], q[1])) + QueueSize(q[k..])
  }

  function PayloadSize(marker: Item, payload: Item): nat
  {
    match payload
    case Text(s) => |s|
    case Num(_) => if marker.Num? && 0 <= marker.n < 256 then NumberWidth(marker.n) else 0
  }

  /** The length prefixes of the strings of a queue, which qstore does not count. */
  function Prefixes(q: seq<Item>): (n: nat)
    decreases |q|
  {
    if q == [] || FirstItem(q).None? then 0
    else
      var k := FirstItem(q).value.1;
      (if k == 2 && q[1].Text? then PrefixWidth(q[0].n) else 0) + Prefixes(q[k..])
  }

  /** A queue needs exactly what was counted for it plus the prefixes of its strings. */
  lemma {:induction false} BytesNeeded(q: seq<Item>)
    requires Bytes(q).Some?
    ensures |Bytes(q).value| == QueueSize(q) + Prefixes(q)
    decreases |q|
  {
    if q != [] {
      BytesNeeded(q[FirstItem(q).value.1..]);
    }
  }

  lemma {:induction false} QueueSizeConcat(a: seq<Item>, b: seq<Item>)
    requires Bytes(a).Some?
    ensures QueueSize(a + b) == QueueSize(a) + QueueSize(b)
    decreases |a|
  {
    hide PayloadSize, FirstItem;
    if a == [] {
      assert a + b == b;
    } else {
      var k := FirstItem(a).value.1;
      FirstItemPrefix(a, b);
      QueueSizeConcat(a[k..], b);
      assert (a + b)[k..] == a[k..] + b;
    }
  }

  // ----- serialize_write_Q -----

  method Put(buff: array<byte>, pos: nat, s: bytes) returns (after: nat)
    requires pos + |s| <= buff.Length
    modifies buff
    ensures after == pos + |s| && buff[..after] == old(buff[..pos]) + s
  {
    for i := 0 to |s|
      invariant buff[..pos + i] == old(buff[..pos]) + s[..i]
    {
      buff[pos + i] := s[i];
      assert s[..i + 1] == s[..i] + [s[i]];
    }
    assert s[..|s|] == s;
    after := pos + |s|;
  }

  /** What serialize_write_Q does with a queue: the bytes, an error raised to Lua, or one of them after it
      has written past the end of its buffer. */
  datatype Output = Filled(text: bytes) | Refused | Overrun(text: bytes) | OverrunRefused

  predicate Overran(r: Output) { r.Overrun? || r.OverrunRefused? }

  function After(s: bytes, r: Output): Output
  {
    match r
    case Filled(t) => Filled(s + t)
    case Overrun(t) => Overrun(s + t)
    case _ => r
  }

  /** The loop from a position on. Every item is checked for room except the payload of UINT_32; once it
      has gone past the end, the marker of a further item is not. */
  function Laid(q: seq<Item>, pos: nat, room: nat): Output
    decreases |q|
  {
    if q == [] then Filled([])
    else if pos + 1 > room || FirstItem(q).None? then Refused
    else
      var (s, k) := FirstItem(q).value;
      if pos + |s| <= room then After(s, Laid(q[k..], pos + |s|, room))
      else if q[0] != Num(UINT_32) then Refused
      else if q[k..] == [] then Overrun(s)
      else OverrunRefused
  }

  /** serialize_write_Q */
  function Serialized(q: seq<Item>, len: nat): Output { if len == 0 then Refused else Laid(q, 0, len + 64) }

  /** The last item of a queue is a UINT_32. */
  predicate EndsInUint32(q: seq<Item>)
  {
    |q| >= 2 && q[|q| - 2] == Num(UINT_32) && Bytes(q[..|q| - 2]).Some?
  }

  /** The item at j is a UINT_32 whose marker still fits and whose payload does not. */
  predicate SpillsAt(q: seq<Item>, j: nat, pos: nat, room: nat)
  {
    && j < |q| && q[j] == Num(UINT_32) && FirstItem(q[j..]).Some? && Bytes(q[..j]).Some?
    && pos + |Bytes(q[..j]).value| + 1 <= room < pos + |Bytes(q[..j]).value| + 5
  }

  ghost predicate Spills(q: seq<Item>, pos: nat, room: nat) { exists j: nat :: SpillsAt(q, j, pos, room) }

  lemma Uint32Item(q: seq<Item>)
    requires q != [] && q[0] == Num(UINT_32) && FirstItem(q).Some?
    ensures |FirstItem(q).value.0| == 5 && FirstItem(q).value.1 == 2
  {
    hide Pow256, BigEndian;
  }

  /** The bytes up to a later item, seen from behind the first. */
  lemma BehindFirst(q: seq<Item>, j: nat)
    requires q != [] && FirstItem(q).Some? && FirstItem(q).value.1 <= j <= |q|
    ensures var (s, k) := FirstItem(q).value; Bytes(q[..j]) == Prepend(s, Bytes(q[k..][..j - k]))
  {
    hide FirstItem;
    var (s, k) := FirstItem(q).value;
    assert q == q[..j] + q[j..];
    SamePrefix(q, j);
    assert q[..j][k..] == q[k..][..j - k];
  }

  lemma SamePrefix(q: seq<Item>, j: nat)
    requires q != [] && FirstItem(q).Some? && FirstItem(q).value.1 <= j <= |q|
    ensures FirstItem(q[..j]) == FirstItem(q)
  {
    hide Pow256, BigEndian;
  }

  /** No item begins inside another. */
  lemma NotInside(q: seq<Item>, j: nat)
    requires q != [] && FirstItem(q).Some? && 0 < j < FirstItem(q).value.1
    ensures Bytes(q[..j]).None?
  {
    hide Pow256, BigEndian;
    assert q[..j] == [q[0]];
  }

  lemma SpillsBehind(q: seq<Item>, j: nat, pos: nat, room: nat)
    requires q != [] && FirstItem(q).Some? && FirstItem(q).value.1 <= j
    ensures var (s, k) := FirstItem(q).value;
            SpillsAt(q, j, pos, room) <==> SpillsAt(q[k..], j - k, pos + |s|, room)
  {
    hide FirstItem, Bytes;
    var (s, k) := FirstItem(q).value;
    if j <= |q| {
      BehindFirst(q, j);
      assert q[k..][j - k..] == q[j..];
    }
  }

  lemma EndsBehind(q: seq<Item>)
    requires q != [] && FirstItem(q).Some?
    ensures var k := FirstItem(q).value.1;
            EndsInUint32(q) <==> if q[k..] == [] then q[0] == Num(UINT_32) else EndsInUint32(q[k..])
  {
    hide FirstItem, Bytes;
    var k := FirstItem(q).value.1;
    var j := |q| - 2;
    NoBytes();
    if j >= k {
      BehindFirst(q, j);
    } else if j > 0 {
      NotInside(q, j);
    } else if j == 0 {
      assert q[..0] == [];
    }
    if k == 1 { BareIsAlone(q); }
  }

  lemma BareIsAlone(q: seq<Item>)
    requires q != [] && FirstItem(q).Some? && FirstItem(q).value.1 == 1
    ensures q[0] != Num(UINT_32)
  {}

  /** What comes out, in closed form: the bytes exactly when all fit; the bytes after an overrun exactly
      when the last item is a UINT_32 that is cut off by the end of the buffer; an overrun at all exactly
      when some UINT_32 is the first item that does not fit and its marker does. */
  lemma {:induction false} LaidExactly(q: seq<Item>, pos: nat, room: nat)
    requires pos <= room
    ensures var r := Laid(q, pos, room);
            && (r.Filled? <==> Bytes(q).Some? && pos + |Bytes(q).value| <= room)
            && (r.Overrun? <==> Bytes(q).Some? && EndsInUint32(q) && room < pos + |Bytes(q).value| <= room + 4)
            && (r.Filled? || r.Overrun? ==> Bytes(q).Some? && r.text == Bytes(q).value)
            && (Overran(r) <==> Spills(q, pos, room))
    decreases |q|
  {
    hide FirstItem, Bytes, Spills, EndsInUint32;
    if q == [] {
      NoBytes();
      NoSpill(q, pos, room);
    } else if FirstItem(q).None? {
      NotAnItem(q, pos, room);
    } else {
      var (s, k) := FirstItem(q).value;
      var rest := q[k..];
      BytesOf(q);
      EndsBehind(q);
      NoBytes();
      if pos + |s| <= room {
        LaidExactly(rest, pos + |s|, room);
        LaterSpills(q, pos, room);
        if rest == [] { NoSpill(rest, pos + |s|, room); }
      } else {
        FirstSpills(q, pos, room);
        if q[0] == Num(UINT_32) { Uint32Item(q); }
        if rest != [] { SomeBytes(rest); }
      }
    }
  }

  lemma BytesOf(q: seq<Item>)
    requires q != [] && FirstItem(q).Some?
    ensures Bytes(q) == Prepend(FirstItem(q).value.0, Bytes(q[FirstItem(q).value.1..]))
  {
    hide FirstItem;
  }

  lemma SomeBytes(q: seq<Item>)
    requires q != []
    ensures Bytes(q).Some? ==> |Bytes(q).value| >= 1 && (EndsInUint32(q) ==> |Bytes(q).value| >= 5)
    decreases |q|
  {
    hide FirstItem, EndsInUint32;
    if FirstItem(q).Some? {
      EndsBehind(q);
      var rest := q[FirstItem(q).value.1..];
      if rest == [] {
        if q[0] == Num(UINT_32) { Uint32Item(q); }
      } else {
        SomeBytes(rest);
      }
    }
  }

  lemma NoSpill(q: seq<Item>, pos: nat, room: nat)
    requires q == []
    ensures !Spills(q, pos, room) && !EndsInUint32(q)
  {}

  lemma NotAnItem(q: seq<Item>, pos: nat, room: nat)
    requires q != [] && FirstItem(q).None?
    ensures Bytes(q).None? && !Spills(q, pos, room)
  {
    forall j: nat ensures !SpillsAt(q, j, pos, room) {
      if 0 < j < |q| { CutShort(q, j); } else { assert q[0..] == q; }
    }
  }

  lemma CutShort(q: seq<Item>, j: nat)
    requires 0 < j < |q| && FirstItem(q).None?
    ensures Bytes(q[..j]).None?
  {
    hide Pow256, BigEndian;
    assert q[..j][0] == q[0];
    assert j >= 2 ==> q[..j][1] == q[1];
  }

  /** If the first item fits, a spill is one behind it. */
  lemma LaterSpills(q: seq<Item>, pos: nat, room: nat)
    requires q != [] && FirstItem(q).Some? && pos + |FirstItem(q).value.0| <= room
    ensures var (s, k) := FirstItem(q).value;
            Spills(q, pos, room) <==> Spills(q[k..], pos + |s|, room)
  {
    hide FirstItem, Bytes;
    var (s, k) := FirstItem(q).value;
    if Spills(q, pos, room) {
      var j: nat :| SpillsAt(q, j, pos, room);
      if j == 0 {
        assert q[0..] == q && q[..0] == [];
        NoBytes();
        Uint32Item(q);
      } else if j < k {
        NotInside(q, j);
      } else {
        SpillsBehind(q, j, pos, room);
      }
    }
    if Spills(q[k..], pos + |s|, room) {
      var j: nat :| SpillsAt(q[k..], j, pos + |s|, room);
      SpillsBehind(q, j + k, pos, room);
    }
  }

  /** If the first item does not fit, it is the only one that can spill. */
  lemma FirstSpills(q: seq<Item>, pos: nat, room: nat)
    requires q != [] && FirstItem(q).Some? && pos + |FirstItem(q).value.0| > room
    ensures Spills(q, pos, room) <==> q[0] == Num(UINT_32) && pos + 1 <= room
  {
    hide FirstItem, Bytes;
    assert q[0..] == q && q[..0] == [];
    NoBytes();
    if q[0] == Num(UINT_32) && pos + 1 <= room {
      Uint32Item(q);
      assert SpillsAt(q, 0, pos, room);
    }
    if Spills(q, pos, room) {
      var j: nat :| SpillsAt(q, j, pos, room);
      var k := FirstItem(q).value.1;
      if 0 < j < k { NotInside(q, j); }
      if j >= k { BehindFirst(q, j); }
    }
  }

  /** One turn of the loop: the marker, then the payload it calls for, each after its CHECK_ROOM, if it
      has one. What a UINT_32 writes past the end of the buffer is `spill`. */
  method PutItem(q: seq<Item>, idx: nat, buff: array<byte>, pos: nat)
    returns (ok: bool, next: nat, after: nat, spill: bytes)
    requires idx < |q| && pos <= buff.Length
    modifies buff
    ensures ok == (pos + 1 <= buff.Length && FirstItem(q[idx..]).Some?
                   && (pos + |FirstItem(q[idx..]).value.0| <= buff.Length || q[idx] == Num(UINT_32)))
    ensures ok ==> var (s, k) := FirstItem(q[idx..]).value;
                   && next == idx + k && after <= buff.Length && buff[..after] + spill == old(buff[..pos]) + s
                   && (spill != [] <==> pos + |s| > buff.Length) && (spill != [] ==> after == buff.Length)
  {
    hide BigEndian, Pow256;
    ok, next, after, spill := false, idx + 1, pos, [];
    if !q[idx].Num? || !(0 <= q[idx].n < 256) || pos + 1 > buff.Length {
      return;
    }
    var marker: byte := q[idx].n;
    after := Put(buff, pos, [marker]);
    if BareMarker(marker) {
      ok := true;
    } else if marker == UINT_32 {
      if next >= |q| || !q[next].Num? {
        return;
      }
      var payload := BigEndian(4, Modulo(q[next].n, Pow256(4)));
      var k := if after + 4 <= buff.Length then 4 else buff.Length - after;
      assert payload == payload[..k] + payload[k..];
      after := Put(buff, after, payload[..k]);
      spill := payload[k..];
      ok, next := true, next + 1;
    } else if NumberWidth(marker) > 0 {
      var w := NumberWidth(marker);
      if after + w > buff.Length || next >= |q| || !q[next].Num? {
        return;
      }
      after := Put(buff, after, BigEndian(w, Modulo(q[next].n, Pow256(w))));
      ok, next := true, next + 1;
    } else if PrefixWidth(marker) > 0 {
      var w := PrefixWidth(marker);
      if next >= |q| || !q[next].Text? || after + w + |q[next].s| > buff.Length {
        return;
      }
      after := Put(buff, after, BigEndian(w, Modulo(|q[next].s|, Pow256(w))));
      after := Put(buff, after, q[next].s);
      ok, next := true, next + 1;
    }
  }

  /** serialize_write_Q, with a buffer of 64 bytes more than was counted. */
  method SerializeWriteQ(q: seq<Item>, len: nat) returns (r: Output)
    ensures r == Serialized(q, len)
    ensures r.Filled? <==> len > 0 && Bytes(q).Some? && |Bytes(q).value| <= len + 64
    ensures r.Overrun? <==> len > 0 && Bytes(q).Some? && EndsInUint32(q) && len + 64 < |Bytes(q).value| <= len + 68
    ensures r.Filled? || r.Overrun? ==> Bytes(q).Some? && r.text == Bytes(q).value
    ensures Overran(r) <==> len > 0 && Spills(q, 0, len + 64)
  {
    hide FirstItem, Bytes, Spills, EndsInUint32, Laid, Sofar;
    if len == 0 {
      return Refused;
    }
    LaidExactly(q, 0, len + 64);
    var buff := new byte[len + 64](_ => 0);
    var pos: nat, idx: nat, spill: bytes := 0, 0, [];
    assert q[0..] == q && buff[..0] == [];
    SofarBegins(q, len + 64);
    while idx < |q|
      invariant idx <= |q| && pos <= buff.Length && (spill != [] ==> pos == buff.Length)
      invariant Laid(q, 0, len + 64) == Sofar(buff[..pos], spill, q[idx..], pos, len + 64)
    {
      ghost var before, rest := buff[..pos], q[idx..];
      var ok, next, after, over := PutItem(q, idx, buff, pos);
      if !ok {
        SofarStops(before, spill, rest, pos, len + 64);
        return if spill == [] then Refused else OverrunRefused;
      }
      SofarStep(before, rest, pos, len + 64, buff[..after], over);
      assert rest[next - idx..] == q[next..];
      pos, idx, spill := after, next, over;
    }
    assert q[idx..] == [];
    SofarEnds(buff[..pos], spill, pos, len + 64);
    r := if spill == [] then Filled(buff[..pos]) else Overrun(buff[..pos] + spill);
  }

  /** The outcome, given what is in the buffer, what was spilled over its end, and what is still queued. */
  function Sofar(text: bytes, spill: bytes, rest: seq<Item>, pos: nat, room: nat): Output
  {
    if spill == [] then After(text, Laid(rest, pos, room))
    else if rest == [] then Overrun(text + spill)
    else OverrunRefused
  }

  lemma SofarBegins(q: seq<Item>, room: nat)
    ensures Laid(q, 0, room) == Sofar([], [], q, 0, room)
  {
    var r := Laid(q, 0, room);
    if r.Filled? || r.Overrun? { assert [] + r.text == r.text; }
  }

  lemma SofarStops(text: bytes, spill: bytes, rest: seq<Item>, pos: nat, room: nat)
    requires rest != []
    requires spill == [] ==> pos + 1 > room || FirstItem(rest).None?
                             || (pos + |FirstItem(rest).value.0| > room && rest[0] != Num(UINT_32))
    ensures Sofar(text, spill, rest, pos, room) == if spill == [] then Refused else OverrunRefused
  {
    hide FirstItem;
  }

  lemma SofarEnds(text: bytes, spill: bytes, pos: nat, room: nat)
    ensures Sofar(text, spill, [], pos, room) == if spill == [] then Filled(text) else Overrun(text + spill)
  {
    assert text + [] == text;
  }

  /** One turn of the loop, seen from what is already in the buffer. */
  lemma SofarStep(text: bytes, rest: seq<Item>, pos: nat, room: nat, now: bytes, spill: bytes)
    requires rest != [] && pos + 1 <= room && FirstItem(rest).Some? && |text| == pos
    requires var s := FirstItem(rest).value.0;
             && (pos + |s| <= room || rest[0] == Num(UINT_32))
             && now + spill == text + s && (spill != [] <==> pos + |s| > room) && (spill != [] ==> |now| == room)
    ensures var k := FirstItem(rest).value.1;
            Sofar(text, [], rest, pos, room) == Sofar(now, spill, rest[k..], |now|, room)
  {
    hide FirstItem;
    var (s, k) := FirstItem(rest).value;
    if spill == [] {
      assert now + [] == now;
      var r := Laid(rest[k..], pos + |s|, room);
      if r.Filled? || r.Overrun? { assert text + (s + r.text) == text + s + r.text; }
    }
  }

  // ----- the queue -----

  /** The write queue, the size counted for it, and everything written so far. */
  datatype Queue = Queue(items: seq<Item>, size: nat, out: bytes)

  /** flush: the queue becomes bytes, or an error is raised. */
  function Flushed(k: Queue): (r: Option<Queue>)
  {
    match Serialized(k.items, k.size)
    case Filled(text) => Some(Queue([], 0, k.out + text))
    case Overrun(text) => Some(Queue([], 0, k.out + text))
    case _ => None
  }

  lemma FlushedExactly(k: Queue)
    ensures Flushed(k).Some? <==>
              && k.size > 0 && Bytes(k.items).Some?
              && |Bytes(k.items).value| <= k.size + (if EndsInUint32(k.items) then 68 else 64)
    ensures Flushed(k).Some? ==> Flushed(k).value == Queue([], 0, k.out + Bytes(k.items).value)
  {
    hide Laid, Bytes, EndsInUint32, Spills;
    if k.size > 0 { LaidExactly(k.items, 0, k.size + 64); }
  }

  /** qstore: one more element, and a flush once the limit is reached. */
  function StoredOne(k: Queue, item: Item, size: nat, limit: nat): (r: Option<Queue>)
  {
    var next := Queue(k.items + [item], k.size + size, k.out);
    if next.size >= limit then Flushed(next) else Some(next)
  }

  /** A whole list of items, one qstore after the other. */
  function StoredAll(k: Queue, q: seq<Item>, limit: nat): (r: Option<Queue>)
    decreases |q|
  {
    if q == [] then Some(k)
    else if FirstItem(q).None? then None
    else
      var one := StoredOne(k, q[0], 1, limit);
      var n := FirstItem(q).value.1;
      var two := if n == 1 || one.None? then one else StoredOne(one.value, q[1], PayloadSize(q[0], q[1]), limit);
      if two.None? then None else StoredAll(two.value, q[n..], limit)
  }

  lemma {:induction false} StoredConcat(k: Queue, a: seq<Item>, b: seq<Item>, limit: nat)
    requires Bytes(a).Some?
    ensures StoredAll(k, a + b, limit)
         == if StoredAll(k, a, limit).None? then None else StoredAll(StoredAll(k, a, limit).value, b, limit)
    decreases |a|
  {
    hide FirstItem, StoredOne, PayloadSize;
    if a == [] {
      assert a + b == b;
    } else {
      var n := FirstItem(a).value.1;
      FirstItemPrefix(a, b);
      assert (a + b)[n..] == a[n..] + b;
      var one := StoredOne(k, a[0], 1, limit);
      var two := if n == 1 || one.None? then one else StoredOne(one.value, a[1], PayloadSize(a[0], a[1]), limit);
      if two.Some? { StoredConcat(two.value, a[n..], b, limit); }
    }
  }

  /** A queue as the writer keeps it between two values: whole items, counted exactly. */
  predicate Tidy(k: Queue) { Bytes(k.items).Some? && k.size == QueueSize(k.items) }

  /** Everything that was handed over: what is written and what is still queued. */
  function Total(k: Queue): bytes
    requires Bytes(k.items).Some?
  {
    k.out + Bytes(k.items).value
  }

  /** The spare bytes a queue may use: 64, and four more past the end of the buffer if it ends in a
      UINT_32. */
  function Spare(q: seq<Item>): nat { if EndsInUint32(q) then 68 else 64 }

  /** The 64 spare bytes are for the string prefixes and for nothing else; a flush goes through exactly
      when the prefixes fit them, or run over them by at most a last UINT_32. */
  lemma FitsExactly(k: Queue)
    requires Tidy(k)
    ensures Flushed(k).Some? <==> k.items != [] && Prefixes(k.items) <= Spare(k.items)
    ensures Serialized(k.items, k.size).Filled? <==> k.items != [] && Prefixes(k.items) <= 64
    ensures Serialized(k.items, k.size).Overrun? <==>
              k.items != [] && EndsInUint32(k.items) && 64 < Prefixes(k.items) <= 68
  {
    hide Laid, EndsInUint32, Spills, FirstItem;
    FlushedExactly(k);
    BytesNeeded(k.items);
    if k.items != [] {
      assert QueueSize(k.items) >= 1;
      LaidExactly(k.items, 0, k.size + 64);
    }
  }

  /** A marker that calls for a payload cannot be flushed without it. */
  lemma CutItemIsError(k: Queue, q: seq<Item>, limit: nat)
    requires Bytes(k.items).Some? && q != [] && FirstItem(q).Some? && FirstItem(q).value.1 == 2
    ensures StoredOne(k, q[0], 1, limit)
         == if k.size + 1 >= limit then None else Some(Queue(k.items + [q[0]], k.size + 1, k.out))
  {
    hide Laid, EndsInUint32;
    BytesConcat(k.items, [q[0]]);
    assert FirstItem([q[0]]).None?;
    FlushedExactly(Queue(k.items + [q[0]], k.size + 1, k.out));
  }

  lemma OneItem(q: seq<Item>)
    requires q != [] && FirstItem(q).Some?
    ensures var (s, n) := FirstItem(q).value;
            && Bytes(q[..n]) == Some(s)
            && QueueSize(q[..n]) == if n == 1 then 1 else 1 + PayloadSize(q[0], q[1])
  {
    var (s, n) := FirstItem(q).value;
    assert FirstItem(q[..n]) == FirstItem(q);
    assert q[..n][n..] == [];
    assert s + [] == s;
  }

  /** Storing one whole item: nothing is lost, wherever the flush falls. */
  lemma ItemConserved(k: Queue, q: seq<Item>, limit: nat)
    requires Tidy(k) && q != [] && FirstItem(q).Some?
    ensures var (s, n) := FirstItem(q).value;
            var one := StoredOne(k, q[0], 1, limit);
            var two := if n == 1 || one.None? then one else StoredOne(one.value, q[1], PayloadSize(q[0], q[1]), limit);
            two.Some? ==> Tidy(two.value) && Total(two.value) == Total(k) + s
  {
    hide FirstItem, PayloadSize, Flushed, EndsInUint32;
    var (s, n) := FirstItem(q).value;
    OneItem(q);
    BytesConcat(k.items, q[..n]);
    QueueSizeConcat(k.items, q[..n]);
    if n == 1 {
      assert q[..1] == [q[0]];
    } else {
      CutItemIsError(k, q, limit);
      assert k.items + [q[0]] + [q[1]] == k.items + q[..2];
    }
    FlushedExactly(Queue(k.items + q[..n], k.size + QueueSize(q[..n]), k.out));
    assert k.out + (Bytes(k.items).value + s) == k.out + Bytes(k.items).value + s;
    assert k.out + (Bytes(k.items).value + s) + [] == k.out + (Bytes(k.items).value + s);
  }

  /** If no error is raised, what was flushed and what is still queued together are the encoding that a
      writer without flushes would have made. */
  lemma {:induction false} FlushesConserve(k: Queue, q: seq<Item>, limit: nat)
    requires Tidy(k) && Bytes(q).Some? && StoredAll(k, q, limit).Some?
    ensures var r := StoredAll(k, q, limit).value;
            Tidy(r) && Total(r) == Total(k) + Bytes(q).value
    decreases |q|
  {
    hide FirstItem, PayloadSize, StoredOne, Total;
    if q == [] {
      assert Total(k) + [] == Total(k);
    } else {
      var (s, n) := FirstItem(q).value;
      ItemConserved(k, q, limit);
      var one := StoredOne(k, q[0], 1, limit);
      var two := if n == 1 || one.None? then one else StoredOne(one.value, q[1], PayloadSize(q[0], q[1]), limit);
      FlushesConserve(two.value, q[n..], limit);
      assert Total(k) + s + Bytes(q[n..]).value == Total(k) + (s + Bytes(q[n..]).value);
    }
  }

  lemma ItemBelow(k: Queue, q: seq<Item>, limit: nat)
    requires q != [] && FirstItem(q).Some? && k.size + QueueSize(q[..FirstItem(q).value.1]) < limit
    ensures var n := FirstItem(q).value.1;
            var one := StoredOne(k, q[0], 1, limit);
            var two := if n == 1 || one.None? then one else StoredOne(one.value, q[1], PayloadSize(q[0], q[1]), limit);
            two == Some(Queue(k.items + q[..n], k.size + QueueSize(q[..n]), k.out))
  {
    hide FirstItem, PayloadSize, Flushed, QueueSize;
    OneItem(q);
    if FirstItem(q).value.1 == 1 {
      assert q[..1] == [q[0]];
    } else {
      assert k.items + [q[0]] + [q[1]] == k.items + q[..2];
    }
  }

  /** Below the limit nothing is flushed, and no error is raised. */
  lemma {:induction false} BelowLimit(k: Queue, q: seq<Item>, limit: nat)
    requires Bytes(q).Some? && k.size + QueueSize(q) < limit
    ensures StoredAll(k, q, limit) == Some(Queue(k.items + q, k.size + QueueSize(q), k.out))
    decreases |q|
  {
    hide PayloadSize, FirstItem, Bytes, StoredOne;
    if q == [] {
      assert k.items + q == k.items;
    } else {
      UnfoldQueue(q);
      var n := FirstItem(q).value.1;
      OneItem(q);
      ItemBelow(k, q, limit);
      BelowLimit(Queue(k.items + q[..n], k.size + QueueSize(q[..n]), k.out), q[n..], limit);
      assert k.items + q[..n] + q[n..] == k.items + q;
    }
  }

  lemma UnfoldQueue(q: seq<Item>)
    requires q != [] && Bytes(q).Some?
    ensures FirstItem(q).Some? && Bytes(q[FirstItem(q).value.1..]).Some?
  {
    hide FirstItem;
  }

  /** A value after which the rest of the queue is flushed. */
  function Written(k: Queue, q: seq<Item>, limit: nat): (r: Option<Queue>)
  {
    var stored := StoredAll(k, q, limit);
    if stored.None? then None else Flushed(stored.value)
  }

  /** A write that raises no error has written exactly the encoding, wherever it was flushed. */
  lemma WrittenIsEncoding(k: Queue, q: seq<Item>, limit: nat)
    requires Tidy(k) && Bytes(q).Some? && Written(k, q, limit).Some?
    ensures Written(k, q, limit) == Some(Queue([], 0, Total(k) + Bytes(q).value))
  {
    hide StoredAll, Flushed, EndsInUint32;
    FlushesConserve(k, q, limit);
    FlushedExactly(StoredAll(k, q, limit).value);
  }

  /** When a write raises no error: no flush on the way does, and the last one finds a queue that is not
      empty and fits. If nothing reaches the limit, that is a bound on the prefixes of the strings. */
  lemma WriteSucceeds(k: Queue, q: seq<Item>, limit: nat)
    requires Tidy(k) && Bytes(q).Some?
    ensures Written(k, q, limit).Some? <==>
              var stored := StoredAll(k, q, limit);
              stored.Some? && stored.value.items != [] && Prefixes(stored.value.items) <= Spare(stored.value.items)
    ensures k.items + q != [] && k.size + QueueSize(q) < limit ==>
              (Written(k, q, limit).Some? <==> Prefixes(k.items + q) <= Spare(k.items + q))
  {
    hide StoredAll, Flushed, Prefixes, Bytes, QueueSize, Spare;
    if StoredAll(k, q, limit).Some? {
      FlushesConserve(k, q, limit);
      FitsExactly(StoredAll(k, q, limit).value);
    }
    if k.size + QueueSize(q) < limit {
      BelowLimit(k, q, limit);
    }
  }

  /** An item that brings the count to the limit is flushed at once, and the final flush then finds
      nothing: a boolean can be written alone if and only if the limit is above 1. */
  lemma LoneBoolean(b: bool, limit: nat)
    ensures Written(Queue([], 0, []), Items(Bool(b), map[]), limit).Some? <==> limit > 1
  {
    hide FirstItem, Laid, EndsInUint32;
    var k, q := Queue([], 0, []), Items(Bool(b), map[]);
    var tag := if b then BOOL_TRUE else BOOL_FALSE;
    MarkerCounted(tag);
    assert q == [Num(tag)] && k.items + q == q;
    WriteSucceeds(k, q, limit);
    MarkerItem(tag);
    assert q[1..] == [];
    if limit <= 1 { FlushedExactly(Queue(q, 1, [])); }
  }

  lemma MarkerItem(tag: byte)
    requires BareMarker(tag)
    ensures FirstItem([Num(tag)]) == Some(([tag], 1)) && Spare([Num(tag)]) == 64
  {}

  /** n copies of a string in one array. */
  function Copies(t: bytes, n: nat): (items: seq<Value>)
    ensures |items| == n && forall i :: 0 <= i < n ==> items[i] == Str(t)
  {
    seq(n, _ => Str(t))
  }

  lemma ShortString(t: bytes)
    requires 0 < |t| <= 255
    ensures Encodable(Str(t), map[]) && Items(Str(t), map[]) == [Num(STRING), Text(t)]
    ensures Bytes([Num(STRING), Text(t)]).Some?
    ensures QueueSize([Num(STRING), Text(t)]) == 1 + |t| && Prefixes([Num(STRING), Text(t)]) == 1
  {
    var q := [Num(STRING), Text(t)];
    TwoItems(STRING, Text(t));
    assert q[2..] == [];
  }

  lemma {:induction false} CopiesCounted(t: bytes, n: nat)
    requires 0 < |t| <= 255
    ensures AllEncodable(Copies(t, n), map[])
    ensures var q := ArrayItems(Copies(t, n), map[]);
            Bytes(q).Some? && QueueSize(q) == n * (1 + |t|) && Prefixes(q) == n
  {
    hide Encodable, Items, QueueSize, Prefixes, Bytes;
    ShortString(t);
    if n == 0 {
      NothingQueued();
    } else {
      assert Copies(t, n)[1..] == Copies(t, n - 1);
      CopiesCounted(t, n - 1);
      var q, rest := [Num(STRING), Text(t)], ArrayItems(Copies(t, n - 1), map[]);
      assert ArrayItems(Copies(t, n), map[]) == q + rest;
      BytesConcat(q, rest);
      QueueSizeConcat(q, rest);
      PrefixesConcat(q, rest);
      assert (n - 1) * (1 + |t|) + (1 + |t|) == n * (1 + |t|);
    }
  }

  lemma NothingQueued()
    ensures Bytes([]) == Some([]) && QueueSize([]) == 0 && Prefixes([]) == 0
  {}

  lemma {:induction false} PrefixesConcat(a: seq<Item>, b: seq<Item>)
    requires Bytes(a).Some?
    ensures Prefixes(a + b) == Prefixes(a) + Prefixes(b)
    decreases |a|
  {
    hide FirstItem;
    if a == [] {
      assert a + b == b;
    } else {
      var k := FirstItem(a).value.1;
      FirstItemPrefix(a, b);
      PrefixesConcat(a[k..], b);
      assert (a + b)[k..] == a[k..] + b;
    }
  }

  /** An array of n short strings that stays under the flush limit can be written if and only if n is
      at most 64: from 65 strings on, serialize_write_Q runs out of its buffer. */
  lemma ManyShortStrings(t: bytes, n: nat, limit: nat)
    requires 0 < |t| <= 255 && n > 0 && 2 + n * (1 + |t|) < limit
    ensures Encodable(Arr(Copies(t, n)), map[])
    ensures Written(Queue([], 0, []), Items(Arr(Copies(t, n)), map[]), limit).Some? <==> n <= 64
  {
    hide FirstItem, Encodable, StoredAll, Flushed, PayloadSize;
    CopiesCounted(t, n);
    EncodableArray(Copies(t, n));
    var inner := ArrayItems(Copies(t, n), map[]);
    var q := Items(Arr(Copies(t, n)), map[]);
    WrappedCounted(ARRAY_START, inner);
    assert [] + q == q;
    WriteSucceeds(Queue([], 0, []), q, limit);
    assert q == ([Num(ARRAY_START)] + inner) + [Num(RECORD_END)];
    LastIsText(t, n);
    assert q[|q| - 2] == inner[|inner| - 1];
  }

  lemma {:induction false} LastIsText(t: bytes, n: nat)
    requires 0 < |t| <= 255 && n > 0 && AllEncodable(Copies(t, n), map[])
    ensures var inner := ArrayItems(Copies(t, n), map[]); inner != [] && inner[|inner| - 1] == Text(t)
  {
    hide Encodable, Items;
    ShortString(t);
    assert Copies(t, n)[1..] == Copies(t, n - 1);
    if n > 1 {
      LastIsText(t, n - 1);
    }
  }

  /** A dictionary of 65 words and then a number that takes a UINT_32, all under the limit: the number is
      written over the end of the buffer, and the write succeeds. */
  lemma DictionaryThenNumber(t: bytes, num: int, limit: nat)
    requires 0 < |t| <= 255 && 0xFFFF < num <= 0xFFFF_FFFF && 7 + 65 * (1 + |t|) < limit
    requires AllEncodable(Copies(t, 65), map[])
    ensures var dict := Wrapped(DICT_START, ArrayItems(Copies(t, 65), map[]));
            var k := StoredAll(Queue([], 0, []), dict + NumberItems(num), limit);
            && FindMinRange(num, INT_RANGES).Some? && k.Some?
            && Serialized(k.value.items, k.value.size).Overrun?
            && Written(Queue([], 0, []), dict + NumberItems(num), limit).Some?
  {
    hide FirstItem, Encodable, StoredAll, Flushed, PayloadSize, Laid, EndsInUint32, FindMinRange, Bytes, QueueSize;
    hide Prefixes;
    var inner := ArrayItems(Copies(t, 65), map[]);
    var dict, last := Wrapped(DICT_START, inner), [Num(UINT_32), Num(num)];
    Uint32Range(num);
    CopiesCounted(t, 65);
    WrappedCounted(DICT_START, inner);
    Uint32Counted(num);
    BytesConcat(dict, last);
    QueueSizeConcat(dict, last);
    PrefixesConcat(dict, last);
    var q := dict + last;
    assert EndsInUint32(q) by { UintLast(dict, num); }
    assert Tidy(Queue([], 0, [])) by { NothingQueued(); }
    BelowLimit(Queue([], 0, []), q, limit);
    assert [] + q == q;
    FitsExactly(Queue(q, QueueSize(q), []));
    WriteSucceeds(Queue([], 0, []), q, limit);
  }

  lemma Uint32Range(num: int)
    requires 0xFFFF < num <= 0xFFFF_FFFF
    ensures FindMinRange(num, INT_RANGES) == Some(Range(UINT_32, 4, 0, 0xFFFF_FFFF))
    ensures NumberItems(num) == [Num(UINT_32), Num(num)]
  {
    var r := INT_RANGES;
    assert r[0] == Range(UINT_8, 1, 0, 0xFF) && r[1..][0] == Range(UINT_16, 2, 0, 0xFFFF);
    assert r[1..][1..][0] == Range(UINT_32, 4, 0, 0xFFFF_FFFF);
    assert FindMinRange(num, r) == FindMinRange(num, r[1..]) == FindMinRange(num, r[1..][1..]);
  }

  lemma Uint32Counted(num: int)
    ensures var q := [Num(UINT_32), Num(num)]; Bytes(q).Some? && QueueSize(q) == 5 && Prefixes(q) == 0
  {
    hide Pow256, BigEndian;
    var q := [Num(UINT_32), Num(num)];
    assert FirstItem(q).Some? && FirstItem(q).value.1 == 2 && q[2..] == [];
  }

  lemma UintLast(a: seq<Item>, num: int)
    requires Bytes(a).Some?
    ensures EndsInUint32(a + [Num(UINT_32), Num(num)])
  {
    var q := a + [Num(UINT_32), Num(num)];
    assert q[..|q| - 2] == a && q[|q| - 2] == Num(UINT_32);
  }

  lemma WrappedCounted(tag: byte, inner: seq<Item>)
    requires BareMarker(tag) && Bytes(inner).Some?
    ensures var q := Wrapped(tag, inner);
            Bytes(q).Some? && QueueSize(q) == QueueSize(inner) + 2 && Prefixes(q) == Prefixes(inner)
  {
    hide FirstItem, Bytes, QueueSize, Prefixes;
    MarkerCounted(tag);
    MarkerCounted(RECORD_END);
    QueueSizeConcat([Num(tag)], inner);
    PrefixesConcat([Num(tag)], inner);
    BytesConcat([Num(tag)], inner);
    QueueSizeConcat([Num(tag)] + inner, [Num(RECORD_END)]);
    PrefixesConcat([Num(tag)] + inner, [Num(RECORD_END)]);
    BytesConcat([Num(tag)] + inner, [Num(RECORD_END)]);
  }

  lemma EncodableArray(items: seq<Value>)
    requires AllEncodable(items, map[])
    ensures Encodable(Arr(items), map[])
  {}

  lemma MarkerCounted(tag: byte)
    requires BareMarker(tag)
    ensures Bytes([Num(tag)]).Some? && QueueSize([Num(tag)]) == 1 && Prefixes([Num(tag)]) == 0
  {
    MarkerAlone(tag);
    assert [Num(tag)][1..] == [];
  }

  // ----- the writer object -----

  function Wrapped(start: byte, q: seq<Item>): seq<Item> { [Num(start)] + q + [Num(RECORD_END)] }

  ghost predicate AllEncodable(items: seq<Value>, words: Words)
  {
    forall i :: 0 <= i < |items| ==> Encodable(items[i], words)
  }

  ghost predicate EntriesEncodable(entries: seq<Entry>, words: Words)
  {
    forall i :: 0 <= i < |entries| ==> EncodableString(entries[i].key, words) && Encodable(entries[i].val, words)
  }

  lemma StringWhole(t: bytes, words: Words)
    requires EncodableString(t, words)
    ensures Bytes(StringItems(t, words)).Some?
  {
    hide FindMinRange;
    if t in words {
      EntryRange(words[t]);
      TwoItems(FindMinRange(words[t], DICT_ENTRY_RANGES).value.tag, Num(words[t]));
    } else {
      StringRange(|t|);
      TwoItems(FindMinRange(|t|, STRING_RANGES).value.tag, Text(t));
    }
  }

  lemma StringValue(t: bytes, words: Words)
    ensures Encodable(Str(t), words) == EncodableString(t, words)
    ensures Encodable(Str(t), words) ==> Items(Str(t), words) == StringItems(t, words)
  {
    hide EncodableString;
  }

  lemma NoBytes()
    ensures Bytes([]) == Some([])
  {}

  /** Whatever serialize queues for a value ends on a whole item. */
  lemma {:induction false} ItemsWhole(v: Value, words: Words)
    requires Encodable(v, words)
    ensures Bytes(Items(v, words)).Some?
    decreases v
  {
    hide FindMinRange, Bytes;
    match v
    case Nil => MarkerAlone(NIL);
    case Bool(b) => MarkerAlone(if b then BOOL_TRUE else BOOL_FALSE);
    case Int(n) =>
      IntRange(n);
      TwoItems(FindMinRange(n, INT_RANGES).value.tag, Num(n));
    case Str(t) => StringWhole(t, words);
    case Arr(items) =>
      ArrayItemsWhole(items, words);
      ContainerBytes(ARRAY_START, ArrayItems(items, words));
      NoBytes();
      ContainerBytes(MAP_START, []);
      assert [Num(MAP_START)] + [] + [Num(RECORD_END)] == [Num(MAP_START), Num(RECORD_END)];
    case Table(entries) =>
      EntryItemsWhole(entries, words);
      ContainerBytes(MAP_START, EntryItems(entries, words));
  }

  lemma {:induction false} ArrayItemsWhole(items: seq<Value>, words: Words)
    requires AllEncodable(items, words)
    ensures Bytes(ArrayItems(items, words)).Some?
    decreases items
  {
    hide FirstItem, Encodable;
    if items != [] {
      ItemsWhole(items[0], words);
      ArrayItemsWhole(items[1..], words);
      BytesConcat(Items(items[0], words), ArrayItems(items[1..], words));
    }
  }

  lemma {:induction false} EntryItemsWhole(entries: seq<Entry>, words: Words)
    requires EntriesEncodable(entries, words)
    ensures Bytes(EntryItems(entries, words)).Some?
    decreases entries
  {
    hide FirstItem, Encodable, StringItems, EncodableString;
    if entries != [] {
      var e := entries[0];
      StringWhole(e.key, words);
      ItemsWhole(e.val, words);
      EntryItemsWhole(entries[1..], words);
      BytesConcat(StringItems(e.key, words), Items(e.val, words));
      BytesConcat(StringItems(e.key, words) + Items(e.val, words), EntryItems(entries[1..], words));
    }
  }

  /** One more group of items after others: it is stored where they left off, and if it cannot be
      stored, nothing that continues it can. */
  lemma OneMore(k: Queue, now: Queue, pre: seq<Item>, mid: seq<Item>, post: seq<Item>, limit: nat)
    requires Bytes(pre).Some? && Bytes(mid).Some? && StoredAll(k, pre, limit) == Some(now)
    ensures StoredAll(k, pre + mid, limit) == StoredAll(now, mid, limit)
    ensures Bytes(pre + mid).Some?
    ensures StoredAll(now, mid, limit).None? ==> StoredAll(k, pre + mid + post, limit).None?
  {
    hide StoredAll, Bytes;
    StoredConcat(k, pre, mid, limit);
    BytesConcat(pre, mid);
    StoredConcat(k, pre + mid, post, limit);
  }

  /** The start marker itself fails, and with it the whole container. */
  lemma NoStart(k: Queue, start: byte, q: seq<Item>, limit: nat)
    requires BareMarker(start) && StoredAll(k, [Num(start)], limit).None?
    ensures StoredAll(k, Wrapped(start, q), limit).None?
  {
    hide StoredAll, Bytes;
    MarkerAlone(start);
    StoredConcat(k, [Num(start)], q + [Num(RECORD_END)], limit);
    assert [Num(start)] + (q + [Num(RECORD_END)]) == Wrapped(start, q);
  }

  lemma {:induction false} ArraySplit(items: seq<Value>, i: nat, words: Words)
    requires AllEncodable(items, words) && i < |items|
    ensures ArrayItems(items[..i + 1], words) == ArrayItems(items[..i], words) + Items(items[i], words)
    ensures ArrayItems(items, words) == ArrayItems(items[..i + 1], words) + ArrayItems(items[i + 1..], words)
    decreases i
  {
    hide Items, Encodable;
    if i == 0 {
      assert items[..1][1..] == [] && items[..0] == [];
      assert ArrayItems(items[..1], words) == Items(items[0], words) + [];
    } else {
      var tail := items[1..];
      ArraySplit(tail, i - 1, words);
      assert items[..i + 1][1..] == tail[..i] && items[..i][1..] == tail[..i - 1];
      assert tail[i..] == items[i + 1..];
    }
  }

  lemma {:induction false} EntrySplit(entries: seq<Entry>, i: nat, words: Words)
    requires EntriesEncodable(entries, words) && i < |entries|
    ensures EntryItems(entries[..i + 1], words)
         == EntryItems(entries[..i], words) + OneEntry(entries[i], words)
    ensures EntryItems(entries, words) == EntryItems(entries[..i + 1], words) + EntryItems(entries[i + 1..], words)
    decreases i
  {
    hide OneEntry, Encodable, EncodableString;
    if i == 0 {
      assert entries[..1][1..] == [] && entries[..0] == [];
      assert EntryItems(entries[..1], words) == OneEntry(entries[0], words) + [];
    } else {
      var tail := entries[1..];
      EntrySplit(tail, i - 1, words);
      assert entries[..i + 1][1..] == tail[..i] && entries[..i][1..] == tail[..i - 1];
      assert tail[i..] == entries[i + 1..];
    }
  }

  lemma OneEntryWhole(e: Entry, words: Words)
    requires EncodableString(e.key, words) && Encodable(e.val, words)
    ensures Bytes(OneEntry(e, words)).Some?
  {
    hide Bytes;
    StringWhole(e.key, words);
    ItemsWhole(e.val, words);
    BytesConcat(StringItems(e.key, words), Items(e.val, words));
  }

  lemma ArrayStops(k: Queue, now: Queue, start: byte, pre: seq<Item>, items: seq<Value>,
                   i: nat, words: Words, limit: nat)
    requires AllEncodable(items, words) && i < |items| && Bytes(pre).Some? && StoredAll(k, pre, limit) == Some(now)
    requires pre == [Num(start)] + ArrayItems(items[..i], words)
    requires StoredAll(now, Items(items[i], words), limit).None?
    ensures StoredAll(k, Wrapped(start, ArrayItems(items, words)), limit).None?
  {
    hide StoredAll, Encodable, Items, Bytes, ArrayItems;
    ItemsWhole(items[i], words);
    ArraySplit(items, i, words);
    var post := ArrayItems(items[i + 1..], words) + [Num(RECORD_END)];
    OneMore(k, now, pre, Items(items[i], words), post, limit);
    assert pre + Items(items[i], words) + post == Wrapped(start, ArrayItems(items, words));
  }

  lemma ArrayGoesOn(k: Queue, now: Queue, start: byte, pre: seq<Item>, items: seq<Value>,
                    i: nat, words: Words, limit: nat)
    requires i < |items| && AllEncodable(items[..i], words) && Encodable(items[i], words)
    requires Bytes(pre).Some? && StoredAll(k, pre, limit) == Some(now)
    requires pre == [Num(start)] + ArrayItems(items[..i], words)
    ensures AllEncodable(items[..i + 1], words)
    ensures pre + Items(items[i], words) == [Num(start)] + ArrayItems(items[..i + 1], words)
    ensures Bytes(pre + Items(items[i], words)).Some?
    ensures StoredAll(k, pre + Items(items[i], words), limit) == StoredAll(now, Items(items[i], words), limit)
  {
    hide StoredAll, Encodable, Items, Bytes, ArrayItems;
    ItemsWhole(items[i], words);
    assert items[..i + 1][..i] == items[..i];
    ArraySplit(items[..i + 1], i, words);
    assert items[..i + 1][..i + 1] == items[..i + 1];
    OneMore(k, now, pre, Items(items[i], words), [], limit);
  }

  lemma TableStops(k: Queue, now: Queue, pre: seq<Item>, entries: seq<Entry>, i: nat, words: Words, limit: nat)
    requires EntriesEncodable(entries, words) && i < |entries| && Bytes(pre).Some?
              && StoredAll(k, pre, limit) == Some(now)
    requires pre == [Num(MAP_START)] + EntryItems(entries[..i], words)
    requires StoredAll(now, OneEntry(entries[i], words), limit).None?
    ensures StoredAll(k, Wrapped(MAP_START, EntryItems(entries, words)), limit).None?
  {
    hide StoredAll, Encodable, EncodableString, OneEntry, Bytes, EntryItems;
    OneEntryWhole(entries[i], words);
    EntrySplit(entries, i, words);
    var post := EntryItems(entries[i + 1..], words) + [Num(RECORD_END)];
    OneMore(k, now, pre, OneEntry(entries[i], words), post, limit);
    assert pre + OneEntry(entries[i], words) + post == Wrapped(MAP_START, EntryItems(entries, words));
  }

  lemma TableGoesOn(k: Queue, now: Queue, pre: seq<Item>, entries: seq<Entry>, i: nat, words: Words, limit: nat)
    requires i < |entries| && EntriesEncodable(entries[..i], words)
    requires EncodableString(entries[i].key, words) && Encodable(entries[i].val, words)
    requires Bytes(pre).Some? && StoredAll(k, pre, limit) == Some(now)
    requires pre == [Num(MAP_START)] + EntryItems(entries[..i], words)
    ensures EntriesEncodable(entries[..i + 1], words)
    ensures pre + OneEntry(entries[i], words) == [Num(MAP_START)] + EntryItems(entries[..i + 1], words)
    ensures Bytes(pre + OneEntry(entries[i], words)).Some?
    ensures StoredAll(k, pre + OneEntry(entries[i], words), limit) == StoredAll(now, OneEntry(entries[i], words), limit)
  {
    hide StoredAll, Encodable, EncodableString, OneEntry, Bytes, EntryItems;
    OneEntryWhole(entries[i], words);
    assert entries[..i + 1][..i] == entries[..i];
    EntrySplit(entries[..i + 1], i, words);
    assert entries[..i + 1][..i + 1] == entries[..i + 1];
    OneMore(k, now, pre, OneEntry(entries[i], words), [], limit);
  }

  lemma StartArray(items: seq<Value>, words: Words, pre: seq<Item>)
    ensures AllEncodable(items[..0], words) && pre == pre + ArrayItems(items[..0], words)
  {
    assert items[..0] == [];
  }

  class LpackWriter {
    var writeQ: seq<Item>
    var writeQsize: nat
    var words: Words
    var out: seq<bytes>
    const flushLimit: nat

    constructor (limit: nat)
      ensures writeQ == [] && writeQsize == 0 && words == map[] && out == [] && flushLimit == limit
    {
      writeQ, writeQsize, words, out, flushLimit := [], 0, map[], [], limit;
    }

    function State(): Queue
      reads this
    {
      Queue(writeQ, writeQsize, Flatten(out))
    }

    /** flush; false is an error raised to Lua. */
    method Flush() returns (ok: bool)
      modifies this`writeQ, this`writeQsize, this`out
      ensures ok == Flushed(old(State())).Some?
      ensures ok ==> State() == Flushed(old(State())).value
    {
      var str := SerializeWriteQ(writeQ, writeQsize);
      ok := str.Filled? || str.Overrun?;
      if ok {
        out := out + [str.text];
        writeQ, writeQsize := [], 0;
      }
    }

    method QStore(item: Item, size: nat) returns (ok: bool)
      modifies this`writeQ, this`writeQsize, this`out
      ensures ok == StoredOne(old(State()), item, size, flushLimit).Some?
      ensures ok ==> State() == StoredOne(old(State()), item, size, flushLimit).value
    {
      hide Flushed;
      writeQ := writeQ + [item];
      writeQsize := writeQsize + size;
      ok := true;
      if writeQsize >= flushLimit {
        ok := Flush();
      }
    }

    method WriteMarker(tag: byte) returns (ok: bool)
      requires BareMarker(tag)
      modifies this`writeQ, this`writeQsize, this`out
      ensures ok == StoredAll(old(State()), [Num(tag)], flushLimit).Some?
      ensures ok ==> State() == StoredAll(old(State()), [Num(tag)], flushLimit).value
    {
      hide StoredOne;
      assert [Num(tag)][1..] == [];
      ok := QStore(Num(tag), 1);
    }

    /** A marker with its payload. */
    method WritePair(tag: byte, payload: Item, size: nat) returns (ok: bool)
      requires FirstItem([Num(tag), payload]).Some? && FirstItem([Num(tag), payload]).value.1 == 2
      requires size == PayloadSize(Num(tag), payload)
      modifies this`writeQ, this`writeQsize, this`out
      ensures ok == StoredAll(old(State()), [Num(tag), payload], flushLimit).Some?
      ensures ok ==> State() == StoredAll(old(State()), [Num(tag), payload], flushLimit).value
    {
      hide StoredOne, FirstItem, PayloadSize;
      assert [Num(tag), payload][2..] == [];
      ok := QStore(Num(tag), 1);
      if ok {
        ok := QStore(payload, size);
      }
    }

    method WriteNumber(num: int) returns (ok: bool)
      modifies this`writeQ, this`writeQsize, this`out
      ensures ok == (FindMinRange(num, INT_RANGES).Some? && StoredAll(old(State()), NumberItems(num), flushLimit).Some?)
      ensures ok ==> State() == StoredAll(old(State()), NumberItems(num), flushLimit).value
    {
      hide FindMinRange, StoredAll;
      var range := FindMinRange(num, INT_RANGES);
      if range.None? {
        return false;
      }
      IntRange(num);
      TwoItems(range.value.tag, Num(num));
      ok := WritePair(range.value.tag, Num(num), range.value.size);
    }

    method WriteString(str: bytes) returns (ok: bool)
      modifies this`writeQ, this`writeQsize, this`out
      ensures ok == (EncodableString(str, words) && StoredAll(old(State()), StringItems(str, words), flushLimit).Some?)
      ensures ok ==> State() == StoredAll(old(State()), StringItems(str, words), flushLimit).value
    {
      hide FindMinRange, StoredAll;
      if str in words {
        var dw := words[str];
        var range := FindMinRange(dw, DICT_ENTRY_RANGES);
        if range.None? {
          return false;
        }
        EntryRange(dw);
        TwoItems(range.value.tag, Num(dw));
        ok := WritePair(range.value.tag, Num(dw), range.value.size);
      } else {
        var range := FindMinRange(|str|, STRING_RANGES);
        if range.None? {
          return false;
        }
        StringRange(|str|);
        TwoItems(range.value.tag, Text(str));
        ok := WritePair(range.value.tag, Text(str), |str|);
      }
    }

    /** serialize; a table is written entry by entry in the order Lua's pairs visits it. */
    method Serialize(v: Value) returns (ok: bool)
      modifies this`writeQ, this`writeQsize, this`out
      ensures ok == (Encodable(v, words) && StoredAll(old(State()), Items(v, words), flushLimit).Some?)
      ensures ok ==> StoredAll(old(State()), Items(v, words), flushLimit) == Some(State())
      decreases v, 1
    {
      hide FindMinRange, StoredAll;
      match v
      case Nil => ok := WriteMarker(NIL);
      case Bool(b) => ok := WriteMarker(if b then BOOL_TRUE else BOOL_FALSE);
      case Int(n) => ok := WriteNumber(n);
      case Str(str) => ok := WriteString(str);
      case Arr(items) =>
        if |items| > 0 {
          ok := SerializeArray(v, items);
        } else {
          assert Wrapped(MAP_START, EntryItems([], words)) == [Num(MAP_START), Num(RECORD_END)];
          ok := SerializeTable(v, []);
        }
      case Table(entries) =>
        ok := SerializeTable(v, entries);
    }

    method SerializeArray(ghost v: Value, items: seq<Value>) returns (ok: bool)
      requires v == Arr(items)
      modifies this`writeQ, this`writeQsize, this`out
      ensures ok == (AllEncodable(items, words)
                     && StoredAll(old(State()), Wrapped(ARRAY_START, ArrayItems(items, words)), flushLimit).Some?)
      ensures ok ==>
                StoredAll(old(State()), Wrapped(ARRAY_START, ArrayItems(items, words)), flushLimit) == Some(State())
      decreases v, 0
    {
      hide FindMinRange, StoredAll, Encodable, Items, Bytes;
      ghost var k := State();
      ok := WriteMarker(ARRAY_START);
      if !ok {
        if AllEncodable(items, words) { NoStart(k, ARRAY_START, ArrayItems(items, words), flushLimit); }
        return;
      }
      MarkerAlone(ARRAY_START);
      ghost var pre := [Num(ARRAY_START)];
      assert items[..0] == [] && pre + ArrayItems(items[..0], words) == pre;
      var i := 0;
      while i < |items|
        invariant 0 <= i <= |items| && AllEncodable(items[..i], words)
        invariant pre == [Num(ARRAY_START)] + ArrayItems(items[..i], words) && Bytes(pre).Some?
        invariant StoredAll(k, pre, flushLimit) == Some(State())
      {
        ghost var now := State();
        ok := Serialize(items[i]);
        if !ok {
          if AllEncodable(items, words) { ArrayStops(k, now, ARRAY_START, pre, items, i, words, flushLimit); }
          return;
        }
        ArrayGoesOn(k, now, ARRAY_START, pre, items, i, words, flushLimit);
        pre := pre + Items(items[i], words);
        i := i + 1;
      }
      assert items[..i] == items;
      MarkerAlone(RECORD_END);
      OneMore(k, State(), pre, [Num(RECORD_END)], [], flushLimit);
      ok := WriteMarker(RECORD_END);
    }

    method SerializeTable(ghost v: Value, entries: seq<Entry>) returns (ok: bool)
      requires v == Table(entries) || (v == Arr([]) && entries == [])
      modifies this`writeQ, this`writeQsize, this`out
      ensures ok == (EntriesEncodable(entries, words)
                     && StoredAll(old(State()), Wrapped(MAP_START, EntryItems(entries, words)), flushLimit).Some?)
      ensures ok ==>
                StoredAll(old(State()), Wrapped(MAP_START, EntryItems(entries, words)), flushLimit) == Some(State())
      decreases v, 0
    {
      hide FindMinRange, StoredAll, Encodable, EncodableString, OneEntry, Bytes;
      ghost var k := State();
      ok := WriteMarker(MAP_START);
      if !ok {
        if EntriesEncodable(entries, words) { NoStart(k, MAP_START, EntryItems(entries, words), flushLimit); }
        return;
      }
      MarkerAlone(MAP_START);
      ghost var pre := [Num(MAP_START)];
      assert entries[..0] == [] && pre + EntryItems(entries[..0], words) == pre;
      var i := 0;
      while i < |entries|
        invariant 0 <= i <= |entries| && EntriesEncodable(entries[..i], words)
        invariant pre == [Num(MAP_START)] + EntryItems(entries[..i], words) && Bytes(pre).Some?
        invariant StoredAll(k, pre, flushLimit) == Some(State())
      {
        ghost var now := State();
        ok := SerializeEntry(v, entries[i]);
        if !ok {
          if EntriesEncodable(entries, words) { TableStops(k, now, pre, entries, i, words, flushLimit); }
          return;
        }
        TableGoesOn(k, now, pre, entries, i, words, flushLimit);
        pre := pre + OneEntry(entries[i], words);
        i := i + 1;
      }
      assert entries[..i] == entries;
      MarkerAlone(RECORD_END);
      OneMore(k, State(), pre, [Num(RECORD_END)], [], flushLimit);
      ok := WriteMarker(RECORD_END);
    }

    /** A key and its value. */
    method SerializeEntry(ghost v: Value, e: Entry) returns (ok: bool)
      requires v.Table? && e in v.entries
      modifies this`writeQ, this`writeQsize, this`out
      ensures ok == (EncodableString(e.key, words) && Encodable(e.val, words)
                     && StoredAll(old(State()), OneEntry(e, words), flushLimit).Some?)
      ensures ok ==> StoredAll(old(State()), OneEntry(e, words), flushLimit) == Some(State())
      decreases v, -1
    {
      hide FindMinRange, StoredAll, Encodable, EncodableString, StringItems, Bytes;
      ghost var k := State();
      ok := WriteString(e.key);
      if !ok {
        if EncodableString(e.key, words) && Encodable(e.val, words) {
          StringWhole(e.key, words);
          StoredConcat(k, StringItems(e.key, words), Items(e.val, words), flushLimit);
        }
        return;
      }
      StringWhole(e.key, words);
      ghost var now := State();
      ok := Serialize(e.val);
      if Encodable(e.val, words) {
        StoredConcat(k, StringItems(e.key, words), Items(e.val, words), flushLimit);
      }
    }

    /** write: serialize, then flush what is left. */
    method Write(v: Value) returns (ok: bool)
      modifies this`writeQ, this`writeQsize, this`out
      ensures ok == (Encodable(v, words) && Written(old(State()), Items(v, words), flushLimit).Some?)
      ensures ok ==> Written(old(State()), Items(v, words), flushLimit) == Some(State())
    {
      hide StoredAll, Flushed, Encodable, Items;
      ok := Serialize(v);
      if ok {
        ok := Flush();
      }
    }

    /** setDictionaryForWrite: the words are written under the dictionary in use so far, then replace it. */
    method UseDictionary(dict: seq<bytes>) returns (ok: bool)
      modifies this
      ensures ok == (AllEncodable(Strings(dict), old(words))
                     && StoredAll(old(State()), Wrapped(DICT_START, ArrayItems(Strings(dict), old(words))),
                         flushLimit).Some?)
      ensures ok ==> StoredAll(old(State()), Wrapped(DICT_START, ArrayItems(Strings(dict), old(words))), flushLimit)
                     == Some(State())
      ensures ok ==> words == WordsOf(dict)
    {
      hide FindMinRange, StoredAll, EncodableString, Encodable, Items, StringItems, Bytes, ArrayItems, Strings;
      ghost var k, items := State(), Strings(dict);
      var dictionary: Words := map[];
      ok := WriteMarker(DICT_START);
      if !ok {
        if AllEncodable(items, words) { NoStart(k, DICT_START, ArrayItems(items, words), flushLimit); }
        return;
      }
      MarkerAlone(DICT_START);
      ghost var pre := [Num(DICT_START)];
      StartArray(items, words, pre);
      var i := 0;
      while i < |dict|
        invariant 0 <= i <= |dict| && AllEncodable(items[..i], words) && words == old(words)
        invariant pre == [Num(DICT_START)] + ArrayItems(items[..i], words) && Bytes(pre).Some?
        invariant StoredAll(k, pre, flushLimit) == Some(State())
        invariant dictionary == WordsOf(dict[..i])
      {
        ghost var now := State();
        StringValue(dict[i], words);
        ok := WriteString(dict[i]);
        if !ok {
          if AllEncodable(items, words) { ArrayStops(k, now, DICT_START, pre, items, i, words, flushLimit); }
          return;
        }
        ArrayGoesOn(k, now, DICT_START, pre, items, i, words, flushLimit);
        pre := pre + Items(items[i], words);
        dictionary := dictionary[dict[i] := i + 1];
        assert dict[..i + 1][..i] == dict[..i];
        i := i + 1;
      }
      assert items[..i] == items && dict[..i] == dict;
      MarkerAlone(RECORD_END);
      OneMore(k, State(), pre, [Num(RECORD_END)], [], flushLimit);
      ok := WriteMarker(RECORD_END);
      words := dictionary;
    }
  }
}
