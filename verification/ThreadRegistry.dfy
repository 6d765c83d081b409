/** The registry of lib/luaw_data_structs_lib.lua: a Lua table whose free slots are chained through the
    table itself, with the head of the chain in slot 0. */
module ThreadRegistry {

  /** A slot of the table: an object, or the index of the next free slot. The last free slot is nil, that
      is, not in the table. */
  datatype Slot<T> = Obj(value: T) | Next(index: nat)

  type Table<T> = map<nat, Slot<T>>

  /** What Lua's `#` may return for a table: any index that is filled, or 0, and followed by nil. */
  predicate Border<T>(reg: Table<T>, n: nat) { (n == 0 || n in reg) && n + 1 !in reg }

  /** The free slots form a chain without repetition from slot 0 to a nil slot. */
  ghost predicate Chained<T>(reg: Table<T>, free: seq<nat>)
  {
    && (free == [] <==> 0 !in reg)
    && (free != [] ==> reg[0] == Next(free[0]) && free[|free| - 1] !in reg)
    && (forall i :: 0 <= i < |free| - 1 ==> free[i] in reg && reg[free[i]] == Next(free[i + 1]))
    && (forall i, j :: 0 <= i < j < |free| ==> free[i] != free[j])
  }

  /** Free and live slots share out the slots from 1 to the highest ever used. */
  ghost predicate Shared<T>(reg: Table<T>, free: seq<nat>, live: map<nat, T>, high: nat)
  {
    && (forall k :: k in live ==> 1 <= k <= high && k in reg && reg[k] == Obj(live[k]) && k !in free)
    && (forall k :: k in free ==> 1 <= k <= high)
    && (forall k :: 1 <= k <= high ==> k in live || k in free)
    && (forall k :: k in reg ==> k <= high)
  }

  /** With no free slot the table is an array without holes, and its length is certain. */
  lemma BorderIsHigh<T>(reg: Table<T>, live: map<nat, T>, high: nat, n: nat)
    requires Shared(reg, [], live, high) && Border(reg, n)
    ensures n == high
  {
    assert n < high ==> n + 1 in live;
  }

  lemma TakeFree<T>(reg: Table<T>, free: seq<nat>, live: map<nat, T>, high: nat, obj: T, now: Table<T>)
    requires Chained(reg, free) && Shared(reg, free, live, high) && free != []
    requires var ref := free[0];
             now == (if ref in reg then reg[0 := reg[ref]] else reg - {0})[ref := Obj(obj)]
    ensures Chained(now, free[1..])
    ensures free[0] !in live && Shared(now, free[1..], live[free[0] := obj], high)
  {
    var ref, rest := free[0], free[1..];
    assert ref in free;
    assert ref in reg <==> |free| > 1;
    forall k | 1 <= k <= high ensures k in live[ref := obj] || k in rest {
      if k !in live && k != ref {
        var i :| 0 <= i < |free| && free[i] == k;
        assert rest[i - 1] == k;
      }
    }
    forall k | k in rest ensures k in free && k != ref {}
  }

  lemma PutFree<T>(reg: Table<T>, free: seq<nat>, live: map<nat, T>, high: nat, ref: nat, now: Table<T>)
    requires Chained(reg, free) && Shared(reg, free, live, high) && ref in live
    requires now == (if 0 in reg then reg[ref := reg[0]] else reg - {ref})[0 := Next(ref)]
    ensures Chained(now, [ref] + free) && Shared(now, [ref] + free, live - {ref}, high)
  {
    assert ref !in free && ref >= 1;
    assert free != [] ==> reg[0] == Next(free[0]);
    PutChained(reg, free, ref, now);
    PutShared(reg, free, live, high, ref, now);
  }

  lemma PutChained<T>(reg: Table<T>, free: seq<nat>, ref: nat, now: Table<T>)
    requires Chained(reg, free) && ref !in free && ref >= 1 && 0 !in free
    requires now == (if 0 in reg then reg[ref := reg[0]] else reg - {ref})[0 := Next(ref)]
    ensures Chained(now, [ref] + free)
  {
    var more := [ref] + free;
    assert more[0] == ref;
    assert forall i :: 0 <= i < |free| ==> more[i + 1] == free[i];
    forall i | 0 <= i < |more| - 1 ensures more[i] in now && now[more[i]] == Next(more[i + 1]) {
      if i > 0 { assert more[i] == free[i - 1] && more[i + 1] == free[i - 1 + 1]; }
    }
  }

  lemma PutShared<T>(reg: Table<T>, free: seq<nat>, live: map<nat, T>, high: nat, ref: nat, now: Table<T>)
    requires Shared(reg, free, live, high) && ref in live
    requires now == (if 0 in reg then reg[ref := reg[0]] else reg - {ref})[0 := Next(ref)]
    ensures Shared(now, [ref] + free, live - {ref}, high)
  {
    var more := [ref] + free;
    assert forall k :: k in more <==> k == ref || k in free;
  }

  lemma GrowTable<T>(reg: Table<T>, live: map<nat, T>, high: nat, obj: T)
    requires Chained(reg, []) && Shared(reg, [], live, high)
    ensures high + 1 !in live && Chained(reg[high + 1 := Obj(obj)], [])
    ensures Shared(reg[high + 1 := Obj(obj)], [], live[high + 1 := obj], high + 1)
  {}

  class Registry<T> {
    var reg: Table<T>
    var size: nat
    ghost var free: seq<nat>
    ghost var live: map<nat, T>
    ghost var high: nat

    ghost predicate Valid()
      reads this
    {
      Chained(reg, free) && Shared(reg, free, live, high) && size == |live|
    }

    constructor ()
      ensures Valid() && live == map[] && high == 0
    {
      reg, size, free, live, high := map[], 0, [], map[], 0;
    }

    /** `#reg`: some border of the table. Nothing more is used about it. */
    method Length() returns (n: nat)
      requires Valid()
      ensures Border(reg, n)
    {
      hide Chained;
      n := 0;
      while n + 1 in reg
        invariant n == 0 || n in reg
        decreases high - n
      {
        n := n + 1;
      }
    }

    /** ref, for an object that is not nil. The id was not live, and no other id is disturbed. */
    method Ref(obj: T) returns (ref: nat)
      requires Valid()
      modifies this
      ensures Valid() && ref >= 1 && ref !in old(live) && live == old(live)[ref := obj]
      ensures high == if old(free) == [] then old(high) + 1 else old(high)
      ensures free == if old(free) == [] then [] else old(free)[1..]
    {
      hide Chained, Shared;
      ChainHead(reg, free, live, high);
      if 0 in reg {
        ref := reg[0].index;
        ghost var before := reg;
        reg := if ref in reg then reg[0 := reg[ref]] else reg - {0};
        reg := reg[ref := Obj(obj)];
        TakeFree(before, free, live, high, obj, reg);
        free := free[1..];
      } else {
        var border := Length();
        BorderIsHigh(reg, live, high, border);
        GrowTable(reg, live, high, obj);
        ref := border + 1;
        reg := reg[ref := Obj(obj)];
        high := high + 1;
      }
      live := live[ref := obj];
      size := size + 1;
    }

    /** unref of a live id: its slot becomes the head of the chain. */
    method Unref(ref: nat)
      requires Valid() && ref in live
      modifies this
      ensures Valid() && live == old(live) - {ref} && high == old(high) && free == [ref] + old(free)
    {
      hide Chained, Shared;
      ghost var before := reg;
      reg := if 0 in reg then reg[ref := reg[0]] else reg - {ref};
      reg := reg[0 := Next(ref)];
      PutFree(before, free, live, high, ref, reg);
      assert |live - {ref}| == |live| - 1 by { OneLess(live, ref); }
      live := live - {ref};
      free := [ref] + free;
      size := size - 1;
    }

    /** reg[id], as the scheduler looks a thread up: an object exactly for the live ids. */
    method Lookup(id: nat) returns (r: Slot<T>, found: bool)
      requires Valid()
      ensures found && r.Obj? <==> id in live
      ensures id in live ==> r == Obj(live[id])
      ensures found ==> id in reg && r == reg[id]
    {
      found := id in reg;
      r := if found then reg[id] else Next(0);
      LookupFinds(reg, free, live, high, id);
    }
  }

  lemma ChainHead<T>(reg: Table<T>, free: seq<nat>, live: map<nat, T>, high: nat)
    requires Chained(reg, free) && Shared(reg, free, live, high)
    ensures free == [] <==> 0 !in reg
    ensures free != [] ==> reg[0] == Next(free[0]) && free[0] >= 1
  {
    if free != [] { assert free[0] in free; }
  }

  lemma LookupFinds<T>(reg: Table<T>, free: seq<nat>, live: map<nat, T>, high: nat, id: nat)
    requires Chained(reg, free) && Shared(reg, free, live, high)
    ensures id in live <==> id in reg && reg[id].Obj?
    ensures id in live ==> reg[id] == Obj(live[id])
  {
    if id in reg && id !in live {
      if id > 0 {
        var i :| 0 <= i < |free| && free[i] == id;
        assert i < |free| - 1 && reg[free[i]] == Next(free[i + 1]);
      }
    }
  }

  lemma OneLess<T>(m: map<nat, T>, k: nat)
    requires k in m
    ensures |m - {k}| == |m| - 1
  {
    assert (m - {k}).Keys == m.Keys - {k};
    assert |m - {k}| == |(m - {k}).Keys|;
    assert |m| == |m.Keys|;
  }
}
