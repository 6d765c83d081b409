/** The ring buffer of lib/luaw_data_structs_lib.lua, with slots 1 to size: a bounded queue. */
module RingBuffer {
  import opened Ascii

  /** The slot i places behind a slot, around the ring. */
  function Behind(from: nat, i: nat, size: nat): nat
    requires 1 <= from <= size && i <= size
  {
    if from + i <= size then from + i else from + i - size
  }

  class Ring<T> {
    const size: nat
    var slots: map<nat, T>
    var reader: nat
    var writer: nat
    var filled: nat
    ghost var contents: seq<T>

    ghost predicate Valid()
      reads this
    {
      && filled == |contents| <= size
      && (size > 0 ==> 1 <= reader <= size && writer == Behind(reader, filled, size))
      && (forall i :: 0 <= i < filled ==>
            Behind(reader, i, size) in slots && slots[Behind(reader, i, size)] == contents[i])
    }

    constructor (n: nat)
      ensures Valid() && contents == [] && size == n
    {
      size, slots, reader, writer, filled, contents := n, map[], 1, 1, 0, [];
    }

    /** offer: the object goes to the back unless the buffer is full. */
    method Offer(obj: T) returns (added: bool)
      requires Valid()
      modifies this
      ensures Valid() && added == (|old(contents)| < size)
      ensures contents == if added then old(contents) + [obj] else old(contents)
    {
      added := filled < size;
      if added {
        Unused(reader, filled, size);
        slots := slots[writer := obj];
        filled := filled + 1;
        writer := if writer == size then 1 else writer + 1;
        contents := contents + [obj];
      }
    }

    /** take: the oldest object, or nothing. */
    method Take() returns (obj: Option<T>)
      requires Valid()
      modifies this
      ensures Valid()
      ensures obj == if old(contents) == [] then None else Some(old(contents)[0])
      ensures contents == if old(contents) == [] then [] else old(contents)[1..]
    {
      obj := None;
      if filled > 0 {
        assert Behind(reader, 0, size) == reader;
        obj := Some(slots[reader]);
        ghost var from, n := reader, filled;
        Unused(from, n, size);
        slots := slots - {reader};
        filled := filled - 1;
        reader := if reader == size then 1 else reader + 1;
        forall i | 0 <= i < filled ensures Behind(reader, i, size) == Behind(from, i + 1, size) {}
        contents := contents[1..];
      }
    }

    /** offerWithOverwrite: a full buffer loses its oldest object to the new one. */
    method OfferWithOverwrite(obj: T) returns (added: bool, lost: Option<T>)
      requires Valid()
      modifies this
      ensures Valid() && added == (|old(contents)| < size)
      ensures added ==> contents == old(contents) + [obj]
      ensures !added && size > 0 ==> lost == Some(old(contents)[0]) && contents == old(contents)[1..] + [obj]
      ensures size == 0 ==> lost == None && contents == []
    {
      added := Offer(obj);
      lost := None;
      if !added {
        lost := Take();
        var again := Offer(obj);
      }
    }
  }

  /** The slots of the contents are distinct, and the next one to write is none of them. */
  lemma Unused(reader: nat, filled: nat, size: nat)
    requires filled <= size && 1 <= reader <= size
    ensures forall i, j :: 0 <= i < j < filled ==> Behind(reader, i, size) != Behind(reader, j, size)
    ensures filled < size ==> forall i :: 0 <= i < filled ==> Behind(reader, i, size) != Behind(reader, filled, size)
  {}
}
