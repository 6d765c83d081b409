/** The run queue of lib/luaw_scheduler.lua: a list threaded through the contexts themselves. It is a
    queue as long as no context is added while it is queued; one that is can cost others their place. */
module RunQueue {
  import opened Ascii

  type ContextId = nat

  /** The module's variables and the contexts' nextThread fields; a context without one is not in `next`. */
  datatype Queue = Queue(head: Option<ContextId>, tail: Option<ContextId>, next: map<ContextId, ContextId>, len: nat)

  const EMPTY := Queue(None, None, map[], 0)

  /** addToRunQueue */
  function Added(q: Queue, c: ContextId): Queue
  {
    match q.tail
    case None => q.(head := Some(c), tail := Some(c), len := q.len + 1)
    case Some(t) => q.(next := q.next[t := c], tail := Some(c), len := q.len + 1)
  }

  /** runNextFromRunQueue, up to the point where the context is resumed. */
  function Popped(q: Queue): (r: (Option<ContextId>, Queue))
  {
    match q.head
    case None => (None, q)
    case Some(c) =>
      var head := if c in q.next then Some(q.next[c]) else None;
      (Some(c), Queue(head, if head.None? then None else q.tail, q.next - {c}, if q.len > 0 then q.len - 1 else 0))
  }

  /** The queue is a list of distinct contexts. */
  ghost predicate Holds(q: Queue, cs: seq<ContextId>)
  {
    && q.len == |cs| && (cs == [] ==> q.head.None? && q.tail.None?)
    && (cs != [] ==> q.head == Some(cs[0]) && q.tail == Some(cs[|cs| - 1]) && cs[|cs| - 1] !in q.next)
    && (forall i :: 0 <= i < |cs| - 1 ==> cs[i] in q.next && q.next[cs[i]] == cs[i + 1])
    && (forall i, j :: 0 <= i < j < |cs| ==> cs[i] != cs[j])
    && (forall c :: c in q.next ==> c in cs)
  }

  /** A context that is not queued goes to the back. */
  lemma AddsToBack(q: Queue, cs: seq<ContextId>, c: ContextId)
    requires Holds(q, cs) && c !in cs
    ensures Holds(Added(q, c), cs + [c])
  {
    var more := cs + [c];
    assert forall i :: 0 <= i < |cs| ==> more[i] == cs[i];
    if cs != [] { assert cs[|cs| - 1] in cs; }
  }

  /** The context at the front is the next to run. */
  lemma PopsFromFront(q: Queue, cs: seq<ContextId>)
    requires Holds(q, cs)
    ensures cs == [] ==> Popped(q) == (None, q)
    ensures cs != [] ==> Popped(q).0 == Some(cs[0]) && Holds(Popped(q).1, cs[1..])
  {
    if cs != [] {
      var rest := cs[1..];
      assert forall i :: 0 <= i < |rest| ==> rest[i] == cs[i + 1];
      forall c | c in Popped(q).1.next ensures c in rest {
        var i :| 0 <= i < |cs| && cs[i] == c;
        assert rest[i - 1] == c;
      }
    }
  }

  /** Whatever was queued is run in its order. */
  function Drained(q: Queue, n: nat): seq<ContextId>
    decreases n
  {
    if n == 0 then []
    else
      match Popped(q)
      case (None, _) => []
      case (Some(c), rest) => [c] + Drained(rest, n - 1)
  }

  lemma {:induction false} RunsInOrder(q: Queue, cs: seq<ContextId>)
    requires Holds(q, cs)
    ensures Drained(q, q.len) == cs
    decreases |cs|
  {
    hide Holds, Popped;
    assert q.len == |cs| by { LengthHolds(q, cs); }
    PopsFromFront(q, cs);
    if cs != [] {
      assert Popped(q).1.len == |cs| - 1 by { LengthHolds(Popped(q).1, cs[1..]); }
      RunsInOrder(Popped(q).1, cs[1..]);
    }
  }

  lemma LengthHolds(q: Queue, cs: seq<ContextId>)
    requires Holds(q, cs)
    ensures q.len == |cs|
  {}

  /** Contexts added to an empty queue, in order. */
  function AddedAll(q: Queue, cs: seq<ContextId>): Queue
  {
    if cs == [] then q else Added(AddedAll(q, cs[..|cs| - 1]), cs[|cs| - 1])
  }

  /** Contexts added once each all run, first in first out. */
  lemma {:induction false} FirstInFirstOut(cs: seq<ContextId>)
    requires forall i, j :: 0 <= i < j < |cs| ==> cs[i] != cs[j]
    ensures Holds(AddedAll(EMPTY, cs), cs) && Drained(AddedAll(EMPTY, cs), |cs|) == cs
    decreases |cs|
  {
    hide Added, Holds, Drained;
    assert Holds(EMPTY, []) by { EmptyHolds(); }
    if cs != [] {
      var init, c := cs[..|cs| - 1], cs[|cs| - 1];
      FirstInFirstOut(init);
      AddsToBack(AddedAll(EMPTY, init), init, c);
      assert init + [c] == cs;
    }
    RunsInOrder(AddedAll(EMPTY, cs), cs);
    LengthHolds(AddedAll(EMPTY, cs), cs);
  }

  lemma EmptyHolds()
    ensures Holds(EMPTY, [])
  {}

  /** A context that is queued, but not last, is added again and another after it: everything that was
      behind it has dropped out of the queue. */
  lemma AddedAgain(q: Queue, front: seq<ContextId>, c: ContextId, behind: seq<ContextId>, d: ContextId)
    requires Holds(q, front + [c] + behind) && behind != [] && d !in front + [c] + behind
    ensures var r := Added(Added(q, c), d);
            Drained(r, r.len) == front + [c, d] && r.len == |front| + |behind| + 3
  {
    var cs := front + [c] + behind;
    var r := Added(Added(q, c), d);
    var kept := front + [c, d];
    assert cs[|front|] == c && cs[|cs| - 1] == behind[|behind| - 1];
    assert forall i :: 0 <= i < |front| ==> cs[i] == front[i];
    assert Threaded(r, kept);
    assert forall i, j :: 0 <= i < j < |kept| ==> kept[i] != kept[j];
    DrainsThreaded(r, kept, r.len);
  }

  /** The context that is last is added again: it is linked to itself, and the next addition overwrites
      that link. */
  lemma LastAddedAgain(q: Queue, cs: seq<ContextId>, d: ContextId)
    requires Holds(q, cs) && cs != [] && d !in cs
    ensures var r := Added(Added(q, cs[|cs| - 1]), d); Drained(r, r.len) == cs + [d]
  {
    var r := Added(Added(q, cs[|cs| - 1]), d);
    var kept := cs + [d];
    assert forall i :: 0 <= i < |cs| ==> kept[i] == cs[i];
    assert Threaded(r, kept);
    DrainsThreaded(r, kept, r.len);
  }

  lemma TwoAdded(q: Queue, cs: seq<ContextId>, c: ContextId, d: ContextId)
    requires Holds(q, cs) && c !in cs && d !in cs + [c]
    ensures var r := Added(Added(q, c), d); Drained(r, r.len) == cs + [c] + [d]
  {
    hide Holds, Added, Drained;
    AddsToBack(q, cs, c);
    AddsToBack(Added(q, c), cs + [c], d);
    RunsInOrder(Added(Added(q, c), d), cs + [c] + [d]);
  }

  /** Adding a context, and then another, loses no queued context if and only if the first was not queued
      or was the last of the queue. */
  lemma NothingLost(q: Queue, cs: seq<ContextId>, c: ContextId, d: ContextId)
    requires Holds(q, cs) && d !in cs + [c]
    ensures var r := Added(Added(q, c), d);
            (forall x :: x in cs ==> x in Drained(r, r.len)) <==> c !in cs || c == cs[|cs| - 1]
  {
    hide Added, Drained;
    var r := Added(Added(q, c), d);
    if c !in cs {
      TwoAdded(q, cs, c, d);
    } else if c == cs[|cs| - 1] {
      assert d !in cs;
      LastAddedAgain(q, cs, d);
    } else {
      var i :| 0 <= i < |cs| && cs[i] == c;
      var front, behind := cs[..i], cs[i + 1..];
      assert cs == front + [c] + behind;
      AddedAgain(q, front, c, behind, d);
      assert cs[i + 1] in cs && cs[i + 1] !in front + [c, d];
    }
  }

  /** A list that the links from the head on spell out. */
  ghost predicate Threaded(q: Queue, cs: seq<ContextId>)
  {
    && (cs == [] ==> q.head.None?)
    && (cs != [] ==> q.head == Some(cs[0]) && cs[|cs| - 1] !in q.next)
    && (forall i :: 0 <= i < |cs| - 1 ==> cs[i] in q.next && q.next[cs[i]] == cs[i + 1])
  }

  lemma {:induction false} DrainsThreaded(q: Queue, cs: seq<ContextId>, n: nat)
    requires Threaded(q, cs) && |cs| <= n && forall i, j :: 0 <= i < j < |cs| ==> cs[i] != cs[j]
    ensures Drained(q, n) == cs
    decreases |cs|
  {
    if cs != [] {
      var rest := cs[1..];
      assert forall i :: 0 <= i < |rest| ==> rest[i] == cs[i + 1];
      assert Threaded(Popped(q).1, rest);
      DrainsThreaded(Popped(q).1, rest, n - 1);
    }
  }

  // ----- the queue as an object -----

  datatype Op = Add(context: ContextId) | Take

  /** What a first-in-first-out queue that holds cs hands out, and what it is left with. */
  function Taken(cs: seq<ContextId>, ops: seq<Op>): seq<ContextId>
  {
    if ops == [] then []
    else
      var before := Left(cs, ops[..|ops| - 1]);
      Taken(cs, ops[..|ops| - 1]) + if ops[|ops| - 1].Take? && before != [] then [before[0]] else []
  }

  function Left(cs: seq<ContextId>, ops: seq<Op>): seq<ContextId>
  {
    if ops == [] then cs
    else
      var before := Left(cs, ops[..|ops| - 1]);
      match ops[|ops| - 1]
      case Add(c) => before + [c]
      case Take => if before == [] then [] else before[1..]
  }

  function Given(ops: seq<Op>): seq<ContextId>
  {
    if ops == [] then []
    else Given(ops[..|ops| - 1]) + if ops[|ops| - 1].Add? then [ops[|ops| - 1].context] else []
  }

  /** First in, first out: what is handed out and what is left are what was there and what was given, in
      order. */
  lemma {:induction false} Conserved(cs: seq<ContextId>, ops: seq<Op>)
    ensures Taken(cs, ops) + Left(cs, ops) == cs + Given(ops)
    decreases |ops|
  {
    if ops == [] {
      assert cs + Given(ops) == cs;
    } else {
      var init := ops[..|ops| - 1];
      Conserved(cs, init);
      var t, l, g := Taken(cs, init), Left(cs, init), Given(init);
      match ops[|ops| - 1]
      case Add(c) => assert t + (l + [c]) == (t + l) + [c] == cs + (g + [c]);
      case Take => if l != [] { assert t + [l[0]] + l[1..] == t + l; }
    }
  }

  /** No context is added while it is queued. */
  ghost predicate Once(cs: seq<ContextId>, ops: seq<Op>)
  {
    forall i :: 0 <= i < |ops| && ops[i].Add? ==> ops[i].context !in Left(cs, ops[..i])
  }

  class SchedulerQueue {
    var runQueueHead: Option<ContextId>
    var runQueueTail: Option<ContextId>
    var nextThread: map<ContextId, ContextId>
    var runQueueLen: nat

    function State(): Queue
      reads this
    {
      Queue(runQueueHead, runQueueTail, nextThread, runQueueLen)
    }

    constructor ()
      ensures State() == EMPTY && Holds(State(), [])
    {
      runQueueHead, runQueueTail, nextThread, runQueueLen := None, None, map[], 0;
    }

    /** addToRunQueue: a context that is not queued becomes the last. */
    method AddToRunQueue(c: ContextId, ghost cs: seq<ContextId>)
      modifies this
      ensures State() == Added(old(State()), c)
      ensures Holds(old(State()), cs) && c !in cs ==> Holds(State(), cs + [c])
    {
      hide Holds;
      if Holds(State(), cs) && c !in cs { AddsToBack(State(), cs, c); }
      if runQueueTail.None? {
        runQueueHead := Some(c);
        runQueueTail := Some(c);
      } else {
        nextThread := nextThread[runQueueTail.value := c];
        runQueueTail := Some(c);
      }
      runQueueLen := runQueueLen + 1;
    }

    /** runNextFromRunQueue: the first context of the queue is taken from it. */
    method TakeFromRunQueue(ghost cs: seq<ContextId>) returns (c: Option<ContextId>)
      modifies this
      ensures (c, State()) == Popped(old(State()))
      ensures Holds(old(State()), cs) ==>
                if cs == [] then c.None? && Holds(State(), []) else c == Some(cs[0]) && Holds(State(), cs[1..])
    {
      hide Holds;
      if Holds(State(), cs) { PopsFromFront(State(), cs); }
      c := runQueueHead;
      if c.Some? {
        runQueueHead := if c.value in nextThread then Some(nextThread[c.value]) else None;
        if runQueueHead.None? { runQueueTail := None; }
        nextThread := nextThread - {c.value};
        runQueueLen := if runQueueLen > 0 then runQueueLen - 1 else 0;
      }
    }

    /** Any run of additions and removals in which no context is added while it is queued: the queue hands
        out what it was given, in order, and loses nothing. */
    method Drive(ops: seq<Op>, ghost cs: seq<ContextId>) returns (taken: seq<ContextId>)
      requires Holds(State(), cs) && Once(cs, ops)
      modifies this
      ensures Holds(State(), Left(cs, ops))
      ensures taken + Left(cs, ops) == cs + Given(ops)
    {
      hide Holds, Added, Popped;
      taken := [];
      var i := 0;
      while i < |ops|
        invariant 0 <= i <= |ops| && Holds(State(), Left(cs, ops[..i])) && taken == Taken(cs, ops[..i])
      {
        ghost var before := Left(cs, ops[..i]);
        assert ops[..i + 1][..i] == ops[..i];
        match ops[i] {
          case Add(c) => AddToRunQueue(c, before);
          case Take =>
            var c := TakeFromRunQueue(before);
            if c.Some? { taken := taken + [c.value]; }
        }
        i := i + 1;
      }
      assert ops[..i] == ops;
      Conserved(cs, ops);
    }
  }
}
