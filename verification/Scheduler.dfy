/** The thread bookkeeping of lib/luaw_scheduler.lua: thread ids from the registry, coroutines from the
    pool, contexts that own a coroutine until their call ends. */
module Scheduler {
  import opened Ascii
  import opened ThreadRegistry
  import opened RingBuffer

  type CoroutineId = nat
  type ContextId = nat

  /** A coroutine running threadRunLoop: how many calls it has finished, and whether it is dead. */
  datatype Coroutine = Coroutine(calls: nat, dead: bool)

  datatype Context = Context(thread: Option<CoroutineId>, tid: nat)

  /** How coroutine.resume comes back: with an error, with the call finished, or in the middle of it. */
  datatype Outcome = Failed | Finished | Yielded

  datatype State = EndOfCall | EndOfThread | Suspended

  /** threadRunLoop: a coroutine ends by itself after a limited number of calls. */
  function After(c: Coroutine, o: Outcome, limit: nat): (r: (Coroutine, State))
    ensures r.1.EndOfCall? ==> r.0.dead == c.dead
    ensures r.1.Suspended? <==> o.Yielded?
  {
    match o
    case Failed => (c.(dead := true), EndOfThread)
    case Yielded => (c, Suspended)
    case Finished =>
      if c.calls <= limit then (c.(calls := c.calls + 1), EndOfCall) else (c.(dead := true), EndOfThread)
  }

  /** Live ids and unfinished contexts correspond one to one. */
  ghost predicate Matched(live: map<nat, ContextId>, contexts: map<ContextId, Context>)
  {
    && (forall t :: t in live ==> live[t] in contexts && contexts[live[t]].thread.Some? && contexts[live[t]].tid == t)
    && (forall c :: c in contexts && contexts[c].thread.Some? ==> contexts[c].tid in live && live[contexts[c].tid] == c)
  }

  /** Unfinished contexts own distinct coroutines that are alive. */
  ghost predicate Owned(contexts: map<ContextId, Context>, coroutines: map<CoroutineId, Coroutine>)
  {
    && (forall c :: c in contexts && contexts[c].thread.Some? ==>
          contexts[c].thread.value in coroutines && !coroutines[contexts[c].thread.value].dead)
    && (forall c, d ::
          c in contexts && d in contexts && contexts[c].thread.Some? && contexts[c].thread == contexts[d].thread ==>
            c == d)
  }

  /** Pooled coroutines are alive, distinct, and owned by no unfinished context. */
  ghost predicate Pooled(pool: seq<CoroutineId>, contexts: map<ContextId, Context>,
                         coroutines: map<CoroutineId, Coroutine>)
  {
    && (forall i :: 0 <= i < |pool| ==> pool[i] in coroutines && !coroutines[pool[i]].dead)
    && (forall i, j :: 0 <= i < j < |pool| ==> pool[i] != pool[j])
    && (forall i, c :: 0 <= i < |pool| && c in contexts ==> contexts[c].thread != Some(pool[i]))
  }

  ghost predicate Numbered(next: nat, contexts: map<ContextId, Context>, coroutines: map<CoroutineId, Coroutine>)
  {
    (forall c :: c in contexts ==> c < next) && (forall t :: t in coroutines ==> t < next)
  }

  ghost predicate Kept(live: map<nat, ContextId>, pool: seq<CoroutineId>, next: nat,
                       contexts: map<ContextId, Context>, coroutines: map<CoroutineId, Coroutine>)
  {
    Matched(live, contexts) && Owned(contexts, coroutines) && Pooled(pool, contexts, coroutines)
        && Numbered(next, contexts, coroutines)
  }

  /** A coroutine leaves the pool, or a new one is made, for a new context. */
  lemma ThreadStarts(live: map<nat, ContextId>, pool: seq<CoroutineId>, next: nat, contexts: map<ContextId, Context>,
                     coroutines: map<CoroutineId, Coroutine>, t: CoroutineId, rest: seq<CoroutineId>,
                     c: ContextId, tid: nat)
    requires Kept(live, pool, next, contexts, coroutines) && tid !in live && c == next + 1
    requires if pool == [] then t == next && rest == [] else t == pool[0] && rest == pool[1..]
    ensures var made := if pool == [] then coroutines[t := Coroutine(0, false)] else coroutines;
            Kept(live[tid := c], rest, next + 2, contexts[c := Context(Some(t), tid)], made) && c !in contexts
    ensures forall d :: d in contexts ==> contexts[d].thread != Some(t)
  {
    var made := if pool == [] then coroutines[t := Coroutine(0, false)] else coroutines;
    var more := contexts[c := Context(Some(t), tid)];
    assert forall d :: d in contexts ==> contexts[d].thread != Some(t);
    assert Owned(more, made);
    assert Pooled(rest, more, made);
    assert Matched(live[tid := c], more);
  }

  /** The call of a context ends: its id goes, and its coroutine is free. */
  lemma ThreadEnds(live: map<nat, ContextId>, pool: seq<CoroutineId>, next: nat, contexts: map<ContextId, Context>,
                   coroutines: map<CoroutineId, Coroutine>, c: ContextId, k: Coroutine)
    requires Kept(live, pool, next, contexts, coroutines) && c in contexts && contexts[c].thread.Some?
    ensures var t := contexts[c].thread.value;
            var left := contexts[c := contexts[c].(thread := None)];
            && Kept(live - {contexts[c].tid}, pool, next, left, coroutines[t := k])
            && (!k.dead ==> Kept(live - {contexts[c].tid}, pool + [t], next, left, coroutines[t := k]))
  {
    var t, tid := contexts[c].thread.value, contexts[c].tid;
    var left, now := contexts[c := contexts[c].(thread := None)], coroutines[t := k];
    assert Matched(live - {tid}, left);
    assert Owned(left, now);
    assert Pooled(pool, left, now);
    assert Numbered(next, left, now);
    if !k.dead { assert Pooled(pool + [t], left, now); }
  }

  class ThreadScheduler {
    const threadRegistry: Registry<ContextId>
    const threadPool: Ring<CoroutineId>
    const timesReuseThread: nat
    var contexts: map<ContextId, Context>
    var coroutines: map<CoroutineId, Coroutine>
    var next: nat

    ghost predicate Valid()
      reads this, threadRegistry, threadPool
    {
      && threadRegistry.Valid() && threadPool.Valid()
      && Kept(threadRegistry.live, threadPool.contents, next, contexts, coroutines)
    }

    constructor (poolSize: nat, reuse: nat)
      ensures Valid() && fresh(threadRegistry) && fresh(threadPool) && contexts == map[]
    {
      threadRegistry := new Registry<ContextId>();
      threadPool := new Ring<CoroutineId>(poolSize);
      timesReuseThread, contexts, coroutines, next := reuse, map[], map[], 0;
    }

    /** newThread: an id that was not live, a context that was not there, a coroutine nobody owned. */
    method NewThread() returns (c: ContextId)
      requires Valid()
      modifies this, threadRegistry, threadPool
      ensures Valid() && c !in old(contexts) && c in contexts && contexts[c].thread.Some?
      ensures contexts[c].tid !in old(threadRegistry.live)
      ensures threadRegistry.live == old(threadRegistry.live)[contexts[c].tid := c]
      ensures contexts == old(contexts)[c := contexts[c]]
      ensures forall d :: d in old(contexts) ==> old(contexts)[d].thread != contexts[c].thread
      ensures if old(threadPool.contents) == []
              then contexts[c].thread.value !in old(coroutines) && threadPool.contents == []
                   && coroutines == old(coroutines)[contexts[c].thread.value := Coroutine(0, false)]
              else contexts[c].thread.value == old(threadPool.contents)[0] && coroutines == old(coroutines)
                   && threadPool.contents == old(threadPool.contents)[1..]
    {
      hide Kept, Chained, Shared, Behind;
      ghost var live, pool := threadRegistry.live, threadPool.contents;
      var taken := threadPool.Take();
      var t := if taken.Some? then taken.value else next;
      c := next + 1;
      var tid := threadRegistry.Ref(c);
      NextIsNew(live, pool, next, contexts, coroutines);
      ThreadStarts(live, pool, next, contexts, coroutines, t, threadPool.contents, c, tid);
      if taken.None? { coroutines := coroutines[t := Coroutine(0, false)]; }
      contexts := contexts[c := Context(Some(t), tid)];
      next := next + 2;
    }

    /** resumeThread on an unfinished context, given how its coroutine comes back. */
    method ResumeThread(c: ContextId, o: Outcome)
      requires Valid() && c in contexts && contexts[c].thread.Some?
      modifies this, threadRegistry, threadPool
      ensures Valid()
      ensures o.Yielded? ==> contexts == old(contexts) && threadRegistry.live == old(threadRegistry.live)
                             && threadPool.contents == old(threadPool.contents)
      ensures !o.Yielded? ==> contexts == old(contexts)[c := old(contexts)[c].(thread := None)]
                              && threadRegistry.live == old(threadRegistry.live) - {old(contexts)[c].tid}
      ensures o.Failed? ==> threadPool.contents == old(threadPool.contents)
      ensures o.Finished? ==>
                var t := old(contexts)[c].thread.value;
                && t in old(coroutines)
                && threadPool.contents
                   == if old(coroutines)[t].calls <= timesReuseThread && |old(threadPool.contents)| < threadPool.size
                      then old(threadPool.contents) + [t] else old(threadPool.contents)
    {
      hide Kept, After;
      var t, tid := contexts[c].thread.value, contexts[c].tid;
      ghost var live, pool := threadRegistry.live, threadPool.contents;
      OwnThread(live, pool, next, contexts, coroutines, c);
      var (k, state) := After(coroutines[t], o, timesReuseThread);
      FailedIsDead(coroutines[t], o, timesReuseThread);
      if state.Suspended? {
        return;
      }
      ThreadEnds(live, pool, next, contexts, coroutines, c, k);
      coroutines := coroutines[t := k];
      threadRegistry.Unref(tid);
      contexts := contexts[c := contexts[c].(thread := None)];
      if state.EndOfCall? {
        var pooled := threadPool.Offer(t);
      }
    }

    /** resumeThreadId: an id that is not live is an error, whatever its slot holds. */
    method ResumeThreadId(tid: nat, o: Outcome) returns (ok: bool)
      requires Valid()
      modifies this, threadRegistry, threadPool
      ensures Valid() && ok == (tid in old(threadRegistry.live))
      ensures !ok ==> contexts == old(contexts) && threadRegistry.live == old(threadRegistry.live)
      ensures ok ==> var c := old(threadRegistry.live)[tid];
                     c in old(contexts)
                     && contexts == if o.Yielded? then old(contexts)
                                    else old(contexts)[c := old(contexts)[c].(thread := None)]
    {
      hide Owned, Pooled, Numbered;
      var slot, found := threadRegistry.Lookup(tid);
      ok := found && slot.Obj?;
      if ok {
        ResumeThread(slot.value, o);
      }
    }

    /** Any run of new threads and resumptions. */
    method Drive(ops: seq<Op>)
      requires Valid()
      modifies this, threadRegistry, threadPool
      ensures Valid()
    {
      hide Kept;
      var i := 0;
      while i < |ops|
        invariant 0 <= i <= |ops| && Valid()
      {
        match ops[i] {
          case Start => var c := NewThread();
          case Resume(tid, o) => var ok := ResumeThreadId(tid, o);
        }
        i := i + 1;
      }
    }
  }

  datatype Op = Start | Resume(tid: nat, outcome: Outcome)

  lemma FailedIsDead(k: Coroutine, o: Outcome, limit: nat)
    ensures o.Failed? ==> After(k, o, limit).1.EndOfThread?
    ensures o.Finished? ==> !After(k, o, limit).1.Suspended?
    ensures o.Finished? ==> (After(k, o, limit).1.EndOfCall? <==> k.calls <= limit)
    ensures After(k, o, limit).0.dead <==> k.dead || o.Failed? || (o.Finished? && k.calls > limit)
    ensures o.Yielded? || o.Failed? ==> After(k, o, limit).0.calls == k.calls
  {}

  /** A coroutine that has finished n calls in a row. */
  function Worked(n: nat, limit: nat): Coroutine
  {
    if n == 0 then Coroutine(0, false) else After(Worked(n - 1, limit), Finished, limit).0
  }

  /** A coroutine serves its limit of calls and two more: behind the last of them it is dead, and behind every
      one before it can be used again. */
  lemma {:induction false} ServesItsCalls(n: nat, limit: nat)
    requires n <= limit + 1
    ensures Worked(n, limit) == Coroutine(n, false)
    ensures After(Worked(n, limit), Finished, limit).1 == if n <= limit then EndOfCall else EndOfThread
    ensures n == limit + 1 ==> Worked(n + 1, limit).dead
  {
    if n > 0 { ServesItsCalls(n - 1, limit); }
  }

  lemma NextIsNew(live: map<nat, ContextId>, pool: seq<CoroutineId>, next: nat, contexts: map<ContextId, Context>,
                  coroutines: map<CoroutineId, Coroutine>)
    requires Kept(live, pool, next, contexts, coroutines)
    ensures next !in coroutines
  {}

  lemma OwnThread(live: map<nat, ContextId>, pool: seq<CoroutineId>, next: nat, contexts: map<ContextId, Context>,
                  coroutines: map<CoroutineId, Coroutine>, c: ContextId)
    requires Kept(live, pool, next, contexts, coroutines) && c in contexts && contexts[c].thread.Some?
    ensures contexts[c].thread.value in coroutines && !coroutines[contexts[c].thread.value].dead
    ensures contexts[c].tid in live
  {}
}
