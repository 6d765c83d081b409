/** What becomes of a connection that has been closed: the callbacks that libuv still owes it run out, and
    with the last of them it is freed, unless a write was ever started over an unanswered one. */
module TcpRelease {
  import opened TcpLifetime

  /** What libuv, or the end of a resumed coroutine, makes happen. */
  predicate Callback(a: Action)
  {
    a.OnRead? || a.OnReadError? || a.OnTimeout? || a.OnWrite? || a.OnWriteReturn? || a.OnClosed?
  }

  /** How many callbacks are owed to a closed connection at most: two for every write, its answer and the
      return of the coroutine, and one for every handle. */
  function Owed(s: System): nat
  {
    2 * s.inFlight + One(s.inOnWrite)
    + One(!s.conn.tcp.Closed?) + One(!s.conn.readTimer.Closed?) + One(!s.conn.writeTimer.Closed?)
  }

  /** Nothing can happen any more but calls from Lua. */
  ghost predicate AtRest(s: System) { forall a: Action :: Callback(a) ==> !Enabled(s, a) }

  /** The callback to wait for next. */
  function NextCallback(s: System): Action
  {
    if s.inOnWrite then OnWriteReturn
    else if s.inFlight > 0 then OnWrite(false)
    else OnClosed(if s.conn.tcp.Closing? then Tcp else if s.conn.readTimer.Closing? then ReadTimer else WriteTimer)
  }

  /** A closed connection waits for something exactly as long as something is owed to it. */
  lemma RestExactly(s: System)
    requires Invariant(s) && !s.conn.linked
    ensures AtRest(s) <==> Owed(s) == 0
    ensures Owed(s) > 0 ==> Callback(NextCallback(s)) && Enabled(s, NextCallback(s))
  {
    hide Waits;
    if Owed(s) > 0 {
      assert Callback(NextCallback(s)) && Enabled(s, NextCallback(s));
    }
  }

  /** Every callback brings it nearer to rest, calls from Lua change nothing, and it stays closed. */
  lemma Dwindles(s: System, a: Action)
    requires Invariant(s) && Enabled(s, a) && !s.conn.linked
    ensures !Next(s, a).conn.linked
    ensures if Callback(a) then Owed(Next(s, a)) < Owed(s) else Next(s, a) == s
  {
    hide Waits;
  }

  /** At rest nobody owns it: it has been freed once if no write was started over another, and never
      otherwise. */
  lemma RestIsFreed(s: System)
    requires Invariant(s) && !s.conn.linked && Owed(s) == 0
    ensures Owners(s) == 0 && s.conn.refCount == s.overlaps
    ensures s.conn.frees == One(s.overlaps == 0)
  {
    hide Waits;
  }

  function Callbacks(actions: seq<Action>): nat
  {
    if actions == [] then 0 else Callbacks(actions[..|actions| - 1]) + One(Callback(actions[|actions| - 1]))
  }

  lemma {:induction false} RunsOut(states: seq<System>, actions: seq<Action>, j: nat, k: nat)
    requires IsRun(states, actions) && j <= k < |states| && !states[j].conn.linked
    ensures !states[k].conn.linked && Callbacks(actions[j..k]) + Owed(states[k]) <= Owed(states[j])
    decreases k
  {
    hide Next, Enabled, Invariant, Owed, Callback;
    if k > j {
      RunsOut(states, actions, j, k - 1);
      RunKeeps(states, actions, k - 1);
      Dwindles(states[k - 1], actions[k - 1]);
      var between := actions[j..k];
      assert between[..|between| - 1] == actions[j..k - 1] && between[|between| - 1] == actions[k - 1];
    }
  }

  /** Closed, then freed: over every run in which the connection has been closed at j, no more callbacks
      follow than were owed then. If none is left to come, it has been freed, once, if and only if no write
      was ever started over an unanswered one; otherwise one can happen. */
  lemma FreedInTheEnd(states: seq<System>, actions: seq<Action>, j: nat, k: nat)
    requires IsRun(states, actions) && j <= k < |states| && !states[j].conn.linked
    ensures Callbacks(actions[j..k]) <= Owed(states[j])
    ensures AtRest(states[k]) ==>
              if forall i :: 0 <= i < k ==> !StartsOver(states[i], actions[i]) then states[k].conn.frees == 1
              else states[k].conn.frees == 0
    ensures !AtRest(states[k]) ==> Callback(NextCallback(states[k])) && Enabled(states[k], NextCallback(states[k]))
  {
    hide Next, Enabled, Invariant, Owed, Callback, AtRest, NextCallback, StartsOver;
    RunsOut(states, actions, j, k);
    RunKeeps(states, actions, k);
    RestExactly(states[k]);
    NoOverlap(states, actions, k);
    if AtRest(states[k]) { RestIsFreed(states[k]); }
  }
}
