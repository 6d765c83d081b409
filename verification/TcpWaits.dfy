/** What becomes of a coroutine that waits on a connection: over every run it is resumed, or still waiting,
    or its wait was given up by a later call of its own side; data, errors, timeouts and answers resume it.
    Also: what closes a connection, and when its timers run. */
module TcpWaits {
  import opened Ascii
  import opened TcpLifetime

  predicate ReaderWaits(s: System, w: nat) { s.conn.readerTid != 0 && s.readWait == w }

  predicate WriterWaits(s: System, w: nat) { s.conn.writerTid != 0 && s.writeWait == w }

  /** The handle is neither reading nor writing. */
  predicate Inactive(s: System) { !s.conn.reading && s.inFlight == 0 }

  /** The actions that close a connection which is not yet closed, apart from Lua's own. */
  predicate Breaks(s: System, a: Action)
  {
    s.conn.linked &&
    match a
    case OnReadError => true
    case OnTimeout(_) => true
    case OnWrite(failed) => failed && s.conn.writeData
    case LuaStartReading(failed) => failed
    case LuaRead(_, _) => Inactive(s)
    case LuaWrite(tid, empty, failed, _) => tid != 0 && !empty && failed
    case _ => false
  }

  /** Lua closes it, or collects it. */
  predicate GivesUp(s: System, a: Action) { s.conn.linked && (a.LuaClose? || a.LuaGc?) }

  predicate RegistersReader(s: System, a: Action) { a.LuaRead? && s.conn.linked && !Inactive(s) && a.tid != 0 }

  predicate RegistersWriter(s: System, a: Action)
  {
    a.LuaWrite? && s.conn.linked && a.tid != 0 && !a.empty && !a.failed
  }

  // ----- what closes -----

  /** What is left of a connection that has been closed. */
  predicate Shutting(c: Conn)
  {
    && !c.linked && c.tcp.Closing? && c.readTimer.Closing? && c.writeTimer.Closing?
    && !c.reading && !c.readTimerOn && !c.writeTimerOn && c.readerTid == 0 && c.writerTid == 0
  }

  lemma CloseShuts(s: System)
    requires Linked(s) && s.conn.linked
    ensures Shutting(Close(s).conn)
  {}

  /** The state an action closes from, if it closes. */
  function ClosedFrom(s: System, a: Action): System
  {
    match a
    case OnReadError => s.(conn := s.conn.(readTimerOn := false))
    case LuaStartReading(_) => s.(conn := s.conn.(readerTid := 0))
    case LuaClose => DropWaits(s)
    case LuaGc => DropWaits(s)
    case OnWrite(_) =>
      s.(inFlight := if s.inFlight > 0 then s.inFlight - 1 else 0, inOnWrite := true,
         conn := s.conn.(writeData := false))
    case _ => s
  }

  lemma ClosesFrom(s: System, a: Action)
    requires Enabled(s, a) && s.conn.linked
    ensures Breaks(s, a) || GivesUp(s, a) ==> Next(s, a) == Close(ClosedFrom(s, a))
    ensures !Breaks(s, a) && !GivesUp(s, a) ==>
              Next(s, a).conn.linked && (Next(s, a).conn.reading <==> s.conn.reading || a.LuaStartReading?)
  {
    hide Close;
  }

  /** A connection is closed by Lua, by an error or by a timeout, and by nothing else; then every handle is
      closing, nothing is read and no timer runs. */
  lemma ClosedExactly(s: System, a: Action)
    requires Invariant(s) && Enabled(s, a) && s.conn.linked
    ensures !Next(s, a).conn.linked <==> Breaks(s, a) || GivesUp(s, a)
    ensures Breaks(s, a) || GivesUp(s, a) ==> Shutting(Next(s, a).conn)
  {
    hide Waits, Close, Next, Breaks, GivesUp, Counted;
    ClosesFrom(s, a);
    CloseShuts(ClosedFrom(s, a));
  }

  /** Reading goes on from start_reading until the connection is closed. */
  lemma ReadingExactly(s: System, a: Action)
    requires Invariant(s) && Enabled(s, a) && s.conn.linked
    ensures Next(s, a).conn.reading <==>
              !Breaks(s, a) && !GivesUp(s, a) && (s.conn.reading || a.LuaStartReading?)
  {
    hide Waits, Close, Next, Breaks, GivesUp, Counted;
    ClosesFrom(s, a);
    CloseShuts(ClosedFrom(s, a));
  }

  /** The read timer runs from a read with a timeout until something is read or the connection is closed;
      the write timer from a write with a timeout until a write is answered or the connection is closed. */
  lemma TimersExactly(s: System, a: Action)
    requires Invariant(s) && Enabled(s, a) && s.conn.linked
    ensures Next(s, a).conn.readTimerOn <==>
              && !Breaks(s, a) && !GivesUp(s, a)
              && (if RegistersReader(s, a) && a.timeout then true else s.conn.readTimerOn && !a.OnRead?)
    ensures Next(s, a).conn.writeTimerOn <==>
              && !Breaks(s, a) && !GivesUp(s, a)
              && (if RegistersWriter(s, a) && a.timeout then true
                  else s.conn.writeTimerOn && !(a.OnWrite? && s.conn.writeData))
  {
    hide Waits, Close, Next, Breaks, GivesUp, Counted, RegistersReader, RegistersWriter;
    ClosesFrom(s, a);
    CloseShuts(ClosedFrom(s, a));
    if !Breaks(s, a) && !GivesUp(s, a) { TimersWhileOpen(s, a); }
  }

  lemma TimersWhileOpen(s: System, a: Action)
    requires Enabled(s, a) && s.conn.linked && !Breaks(s, a) && !GivesUp(s, a)
    ensures Next(s, a).conn.readTimerOn <==>
              if RegistersReader(s, a) && a.timeout then true else s.conn.readTimerOn && !a.OnRead?
    ensures Next(s, a).conn.writeTimerOn <==>
              if RegistersWriter(s, a) && a.timeout then true
              else s.conn.writeTimerOn && !(a.OnWrite? && s.conn.writeData)
  {
    hide Next, RegistersReader, RegistersWriter;
    ReadTimerWhileOpen(s, a);
    WriteTimerWhileOpen(s, a);
  }

  lemma ReadTimerWhileOpen(s: System, a: Action)
    requires Enabled(s, a) && s.conn.linked && !Breaks(s, a) && !GivesUp(s, a)
    ensures Next(s, a).conn.readTimerOn <==>
              if RegistersReader(s, a) && a.timeout then true else s.conn.readTimerOn && !a.OnRead?
  {
    hide Close;
  }

  lemma WriteTimerWhileOpen(s: System, a: Action)
    requires Enabled(s, a) && s.conn.linked && !Breaks(s, a) && !GivesUp(s, a)
    ensures Next(s, a).conn.writeTimerOn <==>
              if RegistersWriter(s, a) && a.timeout then true
              else s.conn.writeTimerOn && !(a.OnWrite? && s.conn.writeData)
  {
    hide Close;
  }

  // ----- one step of a wait -----

  /** Data resumes the reader, and so does everything that breaks the connection; start_reading forgets it
      first. */
  predicate WakesReader(s: System, a: Action)
  {
    a == OnRead(false) || (Breaks(s, a) && !a.LuaStartReading?)
  }

  predicate ForgetsReader(s: System, a: Action)
  {
    s.conn.linked && (a.LuaStartReading? || a.LuaClose? || a.LuaGc? || RegistersReader(s, a))
  }

  /** The answer of a write resumes the writer, and so does everything that breaks the connection. */
  predicate WakesWriter(s: System, a: Action)
  {
    (a == OnWrite(false) && s.conn.writeData) || Breaks(s, a)
  }

  predicate ForgetsWriter(s: System, a: Action)
  {
    s.conn.linked && (a.LuaClose? || a.LuaGc? || RegistersWriter(s, a))
  }

  /** Whom an action resumes, and in which order: the reader before the writer. */
  lemma ResumedExactly(s: System, a: Action)
    requires Invariant(s) && Enabled(s, a)
    ensures Next(s, a).resumed == s.resumed
              + (if WakesReader(s, a) && s.conn.readerTid != 0 then [s.readWait] else [])
              + (if WakesWriter(s, a) && s.conn.writerTid != 0 then [s.writeWait] else [])
  {
    hide Waits;
  }

  lemma ReaderStep(s: System, a: Action, w: nat)
    requires Invariant(s) && Enabled(s, a) && ReaderWaits(s, w)
    ensures w in Next(s, a).resumed <==> WakesReader(s, a)
    ensures ReaderWaits(Next(s, a), w) <==> !WakesReader(s, a) && !ForgetsReader(s, a)
  {
    hide Next, Breaks;
    ResumedExactly(s, a);
    ReaderRecorded(s, a);
  }

  lemma ReaderRecorded(s: System, a: Action)
    requires Invariant(s) && Enabled(s, a) && s.conn.readerTid != 0
    ensures ReaderWaits(Next(s, a), s.readWait) <==> !WakesReader(s, a) && !ForgetsReader(s, a)
  {}

  lemma WriterStep(s: System, a: Action, w: nat)
    requires Invariant(s) && Enabled(s, a) && WriterWaits(s, w)
    ensures w in Next(s, a).resumed <==> WakesWriter(s, a)
    ensures WriterWaits(Next(s, a), w) <==> !WakesWriter(s, a) && !ForgetsWriter(s, a)
  {
    hide Next, Breaks;
    ResumedExactly(s, a);
    WriterRecorded(s, a);
  }

  lemma WriterRecorded(s: System, a: Action)
    requires Invariant(s) && Enabled(s, a) && s.conn.writerTid != 0
    ensures WriterWaits(Next(s, a), s.writeWait) <==> !WakesWriter(s, a) && !ForgetsWriter(s, a)
  {}

  /** A registration is recorded under a number of its own. */
  lemma Registered(s: System, a: Action)
    requires Invariant(s) && Enabled(s, a)
    ensures RegistersReader(s, a) ==> ReaderWaits(Next(s, a), s.issued) && s.issued !in s.resumed
    ensures RegistersWriter(s, a) ==> WriterWaits(Next(s, a), s.issued) && s.issued !in s.resumed
    ensures Next(s, a).issued == s.issued + One(RegistersReader(s, a) || RegistersWriter(s, a))
  {}

  // ----- over a run -----

  /** The wait w, recorded behind step j, was given up by a later step before k. */
  ghost predicate ReaderForgotten(states: seq<System>, actions: seq<Action>, j: nat, k: nat, w: nat)
    requires |states| == |actions| + 1 && k < |states|
  {
    exists i :: j < i < k && ReaderWaits(states[i], w) && ForgetsReader(states[i], actions[i])
  }

  ghost predicate WriterForgotten(states: seq<System>, actions: seq<Action>, j: nat, k: nat, w: nat)
    requires |states| == |actions| + 1 && k < |states|
  {
    exists i :: j < i < k && WriterWaits(states[i], w) && ForgetsWriter(states[i], actions[i])
  }

  ghost predicate ExactlyOne(a: bool, b: bool, c: bool) { (a || b || c) && !(a && b) && !(a && c) && !(b && c) }

  /** A wait that is not recorded any more is never recorded again, and one that was not resumed by then is
      never resumed. */
  lemma Settled(s: System, a: Action, w: nat)
    requires Invariant(s) && Enabled(s, a) && w < s.issued
    ensures !ReaderWaits(s, w) && !WriterWaits(s, w) ==>
              && !ReaderWaits(Next(s, a), w) && !WriterWaits(Next(s, a), w)
              && (w in Next(s, a).resumed <==> w in s.resumed)
    ensures ReaderWaits(s, w) ==> !WriterWaits(s, w) && !WriterWaits(Next(s, a), w)
    ensures WriterWaits(s, w) ==> !ReaderWaits(s, w) && !ReaderWaits(Next(s, a), w)
    ensures w < Next(s, a).issued
  {
    hide Next, Enabled, WakesReader, WakesWriter;
    ResumedExactly(s, a);
    Registered(s, a);
    NumbersKept(s, a);
  }

  /** A number changes only for a new registration. */
  lemma NumbersKept(s: System, a: Action)
    requires Invariant(s) && Enabled(s, a)
    ensures var t := Next(s, a);
            && (t.readWait == s.readWait || t.readWait == s.issued)
            && (t.writeWait == s.writeWait || t.writeWait == s.issued)
            && (t.conn.readerTid != 0 ==> t.readWait == s.issued || s.conn.readerTid != 0)
            && (t.conn.writerTid != 0 ==> t.writeWait == s.issued || s.conn.writerTid != 0)
  {
    hide Waits, Counted, Linked, Close, Next, Breaks, GivesUp;
    if !s.conn.linked {
      NumbersWhenClosed(s, a);
    } else if Breaks(s, a) || GivesUp(s, a) {
      ClosesFrom(s, a);
      CloseNumbers(ClosedFrom(s, a));
    } else {
      NumbersWhileOpen(s, a);
    }
  }

  lemma CloseNumbers(s: System)
    ensures Close(s).readWait == s.readWait && Close(s).writeWait == s.writeWait
    ensures s.conn.linked ==> Close(s).conn.readerTid == 0 && Close(s).conn.writerTid == 0
  {}

  lemma NumbersWhileOpen(s: System, a: Action)
    requires Enabled(s, a) && s.conn.linked && !Breaks(s, a) && !GivesUp(s, a)
    ensures var t := Next(s, a);
            && (t.readWait == s.readWait || t.readWait == s.issued)
            && (t.writeWait == s.writeWait || t.writeWait == s.issued)
            && (t.conn.readerTid != 0 ==> t.readWait == s.issued || s.conn.readerTid != 0)
            && (t.conn.writerTid != 0 ==> t.writeWait == s.issued || s.conn.writerTid != 0)
  {
    hide Close;
  }

  lemma NumbersWhenClosed(s: System, a: Action)
    requires Invariant(s) && Enabled(s, a) && !s.conn.linked
    ensures var t := Next(s, a);
            t.readWait == s.readWait && t.writeWait == s.writeWait && t.conn.readerTid == 0 && t.conn.writerTid == 0
  {
    hide Waits, Counted;
  }

  /** Every read that was registered, in every later state: it is still waiting, or it was resumed, or a
      later read, start_reading or close from Lua has given it up; exactly one of them. */
  lemma {:induction false} ReaderFate(states: seq<System>, actions: seq<Action>, j: nat, k: nat)
    requires IsRun(states, actions) && j < k < |states| && RegistersReader(states[j], actions[j])
    ensures var w := states[j].issued;
            && w < states[k].issued && !WriterWaits(states[k], w)
            && ExactlyOne(ReaderWaits(states[k], w), w in states[k].resumed, ReaderForgotten(states, actions, j, k, w))
    decreases k
  {
    hide Next, Enabled, Invariant, RegistersReader, WakesReader, ForgetsReader;
    var w := states[j].issued;
    RunKeeps(states, actions, k - 1);
    Registered(states[k - 1], actions[k - 1]);
    if k > j + 1 {
      ReaderFate(states, actions, j, k - 1);
      Settled(states[k - 1], actions[k - 1], w);
      if ReaderWaits(states[k - 1], w) { ReaderStep(states[k - 1], actions[k - 1], w); }
      ReaderForgottenMore(states, actions, j, k, w);
      WakeOrForget(states[k - 1], actions[k - 1]);
    } else {
      JustRegistered(states[j], actions[j]);
    }
  }

  lemma ReaderForgottenMore(states: seq<System>, actions: seq<Action>, j: nat, k: nat, w: nat)
    requires |states| == |actions| + 1 && j + 1 < k < |states|
    ensures ReaderForgotten(states, actions, j, k, w) <==>
              || ReaderForgotten(states, actions, j, k - 1, w)
              || (ReaderWaits(states[k - 1], w) && ForgetsReader(states[k - 1], actions[k - 1]))
  {
    hide ForgetsReader, ReaderWaits;
  }

  lemma WriterForgottenMore(states: seq<System>, actions: seq<Action>, j: nat, k: nat, w: nat)
    requires |states| == |actions| + 1 && j + 1 < k < |states|
    ensures WriterForgotten(states, actions, j, k, w) <==>
              || WriterForgotten(states, actions, j, k - 1, w)
              || (WriterWaits(states[k - 1], w) && ForgetsWriter(states[k - 1], actions[k - 1]))
  {
    hide ForgetsWriter, WriterWaits;
  }

  lemma WakeOrForget(s: System, a: Action)
    ensures !(WakesReader(s, a) && ForgetsReader(s, a)) && !(WakesWriter(s, a) && ForgetsWriter(s, a))
  {}

  lemma JustRegistered(s: System, a: Action)
    requires Invariant(s) && Enabled(s, a)
    ensures RegistersReader(s, a) ==> s.issued !in Next(s, a).resumed && !WriterWaits(Next(s, a), s.issued)
    ensures RegistersWriter(s, a) ==> s.issued !in Next(s, a).resumed && !ReaderWaits(Next(s, a), s.issued)
  {}

  /** The same for every write. */
  lemma {:induction false} WriterFate(states: seq<System>, actions: seq<Action>, j: nat, k: nat)
    requires IsRun(states, actions) && j < k < |states| && RegistersWriter(states[j], actions[j])
    ensures var w := states[j].issued;
            && w < states[k].issued && !ReaderWaits(states[k], w)
            && ExactlyOne(WriterWaits(states[k], w), w in states[k].resumed, WriterForgotten(states, actions, j, k, w))
    decreases k
  {
    hide Next, Enabled, Invariant, RegistersWriter, WakesWriter, ForgetsWriter;
    var w := states[j].issued;
    RunKeeps(states, actions, k - 1);
    Registered(states[k - 1], actions[k - 1]);
    if k > j + 1 {
      WriterFate(states, actions, j, k - 1);
      Settled(states[k - 1], actions[k - 1], w);
      if WriterWaits(states[k - 1], w) { WriterStep(states[k - 1], actions[k - 1], w); }
      WriterForgottenMore(states, actions, j, k, w);
      WakeOrForget(states[k - 1], actions[k - 1]);
    } else {
      JustRegistered(states[j], actions[j]);
    }
  }
}
