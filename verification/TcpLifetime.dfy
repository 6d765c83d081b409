/** The lifetime of a connection of src/luaw_tcp.c: a reference-counted struct shared by a Lua object,
    three libuv handles and the writes in flight, as a transition system over every interleaving of Lua
    calls and libuv callbacks. libuv appears only as a contract: callbacks do not nest, every close and
    every write is answered once, and a closing handle delivers nothing else. */
module TcpLifetime {
  import opened Ascii

  datatype Handle = Open | Closing | Closed

  /** struct connection_s, as far as its lifetime goes. `linked` stands for lua_ref and the object's
      pointer, which are set and cleared together; `writeData` is write_req.data; `frees` counts calls of
      free. */
  datatype Conn = Conn(
    refCount: int, linked: bool, tcp: Handle, readTimer: Handle, writeTimer: Handle,
    reading: bool, readTimerOn: bool, writeTimerOn: bool, writeData: bool,
    readerTid: nat, writerTid: nat, frees: nat)

  /** The connection and its surroundings: the writes libuv still has to answer, whether on_write is
      waiting for the coroutine it has resumed, how many writes were started over an unanswered one, and
      the waits: every recording of a thread id gets a number, those in readWait and writeWait belong to
      the ids recorded last, and a number is noted whenever the code resumes the id it belongs to. */
  datatype System = System(
    conn: Conn, inFlight: nat, inOnWrite: bool, overlaps: nat,
    readWait: nat, writeWait: nat, issued: nat, resumed: seq<nat>)

  // ----- the functions of the source -----

  /** new_connection */
  const NEW_CONNECTION := Conn(4, true, Open, Open, Open, false, false, false, false, 0, 0, 0)

  /** GC_REF */
  function Release(c: Conn): Conn
  {
    var d := c.(refCount := c.refCount - 1);
    if d.refCount <= 0 then d.(frees := d.frees + 1) else d
  }

  /** close_if_active */
  function CloseHandle(h: Handle): Handle { if h.Open? then Closing else h }

  /** Resume the thread recorded as reader and forget it; id 0 is no thread. */
  function WakeReader(s: System): System
  {
    s.(conn := s.conn.(readerTid := 0),
       resumed := if s.conn.readerTid != 0 then s.resumed + [s.readWait] else s.resumed)
  }

  function WakeWriter(s: System): System
  {
    s.(conn := s.conn.(writerTid := 0),
       resumed := if s.conn.writerTid != 0 then s.resumed + [s.writeWait] else s.resumed)
  }

  /** Forget the waiting threads without resuming them. */
  function DropWaits(s: System): System { s.(conn := s.conn.(readerTid := 0, writerTid := 0)) }

  /** The struct unlinked from Lua, its timers stopped and its handles closing. */
  function Shut(c: Conn): Conn
  {
    c.(linked := false, refCount := c.refCount - 1, readTimerOn := false, writeTimerOn := false, reading := false,
       readTimer := CloseHandle(c.readTimer), writeTimer := CloseHandle(c.writeTimer), tcp := CloseHandle(c.tcp))
  }

  /** close_connection */
  function Close(s: System): System
  {
    if !s.conn.linked then s
    else
      var t := s.(conn := Shut(s.conn));
      var u := if t.conn.readerTid != 0 then WakeReader(t) else t;
      if u.conn.writerTid != 0 then WakeWriter(u) else u
  }

  function RecordReader(s: System, tid: nat, timeout: bool): System
  {
    s.(conn := s.conn.(readerTid := tid, readTimerOn := s.conn.readTimerOn || timeout),
       readWait := s.issued, issued := s.issued + 1)
  }

  function RecordWriter(s: System, tid: nat, timeout: bool): System
  {
    s.(conn := s.conn.(writerTid := tid, writeTimerOn := s.conn.writeTimerOn || timeout),
       writeWait := s.issued, issued := s.issued + 1)
  }

  datatype Which = Tcp | ReadTimer | WriteTimer

  /** What can happen next: a Lua call on the connection object, a libuv callback, or the return of the
      coroutine that on_write resumed. */
  datatype Action =
    | LuaStartReading(failed: bool)
    | LuaRead(tid: nat, timeout: bool)
    | LuaWrite(tid: nat, empty: bool, failed: bool, timeout: bool)
    | LuaClose
    | LuaGc
    | OnRead(empty: bool)
    | OnReadError
    | OnTimeout(write: bool)
    | OnWrite(failed: bool)
    | OnWriteReturn
    | OnClosed(which: Which)

  function HandleOf(c: Conn, w: Which): Handle
  {
    match w case Tcp => c.tcp case ReadTimer => c.readTimer case WriteTimer => c.writeTimer
  }

  /** When libuv, or the end of a resumed coroutine, may make each of them happen. */
  predicate Enabled(s: System, a: Action)
  {
    match a
    case OnRead(_) => !s.inOnWrite && s.conn.tcp.Open? && s.conn.reading
    case OnReadError => !s.inOnWrite && s.conn.tcp.Open? && s.conn.reading
    case OnTimeout(w) =>
      !s.inOnWrite && if w then s.conn.writeTimer.Open? && s.conn.writeTimerOn
                      else s.conn.readTimer.Open? && s.conn.readTimerOn
    case OnWrite(_) => !s.inOnWrite && s.inFlight > 0
    case OnWriteReturn => s.inOnWrite
    case OnClosed(w) => !s.inOnWrite && HandleOf(s.conn, w).Closing?
    case _ => true
  }

  /** A Lua call reaches the struct only through an object that still points at it; a callback always
      does, since the handles and the write request lie inside the struct. */
  predicate Touches(s: System, a: Action)
  {
    a.LuaStartReading? || a.LuaRead? || a.LuaWrite? || a.LuaClose? || a.LuaGc? ==> s.conn.linked
  }

  function StartReading(s: System, failed: bool): System
  {
    var t := s.(conn := s.conn.(readerTid := 0));
    if failed then Close(t) else t.(conn := t.conn.(reading := true))
  }

  /** read_check; the handle counts as active while it reads or writes. */
  function ReadCheck(s: System, tid: nat, timeout: bool): System
  {
    if !(s.conn.reading || s.inFlight > 0) then Close(s)
    else if tid == 0 then s
    else RecordReader(s, tid, timeout)
  }

  function WriteBuffer(s: System, tid: nat, empty: bool, failed: bool, timeout: bool): System
  {
    if tid == 0 || empty then s
    else if failed then Close(s)
    else
      var t := s.(conn := s.conn.(writeData := true, refCount := s.conn.refCount + 1), inFlight := s.inFlight + 1,
                  overlaps := if s.conn.writeData then s.overlaps + 1 else s.overlaps);
      RecordWriter(t, tid, timeout)
  }

  /** on_write up to the point where it drops its reference. A request whose data was cleared by an
      earlier answer is ignored. */
  function WriteAnswered(s: System, failed: bool): System
    requires s.inFlight > 0
  {
    var t := s.(inFlight := s.inFlight - 1);
    if !s.conn.writeData then t
    else
      var u := t.(conn := t.conn.(writeData := false), inOnWrite := true);
      if failed then Close(u) else WakeWriter(u.(conn := u.conn.(writeTimerOn := false)))
  }

  function HandleClosed(c: Conn, w: Which): Conn
  {
    Release(match w
            case Tcp => c.(tcp := Closed)
            case ReadTimer => c.(readTimer := Closed)
            case WriteTimer => c.(writeTimer := Closed))
  }

  function Next(s: System, a: Action): System
    requires Enabled(s, a)
  {
    match a
    case LuaStartReading(failed) => if s.conn.linked then StartReading(s, failed) else s
    case LuaRead(tid, timeout) => if s.conn.linked then ReadCheck(s, tid, timeout) else s
    case LuaWrite(tid, empty, failed, timeout) =>
      if s.conn.linked then WriteBuffer(s, tid, empty, failed, timeout) else s
    case LuaClose => if s.conn.linked then Close(DropWaits(s)) else s
    case LuaGc => if s.conn.linked then Close(DropWaits(s)) else s
    case OnRead(empty) =>
      var t := s.(conn := s.conn.(readTimerOn := false));
      if empty then t else WakeReader(t)
    case OnReadError => Close(s.(conn := s.conn.(readTimerOn := false)))
    case OnTimeout(_) => Close(s)
    case OnWrite(failed) => WriteAnswered(s, failed)
    case OnWriteReturn => s.(conn := Release(s.conn), inOnWrite := false)
    case OnClosed(w) => s.(conn := HandleClosed(s.conn, w))
  }

  // ----- what every step keeps -----

  function One(b: bool): nat { if b then 1 else 0 }

  /** Who still needs the struct. */
  function Owners(s: System): nat
  {
    One(s.conn.linked) + One(!s.conn.tcp.Closed?) + One(!s.conn.readTimer.Closed?) + One(!s.conn.writeTimer.Closed?)
    + One(s.conn.writeData) + One(s.inOnWrite)
  }

  /** The reference count is the number of owners, plus one for every write that was started over an
      unanswered one; the struct is freed once, when the count reaches zero. */
  predicate Counted(s: System)
  {
    && s.conn.refCount == Owners(s) + s.overlaps
    && s.conn.frees == One(s.conn.refCount == 0)
    && One(s.conn.writeData) <= s.inFlight <= One(s.conn.writeData) + s.overlaps
  }

  /** The object is linked exactly while nothing has been closed. */
  predicate Linked(s: System)
  {
    var c := s.conn;
    if c.linked then c.tcp.Open? && c.readTimer.Open? && c.writeTimer.Open?
    else !c.tcp.Open? && !c.readTimer.Open? && !c.writeTimer.Open? && !c.reading && !c.readTimerOn && !c.writeTimerOn
         && c.readerTid == 0 && c.writerTid == 0
  }

  /** No wait was resumed twice, and while a thread id is recorded its wait has not been resumed. */
  ghost predicate Waits(s: System)
  {
    && (forall i, j :: 0 <= i < j < |s.resumed| ==> s.resumed[i] != s.resumed[j])
    && (forall w :: w in s.resumed ==> w < s.issued)
    && (s.conn.readerTid != 0 ==> s.readWait < s.issued && s.readWait !in s.resumed)
    && (s.conn.writerTid != 0 ==> s.writeWait < s.issued && s.writeWait !in s.resumed)
    && (s.conn.readerTid != 0 && s.conn.writerTid != 0 ==> s.readWait != s.writeWait)
  }

  ghost predicate Invariant(s: System) { Counted(s) && Linked(s) && Waits(s) }

  const INITIAL := System(NEW_CONNECTION, 0, false, 0, 0, 0, 0, [])

  lemma InitialInvariant()
    ensures Invariant(INITIAL)
  {}

  lemma WakeReaderWaits(s: System)
    requires Waits(s)
    ensures Waits(WakeReader(s)) && WakeReader(s).conn == s.conn.(readerTid := 0)
  {}

  lemma WakeWriterWaits(s: System)
    requires Waits(s)
    ensures Waits(WakeWriter(s)) && WakeWriter(s).conn == s.conn.(writerTid := 0)
  {}

  /** What closing does to the struct, whoever is resumed. */
  lemma CloseEffect(s: System)
    requires Waits(s) && s.conn.linked
    ensures var t := Close(s);
            && t.conn == Shut(s.conn).(readerTid := 0, writerTid := 0)
            && t.inFlight == s.inFlight && t.inOnWrite == s.inOnWrite && t.overlaps == s.overlaps
            && Waits(t)
  {
    hide Waits;
    var t := s.(conn := Shut(s.conn));
    SameWaits(s, t);
    if t.conn.readerTid != 0 { WakeReaderWaits(t); }
    var u := if t.conn.readerTid != 0 then WakeReader(t) else t;
    if u.conn.writerTid != 0 { WakeWriterWaits(u); }
  }

  /** The waits do not depend on the rest of the struct. */
  lemma SameWaits(s: System, t: System)
    requires Waits(s) && t.conn.readerTid == s.conn.readerTid && t.conn.writerTid == s.conn.writerTid
    requires t.readWait == s.readWait && t.writeWait == s.writeWait && t.issued == s.issued && t.resumed == s.resumed
    ensures Waits(t)
  {}

  lemma CloseKeeps(s: System)
    requires Invariant(s) && s.conn.linked
    ensures Invariant(Close(s))
  {
    hide Waits, Close;
    CloseEffect(s);
  }

  lemma DropWaitsKeeps(s: System)
    requires Invariant(s) && s.conn.linked
    ensures Invariant(DropWaits(s))
  {}

  lemma StartReadingKeeps(s: System, failed: bool)
    requires Invariant(s) && s.conn.linked
    ensures Invariant(StartReading(s, failed))
  {
    hide Close;
    var t := s.(conn := s.conn.(readerTid := 0));
    assert Invariant(t);
    CloseKeeps(t);
    var u := t.(conn := t.conn.(reading := true));
    SameWaits(t, u);
  }

  lemma ReadCheckKeeps(s: System, tid: nat, timeout: bool)
    requires Invariant(s) && s.conn.linked
    ensures Invariant(ReadCheck(s, tid, timeout))
  {
    hide Close;
    CloseKeeps(s);
  }

  lemma WriteBufferKeeps(s: System, tid: nat, empty: bool, failed: bool, timeout: bool)
    requires Invariant(s) && s.conn.linked
    ensures Invariant(WriteBuffer(s, tid, empty, failed, timeout))
    ensures var t := WriteBuffer(s, tid, empty, failed, timeout);
            t.overlaps == s.overlaps + One(t.inFlight > s.inFlight && s.conn.writeData)
  {
    hide Close;
    CloseKeeps(s);
    assert Close(s).inFlight == s.inFlight && Close(s).overlaps == s.overlaps by { CloseEffect(s); }
  }

  lemma ReadKeeps(s: System, empty: bool)
    requires Invariant(s) && Enabled(s, OnRead(empty))
    ensures Invariant(Next(s, OnRead(empty)))
  {
    hide Waits;
    var t := s.(conn := s.conn.(readTimerOn := false));
    SameWaits(s, t);
    WakeReaderWaits(t);
  }

  lemma WriteAnsweredKeeps(s: System, failed: bool)
    requires Invariant(s) && s.inFlight > 0 && !s.inOnWrite
    ensures Invariant(WriteAnswered(s, failed)) && WriteAnswered(s, failed).overlaps == s.overlaps
  {
    hide Waits, Close;
    var t := s.(inFlight := s.inFlight - 1);
    SameWaits(s, t);
    var u := t.(conn := t.conn.(writeData := false), inOnWrite := true);
    SameWaits(s, u);
    if s.conn.writeData {
      if failed {
        if u.conn.linked { CloseKeeps(u); CloseEffect(u); } else { assert Close(u) == u by { CloseTwice(u); } }
      } else {
        var v := u.(conn := u.conn.(writeTimerOn := false));
        SameWaits(u, v);
        WakeWriterWaits(v);
      }
    }
  }

  /** Closing a closed connection does nothing. */
  lemma CloseTwice(s: System)
    requires !s.conn.linked
    ensures Close(s) == s
  {}

  lemma ReleaseKeeps(s: System, a: Action)
    requires Invariant(s) && Enabled(s, a) && (a.OnWriteReturn? || a.OnClosed?)
    ensures Invariant(Next(s, a))
  {
    hide Waits;
    SameWaits(s, Next(s, a));
  }

  lemma FromOpenKeeps(s: System, a: Action)
    requires Invariant(s) && Enabled(s, a) && (a.OnReadError? || a.OnTimeout?)
    ensures Invariant(Next(s, a))
  {
    hide Waits, Close;
    var t := s.(conn := s.conn.(readTimerOn := false));
    SameWaits(s, t);
    CloseKeeps(s);
    CloseKeeps(t);
  }

  /** Every step of every interleaving keeps the invariant. */
  lemma NextKeeps(s: System, a: Action)
    requires Invariant(s) && Enabled(s, a)
    ensures Invariant(Next(s, a))
  {
    hide Invariant, Close, WriteAnswered, WriteBuffer, ReadCheck, StartReading, DropWaits, Release, WakeReader;
    match a
    case LuaStartReading(failed) => if s.conn.linked { StartReadingKeeps(s, failed); }
    case LuaRead(tid, timeout) => if s.conn.linked { ReadCheckKeeps(s, tid, timeout); }
    case LuaWrite(tid, empty, failed, timeout) => if s.conn.linked { WriteBufferKeeps(s, tid, empty, failed, timeout); }
    case OnRead(empty) => ReadKeeps(s, empty);
    case OnWrite(failed) => WriteAnsweredKeeps(s, failed);
    case OnWriteReturn => ReleaseKeeps(s, a);
    case OnClosed(_) => ReleaseKeeps(s, a);
    case OnReadError => FromOpenKeeps(s, a);
    case OnTimeout(_) => FromOpenKeeps(s, a);
    case _ =>
      if s.conn.linked {
        DropWaitsKeeps(s);
        StillLinked(s);
        CloseKeeps(DropWaits(s));
      }
  }

  lemma StillLinked(s: System)
    ensures DropWaits(s).conn.linked == s.conn.linked
  {}

  /** No step that can happen touches a connection that has been freed. */
  lemma NoUseAfterFree(s: System, a: Action)
    requires Invariant(s) && Enabled(s, a) && Touches(s, a)
    ensures s.conn.frees == 0 && s.conn.refCount > 0
  {
    hide Waits;
  }

  // ----- whole runs -----

  /** A run from a new connection. */
  ghost predicate IsRun(states: seq<System>, actions: seq<Action>)
  {
    && |states| == |actions| + 1 && states[0] == INITIAL
    && forall i :: 0 <= i < |actions| ==> Enabled(states[i], actions[i]) && states[i + 1] == Next(states[i], actions[i])
  }

  lemma {:induction false} RunKeeps(states: seq<System>, actions: seq<Action>, k: nat)
    requires IsRun(states, actions) && k < |states|
    ensures Invariant(states[k])
    decreases k
  {
    hide Invariant, Next, Enabled;
    if k == 0 {
      InitialInvariant();
    } else {
      RunKeeps(states, actions, k - 1);
      NextKeeps(states[k - 1], actions[k - 1]);
    }
  }

  /** In a run, the action starts a write while another is unanswered. */
  predicate StartsOver(s: System, a: Action)
  {
    a.LuaWrite? && s.conn.linked && a.tid != 0 && !a.empty && !a.failed && s.inFlight > 0
  }

  lemma NextOverlaps(s: System, a: Action)
    requires Invariant(s) && Enabled(s, a)
    ensures Next(s, a).overlaps >= s.overlaps
    ensures s.overlaps == 0 ==> (Next(s, a).overlaps > 0 <==> StartsOver(s, a))
  {
    hide Waits, Close;
    CloseOverlaps(s);
    CloseOverlaps(DropWaits(s));
    CloseOverlaps(s.(conn := s.conn.(readTimerOn := false)));
    CloseOverlaps(s.(conn := s.conn.(readerTid := 0)));
    if a.OnWrite? { WriteAnsweredKeeps(s, a.failed); }
  }

  lemma CloseOverlaps(s: System)
    ensures Close(s).overlaps == s.overlaps
  {}

  /** Once a write has been started over another, its reference is never returned. */
  lemma {:induction false} LeaksForever(states: seq<System>, actions: seq<Action>, j: nat, k: nat)
    requires IsRun(states, actions) && j <= k < |states| && states[j].overlaps > 0
    ensures states[k].overlaps > 0 && states[k].conn.frees == 0
    decreases k
  {
    hide Next, Enabled, Waits, Linked;
    RunKeeps(states, actions, k);
    if k > j {
      LeaksForever(states, actions, j, k - 1);
      RunKeeps(states, actions, k - 1);
      NextOverlaps(states[k - 1], actions[k - 1]);
    }
  }

  lemma {:induction false} NoOverlap(states: seq<System>, actions: seq<Action>, k: nat)
    requires IsRun(states, actions) && k < |states|
    ensures states[k].overlaps == 0 <==> forall i :: 0 <= i < k ==> !StartsOver(states[i], actions[i])
    decreases k
  {
    hide Next, Enabled, Invariant, StartsOver;
    if k > 0 {
      NoOverlap(states, actions, k - 1);
      RunKeeps(states, actions, k - 1);
      NextOverlaps(states[k - 1], actions[k - 1]);
    }
  }

  /** With one write outstanding at a time, the count is the number of live owners, and the memory is
      freed exactly once, exactly when the last of them is gone. */
  lemma CountedExactly(states: seq<System>, actions: seq<Action>, k: nat)
    requires IsRun(states, actions) && k < |states|
    requires forall i :: 0 <= i < k ==> !StartsOver(states[i], actions[i])
    ensures states[k].conn.refCount == Owners(states[k])
    ensures states[k].conn.frees == One(Owners(states[k]) == 0)
    ensures states[k].inFlight == One(states[k].conn.writeData)
  {
    hide Next, Enabled, Waits, Linked, StartsOver;
    RunKeeps(states, actions, k);
    NoOverlap(states, actions, k);
  }

  /** Otherwise it is never freed: one write outstanding is exactly what the scheme needs. */
  lemma FreedOnlyWithoutOverlap(states: seq<System>, actions: seq<Action>, j: nat, k: nat)
    requires IsRun(states, actions) && j < k < |states| && StartsOver(states[j], actions[j])
    ensures states[k].conn.frees == 0 && states[k].conn.refCount > Owners(states[k])
  {
    hide Next, Enabled, Waits, Linked, StartsOver;
    NoOverlap(states, actions, j + 1);
    LeaksForever(states, actions, j + 1, k);
    RunKeeps(states, actions, k);
  }

  lemma TwoWrites() returns (s1: System, s2: System, s3: System, s4: System, s5: System)
    ensures var a, b := LuaWrite(1, false, false, false), LuaWrite(2, false, false, false);
            && Enabled(INITIAL, a) && s1 == Next(INITIAL, a) && Enabled(s1, b) && s2 == Next(s1, b)
            && Enabled(s2, OnWrite(false)) && s3 == Next(s2, OnWrite(false))
            && Enabled(s3, OnWriteReturn) && s4 == Next(s3, OnWriteReturn)
            && Enabled(s4, OnWrite(false)) && s5 == Next(s4, OnWrite(false))
            && StartsOver(s1, b)
    ensures s5.conn == NEW_CONNECTION.(refCount := 5) && s5.inFlight == 0 && !s5.inOnWrite
  {
    s1 := Next(INITIAL, LuaWrite(1, false, false, false));
    s2 := Next(s1, LuaWrite(2, false, false, false));
    s3 := Next(s2, OnWrite(false));
    s4 := Next(s3, OnWriteReturn);
    s5 := Next(s4, OnWrite(false));
  }

  lemma ThenClosed(s5: System) returns (s6: System, s7: System, s8: System, s9: System)
    requires s5.conn == NEW_CONNECTION.(refCount := 5) && s5.inFlight == 0 && !s5.inOnWrite
    ensures && Enabled(s5, LuaClose) && s6 == Next(s5, LuaClose)
            && Enabled(s6, OnClosed(Tcp)) && s7 == Next(s6, OnClosed(Tcp))
            && Enabled(s7, OnClosed(ReadTimer)) && s8 == Next(s7, OnClosed(ReadTimer))
            && Enabled(s8, OnClosed(WriteTimer)) && s9 == Next(s8, OnClosed(WriteTimer))
    ensures Owners(s9) == 0 && s9.conn.refCount == 1 && s9.conn.frees == 0
  {
    s6 := Next(s5, LuaClose);
    s7 := Next(s6, OnClosed(Tcp));
    s8 := Next(s7, OnClosed(ReadTimer));
    s9 := Next(s8, OnClosed(WriteTimer));
  }

  /** Such a run: a second write is started before the first is answered, both are answered, the object is
      closed and every handle with it. No owner is left, and the connection is not freed. */
  lemma LeakedRun() returns (states: seq<System>, actions: seq<Action>)
    ensures IsRun(states, actions) && |actions| == 9 && StartsOver(states[1], actions[1])
    ensures Owners(states[9]) == 0 && states[9].conn.refCount == 1 && states[9].conn.frees == 0
  {
    hide Next, Enabled, StartsOver, Owners;
    var s1, s2, s3, s4, s5 := TwoWrites();
    var s6, s7, s8, s9 := ThenClosed(s5);
    states := [INITIAL, s1, s2, s3, s4, s5, s6, s7, s8, s9];
    actions := [LuaWrite(1, false, false, false), LuaWrite(2, false, false, false), OnWrite(false), OnWriteReturn,
                OnWrite(false), LuaClose, OnClosed(Tcp), OnClosed(ReadTimer), OnClosed(WriteTimer)];
  }

  /** Every registered wait is resumed at most once over the whole run. */
  lemma ResumedOnce(states: seq<System>, actions: seq<Action>, k: nat, i: nat, j: nat)
    requires IsRun(states, actions) && k < |states| && i < j < |states[k].resumed|
    ensures states[k].resumed[i] != states[k].resumed[j] && states[k].resumed[i] < states[k].issued
  {
    hide Next, Enabled, Counted, Linked;
    RunKeeps(states, actions, k);
    assert states[k].resumed[i] in states[k].resumed;
  }

  // ----- the struct and its functions -----

  /** connection_s as an object: its struct is updated field by field; the rest of the system, which the
      code does not see, goes along as a ghost. Memory that has been freed may not be touched. */
  class TcpConnection {
    var conn: Conn
    var inFlight: nat
    ghost var around: System

    ghost function State(): System
      reads this
    {
      around.(conn := conn, inFlight := inFlight)
    }

    constructor ()
      ensures State() == INITIAL
    {
      conn := Conn(0, false, Closed, Closed, Closed, false, false, false, false, 0, 0, 0);
      inFlight, around := 0, INITIAL;
      new;
      conn := conn.(linked := true, refCount := conn.refCount + 1);
      conn := conn.(tcp := Open, refCount := conn.refCount + 1);
      conn := conn.(readTimer := Open, refCount := conn.refCount + 1);
      conn := conn.(writeTimer := Open, refCount := conn.refCount + 1);
    }

    /** resume_lua_thread for the thread recorded as reader or as writer, which is forgotten first. */
    method ResumeReader()
      requires conn.frees == 0
      modifies this
      ensures State() == WakeReader(old(State())) && conn.readerTid == 0
      ensures State().resumed == old(State().resumed)
                                 + if old(conn.readerTid) != 0 then [old(State().readWait)] else []
    {
      if conn.readerTid != 0 { around := around.(resumed := around.resumed + [around.readWait]); }
      conn := conn.(readerTid := 0);
    }

    method ResumeWriter()
      requires conn.frees == 0
      modifies this
      ensures State() == WakeWriter(old(State())) && conn.writerTid == 0
      ensures State().resumed == old(State().resumed)
                                 + if old(conn.writerTid) != 0 then [old(State().writeWait)] else []
    {
      if conn.writerTid != 0 { around := around.(resumed := around.resumed + [around.writeWait]); }
      conn := conn.(writerTid := 0);
    }

    /** GC_REF */
    method GcRef()
      requires conn.frees == 0
      modifies this`conn
      ensures conn == Release(old(conn))
    {
      conn := conn.(refCount := conn.refCount - 1);
      if conn.refCount <= 0 { conn := conn.(frees := conn.frees + 1); }
    }

    /** close_connection, up to the point where it resumes the waiting threads. */
    method Unlink()
      requires conn.frees == 0
      modifies this`conn
      ensures conn == Shut(old(conn))
    {
      conn := conn.(linked := false, refCount := conn.refCount - 1);
      conn := conn.(readTimerOn := false);
      if conn.readTimer.Open? { conn := conn.(readTimer := Closing); }
      conn := conn.(writeTimerOn := false);
      if conn.writeTimer.Open? { conn := conn.(writeTimer := Closing); }
      conn := conn.(reading := false);
      if conn.tcp.Open? { conn := conn.(tcp := Closing); }
    }

    method CloseConnection()
      requires conn.frees == 0
      modifies this
      ensures State() == Close(old(State()))
    {
      hide Shut, WakeReader, WakeWriter;
      if !conn.linked {
        return;
      }
      SameFrees(State());
      Unlink();
      if conn.readerTid != 0 { ResumeReader(); }
      if conn.writerTid != 0 { ResumeWriter(); }
    }

    /** close_connection_lua and connection_gc: nobody is resumed. */
    method LuaClose()
      requires conn.linked ==> conn.frees == 0
      modifies this
      ensures State() == Next(old(State()), Action.LuaClose) == Next(old(State()), Action.LuaGc)
    {
      hide Close;
      if conn.linked {
        conn := conn.(readerTid := 0, writerTid := 0);
        CloseConnection();
      }
    }

    method StartReading(failed: bool)
      requires conn.linked ==> conn.frees == 0
      modifies this
      ensures State() == Next(old(State()), LuaStartReading(failed))
    {
      hide Close;
      if conn.linked {
        conn := conn.(readerTid := 0);
        if failed { CloseConnection(); } else { conn := conn.(reading := true); }
      }
    }

    method ReadCheck(tid: nat, timeout: bool)
      requires conn.linked ==> conn.frees == 0
      modifies this
      ensures State() == Next(old(State()), LuaRead(tid, timeout))
    {
      hide Close;
      if conn.linked {
        if !(conn.reading || inFlight > 0) {
          CloseConnection();
        } else if tid != 0 {
          conn := conn.(readerTid := tid);
          around := around.(readWait := around.issued, issued := around.issued + 1);
          if timeout && !conn.readTimerOn { conn := conn.(readTimerOn := true); }
        }
      }
    }

    method WriteBuffer(tid: nat, empty: bool, failed: bool, timeout: bool)
      requires conn.linked ==> conn.frees == 0
      modifies this
      ensures State() == Next(old(State()), LuaWrite(tid, empty, failed, timeout))
    {
      hide Close;
      if conn.linked && tid != 0 && !empty {
        if failed {
          CloseConnection();
        } else {
          around := around.(overlaps := if conn.writeData then around.overlaps + 1 else around.overlaps);
          inFlight := inFlight + 1;
          conn := conn.(writeData := true, refCount := conn.refCount + 1);
          conn := conn.(writerTid := tid);
          around := around.(writeWait := around.issued, issued := around.issued + 1);
          if timeout && !conn.writeTimerOn { conn := conn.(writeTimerOn := true); }
        }
      }
    }

    /** on_read: nothing read and no buffer to read into are no-ops, every other negative result closes. */
    method OnReadCallback(nread: int)
      requires Enabled(State(), ReadResult(nread)) && conn.frees == 0
      modifies this
      ensures State() == Next(old(State()), ReadResult(nread))
      ensures nread > 0 && old(conn.readerTid) != 0 ==>
                State().resumed == old(State().resumed) + [old(State().readWait)] && conn.readerTid == 0
    {
      hide Close, WakeReader;
      conn := conn.(readTimerOn := false);
      if nread == 0 || nread == UV_ENOBUFS {
        return;
      }
      if nread > 0 {
        ResumeReader();
        return;
      }
      CloseConnection();
    }

    method OnConnTimeout(write: bool)
      requires Enabled(State(), OnTimeout(write)) && conn.frees == 0
      modifies this
      ensures State() == Next(old(State()), OnTimeout(write))
    {
      hide Close;
      CloseConnection();
    }

    /** on_write, up to the end of the coroutine it resumes. */
    method OnWriteCallback(failed: bool)
      requires Enabled(State(), OnWrite(failed)) && conn.frees == 0
      modifies this
      ensures State() == Next(old(State()), OnWrite(failed))
    {
      hide Close, WakeWriter;
      inFlight := inFlight - 1;
      if conn.writeData {
        conn := conn.(writeData := false);
        around := around.(inOnWrite := true);
        if failed {
          CloseConnection();
        } else {
          conn := conn.(writeTimerOn := false);
          ResumeWriter();
        }
      }
    }

    /** The rest of on_write. */
    method OnWriteEnd()
      requires Enabled(State(), OnWriteReturn) && conn.frees == 0
      modifies this
      ensures State() == Next(old(State()), OnWriteReturn)
    {
      hide Release;
      around := around.(inOnWrite := false);
      GcRef();
    }

    /** free_timer and free_tcp_handle */
    method OnClosedCallback(w: Which)
      requires Enabled(State(), OnClosed(w)) && conn.frees == 0
      modifies this
      ensures State() == Next(old(State()), OnClosed(w))
    {
      hide Release;
      match w {
        case Tcp => conn := conn.(tcp := Closed);
        case ReadTimer => conn := conn.(readTimer := Closed);
        case WriteTimer => conn := conn.(writeTimer := Closed);
      }
      GcRef();
    }

    /** One Lua call or callback; that the memory it touches is there is the precondition of each. */
    method Perform(a: Action)
      requires Enabled(State(), a) && (Touches(State(), a) ==> conn.frees == 0)
      modifies this
      ensures State() == Next(old(State()), a)
    {
      hide Next;
      match a {
        case LuaStartReading(failed) => StartReading(failed);
        case LuaRead(tid, timeout) => ReadCheck(tid, timeout);
        case LuaWrite(tid, empty, failed, timeout) => WriteBuffer(tid, empty, failed, timeout);
        case LuaClose => LuaClose();
        case LuaGc => LuaClose();
        case OnRead(empty) => OnReadCallback(if empty then 0 else 1);
        case OnReadError => OnReadCallback(-1);
        case OnTimeout(w) => OnConnTimeout(w);
        case OnWrite(failed) => OnWriteCallback(failed);
        case OnWriteReturn => OnWriteEnd();
        case OnClosed(w) => OnClosedCallback(w);
      }
    }

    /** A connection through any interleaving: freed memory is never touched, no wait is resumed twice,
        and as long as no write is started over another the object counts its owners and is freed once,
        with the last of them. */
    method Drive(actions: seq<Action>, ghost states: seq<System>)
      requires State() == INITIAL && IsRun(states, actions)
      modifies this
      ensures State() == states[|actions|] && Invariant(State())
      ensures (forall i :: 0 <= i < |actions| ==> !StartsOver(states[i], actions[i])) ==>
                conn.refCount == Owners(State()) && conn.frees == One(Owners(State()) == 0)
      ensures forall i, j :: 0 <= i < j < |State().resumed| ==> State().resumed[i] != State().resumed[j]
    {
      hide Next, Enabled, Invariant, StartsOver, Touches, Owners;
      var i := 0;
      while i < |actions|
        invariant 0 <= i <= |actions| && State() == states[i]
      {
        RunKeeps(states, actions, i);
        if Touches(states[i], actions[i]) { NoUseAfterFree(states[i], actions[i]); }
        Perform(actions[i]);
        i := i + 1;
      }
      RunKeeps(states, actions, i);
      if forall j :: 0 <= j < |actions| ==> !StartsOver(states[j], actions[j]) {
        CountedExactly(states, actions, i);
      }
      forall j, k | 0 <= j < k < |State().resumed| ensures State().resumed[j] != State().resumed[k] {
        ResumedOnce(states, actions, i, j, k);
      }
    }
  }

  /** libuv's "no buffer space available". */
  const UV_ENOBUFS: int := -105

  /** How on_read takes its result. */
  function ReadResult(nread: int): Action
  {
    if nread == 0 || nread == UV_ENOBUFS then OnRead(true) else if nread > 0 then OnRead(false) else OnReadError
  }

  /** Neither closing nor resuming frees anything. */
  lemma SameFrees(s: System)
    ensures Shut(s.conn).frees == WakeReader(s).conn.frees == WakeWriter(s).conn.frees == s.conn.frees
    ensures forall t: System :: WakeReader(t).conn.frees == t.conn.frees
  {}
}
