/** http_parser_execute as it is written: a cursor over the data of one call, marks that remember where
    a field began, bodies skipped in bulk, bytes looked at again, and callbacks that may pause. */
module HttpExecute {
  import opened Ascii
  import opened HttpTypes
  import opened HttpAutomaton
  import opened HttpRun
  import opened HttpReread

  type Marks = map<Field, nat>

  /** At most the mark of the state's own field is set, and that of a field in progress always is. */
  predicate Shaped(marks: Marks, s: State, p: nat)
  {
    && (forall f :: f in marks ==> MarkField(s) == Some(f) && marks[f] <= p)
    && (FieldOf(s).Some? ==> FieldOf(s).value in marks)
  }

  /** The trace once the text under a pending mark is counted as delivered. */
  function Flushed(sent: seq<Event>, marks: Marks, s: State, data: bytes, p: nat): seq<Event>
    requires p <= |data| && Shaped(marks, s, p)
  {
    if MarkField(s).Some? && MarkField(s).value in marks
    then Push(sent, Data(MarkField(s).value, data[marks[MarkField(s).value]..p]))
    else sent
  }

  /** MARK(f) */
  function Marked(marks: Marks, a: Action, p: nat): Marks
  {
    if a.mark.Some? && a.mark.value !in marks then marks[a.mark.value := p] else marks
  }

  /** Where the text of a data callback ends: at the current byte, or after it for the last byte of a
      body. */
  function EmitEnd(a: Action, p: nat): nat
  {
    if a.emit.Some? && a.emit.value.Body? && a.ctl.Again? then p + 1 else p
  }

  /** The callbacks one entry makes, given its marks. */
  function Calls(marks: Marks, a: Action, data: bytes, p: nat): seq<Event>
    requires p < |data| && forall f :: f in marks ==> marks[f] <= p
  {
    (if a.emit.Some? && a.emit.value in marks then [Data(a.emit.value, data[marks[a.emit.value]..EmitEnd(a, p)])]
     else [])
    + (if a.note.Some? then [Notify(a.note.value)] else [])
  }

  function Cleared(marks: Marks, a: Action): Marks
  {
    if a.emit.Some? then marks - {a.emit.value} else marks
  }

  /** The marks after one entry are those the new state allows, and a callback leaves none. */
  lemma MarksShaped(c: Core, a: Action, marks: Marks, data: bytes, p: nat)
    requires Disciplined(c, a) && !a.ctl.Fail?
    requires p < |data| && Shaped(marks, c.state, p)
    ensures var m := Marked(marks, a, p);
            && (forall f :: f in m ==> m[f] <= p)
            && Shaped(Cleared(m, a), a.core.state, if a.ctl.Again? then p else p + 1)
            && |Calls(m, a, data, p)| <= 1
            && (Calls(m, a, data, p) != [] ==> Cleared(m, a) == map[])
  {
    hide FieldOf, MarkField;
  }

  lemma OneByteMore(data: bytes, from: nat, p: nat)
    requires from <= p < |data|
    ensures data[from..p] + [data[p]] == data[from..p + 1]
    ensures from == p ==> data[from..p] == [] && data[p..p + 1] == [data[p]]
  {}

  /** Marks and callbacks together deliver, one call at a time, what the reference trace receives byte
      by byte. */
  lemma MarksRefine(c: Core, a: Action, marks: Marks, sent: seq<Event>, data: bytes, p: nat)
    requires Disciplined(c, a) && !a.ctl.Fail?
    requires p < |data| && Shaped(marks, c.state, p)
    ensures var m := Marked(marks, a, p);
            var q := if a.ctl.Again? then p else p + 1;
            && (forall f :: f in m ==> m[f] <= p)
            && Shaped(Cleared(m, a), a.core.state, q)
            && Flushed(PushAll(sent, Calls(m, a, data, p)), Cleared(m, a), a.core.state, data, q)
               == Deliver(Flushed(sent, marks, c.state, data, p), a, data[p])
  {
    hide FieldOf, MarkField, Push;
    MarksShaped(c, a, marks, data, p);
    var m := Marked(marks, a, p);
    var calls := Calls(m, a, data, p);
    var before := Flushed(sent, marks, c.state, data, p);
    if calls != [] {
      assert calls == [calls[0]];
      PushAllOne(sent, calls[0]);
    }
    var own := Owner(a);
    if own.Some? {
      // the byte joins the text under its field's mark
      var f := own.value;
      if f in marks {
        PushFragments(sent, f, data[marks[f]..p], [data[p]]);
        OneByteMore(data, marks[f], p);
      } else {
        OneByteMore(data, p, p);
      }
    } else if a.mark.Some? {
      assert data[p..p] == [];
    }
  }

  // ----- bodies in bulk -----

  /** A body state after k bytes of which none was the last. */
  function Skipped(c: Core, k: nat): Core
    requires !c.state.BodyIdentityEof? ==> k < c.clen
  {
    if c.state.BodyIdentityEof? then c else c.(clen := c.clen - k)
  }

  lemma BodyByte(m: Machine, ch: byte)
    requires Ready(m) && m.stop.Running? && BulkState(m.core.state)
    requires !m.core.state.BodyIdentityEof? ==> 1 < m.core.clen
    ensures Step(m, ch) == m.(core := Skipped(m.core, 1), trace := Push(m.trace, Data(Body, [ch])))
  {
    hide MethodName, NameHeaderState, Push;
  }

  /** Stepping through the inside of a body is skipping it. */
  lemma {:induction false} BodyRun(m: Machine, seg: bytes)
    requires Ready(m) && m.stop.Running? && BulkState(m.core.state)
    requires !m.core.state.BodyIdentityEof? ==> |seg| < m.core.clen
    ensures Run(m, seg) == m.(core := Skipped(m.core, |seg|),
                              trace := if seg == [] then m.trace else Push(m.trace, Data(Body, seg)))
    decreases |seg|
  {
    hide Act, Push, Sound, Chain, Step;
    if seg != [] {
      var init, ch := seg[..|seg| - 1], seg[|seg| - 1];
      BodyRun(m, init);
      var mid := Run(m, init);
      BodyByte(mid, ch);
      assert seg == init + [ch];
      PushFragments(m.trace, Body, init, [ch]);
    }
  }

  // ----- where the loop is -----

  /** The position of one call: the cursor, the struct, the marks, and the trace of the callbacks made
      so far. */
  datatype Place = Place(p: nat, core: Core, nread: nat, marks: Marks, sent: seq<Event>)

  /** The position is well formed. */
  ghost predicate Formed(m0: Machine, data: bytes, k: Place)
  {
    && Ready(m0) && k.p <= |data| && Run(m0, data[..k.p]).stop.Running?
    && Sound(k.core) && k.nread <= MAX_HEADER_SIZE && Shaped(k.marks, k.core.state, k.p)
    && InField(k.core.state, Text(data, k))
  }

  /** The reference trace at a position: what was sent, and what is pending under a mark. */
  ghost function Text(data: bytes, k: Place): seq<Event>
    requires k.p <= |data| && Shaped(k.marks, k.core.state, k.p)
  {
    Flushed(k.sent, k.marks, k.core.state, data, k.p)
  }

  /** At the top of the loop: the bytes before the cursor have been read as the reference reads them. */
  ghost predicate Between(m0: Machine, data: bytes, k: Place)
  {
    && Formed(m0, data, k)
    && Run(m0, data[..k.p]) == Machine(k.core, k.nread, Text(data, k), Running)
  }

  /** At `reexecute_byte`: the rest of the reference's work on the current byte starts here. */
  ghost predicate Inside(m0: Machine, data: bytes, k: Place)
  {
    && Formed(m0, data, k) && k.p < |data| && CountedOne(k.core, k.nread)
    && Step(Run(m0, data[..k.p]), data[k.p]) == Chain(k.core, k.nread, Text(data, k), data[k.p])
  }

  /** The position after one entry of the switch. */
  function After(k: Place, a: Action, data: bytes): Place
    requires k.p < |data| && forall f :: f in k.marks ==> k.marks[f] <= k.p
  {
    var m := Marked(k.marks, a, k.p);
    Place(if a.ctl.Again? then k.p else k.p + 1, a.core, if a.zero then 0 else k.nread,
          Cleared(m, a), PushAll(k.sent, Calls(m, a, data, k.p)))
  }

  lemma RunNext(m0: Machine, data: bytes, p: nat)
    requires Ready(m0) && p < |data|
    ensures Run(m0, data[..p + 1]) == Step(Run(m0, data[..p]), data[p])
  {
    hide Step, Ready;
    assert data[..p + 1][..p] == data[..p];
  }

  /** A byte that has just been counted. */
  lemma Enter(m0: Machine, data: bytes, k: Place)
    requires Between(m0, data, k) && k.p < |data|
    requires ParsingHeader(k.core.state) ==> k.nread < MAX_HEADER_SIZE
    ensures Inside(m0, data, k.(nread := Counted(k.core, k.nread)))
  {
    hide Sound, Chain, Run;
    assert Text(data, k.(nread := Counted(k.core, k.nread))) == Text(data, k);
  }

  /** One entry of the switch, with its marks and callbacks, is one link of the reference chain. */
  lemma EntryRefines(m0: Machine, data: bytes, k: Place)
    requires Inside(m0, data, k)
    ensures AssertsHold(k.core)
    ensures var a := Act(k.core, data[k.p]);
            && Good(k.core, a)
            && (a.ctl.Fail? ==>
                  Run(m0, data[..k.p + 1]) == Machine(a.core, k.nread, Text(data, k), Failed(a.ctl.error)))
            && (a.ctl.Advance? ==> Between(m0, data, After(k, a, data)))
            && (a.ctl.Again? ==> Inside(m0, data, After(k, a, data)))
            && (a.ctl.Exit? ==>
                  var r := After(k, a, data);
                  Run(m0, data[..k.p + 1]) == Machine(r.core, r.nread, r.sent, Upgraded))
  {
    hide Sound, Act, Run, Step, Deliver, Rank, Disciplined, FieldOf, MarkField, Push, PushAll;
    var ch := data[k.p];
    ActKeeps(k.core, ch);
    var a := Act(k.core, ch);
    RunNext(m0, data, k.p);
    if !a.ctl.Fail? {
      MarksShaped(k.core, a, k.marks, data, k.p);
      MarksRefine(k.core, a, k.marks, k.sent, data, k.p);
      DeliverInField(k.core, a, Text(data, k), ch);
    }
  }

  /** Once stopped, the rest of the data does not matter. */
  lemma StopsAt(m0: Machine, data: bytes, p: nat)
    requires Ready(m0) && p < |data| && Run(m0, data[..p]).stop.Running? && !Run(m0, data[..p + 1]).stop.Running?
    ensures Run(m0, data) == Run(m0, data[..p + 1])
    ensures Taken(m0, data) == if Run(m0, data).stop.Failed? then p else p + 1
  {
    hide Step, Ready;
    assert data == data[..p + 1] + data[p + 1..];
    RunConcat(m0, data[..p + 1], data[p + 1..]);
    StoppedStays(Run(m0, data[..p + 1]), data[p + 1..]);
    assert data[..p + 1][..p] == data[..p];
  }

  /** The position after skipping bytes that are not the last of the body. */
  function Skip(k: Place, skip: nat): Place
    requires !k.core.state.BodyIdentityEof? ==> skip < k.core.clen
  {
    Place(k.p + skip, Skipped(k.core, skip), k.nread,
          if skip == 0 || Body in k.marks then k.marks else k.marks[Body := k.p], k.sent)
  }

  /** A body is skipped up to its last byte, or up to the last byte of the data. */
  lemma BulkRefines(m0: Machine, data: bytes, k: Place, skip: nat)
    requires Between(m0, data, k) && BulkState(k.core.state) && k.p + skip < |data|
    requires !k.core.state.BodyIdentityEof? ==> skip < k.core.clen
    ensures Inside(m0, data, Skip(k, skip))
    ensures Run(m0, data[..k.p + skip]).stop.Running? && Sound(k.core)
    ensures forall f :: f in Skip(k, skip).marks ==> Skip(k, skip).marks[f] <= k.p + skip
    ensures Body in k.marks ==> k.marks[Body] <= k.p
    ensures Run(m0, data[..k.p + skip]).nread == k.nread && !ParsingHeader(Run(m0, data[..k.p + skip]).core.state)
  {
    hide Act, Step, Run, Push, MethodName, NameHeaderState;
    var seg := data[k.p..k.p + skip];
    var r := Skip(k, skip);
    assert data[..k.p + skip] == data[..k.p] + seg;
    RunConcat(m0, data[..k.p], seg);
    BodyRun(Run(m0, data[..k.p]), seg);
    if Body in k.marks {
      PushFragments(k.sent, Body, data[k.marks[Body]..k.p], seg);
      assert data[k.marks[Body]..k.p] + seg == data[k.marks[Body]..k.p + skip];
      assert skip == 0 ==> seg == [] && data[k.marks[Body]..k.p] + seg == data[k.marks[Body]..k.p];
    }
    assert Between(m0, data, r);
    Enter(m0, data, r);
  }

  /** The struct after the last byte of this call's part of the body, unless that ends a body of known
      length. */
  function BodyRest(c: Core, take: nat): Core
    requires !c.state.BodyIdentityEof? ==> take <= c.clen
  {
    if c.state.BodyIdentityEof? then c
    else if c.state.ChunkData? && take == c.clen then c.(clen := 0, state := ChunkDataAlmostDone)
    else c.(clen := c.clen - take)
  }

  lemma LastBodyByte(c: Core, take: nat, ch: byte)
    requires Sound(c) && BulkState(c.state) && take > 0 && (!c.state.BodyIdentityEof? ==> take <= c.clen)
    ensures AssertsHold(Skipped(c, take - 1))
    ensures Act(Skipped(c, take - 1), ch) ==
            if c.state.BodyIdentity? && take == c.clen
            then Action(c.(clen := 0, state := MessageDone), false, Some(Body), Some(Body), None, Again)
            else MarkAt(BodyRest(c, take), Body)
  {
    hide MethodName, NameHeaderState;
  }

  lemma BodyLengths(m0: Machine, data: bytes, k: Place)
    requires Between(m0, data, k)
    ensures Ready(m0) && (k.core.state.BodyIdentity? || k.core.state.ChunkData? ==> k.core.clen > 0)
    ensures Body in k.marks ==> k.marks[Body] <= k.p
    ensures BulkState(k.core.state) ==> forall f :: f in k.marks ==> f == Body
  {
    hide Run, MethodName, NameHeaderState;
  }

  function BodyMark(marks: Marks, p: nat): Marks { if Body in marks then marks else marks[Body := p] }

  /** Taking part of a body in one go: the body ends and its text is delivered, or the cursor moves
      past the bytes and the mark stays. */
  lemma BodyTaken(m0: Machine, data: bytes, k: Place, take: nat)
    requires Between(m0, data, k) && BulkState(k.core.state) && 0 < take && k.p + take <= |data|
    requires !k.core.state.BodyIdentityEof? ==> take <= k.core.clen
    ensures var q, marks := k.p + take - 1, BodyMark(k.marks, k.p);
            if k.core.state.BodyIdentity? && take == k.core.clen
            then marks[Body] <= q + 1
                 && Entered(m0, data, q, Again, k.core.(clen := 0, state := MessageDone), k.nread, marks - {Body},
                            PushAll(k.sent, [Data(Body, data[marks[Body]..q + 1])]))
                 && CountedOnce(m0, data, q, k.core.(clen := 0, state := MessageDone), k.nread)
            else Entered(m0, data, q, Advance, BodyRest(k.core, take), k.nread, marks, PushAll(k.sent, []))
  {
    hide Act, Run, Between, Inside, Sound, Good, PushAll, BodyRest;
    BodyLengths(m0, data, k);
    var q, marks := k.p + take - 1, BodyMark(k.marks, k.p);
    BulkRefines(m0, data, k, take - 1);
    LastBodyByte(k.core, take, data[q]);
    var r := Skip(k, take - 1);
    EntryRefines(m0, data, r);
    var a := Act(r.core, data[q]);
    assert Marked(r.marks, a, q) == marks;
    if a.ctl.Again? {
      assert Calls(marks, a, data, q) == [Data(Body, data[marks[Body]..q + 1])];
    } else {
      assert Calls(marks, a, data, q) == [];
    }
  }

  // ----- what one call achieves -----

  /** The callbacks of a failed call may lack the text that was pending under a mark. */
  ghost predicate Lost(sent: seq<Event>, t: seq<Event>)
  {
    t == sent || exists f, x :: t == Push(sent, Data(f, x))
  }

  lemma PendingIsLost(data: bytes, k: Place)
    requires k.p <= |data| && Shaped(k.marks, k.core.state, k.p)
    ensures Lost(k.sent, Text(data, k))
  {
    hide Push, FieldOf, MarkField;
  }

  /** How an entry made at byte q left the parser. */
  ghost predicate Entered(m0: Machine, data: bytes, q: nat, ctl: Control, core: Core, nread: nat, marks: Marks,
                          sent: seq<Event>)
  {
    && Ready(m0) && q < |data| && Run(m0, data[..q]).stop.Running?
    && match ctl
       case Advance => Between(m0, data, Place(q + 1, core, nread, marks, sent))
       case Again => Inside(m0, data, Place(q, core, nread, marks, sent)) && !BulkState(core.state)
                     && !core.state.ChunkSizeStart?
       case Exit => marks == map[] && Run(m0, data[..q + 1]) == Machine(core, nread, sent, Upgraded)
       case Fail(e) =>
         var r := Run(m0, data[..q + 1]);
         r == Machine(core, nread, r.trace, Failed(e)) && Lost(sent, r.trace)
  }

  /** The whole of the data was read, or read up to the byte at which the parser stopped. */
  ghost predicate ReadAll(m0: Machine, data: bytes, core: Core, nread: nat, errno: Errno, n: nat, sent: seq<Event>)
    requires Ready(m0)
  {
    var m := Run(m0, data);
    && core == m.core && nread == m.nread && n == Taken(m0, data)
    && match m.stop
       case Failed(e) => errno == e && Lost(sent, m.trace)
       case _ => errno == HPE_OK && sent == m.trace
  }

  /** The current byte has been counted once, and would be counted again only if it counts at all. */
  ghost predicate CountedOnce(m0: Machine, data: bytes, p: nat, core: Core, nread: nat)
    requires Ready(m0) && p <= |data|
  {
    var m := Run(m0, data[..p]);
    nread == Counted(m.core, m.nread) && (ParsingHeader(core.state) ==> ParsingHeader(m.core.state))
  }

  /** The parser paused after n bytes, or on the byte after them with one entry still to make. If every
      callback pauses, that byte has made no other, so it is counted again exactly if headers are read. */
  ghost predicate PausedAt(m0: Machine, data: bytes, core: Core, nread: nat, n: nat, sent: seq<Event>, every: bool)
    requires Ready(m0)
  {
    && n <= |data|
    && var m := Run(m0, data[..n]);
       || (n > 0 && m == Machine(core, nread, sent, m.stop) && !m.stop.Failed?)
       || (&& Inside(m0, data, Place(n, core, nread, map[], sent)) && CountedOnce(m0, data, n, core, nread)
           && !core.state.ChunkSizeStart? && Rank(core.state) == 0 && (n == 0 ==> Rank(m0.core.state) > 0)
           && (every ==> LastRecount(m.core, core, data[n])))
  }

  /** The number of times a byte is counted again, as the callback that has just been made leaves it. */
  predicate LastRecount(before: Core, core: Core, ch: byte)
  {
    Recount(core, ch) == 0 && Recount(before, ch) == if ParsingHeader(core.state) then 1 else 0
  }

  /** A call without data tells the parser that the stream has ended. */
  predicate AtEof(s: State, pausing: bool, n: nat, events: seq<Event>, errno: Errno)
  {
    if s.BodyIdentityEof? then
      n == 0 && events == [Notify(MessageComplete)] && errno == (if pausing then HPE_PAUSED else HPE_OK)
    else if s.Dead? || s.StartReqOrRes? || s.StartRes? || s.StartReq? then
      n == 0 && events == [] && errno == HPE_OK
    else
      n == 1 && events == [] && errno == HPE_INVALID_EOF_STATE
  }

  /** The marks a call starts with agree with the trace it continues. */
  lemma Begin(m0: Machine, data: bytes, marks: Marks)
    requires Ready(m0) && m0.stop.Running?
    requires marks == if FieldOf(m0.core.state).Some? then map[FieldOf(m0.core.state).value := 0] else map[]
    ensures Between(m0, data, Place(0, m0.core, m0.nread, marks, PushAll(m0.trace, [])))
  {
    hide Sound, Push, FieldOf, MarkField;
    PushAllNone(m0.trace);
    assert data[..0] == [];
    if FieldOf(m0.core.state).Some? {
      PushEmptyFragment(m0.trace, FieldOf(m0.core.state).value);
      assert data[0..0] == [];
    }
  }

  lemma Overflows(m0: Machine, data: bytes, k: Place)
    requires Between(m0, data, k) && k.p < |data| && Counted(k.core, k.nread) > MAX_HEADER_SIZE
    ensures Entered(m0, data, k.p, Fail(HPE_HEADER_OVERFLOW), k.core, Counted(k.core, k.nread), k.marks,
                    PushAll(k.sent, []))
  {
    hide Sound, Chain, Run, Push, FieldOf, MarkField;
    RunNext(m0, data, k.p);
    PendingIsLost(data, k);
    PushAllNone(k.sent);
  }

  /** The three ways on from an entry: to the next byte or the same one, out of the loop for good, or
      out of the loop to be resumed. */
  lemma GoesOn(m0: Machine, data: bytes, q: nat, ctl: Control, core: Core, nread: nat, marks: Marks, sent: seq<Event>)
    requires Entered(m0, data, q, ctl, core, nread, marks, sent)
    ensures q < |data|
    ensures ctl.Advance? ==> Between(m0, data, Place(q + 1, core, nread, marks, sent))
    ensures ctl.Again? ==> Inside(m0, data, Place(q, core, nread, marks, sent)) && !BulkState(core.state)
  {
    hide Between, Inside, Run;
  }

  lemma Stops(m0: Machine, data: bytes, q: nat, ctl: Control, core: Core, nread: nat, marks: Marks, sent: seq<Event>)
    requires Entered(m0, data, q, ctl, core, nread, marks, sent)
    ensures ctl.Fail? ==> ReadAll(m0, data, core, nread, ctl.error, q, sent) && Run(m0, data).stop == Failed(ctl.error)
    ensures ctl.Exit? ==> ReadAll(m0, data, core, nread, HPE_OK, q + 1, sent)
  {
    hide Between, Inside, Run, Lost, Ready;
    if ctl.Fail? || ctl.Exit? { StopsAt(m0, data, q); }
  }

  lemma Pauses(m0: Machine, data: bytes, q: nat, ctl: Control, core: Core, nread: nat, sent: seq<Event>, every: bool)
    requires Entered(m0, data, q, ctl, core, nread, map[], sent) && !ctl.Fail?
    requires ctl.Again? ==> CountedOnce(m0, data, q, core, nread)
    requires ctl.Again? ==> Rank(core.state) == 0 && (q == 0 ==> Rank(m0.core.state) > 0)
    requires ctl.Again? && every ==> q < |data| && LastRecount(Run(m0, data[..q]).core, core, data[q])
    ensures PausedAt(m0, data, core, nread, if ctl.Again? then q else q + 1, sent, every)
  {
    hide Run, Inside, CountedOnce, FieldOf, MarkField, Sound, InField, LastRecount;
  }

  lemma Exhausted(m0: Machine, data: bytes, k: Place, every: bool)
    requires Between(m0, data, k) && k.p == |data| > 0
    ensures Shaped(k.marks, k.core.state, |data|) && Run(m0, data).stop.Running?
    ensures ReadAll(m0, data, k.core, k.nread, HPE_OK, |data|, Text(data, k))
    ensures PausedAt(m0, data, k.core, k.nread, |data|, Text(data, k), every)
  {
    hide Run, Inside, CountedOnce, FieldOf, MarkField, Sound, InField, Push, LastRecount;
    assert data[..|data|] == data;
    RunningTakesAll(m0, data);
  }

  /** How the number of times the byte at q is counted again stands after an entry. */
  ghost predicate Standing(m0: Machine, data: bytes, q: nat, ctl: Control, core: Core, called: bool)
    requires Ready(m0) && q < |data|
  {
    var m := Run(m0, data[..q]);
    if !ctl.Again? then QuietAt(m, data[q])
    else if called then LastRecount(m.core, core, data[q])
    else Recount(m.core, data[q]) == Recount(core, data[q])
  }

  /** Which callbacks of a call pause the parser, by their place in the call and by what they deliver. */
  type Schedule = (nat, Event) -> bool

  /** What a call with data achieves: it stops at the first callback that pauses, or reads all the data; if
      every callback pauses, it makes at most one. */
  ghost predicate Called(m0: Machine, data: bytes, pauses: Schedule,
                         core: Core, nread: nat, errno: Errno, n: nat, events: seq<Event>)
  {
    && Ready(m0)
    && var every := Always(pauses);
       if errno.HPE_PAUSED?
       then && LastPauses(pauses, events)
            && PausedAt(m0, data, core, nread, n, PushAll(m0.trace, events), every)
            && (every ==> |events| == 1 && n <= |data| && Quiet(m0, data, n))
       else && ReadAll(m0, data, core, nread, errno, n, PushAll(m0.trace, events)) && NonePauses(pauses, events)
            && (every ==> events == [] && !Run(m0, data).stop.Upgraded? && Quiet(m0, data, |data|))
  }

  /** Every callback pauses. */
  ghost predicate Always(pauses: Schedule) { forall i, e :: pauses(i, e) }

  ghost predicate NonePauses(pauses: Schedule, events: seq<Event>)
  {
    forall i :: 0 <= i < |events| ==> !pauses(i, events[i])
  }

  /** The last callback pauses, and none before it. */
  ghost predicate LastPauses(pauses: Schedule, events: seq<Event>)
  {
    && events != [] && pauses(|events| - 1, events[|events| - 1])
    && NonePauses(pauses, events[..|events| - 1])
  }

  /** One callback more, or none. */
  lemma NextCall(pauses: Schedule, before: seq<Event>, calls: seq<Event>)
    requires NonePauses(pauses, before) && |calls| <= 1
    ensures calls == [] ==> NonePauses(pauses, before + calls)
    ensures calls != [] ==>
              if pauses(|before|, calls[0]) then LastPauses(pauses, before + calls)
              else NonePauses(pauses, before + calls) && !Always(pauses)
  {
    if calls != [] { assert (before + calls)[..|before|] == before; }
  }

  lemma CalledToEnd(m0: Machine, data: bytes, pauses: Schedule,
                    core: Core, nread: nat, errno: Errno, n: nat, events: seq<Event>)
    requires Ready(m0) && !errno.HPE_PAUSED? && NonePauses(pauses, events)
    requires ReadAll(m0, data, core, nread, errno, n, PushAll(m0.trace, events))
    requires Always(pauses) ==> events == [] && !Run(m0, data).stop.Upgraded? && Quiet(m0, data, |data|)
    ensures Called(m0, data, pauses, core, nread, errno, n, events)
  {
    hide ReadAll, Run, Quiet, Always, NonePauses, LastPauses, Ready, PushAll, PausedAt;
  }

  lemma CalledToPause(m0: Machine, data: bytes, pauses: Schedule,
                      core: Core, nread: nat, n: nat, events: seq<Event>)
    requires Ready(m0) && LastPauses(pauses, events)
    requires PausedAt(m0, data, core, nread, n, PushAll(m0.trace, events), Always(pauses))
    requires Always(pauses) ==> |events| == 1 && n <= |data| && Quiet(m0, data, n)
    ensures Called(m0, data, pauses, core, nread, HPE_PAUSED, n, events)
  {
    hide ReadAll, Run, Quiet, Always, NonePauses, LastPauses, Ready, PushAll, PausedAt;
  }

  lemma NoCalls(pauses: Schedule)
    ensures NonePauses(pauses, [])
  {}

  lemma NoneRead(m0: Machine, data: bytes)
    requires Ready(m0)
    ensures Quiet(m0, data, 0)
  {}

  ghost predicate QuietFrom(m0: Machine, data: bytes, p: nat, q: nat)
    requires Ready(m0) && q <= |data|
  {
    forall x :: p <= x < q ==> QuietAt(Run(m0, data[..x]), data[x])
  }

  /** One turn of the loop in a call that pauses at every callback. */
  lemma StaysQuiet(m0: Machine, data: bytes, p: nat, q: nat, ctl: Control, core: Core, called: bool)
    requires Ready(m0) && p <= q < |data| && Quiet(m0, data, p) && Standing(m0, data, q, ctl, core, called)
    requires QuietFrom(m0, data, p, q)
    ensures Quiet(m0, data, q) && (!ctl.Again? ==> Quiet(m0, data, q + 1))
    ensures ctl.Again? && called ==> LastRecount(Run(m0, data[..q]).core, core, data[q])
    ensures ctl.Again? && !called ==> Recount(Run(m0, data[..q]).core, data[q]) == Recount(core, data[q])
  {
    hide Run, Ready, QuietAt, Recount, LastRecount;
  }

  /** A parser that has stopped reads no further byte. */
  lemma QuietToEnd(m0: Machine, data: bytes, q: nat, ctl: Control, core: Core, nread: nat, marks: Marks,
                   sent: seq<Event>)
    requires Entered(m0, data, q, ctl, core, nread, marks, sent) && ctl.Fail? && Quiet(m0, data, q + 1)
    ensures Quiet(m0, data, |data|)
  {
    hide Run, Ready, Recount, Between, Inside, Lost;
    forall x | q < x < |data| ensures QuietAt(Run(m0, data[..x]), data[x]) {
      assert data[..x] == data[..q + 1] + data[q + 1..x];
      RunConcat(m0, data[..q + 1], data[q + 1..x]);
      StoppedStays(Run(m0, data[..q + 1]), data[q + 1..x]);
    }
  }

  /** An entry that asks for its byte again after a callback has made one. */
  lemma AgainCalls(c: Core, a: Action, marks: Marks, data: bytes, p: nat)
    requires Disciplined(c, a) && a.ctl.Again? && p < |data| && Shaped(marks, c.state, p)
    requires forall f :: f in Marked(marks, a, p) ==> Marked(marks, a, p)[f] <= p
    ensures MakesCall(a) <==> Calls(Marked(marks, a, p), a, data, p) != []
  {
    hide FieldOf, MarkField;
  }

  /** The bytes of a body are never counted. */
  lemma BulkQuiet(m0: Machine, data: bytes, k: Place, n: nat)
    requires Between(m0, data, k) && BulkState(k.core.state) && k.p + n < |data|
    requires !k.core.state.BodyIdentityEof? ==> n < k.core.clen
    ensures forall x :: k.p <= x <= k.p + n ==> QuietAt(Run(m0, data[..x]), data[x])
  {
    hide Between, Inside, Run, QuietAt, Sound;
    BodyLengths(m0, data, k);
    forall x | k.p <= x <= k.p + n ensures QuietAt(Run(m0, data[..x]), data[x]) {
      BulkRefines(m0, data, k, x - k.p);
      NotHeaderQuiet(Run(m0, data[..x]), data[x]);
    }
  }

  lemma BodyStanding(m0: Machine, data: bytes, k: Place, q: nat, core: Core)
    requires Between(m0, data, k) && BulkState(k.core.state) && k.p <= q < |data| && core.state.MessageDone?
    requires !k.core.state.BodyIdentityEof? ==> q - k.p < k.core.clen
    ensures Ready(m0) && LastRecount(Run(m0, data[..q]).core, core, data[q])
  {
    hide Between, Inside, Run, Sound, Recount;
    BodyLengths(m0, data, k);
    BulkRefines(m0, data, k, q - k.p);
    OnlyHeadersRecount(Run(m0, data[..q]).core, data[q]);
    OnlyHeadersRecount(core, data[q]);
  }

  lemma NotHeaderQuiet(m: Machine, ch: byte)
    requires !ParsingHeader(m.core.state)
    ensures QuietAt(m, ch) && Recount(m.core, ch) == 0
  {
    OnlyHeadersRecount(m.core, ch);
  }

  /** "There should be at most one of these set." */
  lemma OneMark(marks: Marks, s: State, p: nat)
    requires Shaped(marks, s, p)
    ensures |marks| <= 1
  {
    hide FieldOf, MarkField;
    if f :| f in marks {
      assert marks.Keys == {f};
    }
  }

  lemma CountingOnce(m0: Machine, data: bytes, k: Place)
    requires Between(m0, data, k)
    ensures Ready(m0)
    ensures Run(m0, data[..k.p]).core == k.core && Run(m0, data[..k.p]).nread == k.nread
    ensures forall c: Core :: (ParsingHeader(c.state) ==> ParsingHeader(k.core.state)) ==>
              CountedOnce(m0, data, k.p, c, Counted(k.core, k.nread))
  {
    hide Run, Sound, InField, ParsingHeader, FieldOf, MarkField;
  }

  lemma NothingRead(m0: Machine)
    requires Ready(m0)
    ensures Run(m0, []) == m0 && Taken(m0, []) == 0
  {}

  /** The pieces up to and including piece i, and the rest of them if the parser stopped there. */
  lemma PiecesRead(m0: Machine, done: bytes, pieces: seq<bytes>, i: nat,
                   core: Core, nread: nat, errno: Errno, n: nat, k: nat, sent: seq<Event>)
    requires Ready(m0) && Settled(m0) && i < |pieces| && done == Flatten(pieces[..i])
    requires Run(m0, done).stop.Running? && n == |done|
    requires ReadAll(Run(m0, done), pieces[i], core, nread, errno, k, sent)
    ensures ReadAll(m0, Flatten(pieces[..i + 1]), core, nread, errno, n + k, sent)
    ensures errno.HPE_OK? && !core.upgrade ==> Run(m0, Flatten(pieces[..i + 1])).stop.Running?
    ensures !errno.HPE_OK? || core.upgrade ==> ReadAll(m0, Flatten(pieces), core, nread, errno, n + k, sent)
  {
    hide Sound, Lost, Run, Taken, InField;
    assert pieces[..i + 1][..i] == pieces[..i];
    var upto := Flatten(pieces[..i + 1]);
    RunConcat(m0, done, pieces[i]);
    RunSettles(m0, upto);
    if !Run(m0, upto).stop.Running? {
      FlattenSplit(pieces, i + 1);
      RunConcat(m0, upto, Flatten(pieces[i + 1..]));
      StoppedStays(Run(m0, upto), Flatten(pieces[i + 1..]));
    }
  }

  lemma LeftoverText(data: bytes, k: Place, left: seq<Event>)
    requires Shaped(k.marks, k.core.state, k.p) && k.p == |data|
    requires k.marks == map[] ==> left == []
    requires forall f :: f in k.marks ==> left == [Data(f, data[k.marks[f]..])]
    ensures Text(data, k) == PushAll(k.sent, left) && |left| <= 1
  {
    hide FieldOf, MarkField, Push, PushAll;
    if f :| f in k.marks {
      assert data[k.marks[f]..] == data[k.marks[f]..|data|];
      PushAllOne(k.sent, left[0]);
    } else {
      PushAllNone(k.sent);
    }
  }

  class HttpParser {
    var core: Core
    var nread: nat
    var errno: Errno

    /** http_parser_init */
    constructor (t: ParserType)
      ensures Machine(core, nread, [], Running) == Init(t) && errno == HPE_OK
    {
      core := Init(t).core;
      nread := 0;
      errno := HPE_OK;
    }

    /** http_parser_pause; its assert that the parser has not failed is the precondition. */
    method Pause(paused: bool)
      requires errno.HPE_OK? || errno.HPE_PAUSED?
      modifies this`errno
      ensures errno == if paused then HPE_PAUSED else HPE_OK
    {
      errno := if paused then HPE_PAUSED else HPE_OK;
    }

    /** One entry of the switch in a state that handles one byte. */
    method Entry(data: bytes, p: nat, before: Marks, ghost m0: Machine, ghost sent: seq<Event>)
      returns (ctl: Control, marks: Marks, calls: seq<Event>)
      requires Inside(m0, data, Place(p, core, nread, before, sent)) && !BulkState(core.state)
      modifies this`core, this`nread
      ensures Entered(m0, data, p, ctl, core, nread, marks, PushAll(sent, calls))
      ensures |calls| <= 1 && (calls != [] ==> marks == map[]) && (ctl.Exit? ==> calls != [])
      ensures ctl.Fail? ==> calls == [] && !ctl.error.HPE_OK? && !ctl.error.HPE_PAUSED?
      ensures ctl.Again? ==> Rank(core.state) < Rank(old(core.state)) && nread == old(nread)
      ensures ctl.Again? ==> (ParsingHeader(core.state) ==> ParsingHeader(old(core.state)))
      ensures ctl.Again? && calls != [] ==> Rank(core.state) == 0
      ensures !ctl.Again? ==> Recount(old(core), data[p]) == 0
      ensures ctl.Again? && calls == [] ==> Recount(core, data[p]) == Recount(old(core), data[p])
      ensures ctl.Again? && calls != [] ==> LastRecount(old(core), core, data[p])
    {
      hide Act, Run, Step, Chain, Sound, Rank, Push, FieldOf, MarkField, ParsingHeader, Recount;
      ghost var k := Place(p, core, nread, before, sent);
      EntryRefines(m0, data, k);
      ActRecounts(core, data[p]);
      var a := Act(core, data[p]);
      calls, ctl, marks := [], a.ctl, before;
      core := a.core;
      if a.ctl.Fail? {
        PendingIsLost(data, k);
        return;
      }
      MarksShaped(k.core, a, before, data, p);
      if a.ctl.Again? { AgainCalls(k.core, a, before, data, p); }
      if a.zero { nread := 0; }
      if a.mark.Some? && a.mark.value !in marks {
        marks := marks[a.mark.value := p];
      }
      if a.emit.Some? && a.emit.value in marks {
        calls := [Data(a.emit.value, data[marks[a.emit.value]..EmitEnd(a, p)])];
        marks := marks - {a.emit.value};
      }
      if a.note.Some? {
        calls := calls + [Notify(a.note.value)];
      }
      assert calls == Calls(Marked(before, a, p), a, data, p);
      assert marks == Cleared(Marked(before, a, p), a);
      assert Place(if ctl.Again? then p else p + 1, core, nread, marks, PushAll(sent, calls)) == After(k, a, data);
    }

    /** One entry of s_body_identity, s_body_identity_eof or s_chunk_data: everything this call has of
        the body is taken at once, and the cursor is left on the last byte taken. */
    method ReadBody(data: bytes, p: nat, before: Marks, ghost m0: Machine, ghost sent: seq<Event>)
      returns (q: nat, ctl: Control, marks: Marks, calls: seq<Event>)
      requires Between(m0, data, Place(p, core, nread, before, sent)) && BulkState(core.state) && p < |data|
      modifies this`core, this`nread
      ensures Entered(m0, data, q, ctl, core, nread, marks, PushAll(sent, calls))
      ensures |calls| <= 1 && (calls != [] ==> marks == map[]) && (ctl.Exit? ==> calls != [])
      ensures p <= q && !ctl.Fail?
      ensures ctl.Again? ==> calls != [] && core.state.MessageDone? && CountedOnce(m0, data, q, core, nread)
      ensures ctl.Again? ==> old(core.state).BodyIdentity?
      ensures Ready(m0) && q < |data| && Standing(m0, data, q, ctl, core, calls != [])
      ensures forall x :: p <= x < q ==> QuietAt(Run(m0, data[..x]), data[x])
    {
      hide Run, Between, Inside, Sound, PushAll, Entered, QuietAt, LastRecount;
      ghost var k := Place(p, core, nread, before, sent);
      BodyLengths(m0, data, k);
      calls, ctl := [], Advance;
      marks := if Body in before then before else before[Body := p];
      if core.state.BodyIdentityEof? {
        q := |data| - 1;
      } else {
        var toRead := if core.clen < |data| - p then core.clen else |data| - p;
        q := p + toRead - 1;
        core := core.(clen := core.clen - toRead);
        if core.clen == 0 {
          if core.state.BodyIdentity? {
            core := core.(state := MessageDone);
            calls := [Data(Body, data[marks[Body]..q + 1])];
            marks := marks - {Body};
            ctl := Again;
          } else {
            core := core.(state := ChunkDataAlmostDone);
          }
        }
      }
      BodyTaken(m0, data, k, q + 1 - p);
      BulkQuiet(m0, data, k, q - p);
      if ctl.Again? { BodyStanding(m0, data, k, q, core); }
    }

    /** One turn of the loop, from the byte counter to the end of the switch. */
    method Turn(data: bytes, p: nat, again: bool, before: Marks, ghost m0: Machine, ghost sent: seq<Event>,
                ghost kept: bool)
      returns (q: nat, ctl: Control, marks: Marks, calls: seq<Event>)
      requires Ready(m0) && p < |data|
      requires again ==> Inside(m0, data, Place(p, core, nread, before, sent)) && !BulkState(core.state)
      requires again ==> CountedOnce(m0, data, p, core, nread)
      requires again && kept ==> Recount(Run(m0, data[..p]).core, data[p]) == Recount(core, data[p])
      requires !again ==> Between(m0, data, Place(p, core, nread, before, sent))
      modifies this`core, this`nread
      ensures Entered(m0, data, q, ctl, core, nread, marks, PushAll(sent, calls)) && p <= q
      ensures |calls| <= 1 && (calls != [] ==> marks == map[]) && (ctl.Exit? ==> calls != [])
      ensures ctl.Fail? ==> calls == [] && !ctl.error.HPE_OK? && !ctl.error.HPE_PAUSED?
      ensures ctl.Again? ==> CountedOnce(m0, data, q, core, nread)
      ensures ctl.Again? && q == p ==> Rank(core.state) < Rank(old(core.state))
      ensures ctl.Again? && calls != [] ==> Rank(core.state) == 0
      ensures q < |data| && (kept ==> Standing(m0, data, q, ctl, core, calls != []))
      ensures QuietFrom(m0, data, p, q)
    {
      hide Run, Between, Inside, Sound, PushAll, Entered, Recount;
      ghost var k := Place(p, core, nread, before, sent);
      if !again {
        CountingOnce(m0, data, k);
        if ParsingHeader(core.state) {
          nread := nread + 1;
          if nread > MAX_HEADER_SIZE {
            q, ctl, marks, calls := p, Fail(HPE_HEADER_OVERFLOW), before, [];
            Overflows(m0, data, k);
            return;
          }
        }
      }
      if BulkState(core.state) {
        q, ctl, marks, calls := ReadBody(data, p, before, m0, sent);
      } else {
        if !again { Enter(m0, data, k); }
        q := p;
        ctl, marks, calls := Entry(data, p, before, m0, sent);
      }
    }

    /** http_parser_execute. `trace` is the joined trace of the callbacks before this call; `pauses` tells
        which callbacks of this call pause the parser: none, or any of them, or all, as those of
        src/luaw_http_parser.c do. */
    method Execute(data: bytes, pauses: Schedule, ghost trace: seq<Event>) returns (n: nat, events: seq<Event>)
      requires errno.HPE_OK? ==> Ready(Machine(core, nread, trace, Running))
      modifies this
      ensures !old(errno).HPE_OK? ==> n == 0 && events == [] && unchanged(this)
      ensures old(errno).HPE_OK? && data == [] ==>
                core == old(core) && nread == old(nread)
                && AtEof(core.state, pauses(0, Notify(MessageComplete)), n, events, errno)
      ensures old(errno).HPE_OK? && data != [] ==>
                Called(Machine(old(core), old(nread), trace, Running), data, pauses, core, nread, errno, n, events)
    {
      hide Called, Ready;
      n, events := 0, [];
      if !errno.HPE_OK? {
        return;
      }
      if data == [] {
        if core.state.BodyIdentityEof? {
          events := [Notify(MessageComplete)];
          if pauses(0, events[0]) { errno := HPE_PAUSED; }
        } else if !(core.state.Dead? || core.state.StartReqOrRes? || core.state.StartRes? || core.state.StartReq?) {
          errno := HPE_INVALID_EOF_STATE;
          n := 1;
        }
        return;
      }
      n, events := ReadData(data, pauses, trace);
    }

    /** The loop of http_parser_execute, on data that is not empty. */
    method ReadData(data: bytes, pauses: Schedule, ghost trace: seq<Event>) returns (n: nat, events: seq<Event>)
      requires errno.HPE_OK? && data != [] && Ready(Machine(core, nread, trace, Running))
      modifies this
      ensures Called(Machine(old(core), old(nread), trace, Running), data, pauses, core, nread, errno, n, events)
    {
      hide Run, Between, Inside, Sound, PushAll, Entered, CountedOnce, Recount, QuietAt, LastRecount, Quiet, Standing;
      hide Always, ReadAll, PausedAt, NonePauses, LastPauses, QuietFrom, Called, Ready, FieldOf, Rank, BulkState;
      hide Act, Step, Chain, InField, MarkField, ParsingHeader, Counted, Push;
      n, events := 0, [];
      NoCalls(pauses);
      ghost var m0, every := Machine(core, nread, trace, Running), Always(pauses);
      var marks: Marks := if FieldOf(core.state).Some? then map[FieldOf(core.state).value := 0] else map[];
      var p, again := 0, false;
      Begin(m0, data, marks);
      NoneRead(m0, data);
      while p < |data|
        invariant errno.HPE_OK? && p <= |data|
        invariant again ==> Inside(m0, data, Place(p, core, nread, marks, PushAll(trace, events)))
        invariant again ==> !BulkState(core.state) && p < |data| && CountedOnce(m0, data, p, core, nread)
        invariant !again ==> Between(m0, data, Place(p, core, nread, marks, PushAll(trace, events)))
        invariant every ==> events == [] && Quiet(m0, data, p)
        invariant NonePauses(pauses, events)
        invariant again && every ==> Recount(Run(m0, data[..p]).core, data[p]) == Recount(core, data[p])
        invariant p == 0 ==> Rank(core.state) <= Rank(m0.core.state)
        decreases |data| - p, Rank(core.state)
      {
        var q, ctl, calls;
        q, ctl, marks, calls := Turn(data, p, again, marks, m0, PushAll(trace, events), every);
        PushAllConcat(trace, events, calls);
        NextCall(pauses, events, calls);
        events := events + calls;
        if every { StaysQuiet(m0, data, p, q, ctl, core, calls != []); }
        GoesOn(m0, data, q, ctl, core, nread, marks, PushAll(trace, events));
        if ctl.Fail? {
          errno := ctl.error;
          n := q;
          if every { QuietToEnd(m0, data, q, ctl, core, nread, marks, PushAll(trace, events)); }
          Stops(m0, data, q, ctl, core, nread, marks, PushAll(trace, events));
          CalledToEnd(m0, data, pauses, core, nread, errno, n, events);
          return;
        }
        if calls != [] && pauses(|events| - |calls|, calls[0]) {
          errno := HPE_PAUSED;
          n := if ctl.Again? then q else q + 1;
          Pauses(m0, data, q, ctl, core, nread, PushAll(trace, events), every);
          CalledToPause(m0, data, pauses, core, nread, n, events);
          return;
        }
        if ctl.Exit? {
          n := q + 1;
          Stops(m0, data, q, ctl, core, nread, marks, PushAll(trace, events));
          CalledToEnd(m0, data, pauses, core, nread, errno, n, events);
          return;
        }
        again := ctl.Again?;
        p := if again then q else q + 1;
      }
      n := |data|;
      var left := Leftovers(data, marks, m0, Place(p, core, nread, marks, PushAll(trace, events)), every);
      PushAllConcat(trace, events, left);
      NextCall(pauses, events, left);
      events := events + left;
      if left != [] && pauses(|events| - |left|, left[0]) {
        errno := HPE_PAUSED;
        CalledToPause(m0, data, pauses, core, nread, n, events);
      } else {
        CalledToEnd(m0, data, pauses, core, nread, errno, n, events);
      }
    }

    /** The data callbacks for the marks that are left when the data runs out, and the assert that
        there is at most one of them. */
    static method Leftovers(data: bytes, marks: Marks, ghost m0: Machine, ghost k: Place, ghost every: bool)
      returns (left: seq<Event>)
      requires Between(m0, data, k) && k.p == |data| > 0 && k.marks == marks
      ensures |left| <= 1 && Run(m0, data).stop.Running?
      ensures ReadAll(m0, data, k.core, k.nread, HPE_OK, |data|, PushAll(k.sent, left))
      ensures PausedAt(m0, data, k.core, k.nread, |data|, PushAll(k.sent, left), every)
    {
      hide Run, Between, FieldOf, MarkField, Push, PushAll, ReadAll, PausedAt, Ready;
      Exhausted(m0, data, k, every);
      assert |marks| <= 1 by { OneMark(marks, k.core.state, |data|); }
      left := [];
      if HeaderField in marks { left := left + [Data(HeaderField, data[marks[HeaderField]..])]; }
      if HeaderValue in marks { left := left + [Data(HeaderValue, data[marks[HeaderValue]..])]; }
      if Url in marks { left := left + [Data(Url, data[marks[Url]..])]; }
      if Body in marks { left := left + [Data(Body, data[marks[Body]..])]; }
      if Status in marks { left := left + [Data(Status, data[marks[Status]..])]; }
      LeftoverText(data, k, left);
    }

    /** A caller that hands over a stream piece by piece, and stops when the parser reports an error or
        an upgrade. Whatever the pieces are, the outcome is that of the whole stream: the same struct,
        the same joined trace, the same number of bytes taken and the same errno. */
    method Feed(pieces: seq<bytes>, ghost trace: seq<Event>) returns (n: nat, events: seq<Event>)
      requires errno.HPE_OK? && !core.upgrade && Ready(Machine(core, nread, trace, Running))
      requires forall i :: 0 <= i < |pieces| ==> pieces[i] != []
      modifies this
      ensures ReadAll(Machine(old(core), old(nread), trace, Running), Flatten(pieces),
                      core, nread, errno, n, PushAll(trace, events))
    {
      hide Run, Sound, PushAll, Lost;
      ghost var m0 := Machine(core, nread, trace, Running);
      n, events := 0, [];
      var i := 0;
      PushAllNone(trace);
      NothingRead(m0);
      while i < |pieces|
        invariant 0 <= i <= |pieces|
        invariant errno.HPE_OK? && !core.upgrade && Run(m0, Flatten(pieces[..i])).stop.Running?
        invariant ReadAll(m0, Flatten(pieces[..i]), core, nread, errno, n, PushAll(trace, events))
      {
        ghost var done := Flatten(pieces[..i]);
        assert pieces[..i + 1][..i] == pieces[..i];
        RunningTakesAll(m0, done);
        var k, more := Execute(pieces[i], (_, _) => false, PushAll(trace, events));
        PiecesRead(m0, done, pieces, i, core, nread, errno, n, k, PushAll(PushAll(trace, events), more));
        PushAllConcat(trace, events, more);
        n, events, i := n + k, events + more, i + 1;
        if !errno.HPE_OK? || core.upgrade {
          return;
        }
      }
      assert pieces[..i] == pieces;
    }
  }
}
