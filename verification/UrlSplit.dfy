/** http_parser_parse_url: one scan marks the parts of a URL (section 3 of RFC 3986), a second one splits
    the authority into user information, host and port. */
module UrlSplit {
  import opened Ascii
  import opened HttpTypes
  import opened HttpAutomaton
  import opened HttpLengths
  import opened HttpRun
  import opened HttpRequests
  import opened HttpUrls

  datatype Part = Schema | UserInfo | Host | Port | Path | Query | Fragment

  function Order(p: Part): nat
  {
    match p
    case Schema => 0 case UserInfo => 1 case Host => 2 case Port => 3 case Path => 4 case Query => 5 case Fragment => 6
  }

  datatype Span = Span(off: nat, len: nat)

  function End(f: Span): nat { f.off + f.len }

  type Fields = map<Part, Span>

  /** `: / ? # [ ] @` */
  predicate Separator(b: byte) { b == 58 || b == 47 || b == 63 || b == 35 || b == 91 || b == 93 || b == 64 }

  predicate Inside(f: Span, i: nat) { f.off <= i < End(f) }

  /** Up to position n the parts are non-empty, in bounds, disjoint and in order, and every byte outside
      them is a separator. */
  ghost predicate Layout(buf: bytes, n: nat, fields: Fields)
    requires n <= |buf|
  {
    && (forall p :: p in fields ==> fields[p].len > 0 && End(fields[p]) <= n)
    && (forall p, q :: p in fields && q in fields && Order(p) < Order(q) ==> End(fields[p]) <= fields[q].off)
    && (forall i :: 0 <= i < n ==> Separator(buf[i]) || exists p :: p in fields && Inside(fields[p], i))
  }

  // ----- the scan -----

  /** The part a state of the scan belongs to; the others are between parts. */
  function PartOf(s: State): Option<Part>
  {
    match s
    case ReqSchema => Some(Schema)
    case ReqServer => Some(Host)
    case ReqServerWithAt => Some(Host)
    case ReqPath => Some(Path)
    case ReqQueryString => Some(Query)
    case ReqFragment => Some(Fragment)
    case _ => None
  }

  predicate Between(s: State)
  {
    s.ReqSchemaSlash? || s.ReqSchemaSlashSlash? || s.ReqServerStart? || s.ReqQueryStringStart? || s.ReqFragmentStart?
  }

  /** The scan only moves forward. */
  function Stage(s: State): nat
  {
    match s
    case ReqSpacesBeforeUrl => 0
    case ReqSchema => 1
    case ReqSchemaSlash => 2
    case ReqSchemaSlashSlash => 3
    case ReqServerStart => 4
    case ReqServer => 5
    case ReqServerWithAt => 5
    case ReqPath => 6
    case ReqQueryStringStart => 7
    case ReqQueryString => 8
    case ReqFragmentStart => 9
    case ReqFragment => 10
    case _ => 0
  }

  predicate ScanState(s: State) { s.ReqSpacesBeforeUrl? || Between(s) || PartOf(s).Some? }

  /** One character of the scan: forward, through a separator, or within a part. */
  lemma ScanStep(s: State, ch: byte)
    requires ScanState(s)
    ensures var t := UrlChar(s, ch);
            !t.Dead? ==>
              && ScanState(t) && !t.ReqSpacesBeforeUrl? && Stage(s) <= Stage(t)
              && (Between(t) ==> Separator(ch) && (Stage(s) == Stage(t) ==> s == t))
              && (t.ReqQueryString? && s != t ==> s.ReqQueryStringStart?)
              && (t.ReqFragment? && s != t ==> s.ReqFragmentStart?)
              && (t.ReqPath? && s != t ==> ch == 47 || ch == 42)
              && (t.ReqSchema? ==> IsAlpha(ch))
              && (t.ReqQueryStringStart? ==> ch == 63) && (t.ReqFragmentStart? ==> ch == 35)
              && (PartOf(s) == Some(Host) && PartOf(t) != Some(Host) ==> ch == 47 || ch == 63)
              && (PartOf(t) == Some(Host) && !IsUserinfo(ch) ==> Separator(ch))
              && (t.ReqServerWithAt? <==> ch == 64 && PartOf(t) == Some(Host))
  {
    hide IsUserinfo, IsUrlChar;
  }

  /** The stage at which a part of the scan is read. */
  function PartStage(p: Part): nat
  {
    match p
    case Schema => 1 case Host => 5 case Path => 6 case Query => 8 case Fragment => 10 case _ => 0
  }

  /** What each part of the scan looks like; Host is still the whole authority. */
  predicate Content(buf: bytes, n: nat, p: Part, f: Span)
    requires n <= |buf| && f.len > 0 && End(f) <= n
  {
    match p
    case Schema => forall i :: f.off <= i < End(f) ==> IsAlpha(buf[i])
    case Host => End(f) < n ==> buf[End(f)] == 47 || buf[End(f)] == 63
    case Path => buf[f.off] == 47 || buf[f.off] == 42
    case Query => f.off > 0 && buf[f.off - 1] == 63
    case Fragment => f.off > 0 && buf[f.off - 1] == 35
    case _ => false
  }

  ghost predicate Contents(buf: bytes, n: nat, fields: Fields)
    requires n <= |buf| && Layout(buf, n, fields)
  {
    forall p :: p in fields ==> Content(buf, n, p, fields[p])
  }

  /** The last part the scan has entered is the latest of those found. */
  ghost predicate Latest(fields: Fields, last: Option<Part>, s: State)
  {
    && (last.None? ==> fields == map[])
    && (last.Some? ==> last.value in fields && PartStage(last.value) <= Stage(s))
    && (forall p :: p in fields ==> last.Some? && PartStage(p) > 0 && PartStage(p) <= PartStage(last.value))
  }

  ghost predicate Scanned(buf: bytes, i: nat, s: State, fields: Fields, last: Option<Part>)
  {
    && i <= |buf| && ScanState(s) && Layout(buf, i, fields) && Contents(buf, i, fields) && Latest(fields, last, s)
    && (PartOf(s).Some? ==> last == PartOf(s) && End(fields[last.value]) == i)
    && (Host in fields && PartOf(s) != Some(Host) ==> End(fields[Host]) < i)
    && (s.ReqQueryStringStart? ==> i > 0 && buf[i - 1] == 63)
    && (s.ReqFragmentStart? ==> i > 0 && buf[i - 1] == 35)
  }

  lemma StagesAreParts(s: State, p: Part)
    ensures PartOf(s) == Some(p) ==> PartStage(p) == Stage(s) > 0 && !s.Dead?
    ensures ScanState(s) && PartStage(p) == Stage(s) > 0 ==> PartOf(s) == Some(p)
  {}

  lemma StagesAreOrdered(p: Part, q: Part)
    ensures PartStage(p) > 0 && PartStage(q) > 0 ==> (PartStage(p) < PartStage(q) <==> Order(p) < Order(q))
    ensures PartStage(p) == PartStage(q) > 0 ==> p == q
  {}

  lemma LayoutSkips(buf: bytes, i: nat, fields: Fields)
    requires i < |buf| && Layout(buf, i, fields) && Separator(buf[i])
    ensures Layout(buf, i + 1, fields)
  {
    hide Separator, Order;
  }

  /** A part that reaches up to here takes in one more byte. */
  lemma LayoutGrows(buf: bytes, i: nat, fields: Fields, p: Part)
    requires i < |buf| && Layout(buf, i, fields) && p in fields && End(fields[p]) == i
    requires forall q :: q in fields ==> Order(q) <= Order(p)
    ensures Layout(buf, i + 1, fields[p := fields[p].(len := fields[p].len + 1)])
  {
    hide Separator, Order;
    var more := fields[p := fields[p].(len := fields[p].len + 1)];
    forall j | 0 <= j < i + 1 ensures Separator(buf[j]) || exists q :: q in more && Inside(more[q], j) {
      if j == i {
        assert Inside(more[p], j);
      } else if !Separator(buf[j]) {
        var q :| q in fields && Inside(fields[q], j);
        assert Inside(more[q], j);
      }
    }
  }

  /** A new part, later than all others, begins here. */
  lemma LayoutBegins(buf: bytes, i: nat, fields: Fields, p: Part)
    requires i < |buf| && Layout(buf, i, fields) && p !in fields
    requires forall q :: q in fields ==> Order(q) < Order(p)
    ensures Layout(buf, i + 1, fields[p := Span(i, 1)])
  {
    hide Separator, Order;
    var more := fields[p := Span(i, 1)];
    forall j | 0 <= j < i + 1 ensures Separator(buf[j]) || exists q :: q in more && Inside(more[q], j) {
      if j == i {
        assert Inside(more[p], j);
      } else if !Separator(buf[j]) {
        var q :| q in fields && Inside(fields[q], j);
        assert Inside(more[q], j);
      }
    }
  }

  /** The content of a part that is not growing stays as it is. */
  lemma ContentStays(buf: bytes, i: nat, s: State, fields: Fields, last: Option<Part>, q: Part)
    requires Scanned(buf, i, s, fields, last) && i < |buf| && !UrlChar(s, buf[i]).Dead?
    requires q in fields && PartOf(UrlChar(s, buf[i])) != Some(q)
    ensures fields[q].len > 0 && End(fields[q]) <= i && Content(buf, i + 1, q, fields[q])
    ensures q == Host ==> End(fields[q]) < i + 1
  {
    hide UrlChar, Separator, Order, IsAlpha, IsUserinfo, Stage, Latest;
    ScanStep(s, buf[i]);
  }

  lemma SkipStep(s: State, ch: byte)
    requires ScanState(s) && Between(UrlChar(s, ch))
    ensures var t := UrlChar(s, ch);
            && !t.Dead? && ScanState(t) && PartOf(t).None? && Stage(s) <= Stage(t) && Separator(ch)
            && (t.ReqQueryStringStart? ==> ch == 63) && (t.ReqFragmentStart? ==> ch == 35)
  {
    hide UrlChar, Separator, IsAlpha, IsUserinfo, Stage;
    ScanStep(s, ch);
  }

  lemma ScanSkips(buf: bytes, i: nat, s: State, fields: Fields, last: Option<Part>)
    requires Scanned(buf, i, s, fields, last) && i < |buf| && Between(UrlChar(s, buf[i]))
    ensures Scanned(buf, i + 1, UrlChar(s, buf[i]), fields, last)
  {
    hide UrlChar, Separator, Order, Content, Layout, IsAlpha, IsUserinfo, Stage, PartStage, Inside, Between, PartOf;
    hide ScanState;
    SkipStep(s, buf[i]);
    LayoutSkips(buf, i, fields);
    forall q | q in fields ensures fields[q].len > 0 && End(fields[q]) <= i && Content(buf, i + 1, q, fields[q]) {
      ContentStays(buf, i, s, fields, last, q);
    }
    if Host in fields { ContentStays(buf, i, s, fields, last, Host); }
  }

  /** The part found next is the last one exactly when it has been found before. */
  lemma SamePart(buf: bytes, i: nat, s: State, fields: Fields, last: Option<Part>, p: Part)
    requires Scanned(buf, i, s, fields, last) && i < |buf| && PartOf(UrlChar(s, buf[i])) == Some(p)
    ensures last == Some(p) <==> p in fields
    ensures last == Some(p) ==> PartOf(s) == Some(p)
    ensures last == Some(p) ==> forall q :: q in fields ==> Order(q) <= Order(p)
    ensures last != Some(p) ==> forall q :: q in fields ==> Order(q) < Order(p)
    ensures PartStage(p) == Stage(UrlChar(s, buf[i])) > 0
    ensures forall q :: q in fields ==> PartStage(q) > 0 && PartStage(q) <= PartStage(p)
  {
    hide UrlChar, Separator, Order, Content, Layout, IsAlpha, IsUserinfo, Stage, PartStage, PartOf;
    ScanStep(s, buf[i]);
    StagesAreParts(UrlChar(s, buf[i]), p);
    StagesAreParts(s, p);
    forall q | q in fields
      ensures PartStage(q) > 0 && PartStage(q) <= PartStage(p)
      ensures (last == Some(p) ==> Order(q) <= Order(p)) && (last != Some(p) ==> Order(q) < Order(p) && q != p)
    {
      StagesAreOrdered(q, p);
      StagesAreOrdered(p, q);
      StagesAreOrdered(q, last.value);
      if last != Some(p) { StagesAreOrdered(last.value, p); StagesAreOrdered(p, last.value); }
    }
  }

  lemma ScanGrows(buf: bytes, i: nat, s: State, fields: Fields, p: Part)
    requires Scanned(buf, i, s, fields, Some(p)) && i < |buf| && PartOf(UrlChar(s, buf[i])) == Some(p)
    ensures Scanned(buf, i + 1, UrlChar(s, buf[i]), fields[p := fields[p].(len := fields[p].len + 1)], Some(p))
  {
    hide UrlChar, Separator, Order, Layout, IsUserinfo, Stage, IsAlpha;
    var t := UrlChar(s, buf[i]);
    ScanStep(s, buf[i]);
    SamePart(buf, i, s, fields, Some(p), p);
    LayoutGrows(buf, i, fields, p);
    var more := fields[p := fields[p].(len := fields[p].len + 1)];
    PartBounds(buf, i, fields, p);
    assert Content(buf, i + 1, p, more[p]);
    forall q | q in fields && q != p
      ensures fields[q].len > 0 && End(fields[q]) <= i && Content(buf, i + 1, q, fields[q])
                && (q == Host ==> End(fields[q]) < i + 1)
    {
      ContentStays(buf, i, s, fields, Some(p), q);
    }
  }

  lemma PartBounds(buf: bytes, i: nat, fields: Fields, p: Part)
    requires i <= |buf| && Layout(buf, i, fields) && p in fields
    ensures fields[p].len > 0 && End(fields[p]) <= i
  {}

  lemma ScanBegins(buf: bytes, i: nat, s: State, fields: Fields, last: Option<Part>, p: Part)
    requires Scanned(buf, i, s, fields, last) && i < |buf| && PartOf(UrlChar(s, buf[i])) == Some(p) && last != Some(p)
    ensures Scanned(buf, i + 1, UrlChar(s, buf[i]), fields[p := Span(i, 1)], Some(p))
  {
    hide UrlChar, Separator, Order, Layout, IsUserinfo, IsAlpha, Content, Stage, PartStage, PartOf, Between, ScanState;
    PartStep(s, buf[i], p);
    SamePart(buf, i, s, fields, last, p);
    LayoutBegins(buf, i, fields, p);
    var more := fields[p := Span(i, 1)];
    BeginContent(buf, i, s, p);
    forall q | q in fields
      ensures fields[q].len > 0 && End(fields[q]) <= i && Content(buf, i + 1, q, fields[q])
                && (q == Host ==> End(fields[q]) < i + 1)
    {
      ContentStays(buf, i, s, fields, last, q);
    }
  }

  lemma PartStep(s: State, ch: byte, p: Part)
    requires ScanState(s) && PartOf(UrlChar(s, ch)) == Some(p)
    ensures var t := UrlChar(s, ch);
            !t.Dead? && ScanState(t) && Stage(s) <= Stage(t) && !t.ReqQueryStringStart? && !t.ReqFragmentStart?
  {
    hide UrlChar, Separator, IsAlpha, IsUserinfo, Stage;
    ScanStep(s, ch);
  }

  lemma BeginContent(buf: bytes, i: nat, s: State, p: Part)
    requires i < |buf| && ScanState(s) && PartOf(UrlChar(s, buf[i])) == Some(p) && PartOf(s) != Some(p)
    requires (s.ReqQueryStringStart? ==> i > 0 && buf[i - 1] == 63)
              && (s.ReqFragmentStart? ==> i > 0 && buf[i - 1] == 35)
    ensures Content(buf, i + 1, p, Span(i, 1))
  {
    hide UrlChar, Separator, IsAlpha, IsUserinfo, Stage;
    ScanStep(s, buf[i]);
  }

  /** Whether the authority has an `@`. */
  predicate HasAt(buf: bytes, fields: Fields)
  {
    Host in fields && End(fields[Host]) <= |buf|
    && exists i :: fields[Host].off <= i < End(fields[Host]) && buf[i] == 64
  }

  /** The flag that an `@` was seen follows the state. */
  lemma AtSeen(buf: bytes, i: nat, s: State, fields: Fields, last: Option<Part>, p: Part)
    requires Scanned(buf, i, s, fields, last) && i < |buf| && PartOf(UrlChar(s, buf[i])) == Some(p)
    ensures last == Some(p) ==>
              p in fields && (HasAt(buf, fields[p := fields[p].(len := fields[p].len + 1)])
                              <==> HasAt(buf, fields) || UrlChar(s, buf[i]).ReqServerWithAt?)
    ensures last != Some(p) ==>
              (HasAt(buf, fields[p := Span(i, 1)]) <==> HasAt(buf, fields) || UrlChar(s, buf[i]).ReqServerWithAt?)
  {
    hide UrlChar, Layout, Contents, Order, Latest, HasAt, PartOf, Stage, ScanState, PartStage;
    AtState(s, buf[i], p);
    SamePart(buf, i, s, fields, last, p);
    if p == Host {
      AtGrows(buf, i, fields);
    } else {
      AtElsewhere(buf, fields, p, Span(i, 1));
      if p in fields { AtElsewhere(buf, fields, p, fields[p].(len := fields[p].len + 1)); }
    }
  }

  lemma AtState(s: State, ch: byte, p: Part)
    requires ScanState(s) && PartOf(UrlChar(s, ch)) == Some(p)
    ensures UrlChar(s, ch).ReqServerWithAt? <==> ch == 64 && p == Host
  {
    hide UrlChar, Separator, IsAlpha, IsUserinfo, Stage;
    ScanStep(s, ch);
  }

  lemma AtGrows(buf: bytes, i: nat, fields: Fields)
    requires i < |buf|
    ensures Host in fields && End(fields[Host]) == i ==>
              (HasAt(buf, fields[Host := fields[Host].(len := fields[Host].len + 1)]) <==>
               HasAt(buf, fields) || buf[i] == 64)
    ensures Host !in fields ==> (HasAt(buf, fields[Host := Span(i, 1)]) <==> buf[i] == 64) && !HasAt(buf, fields)
  {
    var f := Span(i, 1);
    assert f.off <= i < End(f);
  }

  lemma AtElsewhere(buf: bytes, fields: Fields, p: Part, f: Span)
    requires p != Host
    ensures HasAt(buf, fields[p := f]) <==> HasAt(buf, fields)
  {}

  // ----- what the scan marks -----

  /** Where the scan starts. */
  function StartOf(isConnect: bool): State { if isConnect then ReqServerStart else ReqSpacesBeforeUrl }

  /** The parts of a text: every byte belongs to the part that the state behind it belongs to. */
  function ScanFields(from: State, buf: bytes): Fields
  {
    if buf == [] then map[]
    else
      var i := |buf| - 1;
      var before := ScanFields(from, buf[..i]);
      match PartOf(Walk(from, buf))
      case None => before
      case Some(p) => before[p := if p in before then Span(before[p].off, before[p].len + 1) else Span(i, 1)]
  }

  /** The part that was read last. */
  function LastPart(from: State, buf: bytes): Option<Part>
  {
    if buf == [] then None
    else
      var part := PartOf(Walk(from, buf));
      if part.Some? then part else LastPart(from, buf[..|buf| - 1])
  }

  lemma FieldsMore(from: State, buf: bytes, i: nat)
    requires i < |buf|
    ensures var before, part := ScanFields(from, buf[..i]), PartOf(Walk(from, buf[..i + 1]));
            && (part.None? ==> ScanFields(from, buf[..i + 1]) == before)
            && (part.Some? ==>
                  var p := part.value;
                  ScanFields(from, buf[..i + 1])
                  == before[p := if p in before then Span(before[p].off, before[p].len + 1) else Span(i, 1)])
            && LastPart(from, buf[..i + 1]) == if part.Some? then part else LastPart(from, buf[..i])
  {
    hide PartOf, Walk;
    assert buf[..i + 1][..i] == buf[..i];
  }

  /** The scan of any text that parse_url_char gets through keeps its parts in order. */
  lemma {:induction false} ScanTo(from: State, buf: bytes, i: nat)
    requires from.ReqServerStart? || from.ReqSpacesBeforeUrl?
    requires i <= |buf| && !Walk(from, buf[..i]).Dead?
    ensures Scanned(buf, i, Walk(from, buf[..i]), ScanFields(from, buf[..i]), LastPart(from, buf[..i]))
    decreases i
  {
    hide Walk, UrlChar, Scanned, PartOf, Between, ScanFields, LastPart;
    if i == 0 {
      ScanStarts(buf, from);
    } else {
      WalkOne(from, buf, i - 1);
      FieldsMore(from, buf, i - 1);
      if Walk(from, buf[..i - 1]).Dead? { UrlDies(buf[i - 1]); }
      ScanTo(from, buf, i - 1);
      ScanMore(buf, i - 1, Walk(from, buf[..i - 1]), ScanFields(from, buf[..i - 1]), LastPart(from, buf[..i - 1]));
    }
  }

  /** One byte of the scan. */
  lemma ScanMore(buf: bytes, i: nat, s: State, fields: Fields, last: Option<Part>)
    requires Scanned(buf, i, s, fields, last) && i < |buf| && !UrlChar(s, buf[i]).Dead?
    ensures var t := UrlChar(s, buf[i]);
            match PartOf(t)
            case None => Between(t) && Scanned(buf, i + 1, t, fields, last)
            case Some(p) =>
              && (p in fields <==> last == Some(p))
              && Scanned(buf, i + 1, t, fields[p := if p in fields then Span(fields[p].off, fields[p].len + 1)
                                                    else Span(i, 1)], Some(p))
  {
    hide UrlChar, Scanned, PartOf, Between;
    KnownState(buf, i, s, fields, last);
    if Between(UrlChar(s, buf[i])) {
      ScanSkips(buf, i, s, fields, last);
      BetweenParts(UrlChar(s, buf[i]));
    } else {
      var p := PartOf(UrlChar(s, buf[i])).value;
      SamePart(buf, i, s, fields, last, p);
      if last == Some(p) { ScanGrows(buf, i, s, fields, p); } else { ScanBegins(buf, i, s, fields, last, p); }
    }
  }

  lemma BetweenParts(s: State)
    ensures Between(s) ==> PartOf(s).None?
  {}

  /** What the parts mean: a byte lies in a part exactly if the state behind it belongs to that part. */
  lemma {:induction false} FieldsAreRegions(from: State, buf: bytes, n: nat, i: nat, p: Part)
    requires from.ReqServerStart? || from.ReqSpacesBeforeUrl?
    requires i < n <= |buf| && !Walk(from, buf[..n]).Dead?
    ensures var fields := ScanFields(from, buf[..n]);
            PartOf(Walk(from, buf[..i + 1])) == Some(p) <==> p in fields && Inside(fields[p], i)
    decreases n
  {
    hide Walk, UrlChar, PartOf, ScanFields, Layout, Contents, Latest, ScanState, LastPart, Scanned;
    WalkOne(from, buf, n - 1);
    FieldsMore(from, buf, n - 1);
    if Walk(from, buf[..n - 1]).Dead? { UrlDies(buf[n - 1]); }
    ScanTo(from, buf, n - 1);
    RegionsGrow(buf, n - 1, Walk(from, buf[..n - 1]), ScanFields(from, buf[..n - 1]), LastPart(from, buf[..n - 1]));
    if i < n - 1 { FieldsAreRegions(from, buf, n - 1, i, p); }
  }

  lemma RegionsGrow(buf: bytes, i: nat, s: State, fields: Fields, last: Option<Part>)
    requires Scanned(buf, i, s, fields, last) && i < |buf| && !UrlChar(s, buf[i]).Dead?
    ensures forall p :: p in fields ==> End(fields[p]) <= i
    ensures var part := PartOf(UrlChar(s, buf[i]));
            part.Some? && part.value in fields ==> End(fields[part.value]) == i
  {
    hide UrlChar, PartOf, Contents, Separator, Order, Stage, PartStage, ScanState;
    var part := PartOf(UrlChar(s, buf[i]));
    if part.Some? { SamePart(buf, i, s, fields, last, part.value); }
  }

  /** The loop of http_parser_parse_url. It fails exactly on a text that parse_url_char does not get
      through. */
  method ScanUrl(buf: bytes, isConnect: bool) returns (ok: bool, fields: Fields, foundAt: bool)
    ensures ok <==> !Walk(StartOf(isConnect), buf).Dead?
    ensures ok ==> fields == ScanFields(StartOf(isConnect), buf) && foundAt == HasAt(buf, fields)
    ensures ok ==> Layout(buf, |buf|, fields) && Contents(buf, |buf|, fields)
  {
    hide Walk, UrlChar, Scanned, PartOf, Between, HasAt, ScanFields, LastPart;
    var from := StartOf(isConnect);
    var state, uf := from, None;
    fields, ok, foundAt := map[], true, false;
    ScanStarts(buf, from);
    var i := 0;
    while i < |buf|
      invariant 0 <= i <= |buf| && ok && !state.Dead? && state == Walk(from, buf[..i])
      invariant fields == ScanFields(from, buf[..i]) && uf == LastPart(from, buf[..i])
      invariant foundAt == HasAt(buf, fields)
    {
      WalkOne(from, buf, i);
      ScanTo(from, buf, i);
      FieldsMore(from, buf, i);
      KnownState(buf, i, state, fields, uf);
      ghost var before := state;
      state := UrlChar(state, buf[i]);
      if state.Dead? {
        WalkDies(from, buf, i + 1);
        ok := false;
        return;
      }
      ScanMore(buf, i, before, fields, uf);
      BetweenParts(state);
      var part := PartOf(state);
      if !Between(state) {
        AtSeen(buf, i, before, fields, uf, part.value);
        foundAt := foundAt || state.ReqServerWithAt?;
        if part == uf {
          fields := fields[part.value := fields[part.value].(len := fields[part.value].len + 1)];
        } else {
          fields := fields[part.value := Span(i, 1)];
          uf := part;
        }
      }
      i := i + 1;
    }
    assert buf[..i] == buf;
    ScanTo(from, buf, i);
    ScanIsLaidOut(buf, state, fields, uf);
  }

  lemma ScanStarts(buf: bytes, from: State)
    requires from.ReqServerStart? || from.ReqSpacesBeforeUrl?
    ensures Walk(from, buf[..0]) == from && Scanned(buf, 0, from, map[], None) && !HasAt(buf, map[])
    ensures ScanFields(from, buf[..0]) == map[] && LastPart(from, buf[..0]) == None
  {}

  lemma WalkOne(from: State, buf: bytes, i: nat)
    requires i < |buf|
    ensures Walk(from, buf[..i + 1]) == UrlChar(Walk(from, buf[..i]), buf[i])
  {
    assert buf[..i + 1][..i] == buf[..i];
  }

  lemma {:induction false} WalkDies(from: State, buf: bytes, i: nat)
    requires i <= |buf| && Walk(from, buf[..i]).Dead?
    ensures Walk(from, buf).Dead?
    decreases |buf|
  {
    hide UrlChar;
    if i == |buf| {
      assert buf[..i] == buf;
    } else {
      var init := buf[..|buf| - 1];
      assert init[..i] == buf[..i];
      WalkDies(from, init, i);
      UrlDies(buf[|buf| - 1]);
    }
  }

  /** No state of the scan is left out of the switch: its assert cannot fail. */
  lemma KnownState(buf: bytes, i: nat, s: State, fields: Fields, last: Option<Part>)
    requires Scanned(buf, i, s, fields, last) && i < |buf|
    ensures var t := UrlChar(s, buf[i]);
            !t.Dead? ==> Between(t) || (PartOf(t).Some? && (PartOf(t) == last ==> last.value in fields))
  {
    hide UrlChar, Separator, IsAlpha, IsUserinfo, Stage, Layout, Contents;
    ScanStep(s, buf[i]);
  }

  /** Over any stream, the URL of a message whose request line has been read gets through the scan, which
      is started as the request's method asks. */
  lemma DeliveredUrlScans(t: ParserType, data: bytes)
    ensures var m := Run(Init(t), data);
            !m.stop.Failed? && LastUrl(m.trace).Some? && !UrlState(m.core.state) ==>
              !Walk(StartOf(m.core.verb == CONNECT), LastUrl(m.trace).value).Dead?
  {
    hide Run, LastUrl, Walk;
    DeliveredUrlsScan(t, data);
  }

  // ----- the authority -----

  datatype HostState =
    | HostDead | UserInfoStart | InUserInfo | HostStart | V6Start | InHost | InV6 | V6End | PortStart | InPort

  predicate V6Char(b: byte) { IsHex(b) || b == 58 || b == 46 }

  /** http_parse_host_char */
  function HostChar(s: HostState, ch: byte): HostState
  {
    match s
    case UserInfoStart => UserInfoChar(ch)
    case InUserInfo => UserInfoChar(ch)
    case HostStart => if ch == 91 then V6Start else if IsHostChar(ch) then InHost else HostDead
    case InHost => if IsHostChar(ch) then InHost else if ch == 58 then PortStart else HostDead
    case V6End => if ch == 58 then PortStart else HostDead
    case InV6 => if ch == 93 then V6End else if V6Char(ch) then InV6 else HostDead
    case V6Start => if V6Char(ch) then InV6 else HostDead
    case InPort => if IsNum(ch) then InPort else HostDead
    case PortStart => if IsNum(ch) then InPort else HostDead
    case HostDead => HostDead
  }

  function UserInfoChar(ch: byte): HostState
  {
    if ch == 64 then HostStart else if IsUserinfo(ch) then InUserInfo else HostDead
  }

  /** Where the split of an authority that begins at x has got to. */
  datatype Split = Split(user: Option<Span>, host: Span, port: Option<Span>)

  predicate AllUser(buf: bytes, f: Span)
    requires End(f) <= |buf|
  {
    forall i :: f.off <= i < End(f) ==> IsUserinfo(buf[i])
  }

  predicate AllHost(buf: bytes, f: Span)
    requires End(f) <= |buf|
  {
    forall i :: f.off <= i < End(f) ==> IsHostChar(buf[i])
  }

  predicate AllV6(buf: bytes, f: Span)
    requires End(f) <= |buf|
  {
    forall i :: f.off <= i < End(f) ==> V6Char(buf[i])
  }

  predicate AllNum(buf: bytes, f: Span)
    requires End(f) <= |buf|
  {
    forall i :: f.off <= i < End(f) ==> IsNum(buf[i])
  }

  /** Before k there is nothing, or `@`, or user information and `@`. */
  predicate Lead(buf: bytes, x: nat, k: nat, user: Option<Span>)
  {
    && x <= k <= |buf|
    && match user
       case None => k == x || (k == x + 1 && buf[x] == 64)
       case Some(f) => f.off == x && f.len > 0 && End(f) + 1 == k && buf[k - 1] == 64 && AllUser(buf, f)
  }

  /** The host name or the bracketed address ends before k. */
  predicate HostRead(buf: bytes, x: nat, k: nat, d: Split)
  {
    && k <= |buf| && d.host.len > 0
    && ((Lead(buf, x, d.host.off, d.user) && End(d.host) == k && AllHost(buf, d.host))
        || (0 < d.host.off <= |buf| && Lead(buf, x, d.host.off - 1, d.user) && buf[d.host.off - 1] == 91
            && End(d.host) + 1 == k && AllV6(buf, d.host) && buf[k - 1] == 93))
  }

  predicate Splitting(buf: bytes, x: nat, i: nat, s: HostState, d: Split)
  {
    && x <= i <= |buf|
    && (s.InPort? <==> d.port.Some?)
    && match s
       case HostDead => false
       case UserInfoStart => i == x && d.user.None? && d.host.len == 0
       case InUserInfo => i > x && d.user == Some(Span(x, i - x)) && AllUser(buf, Span(x, i - x)) && d.host.len == 0
       case HostStart => Lead(buf, x, i, d.user) && d.host.len == 0
       case V6Start => i > x && Lead(buf, x, i - 1, d.user) && buf[i - 1] == 91 && d.host.len == 0
       case InHost => Lead(buf, x, d.host.off, d.user) && d.host.len > 0 && End(d.host) == i && AllHost(buf, d.host)
       case InV6 =>
         && 0 < d.host.off <= |buf| && Lead(buf, x, d.host.off - 1, d.user) && buf[d.host.off - 1] == 91
         && d.host.len > 0 && End(d.host) == i && AllV6(buf, d.host)
       case V6End => HostRead(buf, x, i, d)
       case PortStart => i > x && HostRead(buf, x, i - 1, d) && buf[i - 1] == 58
       case InPort =>
         && d.port.value.len > 0 && d.port.value.off > x && End(d.port.value) == i && AllNum(buf, d.port.value)
         && HostRead(buf, x, d.port.value.off - 1, d) && buf[d.port.value.off - 1] == 58
  }

  /** One turn of the switch of http_parse_host. */
  function NextSplit(s: HostState, t: HostState, d: Split, p: nat): Split
  {
    match t
    case InHost => d.(host := if s.InHost? then Span(d.host.off, d.host.len + 1) else Span(p, d.host.len + 1))
    case InV6 => d.(host := if s.InV6? then Span(d.host.off, d.host.len + 1) else Span(p, d.host.len + 1))
    case InPort =>
      var more := s.InPort? && d.port.Some?;
      d.(port := Some(if more then Span(d.port.value.off, d.port.value.len + 1) else Span(p, 1)))
    case InUserInfo =>
      var more := s.InUserInfo? && d.user.Some?;
      d.(user := Some(if more then Span(d.user.value.off, d.user.value.len + 1) else Span(p, 1)))
    case _ => d
  }

  lemma SplitStep(buf: bytes, x: nat, i: nat, s: HostState, d: Split)
    requires Splitting(buf, x, i, s, d) && i < |buf| && !HostChar(s, buf[i]).HostDead?
    ensures Splitting(buf, x, i + 1, HostChar(s, buf[i]), NextSplit(s, HostChar(s, buf[i]), d, i))
  {
    hide IsUserinfo, IsHostChar, IsHex;
  }

  function HostWalk(s: HostState, t: bytes): HostState
  {
    if t == [] then s else HostChar(HostWalk(s, t[..|t| - 1]), t[|t| - 1])
  }

  /** Where the split starts: with user information if there is an `@` to end it. */
  function HostStartOf(foundAt: bool): HostState { if foundAt then UserInfoStart else HostStart }

  /** The split of a text that begins at x. */
  function SplitOf(from: HostState, t: bytes, x: nat): Split
  {
    if t == [] then Split(None, Span(x, 0), None)
    else
      var init := t[..|t| - 1];
      NextSplit(HostWalk(from, init), HostWalk(from, t), SplitOf(from, init, x), x + |init|)
  }

  /** An authority may end after a host, a bracketed address or a port. */
  predicate MayEnd(s: HostState) { s.InHost? || s.V6End? || s.InPort? }

  lemma {:induction false} HostWalkDies(s: HostState, t: bytes, i: nat)
    requires i <= |t| && HostWalk(s, t[..i]).HostDead?
    ensures HostWalk(s, t).HostDead?
    decreases |t|
  {
    if i == |t| {
      assert t[..i] == t;
    } else {
      var init := t[..|t| - 1];
      assert init[..i] == t[..i];
      HostWalkDies(s, init, i);
    }
  }

  /** A complete authority from x to y. */
  predicate Authority(buf: bytes, x: nat, y: nat, d: Split)
  {
    match d.port
    case None => HostRead(buf, x, y, d)
    case Some(f) =>
      && x < f.off && f.len > 0 && End(f) == y <= |buf| && AllNum(buf, f)
      && HostRead(buf, x, f.off - 1, d) && buf[f.off - 1] == 58
  }

  /** The split of any text that http_parse_host_char gets through. */
  lemma {:induction false} SplitTo(from: HostState, buf: bytes, x: nat, t: bytes, i: nat)
    requires from.UserInfoStart? || from.HostStart?
    requires x + |t| <= |buf| && t == buf[x..x + |t|] && i <= |t| && !HostWalk(from, t[..i]).HostDead?
    ensures Splitting(buf, x, x + i, HostWalk(from, t[..i]), SplitOf(from, t[..i], x))
    decreases i
  {
    hide HostWalk, HostChar, Splitting, NextSplit, SplitOf;
    if i == 0 {
      SplitStarts(buf, x, from, t, Split(None, Span(x, 0), None));
    } else {
      HostWalkOne(from, t, i - 1, x);
      if HostWalk(from, t[..i - 1]).HostDead? { StaysDead(t[i - 1]); }
      SplitTo(from, buf, x, t, i - 1);
      SplitStep(buf, x, x + i - 1, HostWalk(from, t[..i - 1]), SplitOf(from, t[..i - 1], x));
    }
  }

  lemma StaysDead(ch: byte)
    ensures HostChar(HostDead, ch).HostDead?
  {}

  /** A text the automaton may end with is an authority. */
  lemma AuthoritySplit(from: HostState, buf: bytes, x: nat, t: bytes)
    requires from.UserInfoStart? || from.HostStart?
    requires x + |t| <= |buf| && t == buf[x..x + |t|] && MayEnd(HostWalk(from, t))
    ensures Authority(buf, x, x + |t|, SplitOf(from, t, x))
  {
    hide HostWalk, Splitting, SplitOf, Authority;
    assert t[..|t|] == t;
    SplitTo(from, buf, x, t, |t|);
    SplitEnds(buf, x, x + |t|, HostWalk(from, t), SplitOf(from, t, x));
  }

  /** http_parse_host: it accepts exactly the authorities its automaton may end in, and splits them. */
  method ParseHost(buf: bytes, region: Span, foundAt: bool) returns (ok: bool, d: Split)
    requires End(region) <= |buf|
    ensures ok <==> MayEnd(HostWalk(HostStartOf(foundAt), buf[region.off..End(region)]))
    ensures ok ==> d == SplitOf(HostStartOf(foundAt), buf[region.off..End(region)], region.off)
    ensures ok ==> Authority(buf, region.off, End(region), d)
  {
    hide HostWalk, HostChar, Splitting, NextSplit, SplitOf, Authority;
    var s := HostStartOf(foundAt);
    ghost var from, t := s, buf[region.off..End(region)];
    d := Split(None, Span(region.off, 0), None);
    SplitStarts(buf, region.off, from, t, d);
    var p := region.off;
    while p < End(region)
      invariant region.off <= p <= End(region) && d == SplitOf(from, t[..p - region.off], region.off)
      invariant s == HostWalk(from, t[..p - region.off])
    {
      HostWalkOne(from, t, p - region.off, region.off);
      var next := HostChar(s, buf[p]);
      if next.HostDead? {
        HostWalkDies(from, t, p + 1 - region.off);
        return false, d;
      }
      d := NextSplit(s, next, d, p);
      s := next;
      p := p + 1;
    }
    assert t[..p - region.off] == t;
    ok := MayEnd(s);
    if ok { AuthoritySplit(from, buf, region.off, t); }
  }

  lemma SplitStarts(buf: bytes, x: nat, from: HostState, t: bytes, d: Split)
    requires x <= |buf| && (from.UserInfoStart? || from.HostStart?) && d == Split(None, Span(x, 0), None)
    ensures HostWalk(from, t[..0]) == from && Splitting(buf, x, x, from, d) && SplitOf(from, t[..0], x) == d
  {}

  lemma HostWalkOne(from: HostState, t: bytes, i: nat, x: nat)
    requires i < |t|
    ensures HostWalk(from, t[..i + 1]) == HostChar(HostWalk(from, t[..i]), t[i])
    ensures SplitOf(from, t[..i + 1], x)
            == NextSplit(HostWalk(from, t[..i]), HostWalk(from, t[..i + 1]), SplitOf(from, t[..i], x), x + i)
  {
    hide HostChar, NextSplit;
    assert t[..i + 1][..i] == t[..i];
  }

  lemma SplitEnds(buf: bytes, x: nat, y: nat, s: HostState, d: Split)
    requires Splitting(buf, x, y, s, d) && MayEnd(s)
    ensures Authority(buf, x, y, d)
  {
    hide IsUserinfo, IsHostChar, IsHex;
  }

  // ----- the parts together -----

  /** The authority's span replaced by those of its parts. */
  function Merged(fields: Fields, d: Split): Fields
  {
    var a := fields[Host := d.host];
    var b := if d.user.Some? then a[UserInfo := d.user.value] else a;
    if d.port.Some? then b[Port := d.port.value] else b
  }

  /** The parts of an authority, in order and within it. */
  lemma AuthorityOrder(buf: bytes, x: nat, y: nat, d: Split)
    requires Authority(buf, x, y, d)
    ensures x <= d.host.off && 0 < d.host.len && End(d.host) <= y <= |buf|
    ensures d.user.Some? ==> d.user.value.off == x && 0 < d.user.value.len && End(d.user.value) <= d.host.off
    ensures d.port.Some? ==> End(d.host) <= d.port.value.off && 0 < d.port.value.len && End(d.port.value) == y
  {
    hide IsUserinfo, IsHostChar, IsHex, AllUser, AllHost, AllV6, AllNum;
  }

  lemma AuthorityCovered(buf: bytes, x: nat, y: nat, d: Split, j: nat)
    requires Authority(buf, x, y, d) && x <= j < y && y <= |buf|
    ensures || Separator(buf[j]) || Inside(d.host, j)
            || (d.user.Some? && Inside(d.user.value, j)) || (d.port.Some? && Inside(d.port.value, j))
  {
    hide AllUser, AllHost, AllV6, AllNum;
  }

  lemma MergedLayout(buf: bytes, fields: Fields, d: Split)
    requires Layout(buf, |buf|, fields) && Host in fields && UserInfo !in fields && Port !in fields
    requires Authority(buf, fields[Host].off, End(fields[Host]), d)
    ensures Layout(buf, |buf|, Merged(fields, d))
  {
    hide Authority, Separator, Inside;
    var x, y := fields[Host].off, End(fields[Host]);
    AuthorityOrder(buf, x, y, d);
    var more := Merged(fields, d);
    forall j | 0 <= j < |buf| ensures Separator(buf[j]) || exists p :: p in more && Inside(more[p], j) {
      MergedCovers(buf, fields, d, j);
    }
    MergedOrder(buf, fields, d);
  }

  lemma MergedOrder(buf: bytes, fields: Fields, d: Split)
    requires Layout(buf, |buf|, fields) && Host in fields && UserInfo !in fields && Port !in fields
    requires Authority(buf, fields[Host].off, End(fields[Host]), d)
    ensures var more := Merged(fields, d);
            && (forall p :: p in more ==> more[p].len > 0 && End(more[p]) <= |buf|)
            && (forall p, q :: p in more && q in more && Order(p) < Order(q) ==> End(more[p]) <= more[q].off)
  {
    hide Authority, Separator, Inside, Merged, Order, Layout;
    var more := Merged(fields, d);
    forall p | p in more ensures more[p].len > 0 && End(more[p]) <= |buf| {
      MergedPlace(buf, fields, d, p);
    }
    forall p, q | p in more && q in more && Order(p) < Order(q) ensures End(more[p]) <= more[q].off {
      MergedPlace(buf, fields, d, p);
      MergedPlace(buf, fields, d, q);
    }
  }

  /** Where a part lies, by its place in the order. */
  lemma MergedPlace(buf: bytes, fields: Fields, d: Split, p: Part)
    requires Layout(buf, |buf|, fields) && Host in fields && UserInfo !in fields && Port !in fields
    requires Authority(buf, fields[Host].off, End(fields[Host]), d) && p in Merged(fields, d)
    ensures var f, x, y := Merged(fields, d)[p], fields[Host].off, End(fields[Host]);
            && f.len > 0 && End(f) <= |buf| && x < y
            && (Order(p) == 0 ==> End(f) <= x)
            && (Order(p) == 1 ==> f.off == x && End(f) <= d.host.off)
            && (Order(p) == 2 ==> f == d.host)
            && (Order(p) == 3 ==> End(d.host) <= f.off && End(f) == y)
            && (Order(p) > 3 ==> y <= f.off)
            && x <= d.host.off && End(d.host) <= y
    ensures forall q :: q in Merged(fields, d) && Order(q) > 3 && Order(p) > Order(q) ==>
              End(Merged(fields, d)[q]) <= Merged(fields, d)[p].off
  {
    hide Authority, Separator, Inside;
    AuthorityOrder(buf, fields[Host].off, End(fields[Host]), d);
  }

  lemma MergedCovers(buf: bytes, fields: Fields, d: Split, j: nat)
    requires Layout(buf, |buf|, fields) && Host in fields && UserInfo !in fields && Port !in fields && j < |buf|
    requires Authority(buf, fields[Host].off, End(fields[Host]), d)
    ensures Separator(buf[j]) || exists p :: p in Merged(fields, d) && Inside(Merged(fields, d)[p], j)
  {
    hide Authority, Separator;
    var x, y, more := fields[Host].off, End(fields[Host]), Merged(fields, d);
    if !Separator(buf[j]) {
      var p :| p in fields && Inside(fields[p], j);
      if p == Host {
        AuthorityCovered(buf, x, y, d, j);
        assert Inside(d.host, j) ==> Host in more && Inside(more[Host], j);
        assert d.user.Some? && Inside(d.user.value, j) ==> UserInfo in more && Inside(more[UserInfo], j);
        assert d.port.Some? && Inside(d.port.value, j) ==> Port in more && Inside(more[Port], j);
      } else {
        assert p in more && Inside(more[p], j);
      }
    }
  }

  /** What each part of an accepted URL looks like. */
  predicate PartText(buf: bytes, p: Part, f: Span)
    requires f.len > 0 && End(f) <= |buf|
  {
    match p
    case UserInfo => AllUser(buf, f) && End(f) < |buf| && buf[End(f)] == 64
    case Host =>
      || AllHost(buf, f)
      || (AllV6(buf, f) && f.off > 0 && buf[f.off - 1] == 91 && End(f) < |buf| && buf[End(f)] == 93)
    case Port =>
      && AllNum(buf, f) && f.off > 0 && buf[f.off - 1] == 58
      && (End(f) < |buf| ==> buf[End(f)] == 47 || buf[End(f)] == 63)
    case _ => Content(buf, |buf|, p, f)
  }

  /** The fields of an accepted URL: laid out in order, and each of its own kind. */
  ghost predicate SplitUrl(buf: bytes, fields: Fields)
  {
    Layout(buf, |buf|, fields) && forall p :: p in fields ==> PartText(buf, p, fields[p])
  }

  lemma MergedText(buf: bytes, fields: Fields, d: Split, p: Part)
    requires Layout(buf, |buf|, fields) && Contents(buf, |buf|, fields) && Host in fields && UserInfo !in fields
              && Port !in fields
    requires Authority(buf, fields[Host].off, End(fields[Host]), d) && p in Merged(fields, d)
    ensures var f := Merged(fields, d)[p]; f.len > 0 && End(f) <= |buf| && PartText(buf, p, f)
  {
    hide Authority, PartText, Content, Order, Separator, Inside;
    var x, y := fields[Host].off, End(fields[Host]);
    AuthorityOrder(buf, x, y, d);
    assert y < |buf| ==> buf[y] == 47 || buf[y] == 63 by { AfterAuthority(buf, fields); }
    AuthorityText(buf, x, y, d);
    if p in fields && p != Host { SamePartText(buf, p, fields[p]); }
  }

  lemma AfterAuthority(buf: bytes, fields: Fields)
    requires Layout(buf, |buf|, fields) && Contents(buf, |buf|, fields) && Host in fields
    ensures var y := End(fields[Host]); y < |buf| ==> buf[y] == 47 || buf[y] == 63
  {
    assert Content(buf, |buf|, Host, fields[Host]);
  }

  lemma SamePartText(buf: bytes, p: Part, f: Span)
    requires f.len > 0 && End(f) <= |buf| && p != Host && Content(buf, |buf|, p, f)
    ensures PartText(buf, p, f)
  {
    hide IsAlpha;
  }

  lemma AuthorityText(buf: bytes, x: nat, y: nat, d: Split)
    requires Authority(buf, x, y, d) && y <= |buf| && (y < |buf| ==> buf[y] == 47 || buf[y] == 63)
    ensures d.host.len > 0 && End(d.host) <= |buf| && PartText(buf, Host, d.host)
    ensures d.user.Some? ==> d.user.value.len > 0 && End(d.user.value) <= |buf| && PartText(buf, UserInfo, d.user.value)
    ensures d.port.Some? ==> d.port.value.len > 0 && End(d.port.value) <= |buf| && PartText(buf, Port, d.port.value)
  {
    hide AllUser, AllHost, AllV6, AllNum;
  }

  // ----- the port -----

  function LeadingDigits(s: bytes): (k: nat)
    ensures k <= |s| && (forall i :: 0 <= i < k ==> IsNum(s[i])) && (k < |s| ==> !IsNum(s[k]))
  {
    if s != [] && IsNum(s[0]) then LeadingDigits(s[1..]) + 1 else 0
  }

  /** strtoul in base 10 on text that begins with a digit; it reads on past the end of the field. */
  function Strtoul(s: bytes): nat
  {
    var v := Number(Digits(s[..LeadingDigits(s)]), 10);
    if v > ULLONG_MAX then ULLONG_MAX else v
  }

  ghost function PortNumber(buf: bytes, f: Span): nat
    requires End(f) <= |buf| && AllNum(buf, f)
  {
    Number(Digits(buf[f.off..End(f)]), 10)
  }

  /** Reading on past the field finds no digit there. */
  lemma PortIsWhole(buf: bytes, f: Span)
    requires f.len > 0 && End(f) <= |buf| && PartText(buf, Port, f)
    ensures var v := Strtoul(buf[f.off..]);
            (v <= 0xffff <==> PortNumber(buf, f) <= 0xffff) && (v <= 0xffff ==> v == PortNumber(buf, f))
  {
    hide Number, Digits, LeadingDigits;
    var t := buf[f.off..];
    var k := LeadingDigits(t);
    assert forall i :: 0 <= i < f.len ==> IsNum(t[i]) by {
      forall i | 0 <= i < f.len ensures IsNum(t[i]) { assert t[i] == buf[f.off + i]; }
    }
    assert f.len < |t| ==> t[f.len] == buf[End(f)] && !IsNum(t[f.len]);
    assert k == f.len;
    assert t[..k] == buf[f.off..End(f)];
  }

  // ----- the whole -----

  datatype UrlParts = UrlParts(fields: Fields, port: nat)

  /** What http_parser_parse_url comes to; `Unset` if it reads a field of the struct that nobody has
      written. */
  datatype Answer = Accepted(parts: UrlParts) | Refused | Unset

  /** The text of a span. */
  function Slice(buf: bytes, f: Span): bytes { if End(f) <= |buf| then buf[f.off..End(f)] else [] }

  /** The scan has found a schema and nothing that could be its authority. */
  predicate LacksHost(buf: bytes, isConnect: bool)
  {
    && !Walk(StartOf(isConnect), buf).Dead?
    && var scan := ScanFields(StartOf(isConnect), buf); Schema in scan && Host !in scan
  }

  /** The automaton of the authority, over the part that the scan has marked. */
  function AuthorityEnd(buf: bytes, scan: Fields): HostState
    requires Host in scan
  {
    HostWalk(HostStartOf(HasAt(buf, scan)), Slice(buf, scan[Host]))
  }

  /** The parts of a URL: those of the scan, the authority split if there is one. */
  function PartsOf(buf: bytes, isConnect: bool): Fields
  {
    var scan := ScanFields(StartOf(isConnect), buf);
    if Host in scan
    then Merged(scan, SplitOf(HostStartOf(HasAt(buf, scan)), Slice(buf, scan[Host]), scan[Host].off))
    else scan
  }

  /** The port field, if there is one, consists of digits. */
  ghost predicate Numbered(buf: bytes, fields: Fields)
  {
    Port in fields && End(fields[Port]) <= |buf| && AllNum(buf, fields[Port])
  }

  /** parse_url_char gets through the URL, a schema has an authority, an authority may end where it does, a
      CONNECT has exactly host and port, and a port is at most 65535. */
  ghost predicate Acceptable(buf: bytes, isConnect: bool)
  {
    var scan, parts := ScanFields(StartOf(isConnect), buf), PartsOf(buf, isConnect);
    && !Walk(StartOf(isConnect), buf).Dead?
    && (Schema in scan ==> Host in scan)
    && (Host in scan ==> MayEnd(AuthorityEnd(buf, scan)))
    && (isConnect ==> parts.Keys == {Host, Port})
    && (Port in parts ==> Numbered(buf, parts) && PortNumber(buf, parts[Port]) <= 0xffff)
  }

  /** http_parser_parse_url, on a struct that is zeroed or on one that is not. An accepted URL is laid out
      in its parts, and the port is the number its field spells. */
  method ParseUrl(buf: bytes, isConnect: bool, zeroed: bool) returns (r: Answer)
    requires |buf| < 0x10000
    ensures r.Accepted? <==> Acceptable(buf, isConnect)
    ensures r.Unset? <==> !zeroed && LacksHost(buf, isConnect)
    ensures r.Accepted? ==> r.parts.fields == PartsOf(buf, isConnect) && SplitUrl(buf, r.parts.fields)
    ensures r.Accepted? ==>
              var fields := r.parts.fields;
              if Port in fields then Numbered(buf, fields) && r.parts.port == PortNumber(buf, fields[Port])
              else r.parts.port == 0
  {
    hide Walk, SplitUrl, Numbered, PortNumber, Strtoul, HasAt, HostWalk, MayEnd, Merged, Authority, Layout;
    hide Contents, ScanFields, SplitOf, PartsOf, Acceptable, LacksHost;
    var ok, fields, foundAt := ScanUrl(buf, isConnect);
    if !ok {
      DeadEnd(buf, isConnect);
      return Refused;
    }
    PartsInside(buf, fields);
    Verdict(buf, isConnect);
    if Schema in fields || Host in fields {
      if Host !in fields && !zeroed {
        return Unset;
      }
      var region := if Host in fields then fields[Host] else Span(0, 0);
      var good, d := ParseHost(buf, region, foundAt);
      NoAuthority(buf, fields, foundAt);
      if !good {
        return Refused;
      }
      MergedSplits(buf, fields, d);
      fields := Merged(fields, d);
    }
    if Port in fields { PortFound(buf, fields); }
    if isConnect && fields.Keys != {Host, Port} {
      return Refused;
    }
    var port := 0;
    if Port in fields {
      port := Strtoul(buf[fields[Port].off..]);
      if port > 0xffff {
        return Refused;
      }
    }
    r := Accepted(UrlParts(fields, port));
  }

  lemma DeadEnd(buf: bytes, isConnect: bool)
    requires Walk(StartOf(isConnect), buf).Dead?
    ensures !Acceptable(buf, isConnect) && !LacksHost(buf, isConnect)
  {}

  /** Acceptance in terms of what the scan has marked. */
  lemma Verdict(buf: bytes, isConnect: bool)
    requires !Walk(StartOf(isConnect), buf).Dead?
    requires var scan := ScanFields(StartOf(isConnect), buf); Host in scan ==> End(scan[Host]) <= |buf|
    ensures var scan, parts := ScanFields(StartOf(isConnect), buf), PartsOf(buf, isConnect);
            && (LacksHost(buf, isConnect) <==> Schema in scan && Host !in scan)
            && (Host !in scan ==> parts == scan)
            && (Host in scan ==>
                  var from, f := HostStartOf(HasAt(buf, scan)), scan[Host];
                  && parts == Merged(scan, SplitOf(from, buf[f.off..End(f)], f.off))
                  && (!MayEnd(HostWalk(from, buf[f.off..End(f)])) ==> !Acceptable(buf, isConnect)))
            && (Schema in scan && Host !in scan ==> !Acceptable(buf, isConnect))
            && ((Host in scan && MayEnd(AuthorityEnd(buf, scan))) || (Schema !in scan && Host !in scan) ==>
                  (Acceptable(buf, isConnect) <==>
                   (isConnect ==> parts.Keys == {Host, Port})
                   && (Port in parts ==> Numbered(buf, parts) && PortNumber(buf, parts[Port]) <= 0xffff)))
  {
    hide Walk, ScanFields, SplitOf, HostWalk, MayEnd, Merged, Numbered, PortNumber, HasAt;
  }

  lemma PartsInside(buf: bytes, fields: Fields)
    requires Layout(buf, |buf|, fields) && Contents(buf, |buf|, fields)
    ensures Host in fields ==> End(fields[Host]) <= |buf|
    ensures UserInfo !in fields && Port !in fields
    ensures Schema !in fields && Host !in fields ==> SplitUrl(buf, fields)
  {
    hide Separator, Order, Inside, IsAlpha;
    assert forall p :: p in fields ==> Content(buf, |buf|, p, fields[p]);
  }

  lemma ScanIsLaidOut(buf: bytes, s: State, fields: Fields, last: Option<Part>)
    requires Scanned(buf, |buf|, s, fields, last)
    ensures Layout(buf, |buf|, fields) && Contents(buf, |buf|, fields)
  {}

  /** A schema without an authority leaves nothing to parse as a host. */
  lemma NoAuthority(buf: bytes, fields: Fields, foundAt: bool)
    requires foundAt == HasAt(buf, fields)
    ensures Host !in fields ==> !MayEnd(HostWalk(HostStartOf(foundAt), buf[0..0]))
  {}

  lemma MergedSplits(buf: bytes, fields: Fields, d: Split)
    requires Layout(buf, |buf|, fields) && Contents(buf, |buf|, fields) && Host in fields && UserInfo !in fields
              && Port !in fields
    requires Authority(buf, fields[Host].off, End(fields[Host]), d)
    ensures SplitUrl(buf, Merged(fields, d)) && Host in Merged(fields, d)
  {
    hide Authority, Layout, Contents, PartText, Merged;
    MergedLayout(buf, fields, d);
    forall p | p in Merged(fields, d)
      ensures var f := Merged(fields, d)[p]; f.len > 0 && End(f) <= |buf| && PartText(buf, p, f)
    {
      MergedText(buf, fields, d, p);
    }
    HostStays(fields, d);
  }

  lemma HostStays(fields: Fields, d: Split)
    ensures Host in Merged(fields, d)
  {}

  lemma PortFound(buf: bytes, fields: Fields)
    requires SplitUrl(buf, fields) && Port in fields
    ensures Numbered(buf, fields) && fields[Port].off <= |buf|
    ensures var v := Strtoul(buf[fields[Port].off..]);
            (v <= 0xffff <==> PortNumber(buf, fields[Port]) <= 0xffff)
                && (v <= 0xffff ==> v == PortNumber(buf, fields[Port]))
  {
    hide Strtoul, PortNumber;
    assert PartText(buf, Port, fields[Port]);
    PortIsWhole(buf, fields[Port]);
  }
}
