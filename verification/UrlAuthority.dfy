/** The authority of a URL written from its parts, and http_parse_host as the inverse: which texts it
    accepts, as a grammar, and that it finds every part where it was written. */
module UrlAuthority {
  import opened Ascii
  import opened HttpTypes
  import opened HttpAutomaton
  import opened HttpLengths
  import opened HttpRequests
  import opened UrlSplit

  /** `user@host:port`; an empty user leaves a bare `@`, and an address stands in brackets. */
  datatype Site = Site(user: Option<bytes>, bracketed: bool, host: bytes, port: Option<bytes>)

  const AT: byte := 64
  const COLON: byte := 58

  predicate IsSite(s: Site)
  {
    && (s.user.Some? ==> forall i :: 0 <= i < |s.user.value| ==> IsUserinfo(s.user.value[i]))
    && s.host != []
    && (forall i :: 0 <= i < |s.host| ==> if s.bracketed then V6Char(s.host[i]) else IsHostChar(s.host[i]))
    && (s.port.Some? ==> s.port.value != [] && forall i :: 0 <= i < |s.port.value| ==> IsNum(s.port.value[i]))
  }

  function UserText(s: Site): bytes { if s.user.Some? then s.user.value + [AT] else [] }

  function HostText(s: Site): bytes { if s.bracketed then [91] + s.host + [93] else s.host }

  function PortText(s: Site): bytes { if s.port.Some? then [COLON] + s.port.value else [] }

  function SiteText(s: Site): bytes { UserText(s) + HostText(s) + PortText(s) }

  /** Where the parts of an authority written at x lie. */
  function SpansOf(s: Site, x: nat): Split
  {
    var h, p := x + |UserText(s)|, x + |UserText(s)| + |HostText(s)|;
    Split(if s.user.Some? && s.user.value != [] then Some(Span(x, |s.user.value|)) else None,
          Span(if s.bracketed then h + 1 else h, |s.host|),
          if s.port.Some? then Some(Span(p + 1, |s.port.value|)) else None)
  }

  lemma {:induction false} HostWalkConcat(s: HostState, a: bytes, b: bytes)
    ensures HostWalk(s, a + b) == HostWalk(HostWalk(s, a), b)
    decreases |b|
  {
    hide HostChar;
    if b == [] {
      assert a + b == a;
    } else {
      var ab := a + b;
      assert ab[..|ab| - 1] == a + b[..|b| - 1] && ab[|ab| - 1] == b[|b| - 1];
      HostWalkConcat(s, a, b[..|b| - 1]);
    }
  }

  /** Every byte of a text leads to one state. */
  predicate LeadsTo(s: HostState, t: bytes, k: HostState)
  {
    && t != [] && HostChar(s, t[0]) == k
    && forall i :: 1 <= i < |t| ==> HostChar(k, t[i]) == k
  }

  /** The split with the span of one part filled in. */
  function Filled(d: Split, k: HostState, f: Span): Split
  {
    match k
    case InUserInfo => d.(user := Some(f))
    case InPort => d.(port := Some(f))
    case _ => d.(host := f)
  }

  lemma SplitMore(from: HostState, a: bytes, ch: byte, x: nat)
    ensures HostWalk(from, a + [ch]) == HostChar(HostWalk(from, a), ch)
    ensures SplitOf(from, a + [ch], x)
            == NextSplit(HostWalk(from, a), HostWalk(from, a + [ch]), SplitOf(from, a, x), x + |a|)
  {
    hide HostChar, NextSplit;
    assert (a + [ch])[..|a|] == a;
  }

  /** A part that begins, and one that goes on. */
  lemma FilledMore(s: HostState, k: HostState, d: Split, p: nat, n: nat)
    requires k.InUserInfo? || k.InPort? || k.InHost? || k.InV6?
    ensures s != k && (k.InHost? || k.InV6? ==> d.host.len == 0) ==> NextSplit(s, k, d, p) == Filled(d, k, Span(p, 1))
    ensures NextSplit(k, k, Filled(d, k, Span(p, n)), p + n) == Filled(d, k, Span(p, n + 1))
  {}

  lemma ShorterLead(s: HostState, t: bytes, k: HostState)
    requires LeadsTo(s, t, k) && |t| > 1
    ensures LeadsTo(s, t[..|t| - 1], k) && HostChar(k, t[|t| - 1]) == k
  {
    hide HostChar;
  }

  /** A part read from its first byte to its last. */
  lemma {:induction false} PartSplit(from: HostState, a: bytes, t: bytes, k: HostState, x: nat)
    requires LeadsTo(HostWalk(from, a), t, k) && HostWalk(from, a) != k
    requires k.InUserInfo? || k.InPort? || ((k.InHost? || k.InV6?) && SplitOf(from, a, x).host.len == 0)
    ensures HostWalk(from, a + t) == k
    ensures SplitOf(from, a + t, x) == Filled(SplitOf(from, a, x), k, Span(x + |a|, |t|))
    decreases |t|
  {
    hide HostChar, HostWalk, SplitOf, NextSplit, Filled;
    var init, ch := t[..|t| - 1], t[|t| - 1];
    assert a + t == (a + init) + [ch];
    SplitMore(from, a + init, ch, x);
    FilledMore(HostWalk(from, a), k, SplitOf(from, a, x), x + |a|, |init|);
    if init == [] {
      assert a + init == a;
    } else {
      ShorterLead(HostWalk(from, a), t, k);
      PartSplit(from, a, init, k, x);
    }
  }

  /** A byte between parts. */
  lemma MarkSplit(from: HostState, a: bytes, ch: byte, x: nat)
    ensures HostWalk(from, a + [ch]) == HostChar(HostWalk(from, a), ch)
    ensures var k := HostChar(HostWalk(from, a), ch);
            !k.InUserInfo? && !k.InPort? && !k.InHost? && !k.InV6? ==>
              SplitOf(from, a + [ch], x) == SplitOf(from, a, x)
  {
    hide HostChar, HostWalk, SplitOf;
    SplitMore(from, a, ch, x);
  }

  lemma UserSplit(s: Site, x: nat)
    requires IsSite(s)
    ensures var from := HostStartOf(s.user.Some?);
            && HostWalk(from, UserText(s)) == HostStart
            && SplitOf(from, UserText(s), x) == Split(SpansOf(s, x).user, Span(x, 0), None)
  {
    hide HostChar, IsUserinfo;
    var from := HostStartOf(s.user.Some?);
    NothingSplit(from, x);
    if s.user.Some? {
      var t := s.user.value;
      UserChars(t);
      assert [] + t == t;
      if t != [] { PartSplit(from, [], t, InUserInfo, x); }
      MarkSplit(from, t, AT, x);
    }
  }

  lemma NothingSplit(from: HostState, x: nat)
    ensures HostWalk(from, []) == from && SplitOf(from, [], x) == Split(None, Span(x, 0), None)
  {}

  lemma UserChars(t: bytes)
    requires forall i :: 0 <= i < |t| ==> IsUserinfo(t[i])
    ensures t != [] ==> LeadsTo(UserInfoStart, t, InUserInfo)
    ensures HostChar(UserInfoStart, AT) == HostStart && HostChar(InUserInfo, AT) == HostStart
  {}

  lemma HostSplit(s: Site, x: nat)
    requires IsSite(s)
    ensures var from, a := HostStartOf(s.user.Some?), UserText(s) + HostText(s);
            && HostWalk(from, a) == (if s.bracketed then V6End else InHost)
            && SplitOf(from, a, x) == SpansOf(s, x).(port := None)
  {
    hide HostChar, IsUserinfo, HostWalk, SplitOf;
    var from, a := HostStartOf(s.user.Some?), UserText(s);
    UserSplit(s, x);
    HostChars(s);
    if s.bracketed {
      MarkSplit(from, a, 91, x);
      PartSplit(from, a + [91], s.host, InV6, x);
      MarkSplit(from, a + [91] + s.host, 93, x);
      assert a + [91] + s.host + [93] == a + HostText(s);
    } else {
      PartSplit(from, a, s.host, InHost, x);
    }
  }

  lemma HostChars(s: Site)
    requires IsSite(s)
    ensures s.bracketed ==> LeadsTo(V6Start, s.host, InV6)
    ensures !s.bracketed ==> LeadsTo(HostStart, s.host, InHost)
    ensures HostChar(HostStart, 91) == V6Start && HostChar(InV6, 93) == V6End
    ensures HostChar(V6End, COLON) == PortStart && HostChar(InHost, COLON) == PortStart
  {}

  /** Any written authority is accepted and split where it was put together. */
  lemma SiteSplit(s: Site, x: nat)
    requires IsSite(s)
    ensures var from := HostStartOf(s.user.Some?);
            MayEnd(HostWalk(from, SiteText(s))) && SplitOf(from, SiteText(s), x) == SpansOf(s, x)
  {
    hide HostChar, IsUserinfo, IsHostChar, IsHex, HostWalk, SplitOf;
    var from, a := HostStartOf(s.user.Some?), UserText(s) + HostText(s);
    HostSplit(s, x);
    HostChars(s);
    if s.port.Some? {
      MarkSplit(from, a, COLON, x);
      PortChars(s);
      PartSplit(from, a + [COLON], s.port.value, InPort, x);
      assert a + [COLON] + s.port.value == SiteText(s);
    } else {
      assert a + [] == a;
    }
  }

  lemma PortChars(s: Site)
    requires IsSite(s) && s.port.Some?
    ensures LeadsTo(PortStart, s.port.value, InPort)
  {}

  /** The only `@` is the one behind the user. */
  lemma SiteChars(s: Site)
    requires IsSite(s)
    ensures AT in SiteText(s) <==> s.user.Some?
    ensures forall i :: 0 <= i < |SiteText(s)| ==> ServerByte(SiteText(s)[i])
    ensures forall i :: 0 <= i < |SiteText(s)| && SiteText(s)[i] == AT ==> i + 1 == |UserText(s)|
    ensures |UserText(s)| < |SiteText(s)|
  {
    hide ServerByte, UserText, HostText, PortText, IsSite;
    UserBytes(s);
    HostBytes(s);
    PortBytes(s);
    if s.user.Some? { assert SiteText(s)[|s.user.value|] == UserText(s)[|s.user.value|]; }
  }

  lemma UserBytes(s: Site)
    requires IsSite(s)
    ensures forall i :: 0 <= i < |UserText(s)| ==>
              ServerByte(UserText(s)[i]) && (UserText(s)[i] == AT <==> i + 1 == |UserText(s)|)
    ensures |UserText(s)| == if s.user.Some? then |s.user.value| + 1 else 0
  {}

  lemma HostBytes(s: Site)
    requires IsSite(s)
    ensures HostText(s) != []
    ensures forall i :: 0 <= i < |HostText(s)| ==> ServerByte(HostText(s)[i]) && HostText(s)[i] != AT
  {}

  lemma PortBytes(s: Site)
    requires IsSite(s)
    ensures forall i :: 0 <= i < |PortText(s)| ==> ServerByte(PortText(s)[i]) && PortText(s)[i] != AT
  {}

  /** An authority that has been split is one that can be written. */
  function Rebuilt(t: bytes, d: Split): Site
    requires Authority(t, 0, |t|, d)
  {
    AuthorityOrder(t, 0, |t|, d);
    var h := d.host.off;
    var bracketed := h > 0 && t[h - 1] == 91;
    var k := if bracketed then h - 1 else h;
    Site(if d.user.Some? then Some(t[..End(d.user.value)]) else if k == 0 then None else Some([]),
         bracketed, t[h..End(d.host)],
         if d.port.Some? then Some(t[d.port.value.off..]) else None)
  }

  lemma RebuiltUser(t: bytes, d: Split)
    requires Authority(t, 0, |t|, d)
    ensures var s, h := Rebuilt(t, d), d.host.off;
            && UserText(s) == t[..if s.bracketed then h - 1 else h]
            && HostRead(t, 0, if d.port.Some? then d.port.value.off - 1 else |t|, d)
            && (s.user.Some? ==> forall i :: 0 <= i < |s.user.value| ==> IsUserinfo(s.user.value[i]))
            && (if s.bracketed then AllV6(t, d.host) else AllHost(t, d.host))
  {
    hide IsUserinfo, IsHostChar, V6Char, IsNum;
  }

  lemma RebuiltHost(t: bytes, d: Split)
    requires Authority(t, 0, |t|, d)
    ensures var s, h, y := Rebuilt(t, d), d.host.off, End(d.host);
            && (s.bracketed ==> 0 < h && y < |t|)
            && HostText(s) == if s.bracketed then t[h - 1..y + 1] else t[h..y]
  {
    hide IsUserinfo, IsHostChar, V6Char, IsNum, AllUser, AllHost, AllV6, AllNum;
  }

  lemma RebuiltPort(t: bytes, d: Split)
    requires Authority(t, 0, |t|, d)
    ensures var s, y := Rebuilt(t, d), End(d.host);
            && PortText(s) == t[if s.bracketed then y + 1 else y..]
            && (s.port.Some? ==> s.port.value != [] && forall i :: 0 <= i < |s.port.value| ==> IsNum(s.port.value[i]))
  {
    hide IsUserinfo, IsHostChar, V6Char, IsNum, AllUser, AllHost, AllV6;
  }

  lemma RebuiltText(t: bytes, d: Split)
    requires Authority(t, 0, |t|, d)
    ensures SiteText(Rebuilt(t, d)) == t
  {
    hide IsUserinfo, IsHostChar, V6Char, IsNum, Authority, UserText, HostText, PortText, HostRead, Rebuilt;
    AuthorityOrder(t, 0, |t|, d);
    RebuiltUser(t, d);
    RebuiltHost(t, d);
    RebuiltPort(t, d);
    var s, h := Rebuilt(t, d), d.host.off;
    var k, m := if s.bracketed then h - 1 else h, if s.bracketed then End(d.host) + 1 else End(d.host);
    assert t == t[..k] + t[k..m] + t[m..];
  }

  lemma RebuiltSite(t: bytes, d: Split)
    requires Authority(t, 0, |t|, d)
    ensures IsSite(Rebuilt(t, d)) && SiteText(Rebuilt(t, d)) == t
  {
    hide IsUserinfo, IsHostChar, V6Char, IsNum, Authority, UserText, HostText, PortText, HostRead, SiteText;
    AuthorityOrder(t, 0, |t|, d);
    RebuiltText(t, d);
    RebuiltUser(t, d);
    RebuiltPort(t, d);
    var s := Rebuilt(t, d);
    forall i | 0 <= i < |s.host| ensures if s.bracketed then V6Char(s.host[i]) else IsHostChar(s.host[i]) {
      assert s.host[i] == t[d.host.off + i];
    }
  }

  /** The grammar of authorities: the automaton may end behind a text if and only if that text is a host or
      a bracketed address, with or without a user before it and a port behind it. */
  lemma SiteAccepted(t: bytes)
    ensures MayEnd(HostWalk(HostStartOf(AT in t), t)) <==> exists s :: IsSite(s) && SiteText(s) == t
  {
    hide HostWalk, IsSite, SiteText, SplitOf, Authority;
    if MayEnd(HostWalk(HostStartOf(AT in t), t)) {
      assert t[0..0 + |t|] == t;
      AuthoritySplit(HostStartOf(AT in t), t, 0, t);
      RebuiltSite(t, SplitOf(HostStartOf(AT in t), t, 0));
    }
    forall s | IsSite(s) && SiteText(s) == t ensures MayEnd(HostWalk(HostStartOf(AT in t), t)) {
      SiteSplit(s, 0);
      SiteChars(s);
    }
  }

  predicate ServerByte(b: byte) { IsUserinfo(b) || b == 91 || b == 93 || b == AT }
}
