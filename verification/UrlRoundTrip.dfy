/** URLs put together from their components: the splitter accepts exactly these,
    and gives the components back. */
module UrlRoundTrip {
  import opened Basics
  import opened HttpTypes
  import opened HttpAct
  import opened HttpTarget
  import opened UrlFields
  import opened UrlHost
  import opened UrlSplit
  import opened UrlPieces

  // ----- servers -----------------------------------------------------------

  datatype HostText = Name(text: seq<Byte>) | Address(v6: seq<Byte>, zone: seq<Byte>)

  /** A server: user information, a name or an address, a port if not empty. */
  datatype Server = Server(user: Maybe<seq<Byte>>, host: HostText, port: seq<Byte>)

  predicate IsV6Char(c: Byte) { IsHex(c) || c == COLON || c == 46 }
  predicate IsZoneChar(c: Byte) { IsAlphaNum(c) || c == 37 || c == 46 || c == 45 || c == 95 || c == 126 }

  predicate HostTextOk(h: HostText) {
    match h
    case Name(text) => text != [] && forall i :: 0 <= i < |text| ==> IsHostChar(text[i])
    case Address(v6, zone) =>
      && v6 != [] && (forall i :: 0 <= i < |v6| ==> IsV6Char(v6[i]))
      && forall i :: 0 <= i < |zone| ==> IsZoneChar(zone[i])
  }

  predicate ServerShape(sv: Server) {
    && (sv.user.Some? ==> forall i :: 0 <= i < |sv.user.value| ==> IsUserinfoChar(sv.user.value[i]))
    && HostTextOk(sv.host)
    && forall i :: 0 <= i < |sv.port| ==> IsNum(sv.port[i])
  }

  predicate ServerTextOk(sv: Server) { ServerShape(sv) && Decimal(sv.port) <= 65535 }

  function UserPieces(user: Maybe<seq<Byte>>): seq<Piece> {
    match user
    case None => []
    case Some(u) => (if u == [] then [] else [Piece(u, Some(Userinfo))]) + [Piece([64], None)]
  }

  function HostPieces(h: HostText): seq<Piece> {
    match h
    case Name(text) => [Piece(text, Some(Host))]
    case Address(v6, zone) =>
      [Piece([91], None), Piece(v6, Some(Host))]
      + (if zone == [] then [] else [Piece([37], Some(Host)), Piece(zone, Some(Host))]) + [Piece([93], None)]
  }

  function PortPieces(port: seq<Byte>): seq<Piece> {
    if port == [] then [] else [Piece([COLON], None), Piece(port, Some(Port))]
  }

  function ServerPieces(sv: Server): seq<Piece> { UserPieces(sv.user) + HostPieces(sv.host) + PortPieces(sv.port) }

  lemma UserLeads(user: Maybe<seq<Byte>>)
    requires user.Some? ==> forall i :: 0 <= i < |user.value| ==> IsUserinfoChar(user.value[i])
    ensures HostLeads(HostFrom(user.Some?), UserPieces(user), HostStart)
  {
    hide HostLeads, IsUserinfoChar;
    match user {
      case None =>
        HostNoneLeads(HostStart);
      case Some(u) =>
        UserChars(u);
        if u == [] {
          assert UserPieces(user) == [Piece([64], None)];
          HostRunLeads(UserinfoStart, [64], HostStart);
        } else {
          HostRunLeads(UserinfoStart, u, InUserinfo);
          HostRunLeads(InUserinfo, [64], HostStart);
          HostJoin(UserinfoStart, [Piece(u, Some(Userinfo))], InUserinfo, [Piece([64], None)], HostStart);
        }
    }
  }

  lemma UserChars(u: seq<Byte>)
    requires forall i :: 0 <= i < |u| ==> IsUserinfoChar(u[i])
    ensures forall i :: 0 <= i < |u| ==>
      ParseHostChar(UserinfoStart, u[i]) == InUserinfo && ParseHostChar(InUserinfo, u[i]) == InUserinfo
    ensures ParseHostChar(UserinfoStart, 64) == HostStart && ParseHostChar(InUserinfo, 64) == HostStart
  {
  }

  function HostEnd(h: HostText): HostState { if h.Name? then InHost else V6End }

  lemma HostTextLeads(h: HostText)
    requires HostTextOk(h)
    ensures HostLeads(HostStart, HostPieces(h), HostEnd(h))
  {
    hide HostLeads;
    match h {
      case Name(text) =>
        HostRunLeads(HostStart, text, InHost);
      case Address(v6, zone) =>
        HostRunLeads(HostStart, [91], V6Start);
        HostRunLeads(V6Start, v6, InV6);
        HostJoin(HostStart, [Piece([91], None)], V6Start, [Piece(v6, Some(Host))], InV6);
        var a := [Piece([91], None), Piece(v6, Some(Host))];
        assert [Piece([91], None)] + [Piece(v6, Some(Host))] == a;
        if zone == [] {
          HostRunLeads(InV6, [93], V6End);
          HostJoin(HostStart, a, InV6, [Piece([93], None)], V6End);
          assert HostPieces(h) == a + [Piece([93], None)];
        } else {
          ZoneLeads(zone);
          var b := [Piece([37], Some(Host)), Piece(zone, Some(Host))] + [Piece([93], None)];
          HostJoin(HostStart, a, InV6, b, V6End);
          assert HostPieces(h) == a + b;
        }
    }
  }

  lemma ZoneLeads(zone: seq<Byte>)
    requires zone != [] && forall i :: 0 <= i < |zone| ==> IsZoneChar(zone[i])
    ensures HostLeads(InV6, [Piece([37], Some(Host)), Piece(zone, Some(Host))] + [Piece([93], None)], V6End)
  {
    hide HostLeads;
    HostRunLeads(InV6, [37], ZoneStart);
    HostRunLeads(ZoneStart, zone, InZone);
    HostRunLeads(InZone, [93], V6End);
    HostJoin(InV6, [Piece([37], Some(Host))], ZoneStart, [Piece(zone, Some(Host))], InZone);
    assert [Piece([37], Some(Host))] + [Piece(zone, Some(Host))] == [Piece([37], Some(Host)), Piece(zone, Some(Host))];
    HostJoin(InV6, [Piece([37], Some(Host)), Piece(zone, Some(Host))], InZone, [Piece([93], None)], V6End);
  }

  lemma PortLeads(h: HostText, port: seq<Byte>)
    requires forall i :: 0 <= i < |port| ==> IsNum(port[i])
    ensures HostLeads(HostEnd(h), PortPieces(port), if port == [] then HostEnd(h) else InPort)
  {
    hide HostLeads;
    if port == [] {
      HostNoneLeads(HostEnd(h));
    } else {
      HostRunLeads(HostEnd(h), [COLON], PortStart);
      HostRunLeads(PortStart, port, InPort);
      HostJoin(HostEnd(h), [Piece([COLON], None)], PortStart, [Piece(port, Some(Port))], InPort);
      assert [Piece([COLON], None)] + [Piece(port, Some(Port))] == PortPieces(port);
    }
  }

  /** The second pass finds the pieces of a server. */
  lemma ServerPartLeads(sv: Server)
    requires ServerShape(sv)
    ensures HostEnds(HostFold(HostFrom(sv.user.Some?), Text(ServerPieces(sv))))
    ensures HostLabels(HostFrom(sv.user.Some?), Text(ServerPieces(sv))) == Marks(ServerPieces(sv))
  {
    hide HostLeads, HostTextOk, IsUserinfoChar, HostPieces, UserPieces, PortPieces;
    var from, end := HostFrom(sv.user.Some?), if sv.port == [] then HostEnd(sv.host) else InPort;
    UserLeads(sv.user);
    HostTextLeads(sv.host);
    PortLeads(sv.host, sv.port);
    HostJoin(from, UserPieces(sv.user), HostStart, HostPieces(sv.host), HostEnd(sv.host));
    HostJoin(from, UserPieces(sv.user) + HostPieces(sv.host), HostEnd(sv.host), PortPieces(sv.port), end);
    LeadsFacts(from, ServerPieces(sv), end);
  }

  lemma LeadsFacts(s: HostState, ps: seq<Piece>, t: HostState)
    requires HostLeads(s, ps, t)
    ensures HostFold(s, Text(ps)) == t && HostLabels(s, Text(ps)) == Marks(ps)
  {
  }

  // ----- the server part inside a URL --------------------------------------

  predicate Plain(c: Byte) { IsUserinfoChar(c) || c == 91 || c == 93 }

  predicate AllPlain(w: seq<Byte>) { forall i :: 0 <= i < |w| ==> Plain(w[i]) }

  lemma {:induction false} TextPlain(ps: seq<Piece>)
    requires forall i :: 0 <= i < |ps| ==> AllPlain(ps[i].text)
    ensures AllPlain(Text(ps))
    decreases |ps|
  {
    hide Plain;
    if ps != [] {
      TextPlain(ps[1..]);
    }
  }

  lemma HostTextPlain(h: HostText, port: seq<Byte>)
    requires HostTextOk(h) && forall i :: 0 <= i < |port| ==> IsNum(port[i])
    ensures AllPlain(Text(HostPieces(h) + PortPieces(port))) && Text(HostPieces(h) + PortPieces(port)) != []
  {
    var ps := HostPieces(h) + PortPieces(port);
    assert ps[0].text != [];
    forall i | 0 <= i < |ps|
      ensures AllPlain(ps[i].text)
    {
    }
    TextPlain(ps);
  }

  function UserText(user: Maybe<seq<Byte>>): seq<Byte> { if user.None? then [] else user.value + [64] }

  lemma UserTextIs(user: Maybe<seq<Byte>>)
    ensures Text(UserPieces(user)) == UserText(user)
  {
    OnePiece(Piece([64], None));
    if user.Some? && user.value != [] {
      var ps := [Piece(user.value, Some(Userinfo))] + [Piece([64], None)];
      assert ps[1..] == [Piece([64], None)];
    } else if user.Some? {
      assert UserPieces(user) == [Piece([64], None)];
    }
  }

  /** The text of a server: an @ exactly behind the user information. */
  lemma ServerTextIs(sv: Server)
    requires ServerShape(sv)
    ensures ServerBytes(Text(ServerPieces(sv)))
    ensures 64 in Text(ServerPieces(sv)) <==> sv.user.Some?
  {
    hide HostTextOk, HostPieces, PortPieces, UserPieces, Text;
    var a, b := UserText(sv.user), Text(HostPieces(sv.host) + PortPieces(sv.port));
    HostTextPlain(sv.host, sv.port);
    UserTextIs(sv.user);
    assert ServerPieces(sv) == UserPieces(sv.user) + (HostPieces(sv.host) + PortPieces(sv.port));
    MarksConcat(UserPieces(sv.user), HostPieces(sv.host) + PortPieces(sv.port));
    AtOnce(sv.user, b);
  }

  lemma AtOnce(user: Maybe<seq<Byte>>, b: seq<Byte>)
    requires (user.Some? ==> forall i :: 0 <= i < |user.value| ==> IsUserinfoChar(user.value[i])) && b != [] && AllPlain(b)
    ensures ServerBytes(UserText(user) + b)
    ensures 64 in UserText(user) + b <==> user.Some?
  {
    hide IsUserinfoChar;
    var w := UserText(user) + b;
    NotAt();
    forall i | 0 <= i < |w|
      ensures IsUserinfoChar(w[i]) || w[i] == 91 || w[i] == 93 || w[i] == 64
      ensures w[i] == 64 <==> user.Some? && i == |user.value|
    {
      if i >= |UserText(user)| {
        assert Plain(b[i - |UserText(user)|]);
      }
    }
    if user.Some? {
      assert w[|user.value|] == 64;
    }
  }

  lemma NotAt()
    ensures !IsUserinfoChar(64)
  {
  }

  predicate Without(ps: seq<Piece>, f: UrlField) { forall i :: 0 <= i < |ps| ==> ps[i].mark != Some(f) }

  lemma {:induction false} MarksWithout(ps: seq<Piece>, f: UrlField)
    requires Without(ps, f)
    ensures Some(f) !in Marks(ps)
    decreases |ps|
  {
    if ps != [] {
      MarksWithout(ps[1..], f);
    }
  }

  /** A server between pieces that belong to no server. */
  datatype Around = Around(pre: seq<Piece>, sv: Server, post: seq<Piece>)

  predicate AroundOk(x: Around, connect: bool, end: State) {
    && ServerShape(x.sv) && Without(x.pre, Host) && Without(x.post, Host)
    && Leads(UrlStart(connect), x.pre, ReqServerStart) && Leads(ReqServer, x.post, end)
  }

  function Rough(x: Around): seq<Piece> { x.pre + [Piece(Text(ServerPieces(x.sv)), Some(Host))] + x.post }
  function Fine(x: Around): seq<Piece> { x.pre + ServerPieces(x.sv) + x.post }

  lemma RoughText(x: Around)
    ensures Text(Fine(x)) == Text(Rough(x)) == Text(x.pre) + Text(ServerPieces(x.sv)) + Text(x.post)
    ensures Marks(Rough(x)) == Marks(x.pre) + Same(Some(Host), |Text(ServerPieces(x.sv))|) + Marks(x.post)
    ensures Marks(Fine(x)) == Marks(x.pre) + Marks(ServerPieces(x.sv)) + Marks(x.post)
  {
    hide Text, Marks, ServerPieces;
    var p := Piece(Text(ServerPieces(x.sv)), Some(Host));
    OnePiece(p);
    MarksConcat(x.pre, [p]);
    MarksConcat(x.pre + [p], x.post);
    MarksConcat(x.pre, ServerPieces(x.sv));
    MarksConcat(x.pre + ServerPieces(x.sv), x.post);
  }

  lemma RoughLeads(x: Around, connect: bool, end: State)
    requires AroundOk(x, connect, end)
    ensures Leads(UrlStart(connect), Rough(x), end)
  {
    hide Leads, ServerPieces, Text, ServerShape;
    var w := Text(ServerPieces(x.sv));
    ServerTextIs(x.sv);
    ServerLeads(w);
    Join(UrlStart(connect), x.pre, ReqServerStart, [Piece(w, Some(Host))], ReqServer);
    Join(UrlStart(connect), x.pre + [Piece(w, Some(Host))], ReqServer, x.post, end);
  }

  /** The bytes the first pass marks as the server are the server. */
  lemma RoughHost(x: Around, connect: bool, end: State, k: nat)
    requires AroundOk(x, connect, end) && k < |Text(Rough(x))|
    ensures var buf, lo, w := Text(Rough(x)), |Text(x.pre)|, Text(ServerPieces(x.sv));
      && |CoarseLabels(buf, UrlStart(connect))| == |buf| >= lo + |w|
      && buf[lo..lo + |w|] == w
      && (CoarseLabels(buf, UrlStart(connect))[k] == Some(Host) <==> lo <= k < lo + |w|)
  {
    hide Text, Marks, ServerPieces, CoarseLabels, UrlFold, Rough, ServerShape;
    RoughLeads(x, connect, end);
    RoughText(x);
    MarksWithout(x.pre, Host);
    MarksWithout(x.post, Host);
    var l, lo, n := Marks(Rough(x)), |Text(x.pre)|, |Text(ServerPieces(x.sv))|;
    if k < lo {
      assert l[k] == Marks(x.pre)[k];
    } else if k >= lo + n {
      assert l[k] == Marks(x.post)[k - lo - n];
    }
  }

  lemma StateInServer(x: Around, connect: bool, end: State, k: nat)
    requires AroundOk(x, connect, end) && k < |Text(ServerPieces(x.sv))|
    ensures var buf, lo, w := Text(Rough(x)), |Text(x.pre)|, Text(ServerPieces(x.sv));
      lo + k < |buf| && (After(buf, UrlStart(connect), lo + k) == ReqServerWithAt <==> w[k] == 64)
  {
    hide Text, ServerPieces, UrlFold, Rough, ServerShape, CoarseLabels;
    RoughText(x);
    var buf, a, w := Text(Rough(x)), Text(x.pre), Text(ServerPieces(x.sv));
    ServerTextIs(x.sv);
    ServerState(w, k);
    assert buf[..|a| + k + 1] == a + w[..k + 1];
    FoldConcat(UrlStart(connect), a, w[..k + 1]);
  }

  /** The first pass notes an @ exactly if there is user information. */
  lemma AtIsUser(x: Around, connect: bool, end: State)
    requires AroundOk(x, connect, end)
    ensures AtSeen(Text(Rough(x)), UrlStart(connect), |Text(Rough(x))|) <==> x.sv.user.Some?
  {
    hide Text, ServerPieces, UrlFold, Rough, ServerShape, AroundOk, After;
    var buf, lo, w := Text(Rough(x)), |Text(x.pre)|, Text(ServerPieces(x.sv));
    RoughText(x);
    ServerOf(x, connect, end);
    if AtSeen(buf, UrlStart(connect), |buf|) {
      var k :| 0 <= k < |buf| && After(buf, UrlStart(connect), k) == ReqServerWithAt;
      AtLabel(buf, UrlStart(connect), k);
      RoughHost(x, connect, end, k);
      StateInServer(x, connect, end, k - lo);
    }
    if 64 in w {
      var k :| 0 <= k < |w| && w[k] == 64;
      StateInServer(x, connect, end, k);
    }
  }

  lemma ServerOf(x: Around, connect: bool, end: State)
    requires AroundOk(x, connect, end)
    ensures 64 in Text(ServerPieces(x.sv)) <==> x.sv.user.Some?
    ensures Text(ServerPieces(x.sv)) != []
  {
    ServerTextIs(x.sv);
  }

  lemma AtLabel(buf: seq<Byte>, from: State, k: nat)
    requires k < |buf| && After(buf, from, k) == ReqServerWithAt
    ensures CoarseLabels(buf, from)[k] == Some(Host)
  {
  }

  lemma ServerPartIs(x: Around, connect: bool, end: State)
    requires AroundOk(x, connect, end)
    ensures ServerPart(Text(Rough(x)), connect) == Text(ServerPieces(x.sv))
  {
    hide Text, ServerPieces, CoarseLabels, Rough, AroundOk, Bytes;
    var buf, lo, w := Text(Rough(x)), |Text(x.pre)|, Text(ServerPieces(x.sv));
    RoughText(x);
    ServerOf(x, connect, end);
    forall k | 0 <= k < |buf|
      ensures |CoarseLabels(buf, UrlStart(connect))| == |buf|
      ensures CoarseLabels(buf, UrlStart(connect))[k] == Some(Host) <==> lo <= k < lo + |w|
    {
      RoughHost(x, connect, end, k);
    }
    RoughHost(x, connect, end, 0);
    BytesSlice(buf, CoarseLabels(buf, UrlStart(connect)), Host, lo, lo + |w|, |buf|);
  }

  /** Both passes together find exactly the pieces. */
  lemma LabelsAre(x: Around, connect: bool, end: State)
    requires AroundOk(x, connect, end)
    ensures UrlLabels(Text(Fine(x)), connect) == Marks(Fine(x))
  {
    hide Text, Marks, ServerPieces, CoarseLabels, Rough, Fine, Bytes, AroundOk, HostFold, FieldOfHost, AtSeen;
    RoughText(x);
    var buf, lo, w := Text(Rough(x)), |Text(x.pre)|, Text(ServerPieces(x.sv));
    forall k | 0 <= k < |buf|
      ensures UrlLabels(buf, connect)[k] == Marks(Fine(x))[k]
    {
      LabelIs(x, connect, end, k);
    }
  }

  lemma LabelIs(x: Around, connect: bool, end: State, k: nat)
    requires AroundOk(x, connect, end) && k < |Text(Rough(x))| == |Text(Fine(x))|
    ensures LabelAt(Text(Rough(x)), connect, k) == Marks(Fine(x))[k]
  {
    hide Text, Marks, ServerPieces, CoarseLabels, Rough, Fine, Bytes, ServerShape, HostFold, FieldOfHost, AtSeen, UrlFold;
    RoughText(x);
    var buf, lo, w := Text(Rough(x)), |Text(x.pre)|, Text(ServerPieces(x.sv));
    var coarse := CoarseLabels(buf, UrlStart(connect));
    RoughLeads(x, connect, end);
    RoughHost(x, connect, end, k);
    if lo <= k < lo + |w| {
      forall j | 0 <= j < |buf|
        ensures coarse[j] == Some(Host) <==> lo <= j < lo + |w|
      {
        RoughHost(x, connect, end, j);
      }
      BytesSlice(buf, coarse, Host, lo, lo + |w|, k + 1);
      assert buf[lo..k + 1] == w[..k - lo + 1];
      AtIsUser(x, connect, end);
      ServerPartLeads(x.sv);
      assert HostLabels(HostFrom(x.sv.user.Some?), w)[k - lo] == Marks(ServerPieces(x.sv))[k - lo];
    }
  }

  // ----- the rest of a URL -------------------------------------------------

  /** Path, query and fragment; the query may be present and empty, and any
      number of # may stand before the fragment. */
  datatype Tail = Tail(path: seq<Byte>, query: Maybe<seq<Byte>>, hashes: nat, fragment: seq<Byte>)

  /** A path starts with a slash; without a server it may be an asterisk. */
  predicate PathStarts(s: State, c: Byte) { c == SLASH || (s == ReqSpacesBeforeUrl && c == 42) }

  lemma PathFirst(s: State, c: Byte)
    requires PathStarts(s, c) && (s == ReqServer || s == ReqSpacesBeforeUrl)
    ensures ParseUrlChar(s, c) == ReqPath
  {
  }

  predicate TailOk(t: Tail, s: State) {
    && (t.path != [] ==> PathStarts(s, t.path[0]) && forall i :: 0 <= i < |t.path| ==> IsUrlChar(t.path[i]))
    && (s == ReqServer || (s == ReqSpacesBeforeUrl && t.path != []))
    && (t.query.Some? ==> forall i :: 0 <= i < |t.query.value| ==> IsUrlChar(t.query.value[i]) || t.query.value[i] == 63)
    && (t.hashes > 0 ==> t.path != [] || t.query.Some?)
    && (t.fragment != [] ==> t.hashes > 0 && t.fragment[0] != 35)
    && forall i :: 0 <= i < |t.fragment| ==> IsUrlChar(t.fragment[i]) || t.fragment[i] == 63 || t.fragment[i] == 35
  }

  function Optional(w: seq<Byte>, f: UrlField): seq<Piece> { if w == [] then [] else [Piece(w, Some(f))] }

  function QueryPieces(q: Maybe<seq<Byte>>): seq<Piece> {
    if q.None? then [] else [Piece([63], None)] + Optional(q.value, Query)
  }

  function Hashes(n: nat): (w: seq<Byte>)
    ensures |w| == n
  {
    seq(n, i => 35)
  }

  function HashPieces(n: nat): seq<Piece> { if n == 0 then [] else [Piece(Hashes(n), None)] }

  function TailPieces(t: Tail): seq<Piece> {
    Optional(t.path, Path) + QueryPieces(t.query) + HashPieces(t.hashes) + Optional(t.fragment, Fragment)
  }

  lemma PathChars(w: seq<Byte>)
    requires forall i :: 0 <= i < |w| ==> IsUrlChar(w[i])
    ensures forall i :: 0 <= i < |w| ==> ParseUrlChar(ReqPath, w[i]) == ReqPath
  {
    forall i | 0 <= i < |w|
      ensures ParseUrlChar(ReqPath, w[i]) == ReqPath
    {
      assert IsUrlChar(w[i]);
    }
  }

  function AfterPath(t: Tail, s: State): State { if t.path == [] then s else ReqPath }

  function AfterQuery(t: Tail, s: State): State {
    if t.query.None? then AfterPath(t, s) else if t.query.value == [] then ReqQueryStart else ReqQuery
  }

  function TailEnd(t: Tail, s: State): State {
    if t.fragment != [] then ReqFragment else if t.hashes > 0 then ReqFragmentStart else AfterQuery(t, s)
  }

  lemma PathLeads(t: Tail, s: State)
    requires TailOk(t, s)
    ensures Leads(s, Optional(t.path, Path), AfterPath(t, s))
  {
    hide Leads, ParseUrlChar;
    if t.path == [] {
      NoneLeads(s);
    } else {
      PathChars(t.path);
      PathFirst(s, t.path[0]);
      RunLeads(s, t.path, ReqPath);
    }
  }

  lemma QueryChars(w: seq<Byte>)
    requires forall i :: 0 <= i < |w| ==> IsUrlChar(w[i]) || w[i] == 63
    ensures forall i :: 0 <= i < |w| ==> ParseUrlChar(ReqQuery, w[i]) == ReqQuery && ParseUrlChar(ReqQueryStart, w[i]) == ReqQuery
  {
    forall i | 0 <= i < |w|
      ensures ParseUrlChar(ReqQuery, w[i]) == ReqQuery && ParseUrlChar(ReqQueryStart, w[i]) == ReqQuery
    {
      assert IsUrlChar(w[i]) || w[i] == 63;
    }
  }

  lemma QuestionMark(s: State)
    requires s == ReqPath || s == ReqServer
    ensures ParseUrlChar(s, 63) == ReqQueryStart
  {
  }

  lemma QueryLeads(t: Tail, s: State)
    requires TailOk(t, s)
    ensures Leads(AfterPath(t, s), QueryPieces(t.query), AfterQuery(t, s))
  {
    hide Leads, ParseUrlChar;
    var from := AfterPath(t, s);
    if t.query.None? {
      NoneLeads(from);
    } else {
      QuestionMark(from);
      RunLeads(from, [63], ReqQueryStart);
      if t.query.value == [] {
        assert QueryPieces(t.query) == [Piece([63], None)];
      } else {
        QueryChars(t.query.value);
        RunLeads(ReqQueryStart, t.query.value, ReqQuery);
        Join(from, [Piece([63], None)], ReqQueryStart, [Piece(t.query.value, Some(Query))], ReqQuery);
      }
    }
  }

  lemma HashMark(s: State)
    requires s == ReqPath || s == ReqQueryStart || s == ReqQuery || s == ReqFragmentStart
    ensures ParseUrlChar(s, 35) == ReqFragmentStart
  {
  }

  lemma HashLeads(t: Tail, s: State)
    requires TailOk(t, s)
    ensures Leads(AfterQuery(t, s), HashPieces(t.hashes), if t.hashes == 0 then AfterQuery(t, s) else ReqFragmentStart)
  {
    hide Leads, ParseUrlChar;
    var from := AfterQuery(t, s);
    if t.hashes == 0 {
      NoneLeads(from);
    } else {
      HashMark(from);
      HashMark(ReqFragmentStart);
      RunLeads(from, Hashes(t.hashes), ReqFragmentStart);
    }
  }

  lemma FragmentChars(w: seq<Byte>)
    requires forall i :: 0 <= i < |w| ==> IsUrlChar(w[i]) || w[i] == 63 || w[i] == 35
    ensures forall i :: 0 <= i < |w| ==> ParseUrlChar(ReqFragment, w[i]) == ReqFragment
    ensures w != [] && w[0] != 35 ==> ParseUrlChar(ReqFragmentStart, w[0]) == ReqFragment
  {
    forall i | 0 <= i < |w|
      ensures ParseUrlChar(ReqFragment, w[i]) == ReqFragment
    {
      assert IsUrlChar(w[i]) || w[i] == 63 || w[i] == 35;
    }
  }

  lemma TailLeads(t: Tail, s: State)
    requires TailOk(t, s)
    ensures Leads(s, TailPieces(t), TailEnd(t, s))
  {
    hide Leads, ParseUrlChar, HashPieces, QueryPieces;
    var a, b, c, d := Optional(t.path, Path), QueryPieces(t.query), HashPieces(t.hashes), Optional(t.fragment, Fragment);
    var mid := if t.hashes == 0 then AfterQuery(t, s) else ReqFragmentStart;
    PathLeads(t, s);
    QueryLeads(t, s);
    HashLeads(t, s);
    Join(s, a, AfterPath(t, s), b, AfterQuery(t, s));
    Join(s, a + b, AfterQuery(t, s), c, mid);
    if t.fragment == [] {
      NoneLeads(mid);
    } else {
      FragmentChars(t.fragment);
      RunLeads(ReqFragmentStart, t.fragment, ReqFragment);
    }
    Join(s, a + b + c, mid, d, TailEnd(t, s));
  }

  // ----- what is given back ------------------------------------------------

  lemma {:induction false} MarkedConcat(a: seq<Piece>, b: seq<Piece>, f: UrlField)
    ensures Marked(a + b, f) == Marked(a, f) + Marked(b, f)
    decreases |a|
  {
    if a == [] {
      assert a + b == b;
    } else {
      assert (a + b)[1..] == a[1..] + b;
      MarkedConcat(a[1..], b, f);
    }
  }

  lemma MarkedOne(p: Piece, f: UrlField)
    ensures Marked([p], f) == if p.mark == Some(f) then p.text else []
  {
    assert [p][1..] == [];
  }

  function TailComponent(t: Tail, f: UrlField): seq<Byte> {
    match f
    case Path => t.path
    case Query => if t.query.Some? then t.query.value else []
    case Fragment => t.fragment
    case _ => []
  }

  lemma MarkedOptional(w: seq<Byte>, g: UrlField, f: UrlField)
    ensures Marked(Optional(w, g), f) == if f == g then w else []
  {
    MarkedOne(Piece(w, Some(g)), f);
  }

  lemma TailMarked(t: Tail, f: UrlField)
    ensures Marked(TailPieces(t), f) == TailComponent(t, f)
  {
    hide Marked, Optional;
    var a, b, c, d := Optional(t.path, Path), QueryPieces(t.query), HashPieces(t.hashes), Optional(t.fragment, Fragment);
    MarkedConcat(a + b + c, d, f);
    MarkedConcat(a + b, c, f);
    MarkedConcat(a, b, f);
    MarkedOptional(t.path, Path, f);
    MarkedOptional(t.fragment, Fragment, f);
    MarkedNone(f);
    MarkedOne(Piece(Hashes(t.hashes), None), f);
    if t.query.Some? {
      MarkedOne(Piece([63], None), f);
      MarkedOptional(t.query.value, Query, f);
      MarkedConcat([Piece([63], None)], Optional(t.query.value, Query), f);
    }
  }

  lemma MarkedNone(f: UrlField)
    ensures Marked([], f) == []
  {
  }

  function ServerComponent(sv: Server, f: UrlField): seq<Byte> {
    match f
    case Userinfo => if sv.user.Some? then sv.user.value else []
    case Host =>
      (match sv.host
       case Name(text) => text
       case Address(v6, zone) => if zone == [] then v6 else v6 + [37] + zone)
    case Port => sv.port
    case _ => []
  }

  lemma UserMarked(user: Maybe<seq<Byte>>, f: UrlField)
    ensures Marked(UserPieces(user), f) == if user.Some? && f == Userinfo then user.value else []
  {
    hide Marked;
    MarkedNone(f);
    MarkedOne(Piece([64], None), f);
    if user.Some? {
      MarkedOne(Piece(user.value, Some(Userinfo)), f);
      MarkedConcat([Piece(user.value, Some(Userinfo))], [Piece([64], None)], f);
      MarkedConcat([], [Piece([64], None)], f);
    }
  }

  lemma HostMarked(h: HostText, f: UrlField)
    ensures Marked(HostPieces(h), f) ==
            if f != Host then [] else match h { case Name(text) => text case Address(v6, zone) => if zone == [] then v6 else v6 + [37] + zone }
  {
    hide Marked;
    match h {
      case Name(text) =>
        MarkedOne(Piece(text, Some(Host)), f);
      case Address(v6, zone) =>
        var a, b := [Piece([91], None), Piece(v6, Some(Host))], [Piece([37], Some(Host)), Piece(zone, Some(Host))];
        var z, c := if zone == [] then [] else b, [Piece([93], None)];
        MarkedOne(a[0], f);
        MarkedOne(a[1], f);
        MarkedConcat([a[0]], [a[1]], f);
        assert a == [a[0]] + [a[1]] && b == [b[0]] + [b[1]];
        MarkedOne(b[0], f);
        MarkedOne(b[1], f);
        MarkedConcat([b[0]], [b[1]], f);
        MarkedOne(c[0], f);
        assert c == [c[0]];
        MarkedNone(f);
        MarkedConcat(a, z, f);
        MarkedConcat(a + z, c, f);
    }
  }

  lemma ServerMarked(sv: Server, f: UrlField)
    ensures Marked(ServerPieces(sv), f) == ServerComponent(sv, f)
  {
    hide Marked, UserPieces, HostPieces;
    UserMarked(sv.user, f);
    HostMarked(sv.host, f);
    MarkedNone(f);
    if sv.port != [] {
      MarkedOne(Piece([COLON], None), f);
      MarkedOne(Piece(sv.port, Some(Port)), f);
      MarkedConcat([Piece([COLON], None)], [Piece(sv.port, Some(Port))], f);
      assert PortPieces(sv.port) == [Piece([COLON], None)] + [Piece(sv.port, Some(Port))];
    }
    MarkedConcat(UserPieces(sv.user), HostPieces(sv.host), f);
    MarkedConcat(UserPieces(sv.user) + HostPieces(sv.host), PortPieces(sv.port), f);
  }

  // ----- whole URLs --------------------------------------------------------

  datatype UrlText = Absolute(scheme: seq<Byte>, sv: Server, tail: Tail) | Local(tail: Tail)

  predicate UrlShape(u: UrlText) {
    match u
    case Absolute(scheme, sv, tail) =>
      && scheme != [] && (forall i :: 0 <= i < |scheme| ==> IsAlpha(scheme[i]))
      && ServerShape(sv) && TailOk(tail, ReqServer)
    case Local(tail) => TailOk(tail, ReqSpacesBeforeUrl)
  }

  /** A URL of the right shape whose port fits 16 bits. */
  predicate UrlTextOk(u: UrlText) { UrlShape(u) && (u.Absolute? ==> Decimal(u.sv.port) <= 65535) }

  function SchemePieces(scheme: seq<Byte>): seq<Piece> {
    [Piece(scheme, Some(Schema))] + [Piece([COLON], None)] + [Piece([SLASH], None)] + [Piece([SLASH], None)]
  }

  function PiecesOf(u: UrlText): seq<Piece> {
    match u
    case Absolute(scheme, sv, tail) => SchemePieces(scheme) + ServerPieces(sv) + TailPieces(tail)
    case Local(tail) => TailPieces(tail)
  }

  /** The URL as it is written. */
  function UrlBytes(u: UrlText): seq<Byte> { Text(PiecesOf(u)) }

  function Component(u: UrlText, f: UrlField): seq<Byte> {
    match u
    case Absolute(scheme, sv, tail) => if f.Schema? then scheme else ServerComponent(sv, f) + TailComponent(tail, f)
    case Local(tail) => TailComponent(tail, f)
  }

  lemma SchemeLeads(scheme: seq<Byte>)
    requires scheme != [] && forall i :: 0 <= i < |scheme| ==> IsAlpha(scheme[i])
    ensures Leads(ReqSpacesBeforeUrl, SchemePieces(scheme), ReqServerStart)
  {
    hide Leads, ParseUrlChar;
    var s, a := ReqSpacesBeforeUrl, [Piece(scheme, Some(Schema))];
    SchemeChars(scheme);
    RunLeads(s, scheme, ReqSchema);
    RunLeads(ReqSchema, [COLON], ReqSchemaSlash);
    RunLeads(ReqSchemaSlash, [SLASH], ReqSchemaSlashSlash);
    RunLeads(ReqSchemaSlashSlash, [SLASH], ReqServerStart);
    Join(s, a, ReqSchema, [Piece([COLON], None)], ReqSchemaSlash);
    Join(s, a + [Piece([COLON], None)], ReqSchemaSlash, [Piece([SLASH], None)], ReqSchemaSlashSlash);
    Join(s, a + [Piece([COLON], None)] + [Piece([SLASH], None)], ReqSchemaSlashSlash, [Piece([SLASH], None)], ReqServerStart);
  }

  lemma SchemeChars(w: seq<Byte>)
    requires forall i :: 0 <= i < |w| ==> IsAlpha(w[i])
    ensures forall i :: 0 <= i < |w| ==> ParseUrlChar(ReqSpacesBeforeUrl, w[i]) == ReqSchema && ParseUrlChar(ReqSchema, w[i]) == ReqSchema
    ensures ParseUrlChar(ReqSchema, COLON) == ReqSchemaSlash && ParseUrlChar(ReqSchemaSlash, SLASH) == ReqSchemaSlashSlash
    ensures ParseUrlChar(ReqSchemaSlashSlash, SLASH) == ReqServerStart
  {
  }

  lemma SchemeMarked(scheme: seq<Byte>, f: UrlField)
    ensures Marked(SchemePieces(scheme), f) == if f == Schema then scheme else []
  {
    hide Marked;
    var a, b, c := [Piece(scheme, Some(Schema))], [Piece([COLON], None)], [Piece([SLASH], None)];
    MarkedOne(Piece(scheme, Some(Schema)), f);
    MarkedOne(Piece([COLON], None), f);
    MarkedOne(Piece([SLASH], None), f);
    MarkedConcat(a, b, f);
    MarkedConcat(a + b, c, f);
    MarkedConcat(a + b + c, c, f);
  }

  lemma ComponentMarked(u: UrlText, f: UrlField)
    ensures Marked(PiecesOf(u), f) == Component(u, f)
  {
    hide Marked, SchemePieces, ServerPieces, TailPieces;
    TailMarked(u.tail, f);
    if u.Absolute? {
      SchemeMarked(u.scheme, f);
      ServerMarked(u.sv, f);
      MarkedConcat(SchemePieces(u.scheme), ServerPieces(u.sv), f);
      MarkedConcat(SchemePieces(u.scheme) + ServerPieces(u.sv), TailPieces(u.tail), f);
    }
  }

  lemma TailWithoutHost(t: Tail)
    ensures Without(TailPieces(t), Host)
  {
  }

  lemma {:induction false} PickHas(w: seq<Byte>, l: Labels, f: UrlField, i: nat, k: nat)
    requires |w| == |l| && k < i <= |w| && l[k] == Some(f)
    ensures Bytes(w, l, f, i) != []
    decreases i
  {
    if k < i - 1 {
      PickHas(w, l, f, i - 1, k);
    }
  }

  lemma ShapeScans(u: UrlText)
    requires UrlShape(u)
    ensures Scans(UrlBytes(u), false) && UrlLabels(UrlBytes(u), false) == Marks(PiecesOf(u))
  {
    hide Scans, UrlLabels, PiecesOf, Marks, TailOk, ServerShape;
    match u {
      case Absolute(scheme, sv, tail) =>
        AbsoluteScans(scheme, sv, tail);
      case Local(tail) =>
        LocalScans(tail);
    }
  }

  /** Every URL put together from its components is accepted, and the splitter
      gives each component back. */
  lemma RoundTrip(u: UrlText)
    requires UrlTextOk(u)
    ensures Accepts(UrlBytes(u), false)
    ensures forall f :: Pick(UrlBytes(u), UrlLabels(UrlBytes(u), false), f) == Component(u, f)
  {
    hide Scans, UrlLabels, Component, Pick, PiecesOf, TailOk, ServerShape, Marks, PortPart, UrlShape;
    ShapeScans(u);
    PortFound(u);
    DecimalStart([]);
    forall f
      ensures Pick(UrlBytes(u), UrlLabels(UrlBytes(u), false), f) == Component(u, f)
    {
      PickMarked(PiecesOf(u), f);
      ComponentMarked(u, f);
    }
  }

  /** Of the right shape, a URL passes both passes, and they label it rightly. */
  lemma AbsoluteScans(scheme: seq<Byte>, sv: Server, tail: Tail)
    requires UrlShape(Absolute(scheme, sv, tail))
    ensures Scans(UrlBytes(Absolute(scheme, sv, tail)), false)
    ensures UrlLabels(UrlBytes(Absolute(scheme, sv, tail)), false) == Marks(PiecesOf(Absolute(scheme, sv, tail)))
  {
    hide Leads, ServerShape, TailOk, Text, Marks, UrlFold, ServerPieces, TailPieces, SchemePieces, CoarseLabels, HostFold, AtSeen, UrlLabels, TailEnd, Bytes;
    var u := Absolute(scheme, sv, tail);
    var x, end := Around(SchemePieces(scheme), sv, TailPieces(tail)), TailEnd(tail, ReqServer);
    SchemeLeads(scheme);
    TailLeads(tail, ReqServer);
    TailWithoutHost(tail);
    SchemeWithoutHost(scheme);
    assert Fine(x) == PiecesOf(u);
    RoughText(x);
    LabelsAre(x, false, end);
    RoughLeads(x, false, end);
    LeadsTo(UrlStart(false), Rough(x), end);
    TailEnds(tail, ReqServer);
    ServerPartIs(x, false, end);
    ServerOf(x, false, end);
    AtIsUser(x, false, end);
    ServerPartLeads(sv);
  }

  /** The port that the splitter finds. */
  lemma PortFound(u: UrlText)
    requires UrlLabels(UrlBytes(u), false) == Marks(PiecesOf(u))
    ensures PortPart(UrlBytes(u), false) == if u.Absolute? then u.sv.port else []
  {
    hide UrlLabels, Marks, Text, PiecesOf, Bytes;
    PickMarked(PiecesOf(u), Port);
    ComponentMarked(u, Port);
    assert u.Absolute? ==> Component(u, Port) == u.sv.port + [] == u.sv.port;
  }

  lemma SchemeWithoutHost(scheme: seq<Byte>)
    ensures Without(SchemePieces(scheme), Host)
  {
  }

  lemma LeadsTo(s: State, ps: seq<Piece>, t: State)
    requires Leads(s, ps, t)
    ensures UrlFold(s, Text(ps)) == t && CoarseLabels(Text(ps), s) == Marks(ps)
  {
  }

  lemma TailEnds(t: Tail, s: State)
    requires TailOk(t, s)
    ensures TailEnd(t, s) != Dead
  {
  }

  lemma LocalScans(tail: Tail)
    requires UrlShape(Local(tail))
    ensures Scans(UrlBytes(Local(tail)), false)
    ensures UrlLabels(UrlBytes(Local(tail)), false) == Marks(PiecesOf(Local(tail)))
  {
    hide Leads, Text, Marks, UrlFold, CoarseLabels, HostFold, AtSeen, TailEnd, Bytes, TailPieces;
    var s, ps := ReqSpacesBeforeUrl, TailPieces(tail);
    var buf := Text(ps);
    TailLeads(tail, s);
    TailEnds(tail, s);
    LeadsTo(s, ps, TailEnd(tail, s));
    TailWithoutHost(tail);
    MarksWithout(ps, Host);
    TailMarked(tail, Host);
    PickMarked(ps, Host);
    TailMarked(tail, Schema);
    NoSchema(buf, Marks(ps), ps);
    assert UrlLabels(buf, false) == Marks(ps);
    PathInside(tail);
  }

  lemma PathInside(t: Tail)
    requires t.path != []
    ensures Text(TailPieces(t)) != []
  {
    assert TailPieces(t)[0] == Piece(t.path, Some(Path));
  }

  lemma NoSchema(buf: seq<Byte>, l: Labels, ps: seq<Piece>)
    requires buf == Text(ps) && l == Marks(ps) && Marked(ps, Schema) == []
    ensures !Has(l, Schema)
  {
    PickMarked(ps, Schema);
    if Has(l, Schema) {
      var k :| 0 <= k < |l| && l[k] == Some(Schema);
      PickHas(buf, l, Schema, |buf|, k);
    }
  }

  /** What a call then reports: a span for each component that is not empty, and
      the component is its text. */
  lemma ReportedBack(u: UrlText, fields: map<UrlField, Span>, port: int)
    requires UrlTextOk(u) && Reports(UrlBytes(u), false, fields, port)
    ensures forall f :: f in fields <==> Component(u, f) != []
    ensures forall f :: f in fields ==>
      && fields[f].off + fields[f].len <= |UrlBytes(u)|
      && UrlBytes(u)[fields[f].off..fields[f].off + fields[f].len] == Component(u, f)
    ensures port == Decimal(Component(u, Port))
  {
    hide UrlTextOk, Component, UrlBytes, UrlLabels, Split, Ordered, OnlyDelimiters, PortDigits, Decimal, Bytes, Has;
    var buf := UrlBytes(u);
    var l := UrlLabels(buf, false);
    RoundTrip(u);
    Lengths(buf, false, HostStart, []);
    forall f
      ensures f in fields <==> Component(u, f) != []
      ensures f in fields ==>
        && fields[f].off + fields[f].len <= |buf|
        && buf[fields[f].off..fields[f].off + fields[f].len] == Component(u, f)
    {
      assert Pick(buf, l, f) == Component(u, f);
      SpanBytes(buf, l, fields, f);
    }
    assert Pick(buf, l, Port) == Component(u, Port);
  }

  /** The target of CONNECT: a host and a port, with no more than delimiters around
      them, namely an @ in front, and a ? and some # behind. */
  predicate ConnectShape(sv: Server, tail: Tail) {
    && ServerTextOk(sv) && sv.port != [] && (sv.user.Some? ==> sv.user.value == [])
    && TailOk(tail, ReqServer) && tail.path == [] && tail.fragment == [] && (tail.query.Some? ==> tail.query.value == [])
  }

  function ConnectBytes(sv: Server, tail: Tail): seq<Byte> { Text(ServerPieces(sv) + TailPieces(tail)) }

  /** Such targets are accepted, and host and port are given back. */
  lemma ConnectRoundTrip(sv: Server, tail: Tail)
    requires ConnectShape(sv, tail)
    ensures Accepts(ConnectBytes(sv, tail), true)
    ensures forall f :: Pick(ConnectBytes(sv, tail), UrlLabels(ConnectBytes(sv, tail), true), f) == ServerComponent(sv, f)
  {
    hide Leads, Text, Marks, UrlFold, ServerPieces, TailPieces, CoarseLabels, HostFold, AtSeen, UrlLabels, Bytes, Decimal, HostTextOk, Has, TailEnd;
    var x, end := Around([], sv, TailPieces(tail)), TailEnd(tail, ReqServer);
    var ps := ServerPieces(sv) + TailPieces(tail);
    var buf := Text(ps);
    NoneLeads(ReqServerStart);
    TailLeads(tail, ReqServer);
    TailEnds(tail, ReqServer);
    TailWithoutHost(tail);
    assert Fine(x) == ps;
    RoughText(x);
    LabelsAre(x, true, end);
    RoughLeads(x, true, end);
    LeadsTo(UrlStart(true), Rough(x), end);
    ServerPartIs(x, true, end);
    ServerOf(x, true, end);
    AtIsUser(x, true, end);
    ServerPartLeads(sv);
    forall f
      ensures Pick(buf, UrlLabels(buf, true), f) == ServerComponent(sv, f)
      ensures Has(UrlLabels(buf, true), f) <==> ServerComponent(sv, f) != []
    {
      PickMarked(ps, f);
      ServerMarked(sv, f);
      TailMarked(tail, f);
      MarkedConcat(ServerPieces(sv), TailPieces(tail), f);
      HasPick(buf, UrlLabels(buf, true), f);
    }
    HostHasText(sv);
    assert Scans(buf, true);
    assert ConnectOk(buf);
    assert PortPart(buf, true) == Pick(buf, UrlLabels(buf, true), Port) == sv.port;
  }

  lemma HasPick(w: seq<Byte>, l: Labels, f: UrlField)
    requires |w| == |l|
    ensures Has(l, f) <==> Pick(w, l, f) != []
  {
    if Has(l, f) {
      var k :| 0 <= k < |l| && l[k] == Some(f);
      PickHas(w, l, f, |w|, k);
    }
    if Pick(w, l, f) != [] {
      var k := BytesSome(w, l, f, |w|);
    }
  }

  lemma HostHasText(sv: Server)
    requires ServerTextOk(sv)
    ensures ServerComponent(sv, Host) != []
  {
  }
}
