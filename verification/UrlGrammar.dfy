/** The converse of the round trip: every URL that is accepted is put together
    from components in the one way there is. */
module UrlGrammar {
  import opened Basics
  import opened HttpTypes
  import opened HttpAct
  import opened HttpTarget
  import opened UrlFields
  import opened UrlHost
  import opened UrlSplit
  import opened UrlPieces
  import opened UrlRoundTrip

  // ----- how a server is spelled -------------------------------------------

  function HostSpelled(h: HostText): seq<Byte> {
    match h
    case Name(text) => text
    case Address(v6, zone) => [91] + v6 + (if zone == [] then [] else [37] + zone) + [93]
  }

  function PortSpelled(port: seq<Byte>): seq<Byte> { if port == [] then [] else [COLON] + port }

  function ServerSpelled(sv: Server): seq<Byte> { UserText(sv.user) + HostSpelled(sv.host) + PortSpelled(sv.port) }

  lemma HostSpelledIs(h: HostText)
    ensures Text(HostPieces(h)) == HostSpelled(h)
  {
    hide Text;
    match h {
      case Name(text) =>
        OnePiece(Piece(text, Some(Host)));
      case Address(v6, zone) =>
        var a, b := [Piece([91], None), Piece(v6, Some(Host))], [Piece([37], Some(Host)), Piece(zone, Some(Host))];
        var z, c := if zone == [] then [] else b, [Piece([93], None)];
        OnePiece(a[0]);
        OnePiece(a[1]);
        OnePiece(b[0]);
        OnePiece(b[1]);
        OnePiece(c[0]);
        NoPieces();
        assert a == [a[0]] + [a[1]] && b == [b[0]] + [b[1]] && c == [c[0]];
        MarksConcat([a[0]], [a[1]]);
        MarksConcat([b[0]], [b[1]]);
        MarksConcat(a, z);
        MarksConcat(a + z, c);
    }
  }

  lemma NoPieces()
    ensures Text([]) == []
  {
  }

  lemma ServerSpelledIs(sv: Server)
    ensures Text(ServerPieces(sv)) == ServerSpelled(sv)
  {
    hide Text, UserPieces, HostPieces;
    UserTextIs(sv.user);
    HostSpelledIs(sv.host);
    var ps := PortPieces(sv.port);
    if sv.port == [] {
      NoPieces();
    } else {
      OnePiece(ps[0]);
      OnePiece(ps[1]);
      assert ps == [ps[0]] + [ps[1]];
      MarksConcat([ps[0]], [ps[1]]);
    }
    MarksConcat(UserPieces(sv.user), HostPieces(sv.host));
    MarksConcat(UserPieces(sv.user) + HostPieces(sv.host), ps);
  }

  // ----- reading a server back ---------------------------------------------

  /** What has been read of a server; the host is a name if `text` is not empty. */
  datatype Part = Part(user: seq<Byte>, text: seq<Byte>, v6: seq<Byte>, zone: seq<Byte>, port: seq<Byte>)

  function HostOf(p: Part): HostText { if p.text != [] then Name(p.text) else Address(p.v6, p.zone) }

  function Front(at: bool, p: Part): seq<Byte> { if at then p.user + [64] else [] }

  /** What must have been read to be in state `s`. */
  function Spelled(s: HostState, at: bool, p: Part): seq<Byte> {
    match s
    case HostDead | UserinfoStart => []
    case InUserinfo => p.user
    case HostStart => Front(at, p)
    case InHost => Front(at, p) + p.text
    case V6Start => Front(at, p) + [91]
    case InV6 => Front(at, p) + ([91] + p.v6)
    case ZoneStart => Front(at, p) + ([91] + p.v6 + [37])
    case InZone => Front(at, p) + ([91] + p.v6 + ([37] + p.zone))
    case V6End => Front(at, p) + HostSpelled(HostOf(p))
    case PortStart => Front(at, p) + HostSpelled(HostOf(p)) + [COLON]
    case InPort => Front(at, p) + HostSpelled(HostOf(p)) + ([COLON] + p.port)
  }

  predicate Chars(p: Part) {
    && (forall i :: 0 <= i < |p.user| ==> IsUserinfoChar(p.user[i]))
    && (forall i :: 0 <= i < |p.text| ==> IsHostChar(p.text[i]))
    && (forall i :: 0 <= i < |p.v6| ==> IsV6Char(p.v6[i]))
    && (forall i :: 0 <= i < |p.zone| ==> IsZoneChar(p.zone[i]))
    && forall i :: 0 <= i < |p.port| ==> IsNum(p.port[i])
  }

  predicate PartOk(s: HostState, at: bool, p: Part) {
    && Chars(p)
    && match s
       case HostDead => false
       case UserinfoStart => at && p == Part([], [], [], [], [])
       case InUserinfo => at && p.text == [] && p.v6 == [] && p.zone == [] && p.port == []
       case HostStart | V6Start => p.text == [] && p.v6 == [] && p.zone == [] && p.port == []
       case InHost => p.text != [] && p.port == []
       case InV6 | ZoneStart => p.text == [] && p.v6 != [] && p.zone == [] && p.port == []
       case InZone => p.text == [] && p.v6 != [] && p.zone != [] && p.port == []
       case V6End => p.text == [] && p.v6 != [] && p.port == []
       case PortStart => (p.text != [] || p.v6 != []) && p.port == []
       case InPort => (p.text != [] || p.v6 != []) && p.port != []
  }

  /** The part that the next byte belongs to grows by it. */
  function Grown(t: HostState, p: Part, c: Byte): Part {
    match t
    case InUserinfo => p.(user := p.user + [c])
    case InHost => p.(text := p.text + [c])
    case InV6 => p.(v6 := p.v6 + [c])
    case InZone => p.(zone := p.zone + [c])
    case InPort => p.(port := p.port + [c])
    case _ => p
  }

  lemma GrownChars(s: HostState, p: Part, c: Byte)
    requires Chars(p) && ParseHostChar(s, c) != HostDead
    ensures Chars(Grown(ParseHostChar(s, c), p, c))
  {
  }

  lemma GrownOk(s: HostState, at: bool, p: Part, c: Byte)
    requires PartOk(s, at, p) && ParseHostChar(s, c) != HostDead
    ensures PartOk(ParseHostChar(s, c), at, Grown(ParseHostChar(s, c), p, c))
  {
    hide Chars;
    GrownChars(s, p, c);
  }

  lemma GrownSpelled(s: HostState, at: bool, p: Part, c: Byte)
    requires PartOk(s, at, p) && ParseHostChar(s, c) != HostDead
    ensures var t := ParseHostChar(s, c); Spelled(t, at, Grown(t, p, c)) == Spelled(s, at, p) + [c]
  {
    hide Chars, ParseHostChar, Spelled, Front, HostSpelled;
    Moves(s, c);
    match s {
      case UserinfoStart | InUserinfo | HostStart | InHost =>
        NameStep(s, ParseHostChar(s, c), at, p, c);
      case V6Start | InV6 =>
        V6Step(s, ParseHostChar(s, c), at, p, c);
      case ZoneStart | InZone =>
        ZoneStep(s, ParseHostChar(s, c), at, p, c);
      case _ =>
        PortStep(s, ParseHostChar(s, c), at, p, c);
    }
  }

  /** The moves of the host automaton. */
  predicate Move(s: HostState, t: HostState, c: Byte) {
    match s
    case UserinfoStart | InUserinfo => t.InUserinfo? || (t.HostStart? && c == 64)
    case HostStart => t.InHost? || (t.V6Start? && c == 91)
    case InHost => t.InHost? || (t.PortStart? && c == COLON)
    case V6Start => t.InV6?
    case InV6 => t.InV6? || (t.ZoneStart? && c == 37) || (t.V6End? && c == 93)
    case ZoneStart => t.InZone?
    case InZone => t.InZone? || (t.V6End? && c == 93)
    case V6End => t.PortStart? && c == COLON
    case PortStart | InPort => t.InPort?
    case HostDead => false
  }

  lemma Moves(s: HostState, c: Byte)
    requires ParseHostChar(s, c) != HostDead
    ensures Move(s, ParseHostChar(s, c), c)
  {
  }

  lemma NameStep(s: HostState, t: HostState, at: bool, p: Part, c: Byte)
    requires s.UserinfoStart? || s.InUserinfo? || s.HostStart? || s.InHost?
    requires PartOk(s, at, p) && Move(s, t, c)
    ensures Spelled(t, at, Grown(t, p, c)) == Spelled(s, at, p) + [c]
  {
    hide Chars, HostSpelled;
    NameSpelled(p.text);
    if s.InHost? && t.InHost? {
      assert Front(at, p) + p.text + [c] == Front(at, p) + (p.text + [c]);
    }
  }

  lemma V6Step(s: HostState, t: HostState, at: bool, p: Part, c: Byte)
    requires (s.V6Start? || s.InV6?) && PartOk(s, at, p) && Move(s, t, c)
    ensures Spelled(t, at, Grown(t, p, c)) == Spelled(s, at, p) + [c]
  {
    hide Chars, HostSpelled, Front;
    var f := Front(at, p);
    FrontIs(at, p);
    ZoneSpelled(p.v6, p.zone);
    if t.InV6? {
      assert f + ([91] + p.v6) + [c] == f + ([91] + (p.v6 + [c]));
      assert s.V6Start? ==> [91] + p.v6 == [91];
    } else {
      assert f + ([91] + p.v6) + [c] == f + ([91] + p.v6 + [c]);
    }
  }

  lemma ZoneStep(s: HostState, t: HostState, at: bool, p: Part, c: Byte)
    requires (s.ZoneStart? || s.InZone?) && PartOk(s, at, p) && Move(s, t, c)
    ensures Spelled(t, at, Grown(t, p, c)) == Spelled(s, at, p) + [c]
  {
    hide Chars, HostSpelled, Front;
    var f, a := Front(at, p), [91] + p.v6;
    FrontIs(at, p);
    ZoneSpelled(p.v6, p.zone);
    if t.InZone? {
      assert f + (a + ([37] + p.zone)) + [c] == f + (a + ([37] + (p.zone + [c])));
      assert s.ZoneStart? ==> [37] + p.zone == [37];
    } else {
      assert f + (a + ([37] + p.zone)) + [c] == f + (a + ([37] + p.zone) + [c]);
    }
  }

  lemma PortStep(s: HostState, t: HostState, at: bool, p: Part, c: Byte)
    requires (s.V6End? || s.PortStart? || s.InPort?) && PartOk(s, at, p) && Move(s, t, c)
    ensures Spelled(t, at, Grown(t, p, c)) == Spelled(s, at, p) + [c]
  {
    hide Chars, HostSpelled, Front;
    var f, h := Front(at, p), HostSpelled(HostOf(p));
    FrontIs(at, p);
    if t.InPort? {
      assert f + h + ([COLON] + p.port) + [c] == f + h + ([COLON] + (p.port + [c]));
      assert s.PortStart? ==> [COLON] + p.port == [COLON];
    }
  }

  lemma FrontIs(at: bool, p: Part)
    ensures at ==> Front(at, p) == p.user + [64]
    ensures !at ==> Front(at, p) == []
    ensures forall q: Part :: q.user == p.user ==> Front(at, q) == Front(at, p)
  {
  }

  lemma ZoneSpelled(v6: seq<Byte>, zone: seq<Byte>)
    ensures zone == [] ==> HostSpelled(Address(v6, zone)) == [91] + v6 + [93]
    ensures zone != [] ==> HostSpelled(Address(v6, zone)) == [91] + v6 + ([37] + zone) + [93]
  {
  }

  lemma NameSpelled(text: seq<Byte>)
    ensures HostSpelled(Name(text)) == text
  {
  }

  lemma {:induction false} ServerRead(at: bool, w: seq<Byte>) returns (p: Part)
    requires HostFold(HostFrom(at), w) != HostDead
    ensures PartOk(HostFold(HostFrom(at), w), at, p) && Spelled(HostFold(HostFrom(at), w), at, p) == w
    decreases |w|
  {
    hide ParseHostChar, PartOk, Spelled;
    if w == [] {
      p := Part([], [], [], [], []);
      Nothing(at);
    } else {
      var init, c := w[..|w| - 1], w[|w| - 1];
      StaysDead(c);
      var q := ServerRead(at, init);
      var s := HostFold(HostFrom(at), init);
      GrownOk(s, at, q, c);
      GrownSpelled(s, at, q, c);
      p := Grown(ParseHostChar(s, c), q, c);
    }
  }

  lemma Nothing(at: bool)
    ensures PartOk(HostFrom(at), at, Part([], [], [], [], []))
    ensures Spelled(HostFrom(at), at, Part([], [], [], [], [])) == []
  {
  }

  lemma StaysDead(c: Byte)
    ensures ParseHostChar(HostDead, c) == HostDead
  {
  }

  /** A server part that is accepted is a server, spelled in its one way. */
  lemma ServerSound(at: bool, w: seq<Byte>) returns (sv: Server)
    requires HostEnds(HostFold(HostFrom(at), w))
    ensures ServerShape(sv) && sv.user.Some? == at && Text(ServerPieces(sv)) == w
  {
    hide HostFold, ServerPieces;
    var p := ServerRead(at, w);
    sv := Server(if at then Some(p.user) else None, HostOf(p), p.port);
    ServerSpelledIs(sv);
    assert UserText(sv.user) == Front(at, p);
  }

  // ----- reading a URL back ------------------------------------------------

  const NO_TAIL: Tail := Tail([], None, 0, [])

  /** What the first pass has read; without a scheme there is no server part. */
  datatype Read = Read(scheme: seq<Byte>, server: seq<Byte>, tail: Tail)

  function TailSpelled(t: Tail): seq<Byte> {
    t.path + (if t.query.Some? then [63] + t.query.value else []) + Hashes(t.hashes) + t.fragment
  }

  function Base(r: Read): seq<Byte> { if r.scheme == [] then [] else r.scheme + [58, 47, 47] + r.server }

  function UrlSpelled(s: State, r: Read): seq<Byte> {
    if s == ReqSpacesBeforeUrl then []
    else if s == ReqSchema then r.scheme
    else if s == ReqSchemaSlash then r.scheme + [58]
    else if s == ReqSchemaSlashSlash then r.scheme + [58, 47]
    else Base(r) + TailSpelled(r.tail)
  }

  function BaseState(r: Read): State { if r.scheme == [] then ReqSpacesBeforeUrl else ReqServer }

  predicate ReadOk(s: State, r: Read) {
    && (forall i :: 0 <= i < |r.scheme| ==> IsAlpha(r.scheme[i]))
    && if s == ReqSpacesBeforeUrl then r == Read([], [], NO_TAIL)
       else if s == ReqSchema || s == ReqSchemaSlash || s == ReqSchemaSlashSlash || s == ReqServerStart then
         r.scheme != [] && r.server == [] && r.tail == NO_TAIL
       else if s == ReqServer || s == ReqServerWithAt then r.scheme != [] && r.tail == NO_TAIL
       else
         && s != Dead && (r.scheme == [] ==> r.server == [])
         && TailOk(r.tail, BaseState(r)) && s == TailEnd(r.tail, BaseState(r))
  }

  /** The component that the next byte belongs to grows by it. */
  function Longer(t: State, r: Read, c: Byte): Read {
    var d := r.tail;
    if t == ReqSchema then r.(scheme := r.scheme + [c])
    else if t == ReqServer || t == ReqServerWithAt then r.(server := r.server + [c])
    else if t == ReqPath then r.(tail := d.(path := d.path + [c]))
    else if t == ReqQueryStart then r.(tail := d.(query := Some([])))
    else if t == ReqQuery then r.(tail := d.(query := Some(if d.query.Some? then d.query.value + [c] else [c])))
    else if t == ReqFragmentStart then r.(tail := d.(hashes := d.hashes + 1))
    else if t == ReqFragment then r.(tail := d.(fragment := d.fragment + [c]))
    else r
  }

  /** The moves of the URL automaton. */
  predicate UrlMove(s: State, t: State, c: Byte) {
    if s == ReqSpacesBeforeUrl then (t == ReqPath && PathStarts(s, c) && IsUrlChar(c)) || (t == ReqSchema && IsAlpha(c))
    else if s == ReqSchema then (t == ReqSchema && IsAlpha(c)) || (t == ReqSchemaSlash && c == 58)
    else if s == ReqSchemaSlash then t == ReqSchemaSlashSlash && c == 47
    else if s == ReqSchemaSlashSlash then t == ReqServerStart && c == 47
    else if s == ReqServerStart || s == ReqServer || s == ReqServerWithAt then
      t == ReqServer || t == ReqServerWithAt || (t == ReqPath && c == 47 && IsUrlChar(c)) || (t == ReqQueryStart && c == 63)
    else if s == ReqPath then
      (t == ReqPath && IsUrlChar(c)) || (t == ReqQueryStart && c == 63) || (t == ReqFragmentStart && c == 35)
    else if s == ReqQueryStart || s == ReqQuery then
      (t == ReqQuery && (IsUrlChar(c) || c == 63)) || (t == ReqFragmentStart && c == 35)
    else if s == ReqFragmentStart then
      (t == ReqFragment && (IsUrlChar(c) || c == 63) && c != 35) || (t == ReqFragmentStart && c == 35)
    else s == ReqFragment && t == ReqFragment && (IsUrlChar(c) || c == 63 || c == 35)
  }

  lemma UrlMoves(s: State, c: Byte)
    requires ParseUrlChar(s, c) != Dead
    ensures UrlMove(s, ParseUrlChar(s, c), c)
  {
  }

  lemma HeadStep(s: State, t: State, r: Read, c: Byte)
    requires ReadOk(s, r) && UrlMove(s, t, c) && s <= ReqServerWithAt && t <= ReqServerWithAt
    ensures ReadOk(t, Longer(t, r, c)) && UrlSpelled(t, Longer(t, r, c)) == UrlSpelled(s, r) + [c]
  {
    hide IsAlpha, IsUrlChar;
    assert TailSpelled(NO_TAIL) == [];
  }

  lemma TailStarts(s: State, t: State, r: Read, c: Byte)
    requires ReadOk(s, r) && UrlMove(s, t, c) && s <= ReqServerWithAt && t > ReqServerWithAt
    ensures ReadOk(t, Longer(t, r, c)) && UrlSpelled(t, Longer(t, r, c)) == UrlSpelled(s, r) + [c]
  {
    hide IsAlpha, IsUrlChar;
    var d := Longer(t, r, c).tail;
    assert TailSpelled(NO_TAIL) == [];
    assert TailSpelled(d) == [c];
    assert s == ReqSpacesBeforeUrl ==> Base(r) == [];
  }

  lemma TailSteps(s: State, t: State, r: Read, c: Byte)
    requires ReadOk(s, r) && UrlMove(s, t, c) && s > ReqServerWithAt
    ensures ReadOk(t, Longer(t, r, c)) && UrlSpelled(t, Longer(t, r, c)) == UrlSpelled(s, r) + [c]
  {
    hide IsAlpha, IsUrlChar, TailSpelled;
    TailGrows(s, t, r, c);
    assert Base(r) + TailSpelled(r.tail) + [c] == Base(r) + (TailSpelled(r.tail) + [c]);
  }

  lemma TailGrows(s: State, t: State, r: Read, c: Byte)
    requires ReadOk(s, r) && UrlMove(s, t, c) && s > ReqServerWithAt
    ensures TailSpelled(Longer(t, r, c).tail) == TailSpelled(r.tail) + [c]
  {
    hide IsAlpha, IsUrlChar;
  }

  /** What the first pass has read, and which bytes it took for the server. */
  lemma {:induction false} UrlRead(buf: seq<Byte>) returns (r: Read)
    requires UrlFold(ReqSpacesBeforeUrl, buf) != Dead
    ensures ReadOk(UrlFold(ReqSpacesBeforeUrl, buf), r) && UrlSpelled(UrlFold(ReqSpacesBeforeUrl, buf), r) == buf
    ensures Pick(buf, CoarseLabels(buf, ReqSpacesBeforeUrl), Host) == r.server
    ensures Pick(buf, CoarseLabels(buf, ReqSpacesBeforeUrl), Schema) == r.scheme
    decreases |buf|
  {
    hide ParseUrlChar, ReadOk, UrlSpelled, Longer, FieldOfState, Bytes, CoarseLabels;
    var from := ReqSpacesBeforeUrl;
    if buf == [] {
      r := Read([], [], NO_TAIL);
      NothingRead();
    } else {
      var init, c := buf[..|buf| - 1], buf[|buf| - 1];
      DeadStaysDead(c);
      var q := UrlRead(init);
      var s := UrlFold(from, init);
      var t := ParseUrlChar(s, c);
      UrlMoves(s, c);
      r := Longer(t, q, c);
      if s > ReqServerWithAt {
        TailSteps(s, t, q, c);
      } else if t > ReqServerWithAt {
        TailStarts(s, t, q, c);
      } else {
        HeadStep(s, t, q, c);
      }
      assert buf == init + [c];
      PickSnoc(from, init, c, Host);
      PickSnoc(from, init, c, Schema);
      LongerParts(t, q, c);
    }
  }

  lemma NothingRead()
    ensures ReadOk(ReqSpacesBeforeUrl, Read([], [], NO_TAIL)) && UrlSpelled(ReqSpacesBeforeUrl, Read([], [], NO_TAIL)) == []
    ensures forall f :: Pick([], CoarseLabels([], ReqSpacesBeforeUrl), f) == []
  {
  }

  lemma PickSnoc(from: State, w: seq<Byte>, c: Byte, f: UrlField)
    ensures Pick(w + [c], CoarseLabels(w + [c], from), f) ==
            Pick(w, CoarseLabels(w, from), f) + if FieldOfState(ParseUrlChar(UrlFold(from, w), c)) == Some(f) then [c] else []
  {
    hide ParseUrlChar, FieldOfState;
    LabelsConcat(from, w, [c]);
    var s := UrlFold(from, w);
    assert CoarseLabels([c], s) == [FieldOfState(ParseUrlChar(s, c))] by {
      FoldStep(s, [c], 0);
      assert [c][..0] == [];
    }
    BytesSuffix(w, CoarseLabels(w, from), [c], CoarseLabels([c], s), f, 1);
    assert Bytes([c], CoarseLabels([c], s), f, 0) == [];
  }

  lemma LongerParts(t: State, r: Read, c: Byte)
    ensures Longer(t, r, c).server == r.server + if FieldOfState(t) == Some(Host) then [c] else []
    ensures Longer(t, r, c).scheme == r.scheme + if FieldOfState(t) == Some(Schema) then [c] else []
  {
  }

  /** The first pass notes an @ exactly if the server part has one. */
  lemma {:induction false} AtIsByte(buf: seq<Byte>, from: State, i: nat)
    requires i <= |buf| && UrlFold(from, buf) != Dead
    ensures AtSeen(buf, from, i) <==> 64 in Bytes(buf, CoarseLabels(buf, from), Host, i)
  {
    hide ParseUrlChar, UrlFold, FieldOfState;
    if i > 0 {
      AtIsByte(buf, from, i - 1);
      AtSeenStep(buf, from, i - 1);
      FoldStep(from, buf, i - 1);
      if UrlFold(from, buf[..i]) == Dead {
        DeadForEver(from, buf, i);
      }
      AtByte(UrlFold(from, buf[..i - 1]), buf[i - 1]);
      assert CoarseLabels(buf, from)[i - 1] == FieldOfState(UrlFold(from, buf[..i]));
    }
  }

  lemma AtByte(s: State, c: Byte)
    requires ParseUrlChar(s, c) != Dead
    ensures var t := ParseUrlChar(s, c);
      t == ReqServerWithAt <==> FieldOfState(t) == Some(Host) && c == 64
  {
    NotAt();
  }

  lemma SpelledText(u: UrlText)
    ensures UrlBytes(u) == match u
      case Absolute(scheme, sv, tail) => scheme + [58, 47, 47] + Text(ServerPieces(sv)) + TailSpelled(tail)
      case Local(tail) => TailSpelled(tail)
  {
    hide Text, ServerPieces, TailPieces, TailSpelled;
    TailText(u.tail);
    if u.Absolute? {
      var a, b, c := [Piece(u.scheme, Some(Schema))], [Piece([COLON], None)], [Piece([SLASH], None)];
      OnePiece(a[0]);
      OnePiece(b[0]);
      OnePiece(c[0]);
      MarksConcat(a, b);
      MarksConcat(a + b, c);
      MarksConcat(a + b + c, c);
      MarksConcat(SchemePieces(u.scheme), ServerPieces(u.sv));
      MarksConcat(SchemePieces(u.scheme) + ServerPieces(u.sv), TailPieces(u.tail));
      assert u.scheme + [COLON] + [SLASH] + [SLASH] == u.scheme + [58, 47, 47];
    }
  }

  lemma OptionalText(w: seq<Byte>, f: UrlField)
    ensures Text(Optional(w, f)) == w
  {
    OnePiece(Piece(w, Some(f)));
  }

  lemma TailText(t: Tail)
    ensures Text(TailPieces(t)) == TailSpelled(t)
  {
    hide Text, Optional;
    var a, b, c, d := Optional(t.path, Path), QueryPieces(t.query), HashPieces(t.hashes), Optional(t.fragment, Fragment);
    MarksConcat(a + b + c, d);
    MarksConcat(a + b, c);
    MarksConcat(a, b);
    OptionalText(t.path, Path);
    OptionalText(t.fragment, Fragment);
    NoPieces();
    OnePiece(Piece(Hashes(t.hashes), None));
    assert t.hashes == 0 ==> Hashes(t.hashes) == [];
    if t.query.Some? {
      OnePiece(Piece([63], None));
      OptionalText(t.query.value, Query);
      MarksConcat([Piece([63], None)], Optional(t.query.value, Query));
    }
  }

  /** An accepted URL, taken apart. */
  lemma AcceptedSound(buf: seq<Byte>) returns (u: UrlText)
    requires Accepts(buf, false)
    ensures UrlTextOk(u) && UrlBytes(u) == buf
  {
    hide UrlFold, ParseUrlChar, CoarseLabels, HostFold, HostEnds, Text, TailSpelled, TailOk, TailEnd, AtSeen, UrlLabels, Bytes, Decimal, ServerShape, PortPart, UrlBytes;
    var from := ReqSpacesBeforeUrl;
    AcceptedEnds(buf, false);
    var r := UrlRead(buf);
    if r.scheme == [] {
      u := Local(r.tail);
      SpelledText(u);
    } else {
      CoarseLength(buf, from);
      SchemeHas(buf, CoarseLabels(buf, from), r);
      AtIsByte(buf, from, |buf|);
      var sv := ServerSound(AtSeen(buf, from, |buf|), r.server);
      u := Absolute(r.scheme, sv, r.tail);
      EmptyTail(r.tail);
      SpelledText(u);
    }
    assert UrlShape(u);
    ShapeScans(u);
    PortFound(u);
  }

  lemma EmptyTail(t: Tail)
    ensures t == NO_TAIL ==> TailOk(t, ReqServer)
  {
  }

  lemma SchemeHas(buf: seq<Byte>, l: Labels, r: Read)
    requires |buf| == |l| && Pick(buf, l, Schema) == r.scheme
    ensures r.scheme != [] <==> Has(l, Schema)
  {
    HasPick(buf, l, Schema);
  }

  /** The URLs that are accepted are exactly those that can be put together. */
  lemma AcceptedIff(buf: seq<Byte>)
    ensures Accepts(buf, false) <==> exists u :: UrlTextOk(u) && buf == UrlBytes(u)
  {
    hide Accepts, UrlTextOk, UrlBytes;
    if Accepts(buf, false) {
      var u := AcceptedSound(buf);
    }
    if u :| UrlTextOk(u) && buf == UrlBytes(u) {
      RoundTrip(u);
    }
  }

  // ----- CONNECT -----------------------------------------------------------

  /** Any scheme will do to turn a CONNECT target into a URL. */
  const PREFIX: seq<Byte> := [97, 58, 47, 47]  // a://

  lemma PrefixLeads()
    ensures UrlFold(ReqSpacesBeforeUrl, PREFIX) == ReqServerStart
    ensures CoarseLabels(PREFIX, ReqSpacesBeforeUrl) == [Some(Schema), None, None, None]
  {
    hide Leads;
    SchemeLeads([97]);
    LeadsTo(ReqSpacesBeforeUrl, SchemePieces([97]), ReqServerStart);
    var ps := SchemePieces([97]);
    OnePiece(ps[3]);
    assert ps[1..][1..][1..] == [ps[3]];
    assert Text(ps) == PREFIX;
    assert Marks(ps) == [Some(Schema), None, None, None];
  }

  lemma PrefixLabels(buf: seq<Byte>)
    ensures CoarseLabels(PREFIX + buf, ReqSpacesBeforeUrl) == [Some(Schema), None, None, None] + CoarseLabels(buf, ReqServerStart)
    ensures UrlFold(ReqSpacesBeforeUrl, PREFIX + buf) == UrlFold(ReqServerStart, buf)
  {
    hide UrlFold, CoarseLabels;
    PrefixLeads();
    LabelsConcat(ReqSpacesBeforeUrl, PREFIX, buf);
    FoldConcat(ReqSpacesBeforeUrl, PREFIX, buf);
  }

  lemma {:induction false} PrefixBytes(l: Labels, f: UrlField, i: nat)
    requires l == [Some(Schema), None, None, None] && f != Schema && i <= 4
    ensures Bytes(PREFIX, l, f, i) == []
  {
    if i > 0 {
      PrefixBytes(l, f, i - 1);
    }
  }

  /** Behind the prefix, the bytes of a component are those of the target. */
  lemma PrefixPick(buf: seq<Byte>, m: Labels, f: UrlField, i: nat)
    requires |buf| == |m| && f != Schema && i <= |buf|
    ensures Bytes(PREFIX + buf, [Some(Schema), None, None, None] + m, f, 4 + i) == Bytes(buf, m, f, i)
  {
    hide Bytes;
    var l := [Some(Schema), None, None, None];
    PrefixBytes(l, f, 4);
    BytesSuffix(PREFIX, l, buf, m, f, i);
    assert [] + Bytes(buf, m, f, i) == Bytes(buf, m, f, i);
  }

  lemma SameServer(buf: seq<Byte>)
    ensures ServerPart(PREFIX + buf, false) == ServerPart(buf, true)
  {
    hide Bytes, CoarseLabels;
    PrefixLabels(buf);
    CoarseLength(buf, ReqServerStart);
    PrefixPick(buf, CoarseLabels(buf, ReqServerStart), Host, |buf|);
  }

  lemma SameAt(buf: seq<Byte>)
    requires UrlFold(ReqServerStart, buf) != Dead
    ensures AtSeen(PREFIX + buf, ReqSpacesBeforeUrl, |PREFIX + buf|) <==> AtSeen(buf, ReqServerStart, |buf|)
  {
    hide Bytes, CoarseLabels, AtSeen, UrlFold;
    PrefixLabels(buf);
    SameServer(buf);
    AtIsByte(PREFIX + buf, ReqSpacesBeforeUrl, |PREFIX + buf|);
    AtIsByte(buf, ReqServerStart, |buf|);
  }

  lemma SameLabels(buf: seq<Byte>)
    requires UrlFold(ReqServerStart, buf) != Dead
    ensures UrlLabels(PREFIX + buf, false) == [Some(Schema), None, None, None] + UrlLabels(buf, true)
  {
    hide Bytes, CoarseLabels, AtSeen, UrlFold, HostFold, FieldOfHost;
    var l, m := UrlLabels(PREFIX + buf, false), [Some(Schema), None, None, None] + UrlLabels(buf, true);
    PrefixLabels(buf);
    SameAt(buf);
    CoarseLength(buf, ReqServerStart);
    forall k | 0 <= k < 4 + |buf|
      ensures l[k] == m[k]
    {
      if k >= 4 {
        PrefixPick(buf, CoarseLabels(buf, ReqServerStart), Host, k - 3);
      }
    }
  }

  lemma ConnectHasServer(buf: seq<Byte>)
    requires Has(UrlLabels(buf, true), Host)
    ensures ServerPart(buf, true) != []
  {
    hide AtSeen, HostFold, UrlFold;
    var k :| 0 <= k < |buf| && UrlLabels(buf, true)[k] == Some(Host);
    CoarseLength(buf, ReqServerStart);
    PickHas(buf, CoarseLabels(buf, ReqServerStart), Host, |buf|, k);
  }

  lemma AcceptedBehindPrefix(buf: seq<Byte>)
    requires Accepts(buf, true)
    ensures Accepts(PREFIX + buf, false)
  {
    hide Bytes, CoarseLabels, AtSeen, UrlFold, HostFold, HostEnds, UrlLabels, Has, Decimal;
    PrefixLabels(buf);
    SameServer(buf);
    SameAt(buf);
    SameLabels(buf);
    assert Has(UrlLabels(buf, true), Host);
    ConnectHasServer(buf);
    Lengths(buf, true, HostStart, []);
    PrefixPick(buf, UrlLabels(buf, true), Port, |buf|);
    assert Accepts(PREFIX + buf, false);
  }

  /** Behind the prefix there is one way to take the target apart. */
  lemma SchemeIsPrefix(u: UrlText, buf: seq<Byte>)
    requires UrlTextOk(u) && UrlBytes(u) == PREFIX + buf
    ensures u.Absolute? && u.scheme == [97] && ConnectBytes(u.sv, u.tail) == buf
  {
    hide Text, ServerPieces, TailPieces, TailSpelled, UrlBytes;
    SpelledText(u);
    assert (PREFIX + buf)[0] == 97 && (PREFIX + buf)[1] == 58;
    if u.Local? {
      LocalStarts(u.tail);
      assert false;
    } else {
      var rest := Text(ServerPieces(u.sv)) + TailSpelled(u.tail);
      var w := u.scheme + [58, 47, 47] + rest;
      assert w == PREFIX + buf;
      assert w[|u.scheme|] == 58 && w[0] == u.scheme[0];
      assert forall i :: 0 <= i < |u.scheme| ==> w[i] == u.scheme[i] && IsAlpha(u.scheme[i]);
      assert u.scheme == [97];
      assert w[4..] == rest && (PREFIX + buf)[4..] == buf;
      TailText(u.tail);
      MarksConcat(ServerPieces(u.sv), TailPieces(u.tail));
    }
  }

  lemma LocalStarts(t: Tail)
    requires TailOk(t, ReqSpacesBeforeUrl)
    ensures TailSpelled(t) != [] && (TailSpelled(t)[0] == 47 || TailSpelled(t)[0] == 42)
  {
    assert TailSpelled(t)[0] == t.path[0];
  }

  /** The targets that CONNECT accepts are exactly a host and a port with those
      delimiters around them. */
  lemma ConnectSound(buf: seq<Byte>) returns (sv: Server, tail: Tail)
    requires Accepts(buf, true)
    ensures ConnectShape(sv, tail) && ConnectBytes(sv, tail) == buf
  {
    hide UrlFold, CoarseLabels, Bytes, UrlLabels, Decimal, ServerShape, TailOk, UrlBytes, ConnectBytes, Scans, Pick, Has;
    AcceptedBehindPrefix(buf);
    var u := AcceptedSound(PREFIX + buf);
    SchemeIsPrefix(u, buf);
    sv, tail := u.sv, u.tail;
    RoundTrip(u);
    NotDead(buf);
    forall f: UrlField | f != Schema
      ensures Has(UrlLabels(buf, true), f) <==> Component(u, f) != []
    {
      SameLabels(buf);
      Lengths(buf, true, HostStart, []);
      SamePick(buf, f);
      HasPick(buf, UrlLabels(buf, true), f);
      assert Pick(UrlBytes(u), UrlLabels(UrlBytes(u), false), f) == Component(u, f);
    }
    assert Component(u, Userinfo) == [] && Component(u, Path) == [] && Component(u, Query) == [] && Component(u, Fragment) == [];
    assert Component(u, Port) != [];
  }

  lemma NotDead(buf: seq<Byte>)
    requires Accepts(buf, true)
    ensures UrlFold(ReqServerStart, buf) != Dead
  {
  }

  lemma SamePick(buf: seq<Byte>, f: UrlField)
    requires f != Schema && UrlFold(ReqServerStart, buf) != Dead
    requires |UrlLabels(PREFIX + buf, false)| == |PREFIX + buf| && |UrlLabels(buf, true)| == |buf|
    ensures Pick(PREFIX + buf, UrlLabels(PREFIX + buf, false), f) == Pick(buf, UrlLabels(buf, true), f)
  {
    hide Bytes, UrlLabels, UrlFold;
    SameLabels(buf);
    PrefixPick(buf, UrlLabels(buf, true), f, |buf|);
  }

  lemma ConnectIff(buf: seq<Byte>)
    ensures Accepts(buf, true) <==> exists sv, tail :: ConnectShape(sv, tail) && buf == ConnectBytes(sv, tail)
  {
    hide Accepts, ConnectShape, ConnectBytes;
    if Accepts(buf, true) {
      var sv, tail := ConnectSound(buf);
    }
    if sv, tail :| ConnectShape(sv, tail) && buf == ConnectBytes(sv, tail) {
      ConnectRoundTrip(sv, tail);
    }
  }
}
