/** The second pass over a URL: the server part split into user information,
    host and port (`http_parse_host_char`, `http_parse_host`). */
module UrlHost {
  import opened Basics
  import opened HttpTypes
  import opened UrlFields

  datatype HostState =
    | HostDead | UserinfoStart | InUserinfo | HostStart | V6Start | InHost | InV6 | V6End
    | ZoneStart | InZone | PortStart | InPort

  function ParseHostChar(s: HostState, ch: Byte): HostState {
    match s
    case UserinfoStart | InUserinfo =>
      if ch == 64 /* @ */ then HostStart else if IsUserinfoChar(ch) then InUserinfo else HostDead
    case HostStart => if ch == 91 /* [ */ then V6Start else if IsHostChar(ch) then InHost else HostDead
    case InHost => if IsHostChar(ch) then InHost else if ch == COLON then PortStart else HostDead
    case V6End => if ch == COLON then PortStart else HostDead
    case InV6 => if ch == 93 /* ] */ then V6End else if ch == 37 /* % */ then ZoneStart else ParseV6Char(ch)
    case V6Start => ParseV6Char(ch)
    case InZone => if ch == 93 /* ] */ then V6End else ParseZoneChar(ch)
    case ZoneStart => ParseZoneChar(ch)
    case InPort | PortStart => if IsNum(ch) then InPort else HostDead
    case HostDead => HostDead
  }

  function ParseV6Char(ch: Byte): HostState {
    if IsHex(ch) || ch == COLON || ch == 46 /* . */ then InV6 else HostDead
  }

  /** alphanumerics and % . - _ ~ */
  function ParseZoneChar(ch: Byte): HostState {
    if IsAlphaNum(ch) || ch == 37 || ch == 46 || ch == 45 || ch == 95 || ch == 126 then InZone else HostDead
  }

  function HostFold(s: HostState, u: seq<Byte>): HostState
    decreases |u|
  {
    if u == [] then s else ParseHostChar(HostFold(s, u[..|u| - 1]), u[|u| - 1])
  }

  function HostFrom(at: bool): HostState { if at then UserinfoStart else HostStart }

  /** Where a server part may end. */
  predicate HostEnds(s: HostState) { s.InHost? || s.V6End? || s.InPort? }

  function FieldOfHost(s: HostState): Maybe<UrlField> {
    match s
    case InHost | InV6 | ZoneStart | InZone => Some(Host)
    case InPort => Some(Port)
    case InUserinfo => Some(Userinfo)
    case _ => None
  }

  function HostRank(s: HostState): nat {
    match s
    case HostDead | UserinfoStart => 0
    case InUserinfo | HostStart | V6Start => 3
    case InHost | InV6 | V6End | ZoneStart | InZone | PortStart => 4
    case InPort => 5
  }

  /** Whether the code starts a span when it moves from `s` to `t`. */
  predicate Opens(s: HostState, t: HostState) {
    s != t && (t.InHost? || t.InV6? || t.InPort? || t.InUserinfo?)
  }

  lemma HostStep(s: HostState, ch: Byte)
    requires ParseHostChar(s, ch) != HostDead
    ensures var t := ParseHostChar(s, ch);
      && HostRank(s) <= HostRank(t)
      && (FieldOfHost(t).None? ==> IsDelimiter(ch))
      && (FieldOfHost(t).Some? ==> HostRank(t) == FieldRank(FieldOfHost(t).value))
      && (FieldOfHost(t).Some? && HostRank(s) == HostRank(t) ==> FieldOfHost(s) == FieldOfHost(t))
      && (FieldOfHost(t).Some? ==> (Opens(s, t) <==> FieldOfHost(s) != FieldOfHost(t)))
      && (FieldOfHost(t) == Some(Port) ==> IsNum(ch))
      && (PastHost(t) ==> PastHost(s) || FieldOfHost(t) == Some(Host))
  {
  }

  /** The host has at least one byte behind it. */
  predicate PastHost(s: HostState) { HostRank(s) >= 4 }

  lemma HostFoldStep(s: HostState, u: seq<Byte>, i: nat)
    requires i < |u|
    ensures HostFold(s, u[..i + 1]) == ParseHostChar(HostFold(s, u[..i]), u[i])
  {
    assert u[..i + 1][..i] == u[..i];
  }

  lemma {:induction false} HostDeadForEver(s: HostState, u: seq<Byte>, i: nat)
    requires i <= |u| && HostFold(s, u[..i]) == HostDead
    ensures HostFold(s, u) == HostDead
    decreases |u| - i
  {
    if i < |u| {
      HostFoldStep(s, u, i);
      HostDeadForEver(s, u, i + 1);
    } else {
      assert u[..i] == u;
    }
  }

  function HostLabels(s: HostState, u: seq<Byte>): Labels {
    seq(|u|, k requires 0 <= k < |u| => FieldOfHost(HostFold(s, u[..k + 1])))
  }

  /** The bytes labelled as the port are digits. */
  predicate PortDigits(u: seq<Byte>, labels: Labels, i: nat)
    requires i <= |labels| == |u|
  {
    forall k :: 0 <= k < i && labels[k] == Some(Port) ==> IsNum(u[k])
  }

  /** How far the second pass has come in the server part `u` found at `base`. */
  predicate SecondPass(u: seq<Byte>, at: bool, base: nat, sub: map<UrlField, Span>, last: Maybe<UrlField>, i: nat) {
    && i <= |u|
    && var s, labels := HostFold(HostFrom(at), u[..i]), HostLabels(HostFrom(at), u);
    && s != HostDead
    && Pass(labels, base, sub, FieldOfHost(s), last, HostRank(s), i)
    && OnlyDelimiters(u, labels, 0, i)
    && PortDigits(u, labels, i)
    && (PastHost(s) ==> Host in sub)
  }

  function Next(sub: map<UrlField, Span>, f: UrlField, opens: bool, off: nat): map<UrlField, Span>
    requires opens || f in sub
  {
    sub[f := if opens then Span(off, 1) else Span(sub[f].off, sub[f].len + 1)]
  }

  lemma SecondPassStep(u: seq<Byte>, at: bool, base: nat, sub: map<UrlField, Span>, last: Maybe<UrlField>, i: nat)
    requires i < |u| && SecondPass(u, at, base, sub, last, i) && HostFold(HostFrom(at), u[..i + 1]) != HostDead
    ensures var s, t := HostFold(HostFrom(at), u[..i]), HostFold(HostFrom(at), u[..i + 1]);
      match FieldOfHost(t)
      case None => SecondPass(u, at, base, sub, last, i + 1)
      case Some(f) =>
        && (Opens(s, t) <==> f !in sub)
        && (!Opens(s, t) ==> sub[f].len <= base + i)
        && SecondPass(u, at, base, Next(sub, f, Opens(s, t), base + i), Some(f), i + 1)
  {
    hide HostFold, HostRank, FieldRank, Pass, FieldOfHost, ParseHostChar, Opens, PastHost;
    var from := HostFrom(at);
    HostFoldStep(from, u, i);
    var s, t, labels := HostFold(from, u[..i]), HostFold(from, u[..i + 1]), HostLabels(from, u);
    HostStep(s, u[i]);
    assert labels[i] == FieldOfHost(t);
    PassStep(labels, base, sub, FieldOfHost(s), last, HostRank(s), HostRank(t), i);
  }
}
