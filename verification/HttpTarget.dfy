/** The request target as the request line reads it. */
module HttpTarget {
  import opened Basics
  import opened HttpTypes
  import opened HttpAct
  import opened HttpRun
  import opened HttpInvariant
  import opened HttpSkip
  import opened HttpSteps

  /** `parse_url_char` over a string. */
  function UrlFold(s: State, u: seq<Byte>): State
    decreases |u|
  {
    if u == [] then s else ParseUrlChar(UrlFold(s, u[..|u| - 1]), u[|u| - 1])
  }

  /** A target that could still grow into an accepted one. */
  predicate Target(from: State, u: seq<Byte>) { UrlFold(from, u) != Dead }

  /** Where a target may end. */
  predicate TargetEnds(s: State) { ReqServer <= s <= ReqFragment }

  function UrlStart(connect: bool): State { if connect then ReqServerStart else ReqSpacesBeforeUrl }

  lemma DeadStaysDead(ch: Byte)
    ensures ParseUrlChar(Dead, ch) == Dead
  {
  }

  lemma AcceptedByte(s: State, ch: Byte)
    requires ParseUrlChar(s, ch) != Dead
    ensures ch != SP && ch != CR && ch != LF && UrlState(ParseUrlChar(s, ch))
  {
    UrlStays(s, ch);
  }

  lemma UrlByte(max: nat, p: Parser, log: seq<Event>, ch: Byte, rest: seq<Byte>)
    requires UrlState(p.state) && ParseUrlChar(p.state, ch) != Dead && p.nread + 1 <= max < MOD32 - 1
    ensures Run(max, p, log, [ch] + rest) ==
            Run(max, p.(state := ParseUrlChar(p.state, ch), nread := p.nread + 1), Absorb(log, Url, [ch]), rest)
  {
    hide Run, ParseUrlChar, Absorb;
    AcceptedByte(p.state, ch);
    var q := CountByte(p);
    assert OnByte(q, ch) == OnUrlByte(q, q.state, ch);
    MoreByte(max, p, log, ch, rest, Url);
  }

  lemma FirstUrlByte(max: nat, p: Parser, log: seq<Event>, ch: Byte, rest: seq<Byte>)
    requires p.state == ReqSpacesBeforeUrl && p.nread + 1 <= max < MOD32 - 1
    requires ParseUrlChar(UrlStart(p.verb.CONNECT?), ch) != Dead
    ensures Run(max, p, log, [ch] + rest) ==
            Run(max, p.(state := ParseUrlChar(UrlStart(p.verb.CONNECT?), ch), nread := p.nread + 1), Absorb(log, Url, [ch]), rest)
  {
    hide Run, ParseUrlChar, Absorb;
    AcceptedByte(UrlStart(p.verb.CONNECT?), ch);
    var q := CountByte(p);
    assert OnByte(q, ch) == OnReqSpacesBeforeUrl(q, ch);
    assert [Mark(Url)] + [] == [Mark(Url)];
    FirstByte(max, p, log, ch, rest, Url);
  }

  /** The parser part way through a target. */
  function InTarget(p: Parser, u: seq<Byte>): Parser {
    if u == [] then p else p.(state := UrlFold(UrlStart(p.verb.CONNECT?), u), nread := p.nread + |u|)
  }

  lemma {:induction false} TargetBytes(max: nat, p: Parser, log: seq<Event>, u: seq<Byte>, rest: seq<Byte>)
    requires p.state == ReqSpacesBeforeUrl && p.nread + |u| <= max < MOD32 - 1
    requires Target(UrlStart(p.verb.CONNECT?), u)
    ensures Run(max, p, log, u + rest) == Run(max, InTarget(p, u), Absorb(log, Url, u), rest)
    ensures u != [] ==> UrlState(InTarget(p, u).state)
    decreases |u|
  {
    hide Run, ParseUrlChar, Absorb;
    var from := UrlStart(p.verb.CONNECT?);
    if u == [] {
      assert u + rest == rest;
      AbsorbNone(log, Url);
    } else {
      var init, last := u[..|u| - 1], u[|u| - 1];
      DeadStaysDead(last);
      assert u + rest == init + ([last] + rest);
      TargetBytes(max, p, log, init, [last] + rest);
      AcceptedByte(UrlFold(from, init), last);
      AbsorbMore(log, Url, init, [last]);
      assert init + [last] == u;
      if init == [] {
        FirstUrlByte(max, p, Absorb(log, Url, init), last, rest);
      } else {
        UrlByte(max, InTarget(p, init), Absorb(log, Url, init), last, rest);
      }
    }
  }

  /** A target the automaton accepts is accepted in the request line, reported
      unchanged, and the space behind it leads on to the version. */
  lemma TargetRuns(max: nat, p: Parser, log: seq<Event>, u: seq<Byte>, rest: seq<Byte>)
    requires p.state == ReqSpacesBeforeUrl && p.nread + |u| + 1 <= max < MOD32 - 1
    requires u != [] && TargetEnds(UrlFold(UrlStart(p.verb.CONNECT?), u))
    ensures Run(max, p, log, u + ([SP] + rest)) ==
            Run(max, p.(state := ReqHttpStart, nread := p.nread + |u| + 1), Absorb(log, Url, u), rest)
  {
    hide Run, Absorb, UrlFold;
    TargetBytes(max, p, log, u, [SP] + rest);
    var q := InTarget(p, u);
    assert OnByte(CountByte(q), SP) == OnReqUrl(CountByte(q), SP);
    assert [Flush(Url)] + [] == [Flush(Url)];
    EndByte(max, q, log, SP, rest, Url, u);
  }

  /** A line end behind it stands for the version 0.9. */
  lemma TargetStops(max: nat, p: Parser, log: seq<Event>, u: seq<Byte>, ch: Byte, rest: seq<Byte>)
    requires p.state == ReqSpacesBeforeUrl && p.nread + |u| + 1 <= max < MOD32 - 1 && (ch == CR || ch == LF)
    requires u != [] && TargetEnds(UrlFold(UrlStart(p.verb.CONNECT?), u))
    ensures Run(max, p, log, u + ([ch] + rest)) ==
            Run(max, p.(state := if ch == CR then ReqLineAlmostDone else HeaderFieldStart, nread := p.nread + |u| + 1,
                        major := 0, minor := 9), Absorb(log, Url, u), rest)
  {
    hide Run, Absorb, UrlFold;
    TargetBytes(max, p, log, u, [ch] + rest);
    var q := InTarget(p, u);
    assert OnByte(CountByte(q), ch) == OnReqUrl(CountByte(q), ch);
    assert [Flush(Url)] + [] == [Flush(Url)];
    EndByte(max, q, log, ch, rest, Url, u);
  }
}
