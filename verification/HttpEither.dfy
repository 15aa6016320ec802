/** A parser that does not know yet whether it reads a request or a response: the
    first two bytes tell. */
module HttpEither {
  import opened Basics
  import opened HttpTypes
  import opened HttpAct
  import opened HttpRun
  import opened HttpInvariant
  import opened HttpSkip
  import opened HttpSteps
  import opened HttpTarget
  import opened HttpHeaders
  import opened HttpLines
  import opened HttpMessage
  import opened HttpResponse

  /** Waiting for either, with `carried` bytes counted already. */
  predicate ReadyForEither(p: Parser, carried: nat) {
    Inv(p) && p.state == StartReqOrRes && p.kind.Both? && p.nread == carried && !p.verb.CONNECT?
  }

  function AsRequest(p: Parser): Parser { p.(kind := Kind.Request, state := StartReq) }

  function AsResponse(p: Parser): Parser { p.(kind := Kind.Response, state := StartRes) }

  lemma FirstByteOf(max: nat, p: Parser, log: seq<Event>, ch: Byte, rest: seq<Byte>)
    requires p.state == StartReqOrRes && p.nread + 1 <= max < MOD32 - 1 && ch != CR && ch != LF
    ensures ch != 72 ==> Run(max, p, log, [ch] + rest) == Run(max, AsRequest(p), log, [ch] + rest)
    ensures var q := p.(flags := NO_FLAGS, length := MAX64, state := ResOrRespH, nread := p.nread + 1);
      ch == 72 ==> Run(max, p, log, [ch] + rest) == Run(max, q, Push(log, MessageBegin), rest)
  {
    hide Run, Push;
    var q, u := CountByte(p), CountByte(AsRequest(p));
    assert OnByte(q, ch) == OnStartReqOrRes(q, ch) && OnByte(u, ch) == OnStartReq(u, ch);
    if ch == 72 {
      assert [Notify(MessageBegin)] + [] == [Notify(MessageBegin)];
      NotifyByte(max, p, log, ch, rest, MessageBegin);
    } else {
      RunCons(max, p, log, ch, rest);
      RunCons(max, AsRequest(p), log, ch, rest);
      assert OnByte(q, ch) == OnByte(u, ch);
    }
  }

  /** H and E start a HEAD request. */
  lemma HeadOf(max: nat, p: Parser, log: seq<Event>, rest: seq<Byte>)
    requires p.state == StartReqOrRes && p.nread + 2 <= max < MOD32 - 1
    ensures Run(max, p, log, [72] + ([69] + rest)) == Run(max, AsRequest(p), log, [72] + ([69] + rest))
  {
    hide Run, Push;
    FirstByteOf(max, p, log, 72, [69] + rest);
    var q := p.(flags := NO_FLAGS, length := MAX64, state := ResOrRespH, nread := p.nread + 1);
    assert OnByte(CountByte(q), 69) == OnResOrRespH(CountByte(q), 69);
    QuietByte(max, q, Push(log, MessageBegin), 69, rest);
    var u := AsRequest(p);
    assert OnByte(CountByte(u), 72) == OnStartReq(CountByte(u), 72);
    assert [Notify(MessageBegin)] + [] == [Notify(MessageBegin)];
    NotifyByte(max, u, log, 72, [69] + rest, MessageBegin);
    var u1 := u.(flags := NO_FLAGS, length := MAX64, verb := HEAD, index := 1, state := ReqMethod, nread := p.nread + 1);
    assert OnByte(CountByte(u1), 69) == OnReqMethod(CountByte(u1), 69);
    assert MethodName(HEAD)[1] == 69;
    QuietByte(max, u1, Push(log, MessageBegin), 69, rest);
  }

  /** H and T start a response. */
  lemma HttpOf(max: nat, p: Parser, log: seq<Event>, rest: seq<Byte>)
    requires p.state == StartReqOrRes && p.nread + 2 <= max < MOD32 - 1
    ensures Run(max, p, log, [72] + ([84] + rest)) == Run(max, AsResponse(p), log, [72] + ([84] + rest))
  {
    hide Run, Push;
    FirstByteOf(max, p, log, 72, [84] + rest);
    var q := p.(flags := NO_FLAGS, length := MAX64, state := ResOrRespH, nread := p.nread + 1);
    assert OnByte(CountByte(q), 84) == OnResOrRespH(CountByte(q), 84);
    QuietByte(max, q, Push(log, MessageBegin), 84, rest);
    var u := AsResponse(p);
    assert OnByte(CountByte(u), 72) == OnStartRes(CountByte(u), 72);
    assert [Notify(MessageBegin)] + [] == [Notify(MessageBegin)];
    NotifyByte(max, u, log, 72, [84] + rest, MessageBegin);
    var u1 := u.(flags := NO_FLAGS, length := MAX64, state := ResH, nread := p.nread + 1);
    assert OnByte(CountByte(u1), 84) == OnResponseLine(CountByte(u1), 84);
    QuietByte(max, u1, Push(log, MessageBegin), 84, rest);
  }

  /** Anything else behind H is refused. */
  lemma NeitherOf(max: nat, p: Parser, log: seq<Event>, ch: Byte, rest: seq<Byte>)
    requires p.state == StartReqOrRes && p.nread + 2 <= max < MOD32 - 1 && ch != 69 && ch != 84
    ensures Run(max, p, log, [72] + ([ch] + rest)) == Broken(INVALID_CONSTANT, [ch] + rest)
  {
    hide Run, Push;
    FirstByteOf(max, p, log, 72, [ch] + rest);
    var q := p.(flags := NO_FLAGS, length := MAX64, state := ResOrRespH, nread := p.nread + 1);
    assert OnByte(CountByte(q), ch) == OnResOrRespH(CountByte(q), ch);
    RunCons(max, q, Push(log, MessageBegin), ch, rest);
  }

  lemma MethodStart(m: Method)
    ensures var w := MethodName(m);
      w[0] != CR && w[0] != LF && (w[0] == 72 ==> m.HEAD?) && (m.HEAD? ==> w[0] == 72 && w[1] == 69)
  {
  }

  /** A request is read as by a parser for requests. */
  lemma EitherRequest(max: nat, p: Parser, log: seq<Event>, r: Request, carried: nat, rest: seq<Byte>) returns (q: Parser)
    requires ReadyForEither(p, carried) && RequestOk(max, carried, r)
    ensures Run(max, p, log, RequestBytes(r, rest)) ==
            if Leaves(r) then Stopped(q, log + RequestEvents(r), rest) else Run(max, q, log + RequestEvents(r), rest)
    ensures Waiting(q, r)
  {
    hide Run, MethodName, VersionPart, Spaces, UrlFold, FramingOk, HeadersBytes, HeadersSize, BodyBytesOf, Ending, Stays, Leaves, Inv, LineEnds;
    var w := MethodName(r.verb);
    MethodStart(r.verb);
    var body := HeadersBytes(r.headers, Ending(r.bareEnd, BodyBytesOf(BodyRead(r), rest)));
    var tail := [SP] + (Spaces(r.lead) + (r.target + VersionPart(r, body)));
    var n := |r.blank|;
    BlankLines(max, p, log, r.blank, w + tail);
    BlankLines(max, AsRequest(p), log, r.blank, w + tail);
    var p1 := p.(nread := p.nread + n);
    if r.verb.HEAD? {
      assert w + tail == [72] + ([69] + (w[2..] + tail));
      HeadOf(max, p1, log, w[2..] + tail);
    } else {
      assert w + tail == [w[0]] + (w[1..] + tail);
      FirstByteOf(max, p1, log, w[0], w[1..] + tail);
    }
    EitherInv(p);
    q := RequestRuns(max, AsRequest(p), log, r, carried, rest);
  }

  lemma EitherInv(p: Parser)
    requires Inv(p) && p.state == StartReqOrRes
    ensures Inv(AsRequest(p)) && Inv(AsResponse(p))
  {
  }

  /** A response is read as by a parser for responses. */
  lemma EitherResponse(max: nat, p: Parser, log: seq<Event>, r: Response, carried: nat, rest: seq<Byte>) returns (q: Parser)
    requires ReadyForEither(p, carried) && ResponseOk(max, carried, r) && Delimited(r)
    ensures var es := log + ResponseHeadEvents(r) + BodyEvents(r.framing);
      Run(max, p, log, ResponseBytes(r, rest)) == if Switches(r) then Stopped(q, es, rest) else Run(max, q, es, rest)
    ensures WaitingForResponse(q, r)
  {
    hide Run, FramingOk, HeadersBytes, HeadersSize, BodyBytesOf, Ending, ResponseStays, Switches, Inv, LineEnds, Delimited,
      ResponseHeadEvents, BodyEvents, ReasonBytesOf, Spaces, ReasonSize, WaitingForResponse;
    var body := HeadersBytes(r.headers, Ending(r.bareEnd, BodyBytesOf(r.framing, rest)));
    var tail := Spaces(r.lead) + (r.code + ReasonBytesOf(r, body));
    var line := Prologue(r.major, r.minor, tail);
    BlankLines(max, p, log, r.blank, line);
    BlankLines(max, AsResponse(p), log, r.blank, line);
    HttpOf(max, p.(nread := p.nread + |r.blank|), log, line[2..]);
    assert line == [72] + ([84] + line[2..]);
    EitherInv(p);
    q := ResponseRuns(max, AsResponse(p), log, r, carried, rest);
  }

  /** From a new parser of either kind. */
  lemma EitherFromInit()
    ensures ReadyForEither(Init(Both), 0)
  {
  }
}
