/** Whole requests: what is written is what is reported, one request after the
    other on one connection. */
module HttpMessage {
  import opened Basics
  import opened HttpTypes
  import opened HttpAct
  import opened HttpRun
  import opened HttpInvariant
  import opened HttpSkip
  import opened HttpSteps
  import opened HttpLength
  import opened HttpMethods
  import opened HttpTarget
  import opened HttpHeaders
  import opened HttpLines
  import opened HttpChunked

  /** A message's body. */
  datatype Framing = NoBody | Sized(data: seq<Byte>) | Coded(chunks: seq<Chunk>, last: LastChunk)

  type Digit = d: nat | d < 10

  /** HTTP/ or ICE/ with a one-digit version, or nothing, which is HTTP/0.9. */
  datatype Protocol = Http(major: Digit, minor: Digit) | Ice(major: Digit, minor: Digit) | Old

  function Major(v: Protocol): Digit { if v.Old? then 0 else v.major }
  function Minor(v: Protocol): Digit { if v.Old? then 9 else v.minor }

  /** A request with any headers. There may be line ends in front, and more than one space
      in front of the target and the version; its first line and the empty line may end
      in LF alone. */
  datatype Request = Request(blank: seq<Byte>, verb: Method, lead: nat, target: seq<Byte>, gap: nat, protocol: Protocol,
                             bareLine: bool, headers: seq<Header>, bareEnd: bool, framing: Framing)

  /** The bytes behind the target. */
  function VersionSize(r: Request): nat {
    match r.protocol
    case Http(_, _) => 1 + r.gap + 8 + EndSize(r.bareLine)
    case Ice(_, _) => 1 + r.gap + 7 + EndSize(r.bareLine)
    case Old => EndSize(r.bareLine)
  }

  function LineSize(r: Request): nat { |r.blank| + |MethodName(r.verb)| + 1 + r.lead + |r.target| + VersionSize(r) }

  /** The bytes up to and including the empty line. */
  function HeadSize(r: Request): nat { LineSize(r) + HeadersSize(r.headers) + EndSize(r.bareEnd) }

  // ----- what the headers say ----------------------------------------------

  /** The flags at the end of the head, and at the end of the message. */
  function HeadFlags(hs: seq<Header>): Flags { HeadersFlags(NO_FLAGS, hs) }

  function LastFlags(hs: seq<Header>, fr: Framing): Flags {
    if fr.Coded? then TrailerFlags(HeadFlags(hs), fr.last.trailer) else HeadFlags(hs)
  }

  /** The body is the one that the flags and the length announce. */
  predicate Frames(f: Flags, length: nat, fr: Framing) {
    match fr
    case NoBody => !f.chunked && !f.contentLength
    case Sized(data) => !f.chunked && f.contentLength && length == |data|
    case Coded(_, _) => f.chunked && !f.contentLength
  }

  /** Headers that are taken, and the body that they announce. */
  predicate FramingOk(max: nat, hs: seq<Header>, fr: Framing) {
    && AllFine(false, hs) && Frames(HeadFlags(hs), HeadersLength(MAX64, hs), fr)
    && (fr.Coded? ==> LastOk(max, false, fr.last) && forall i :: 0 <= i < |fr.chunks| ==> ChunkOk(max, fr.chunks[i]))
  }

  /** Whether the connection goes on after a message: from version 1.1 on unless
      close is heard, before that only if keep-alive is. */
  predicate GoesOn(major: nat, minor: nat, f: Flags) { if major > 0 && minor > 0 then !f.close else f.keepAlive }

  /** The body that is read: behind CONNECT there is none, whatever its headers say. */
  function BodyRead(r: Request): Framing { if r.verb.CONNECT? then NoBody else r.framing }

  predicate Stays(r: Request) { GoesOn(Major(r.protocol), Minor(r.protocol), LastFlags(r.headers, BodyRead(r))) }

  /** Bytes that count towards the header limit of the next message. */
  function Carried(f: Framing): nat { if f.Coded? then TrailerSize(f.last) else 0 }

  predicate LineEnds(w: seq<Byte>) { forall i :: 0 <= i < |w| ==> w[i] == CR || w[i] == LF }

  predicate LineOk(r: Request) {
    && LineEnds(r.blank) && (r.protocol.Ice? ==> r.verb.SOURCE?)
    && r.target != [] && TargetEnds(UrlFold(UrlStart(r.verb.CONNECT?), r.target))
  }

  /** It asks for another protocol. */
  predicate Leaves(r: Request) { r.verb.CONNECT? || (HeadFlags(r.headers).upgrade && HeadFlags(r.headers).connUpgrade) }

  /** A request within the limits, after `carried` bytes. */
  predicate RequestOk(max: nat, carried: nat, r: Request) {
    LineOk(r) && FramingOk(max, r.headers, r.framing) && carried + HeadSize(r) <= max < MOD32 - 1
  }

  // ----- the wire format, each part followed by `rest` ---------------------

  function DigitByte10(d: Digit): Byte { 48 + d }

  function Spaces(n: nat): (w: seq<Byte>)
    ensures |w| == n
  {
    seq(n, i => SP)
  }

  /** The version behind its slash, and the line's end. */
  function VersionTail(major: Digit, minor: Digit, bare: bool, rest: seq<Byte>): seq<Byte> {
    [DigitByte10(major)] + ([46] + ([DigitByte10(minor)] + Ending(bare, rest)))
  }

  function VersionPart(r: Request, rest: seq<Byte>): seq<Byte> {
    match r.protocol
    case Http(major, minor) => [SP] + (Spaces(r.gap) + ([72, 84, 84, 80, 47] + VersionTail(major, minor, r.bareLine, rest)))
    case Ice(major, minor) => [SP] + (Spaces(r.gap) + ([73, 67, 69, 47] + VersionTail(major, minor, r.bareLine, rest)))
    case Old => Ending(r.bareLine, rest)
  }

  function BodyBytesOf(f: Framing, rest: seq<Byte>): seq<Byte> {
    match f
    case NoBody => rest
    case Sized(data) => data + rest
    case Coded(cs, last) => BodyOf(cs, last, rest)
  }

  function RequestLine(r: Request, rest: seq<Byte>): seq<Byte> {
    r.blank + (MethodName(r.verb) + ([SP] + (Spaces(r.lead) + (r.target + VersionPart(r, rest)))))
  }

  function HeadBytes(r: Request, rest: seq<Byte>): seq<Byte> {
    RequestLine(r, HeadersBytes(r.headers, Ending(r.bareEnd, rest)))
  }

  function RequestBytes(r: Request, rest: seq<Byte>): seq<Byte> {
    HeadBytes(r, BodyBytesOf(BodyRead(r), rest))
  }

  // ----- the callbacks -----------------------------------------------------

  function HeadDone(r: Request): Event {
    HeadersComplete(RequestHead(r.verb), Major(r.protocol), Minor(r.protocol), r.framing.Coded?,
                    if r.framing.Sized? then |r.framing.data| else MAX64, Leaves(r))
  }

  /** Each body is reported with exactly the bytes it was given. */
  function BodyEvents(f: Framing): seq<Event> {
    match f
    case NoBody => [MessageComplete]
    case Sized(data) => if data == [] then [MessageComplete] else [Data(Body, data), MessageComplete]
    case Coded(cs, last) => ChunkEvents(cs, last.trailer)
  }

  function RequestEvents(r: Request): seq<Event> {
    [MessageBegin, Data(Url, r.target)] + HeadersEvents(r.headers) + [HeadDone(r)] + BodyEvents(BodyRead(r))
  }

  // ----- version and headers -----------------------------------------------

  lemma VersionByte(max: nat, p: Parser, log: seq<Event>, ch: Byte, s: State, rest: seq<Byte>)
    requires p.nread + 1 <= max < MOD32 - 1
    requires (p.state == ReqHttpStart && ch == 72 && s == ReqH) || (p.state == ReqH && ch == 84 && s == ReqHT)
          || (p.state == ReqHT && ch == 84 && s == ReqHTT) || (p.state == ReqHTT && ch == 80 && s == ReqHTTP)
          || (p.state == ReqHttpStart && ch == SP && s == ReqHttpStart) || (p.state == ReqHttpStart && ch == 73 && p.verb.SOURCE? && s == ReqI)
          || (p.state == ReqI && ch == 67 && s == ReqIC) || (p.state == ReqIC && ch == 69 && s == ReqHTTP)
          || (p.state == ReqHTTP && ch == 47 && s == ReqMajor) || (p.state == ReqMajor && IsNum(ch) && s == ReqDot)
          || (p.state == ReqDot && ch == 46 && s == ReqMinor) || (p.state == ReqMinor && IsNum(ch) && s == ReqEnd)
          || (p.state == ReqEnd && ch == CR && s == ReqLineAlmostDone) || (p.state == ReqEnd && ch == LF && s == HeaderFieldStart)
          || (p.state == ReqLineAlmostDone && ch == LF && s == HeaderFieldStart)
    ensures Run(max, p, log, [ch] + rest) ==
            Run(max, p.(state := s, nread := p.nread + 1, major := if p.state == ReqMajor then ch - 48 else p.major,
                        minor := if p.state == ReqMinor then ch - 48 else p.minor), log, rest)
  {
    hide Run;
    var q := CountByte(p);
    assert OnByte(q, ch) == OnRequestLine(q, ch);
    QuietByte(max, p, log, ch, rest);
  }

  lemma VersionRuns(max: nat, p: Parser, log: seq<Event>, major: Digit, minor: Digit, bare: bool, rest: seq<Byte>)
    requires p.state == ReqMajor && p.nread + 3 + EndSize(bare) <= max < MOD32 - 1
    ensures Run(max, p, log, VersionTail(major, minor, bare, rest)) ==
            Run(max, p.(state := HeaderFieldStart, nread := p.nread + 3 + EndSize(bare), major := major, minor := minor), log, rest)
  {
    hide Run;
    var n, a, b, ending := p.nread, DigitByte10(major), DigitByte10(minor), Ending(bare, rest);
    VersionByte(max, p, log, a, ReqDot, [46] + ([b] + ending));
    VersionByte(max, p.(state := ReqDot, nread := n + 1, major := major), log, 46, ReqMinor, [b] + ending);
    VersionByte(max, p.(state := ReqMinor, nread := n + 2, major := major), log, b, ReqEnd, ending);
    var q1 := p.(state := ReqEnd, nread := n + 3, major := major, minor := minor);
    if bare {
      VersionByte(max, q1, log, LF, HeaderFieldStart, rest);
    } else {
      VersionByte(max, q1, log, CR, ReqLineAlmostDone, [LF] + rest);
      VersionByte(max, q1.(state := ReqLineAlmostDone, nread := n + 4), log, LF, HeaderFieldStart, rest);
    }
  }

  lemma HttpRuns(max: nat, p: Parser, log: seq<Event>, rest: seq<Byte>)
    requires p.state == ReqHttpStart && p.nread + 5 <= max < MOD32 - 1
    ensures Run(max, p, log, [72, 84, 84, 80, 47] + rest) == Run(max, p.(state := ReqMajor, nread := p.nread + 5), log, rest)
  {
    hide Run;
    var n := p.nread;
    assert [72, 84, 84, 80, 47] + rest == [72] + ([84] + ([84] + ([80] + ([47] + rest))));
    VersionByte(max, p, log, 72, ReqH, [84] + ([84] + ([80] + ([47] + rest))));
    VersionByte(max, p.(state := ReqH, nread := n + 1), log, 84, ReqHT, [84] + ([80] + ([47] + rest)));
    VersionByte(max, p.(state := ReqHT, nread := n + 2), log, 84, ReqHTT, [80] + ([47] + rest));
    VersionByte(max, p.(state := ReqHTT, nread := n + 3), log, 80, ReqHTTP, [47] + rest);
    VersionByte(max, p.(state := ReqHTTP, nread := n + 4), log, 47, ReqMajor, rest);
  }

  lemma IceRuns(max: nat, p: Parser, log: seq<Event>, rest: seq<Byte>)
    requires p.state == ReqHttpStart && p.verb.SOURCE? && p.nread + 4 <= max < MOD32 - 1
    ensures Run(max, p, log, [73, 67, 69, 47] + rest) == Run(max, p.(state := ReqMajor, nread := p.nread + 4), log, rest)
  {
    hide Run;
    var n := p.nread;
    assert [73, 67, 69, 47] + rest == [73] + ([67] + ([69] + ([47] + rest)));
    VersionByte(max, p, log, 73, ReqI, [67] + ([69] + ([47] + rest)));
    VersionByte(max, p.(state := ReqI, nread := n + 1), log, 67, ReqIC, [69] + ([47] + rest));
    VersionByte(max, p.(state := ReqIC, nread := n + 2), log, 69, ReqHTTP, [47] + rest);
    VersionByte(max, p.(state := ReqHTTP, nread := n + 3), log, 47, ReqMajor, rest);
  }

  /** Further spaces in a request line are passed over. */
  lemma {:induction false} SpacesRun(max: nat, p: Parser, log: seq<Event>, n: nat, rest: seq<Byte>)
    requires (p.state == ReqSpacesBeforeUrl || p.state == ReqHttpStart) && p.nread + n <= max < MOD32 - 1
    ensures Run(max, p, log, Spaces(n) + rest) == Run(max, p.(nread := p.nread + n), log, rest)
    decreases n
  {
    hide Run;
    if n == 0 {
      assert Spaces(n) + rest == rest;
    } else {
      var more := Spaces(n - 1) + rest;
      assert Spaces(n) + rest == [SP] + more;
      var q := CountByte(p);
      assert OnByte(q, SP) == OnRequestLine(q, SP);
      QuietByte(max, p, log, SP, more);
      SpacesRun(max, p.(nread := p.nread + 1), log, n - 1, rest);
    }
  }

  /** The rest of the line behind a target that has been reported. */
  lemma ProtocolRuns(max: nat, p: Parser, log: seq<Event>, r: Request, rest: seq<Byte>)
    requires p.state == ReqHttpStart && !r.protocol.Old? && (r.protocol.Ice? ==> p.verb.SOURCE?)
    requires p.nread + VersionSize(r) - 1 <= max < MOD32 - 1
    ensures Run(max, p, log, VersionPart(r, rest)[1..]) ==
            Run(max, p.(state := HeaderFieldStart, nread := p.nread + VersionSize(r) - 1,
                        major := Major(r.protocol), minor := Minor(r.protocol)), log, rest)
  {
    hide Run, VersionTail, Spaces;
    var v := r.protocol;
    var tail := VersionTail(v.major, v.minor, r.bareLine, rest);
    var q := p.(nread := p.nread + r.gap);
    if v.Http? {
      assert VersionPart(r, rest)[1..] == Spaces(r.gap) + ([72, 84, 84, 80, 47] + tail);
      SpacesRun(max, p, log, r.gap, [72, 84, 84, 80, 47] + tail);
      HttpRuns(max, q, log, tail);
      VersionRuns(max, q.(state := ReqMajor, nread := q.nread + 5), log, v.major, v.minor, r.bareLine, rest);
    } else {
      assert VersionPart(r, rest)[1..] == Spaces(r.gap) + ([73, 67, 69, 47] + tail);
      SpacesRun(max, p, log, r.gap, [73, 67, 69, 47] + tail);
      IceRuns(max, q, log, tail);
      VersionRuns(max, q.(state := ReqMajor, nread := q.nread + 4), log, v.major, v.minor, r.bareLine, rest);
    }
  }

  /** The target and the rest of the line. */
  lemma TargetPartRuns(max: nat, p: Parser, log: seq<Event>, r: Request, rest: seq<Byte>)
    requires p.state == ReqSpacesBeforeUrl && p.verb == r.verb && LineOk(r) && (log == [] || !log[|log| - 1].Data?)
    requires p.nread + |r.target| + VersionSize(r) <= max < MOD32 - 1
    ensures Run(max, p, log, r.target + VersionPart(r, rest)) ==
            Run(max, p.(state := HeaderFieldStart, nread := p.nread + |r.target| + VersionSize(r),
                        major := Major(r.protocol), minor := Minor(r.protocol)), log + [Data(Url, r.target)], rest)
  {
    hide Run, Absorb, UrlFold;
    var part, n := VersionPart(r, rest), p.nread + |r.target|;
    AbsorbFresh(log, Url, r.target);
    if r.protocol.Old? {
      var ch, tail := if r.bareLine then LF else CR, if r.bareLine then rest else [LF] + rest;
      assert part == [ch] + tail;
      TargetStops(max, p, log, r.target, ch, tail);
      if !r.bareLine {
        var q := p.(state := ReqLineAlmostDone, nread := n + 1, major := 0, minor := 9);
        VersionByte(max, q, log + [Data(Url, r.target)], LF, HeaderFieldStart, rest);
      }
    } else {
      assert part == [SP] + part[1..];
      TargetRuns(max, p, log, r.target, part[1..]);
      ProtocolRuns(max, p.(state := ReqHttpStart, nread := n + 1), log + [Data(Url, r.target)], r, rest);
    }
  }

  // ----- the end of the head, and the body ---------------------------------

  /** What the parser knows at the end of a request's head. */
  predicate HeadRead(p: Parser, r: Request) {
    && p.state == HeaderFieldStart && p.kind.Request? && p.verb == r.verb && p.major == Major(r.protocol) && p.minor == Minor(r.protocol)
    && p.flags == HeadFlags(r.headers) && !p.flags.trailing && !p.flags.skipBody
    && p.length == (if r.framing.Sized? then |r.framing.data| else MAX64) && Frames(p.flags, p.length, r.framing)
  }

  lemma HeadTold(p: Parser, r: Request)
    requires p.state == HeaderFieldStart && p.kind.Request? && p.verb == r.verb && p.major == Major(r.protocol) && p.minor == Minor(r.protocol)
    requires p.flags == HeadFlags(r.headers) && p.length == HeadersLength(MAX64, r.headers)
    requires Frames(HeadFlags(r.headers), HeadersLength(MAX64, r.headers), r.framing)
    ensures HeadRead(p, r)
  {
    hide HeadersFlags, HeadersLength;
    HeadersTell(NO_FLAGS, r.headers);
    if !r.framing.Sized? {
      LengthStays(NO_FLAGS, MAX64, r.headers);
    }
  }

  /** The message ends with its head. */
  predicate EndsWithHead(f: Framing) { f.NoBody? || (f.Sized? && f.data == []) }

  /** The state the empty line leads to. */
  function BodyState(r: Request): State {
    if BodyRead(r).Coded? then ChunkSizeStart
    else if EndsWithHead(BodyRead(r)) then (if GoesOn(Major(r.protocol), Minor(r.protocol), HeadFlags(r.headers)) then StartReq else Dead)
    else BodyIdentity
  }

  lemma HeadEndArm(p: Parser, r: Request)
    requires HeadRead(p, r) && Inv(p)
    ensures var a := OnHeadersAlmostDone(p.(state := HeadersAlmostDone), LF);
      && a.out == (if Leaves(r) && EndsWithHead(BodyRead(r)) then Leave else Go)
      && a.p == p.(state := BodyState(r), upgrade := Leaves(r), nread := 0)
      && a.ops == if EndsWithHead(BodyRead(r)) then [Notify(HeadDone(r)), Notify(MessageComplete)] else [Notify(HeadDone(r))]
  {
    hide HeadFlags;
  }

  /** The empty line leads to the arm that ends the head. */
  lemma EmptyLine(max: nat, p: Parser, log: seq<Event>, bare: bool, rest: seq<Byte>) returns (q: Parser)
    requires Inv(p) && p.state == HeaderFieldStart && p.nread + EndSize(bare) <= max < MOD32 - 1
    ensures Run(max, p, log, Ending(bare, rest)) == Run(max, q, log, [LF] + rest)
    ensures (q.state == HeaderFieldStart || q.state == HeadersAlmostDone) && q.nread + 1 <= max
    ensures q == p.(state := q.state, nread := q.nread)
    ensures OnByte(CountByte(q), LF) == OnHeadersAlmostDone(p.(state := HeadersAlmostDone, nread := q.nread + 1), LF)
  {
    hide Run, OnHeadersAlmostDone;
    q := p;
    if bare {
      assert OnByte(CountByte(q), LF) == OnHeaderFieldStart(CountByte(q), LF);
    } else {
      assert OnByte(CountByte(p), CR) == OnHeaderFieldStart(CountByte(p), CR);
      QuietByte(max, p, log, CR, [LF] + rest);
      q := p.(state := HeadersAlmostDone, nread := p.nread + 1);
      assert OnByte(CountByte(q), LF) == OnHeadersAlmostDone(CountByte(q), LF);
    }
  }

  /** The empty line: the head is reported complete, and a request without a
      body is complete with it. */
  lemma HeadEnds(max: nat, p: Parser, log: seq<Event>, r: Request, rest: seq<Byte>)
    requires HeadRead(p, r) && Inv(p) && p.nread + EndSize(r.bareEnd) <= max < MOD32 - 1
    ensures var q := p.(state := BodyState(r), upgrade := Leaves(r), nread := 0);
      Run(max, p, log, Ending(r.bareEnd, rest)) ==
      if EndsWithHead(BodyRead(r)) then Over(max, q, log + [HeadDone(r), MessageComplete], rest) else Run(max, q, log + [HeadDone(r)], rest)
  {
    hide Run, Push, BodyState, HeadDone, HeadFlags, OnByte, OnHeadersAlmostDone, Frames, Inv, Ending, Leaves;
    var q1 := EmptyLine(max, p, log, r.bareEnd, rest);
    HeadNread(p, q1.nread + 1, r);
    HeadEndArm(p.(nread := q1.nread + 1), r);
    HeadDoneEvent(r);
    PushNotify(log, HeadDone(r));
    if EndsWithHead(BodyRead(r)) {
      NotifyTwice(max, q1, log, LF, rest, HeadDone(r), MessageComplete);
      PushNotify(log + [HeadDone(r)], MessageComplete);
      assert log + [HeadDone(r)] + [MessageComplete] == log + [HeadDone(r), MessageComplete];
    } else {
      NotifyByte(max, q1, log, LF, rest, HeadDone(r));
    }
  }

  lemma HeadNread(p: Parser, n: nat, r: Request)
    requires HeadRead(p, r) && Inv(p)
    ensures HeadRead(p.(nread := n), r) && Inv(p.(nread := n))
  {
    hide HeadFlags, Frames;
  }

  lemma HeadDoneEvent(r: Request)
    ensures !HeadDone(r).Data?
  {
  }

  /** The last byte of a counted body ends the message. */
  lemma LastBodyByte(max: nat, p: Parser, log: seq<Event>, ch: Byte, rest: seq<Byte>)
    requires p.state == BodyIdentity && p.length == 1
    ensures Run(max, p, log, [ch] + rest) ==
            Over(max, p.(length := 0, state := NewMessage(p.(length := 0))), Push(Absorb(log, Body, [ch]), MessageComplete), rest)
  {
    hide Run, Push, NewMessage;
    RunCons(max, p, log, ch, rest);
    var q := p.(length := 0, state := MessageDone);
    SameNewMessage(q, p.(length := 0));
    assert OnByte(p, ch) == OnBodyIdentity(p);
    var ops := [Mark(Body), FlushIncl(Body)] + [Notify(MessageComplete)];
    assert OnByte(p, ch).ops == ops;
    LastByteOps(ch, MessageComplete);
    var m := DoOps(NO_MARKS, ops, [ch], 0);
    assert m.calls + FlushAll(NO_MARKS, [ch]) == [Data(Body, [ch])] + [MessageComplete];
    PushAllConcat(log, [Data(Body, [ch])], [MessageComplete]);
    PushesOne(log, Data(Body, [ch]));
    PushesOne(Push(log, Data(Body, [ch])), MessageComplete);
  }

  lemma LastByteOps(ch: Byte, e: Event)
    ensures DoOps(NO_MARKS, [Mark(Body), FlushIncl(Body)] + [Notify(e)], [ch], 0) == Marked(NO_MARKS, [Data(Body, [ch]), e])
  {
    var ops := [Mark(Body), FlushIncl(Body)] + [Notify(e)];
    assert ops[1..] == [FlushIncl(Body), Notify(e)] && ops[1..][1..] == [Notify(e)];
    OneNotify(ch, e);
    assert [ch][0..1] == [ch];
    var one := DoOp(NO_MARKS, ops[0], [ch], 0);
    assert one == Marked(Only(Some(Body), 0), []);
    assert DoOp(one.marks, ops[1..][0], [ch], 0) == Marked(NO_MARKS, [Data(Body, [ch])]);
    assert DoOps(one.marks, ops[1..], [ch], 0) == Marked(NO_MARKS, [Data(Body, [ch])] + [e]);
    assert [] + ([Data(Body, [ch])] + [e]) == [Data(Body, [ch]), e];
  }

  /** A counted body is delivered whole. */
  lemma SizedBodyRuns(max: nat, p: Parser, log: seq<Event>, data: seq<Byte>, rest: seq<Byte>)
    requires Inv(p) && p.state == BodyIdentity && data != [] && p.length == |data|
    requires log != [] && !log[|log| - 1].Data?
    ensures Run(max, p, log, data + rest) ==
            Over(max, p.(length := 0, state := NewMessage(p.(length := 0))), log + [Data(Body, data), MessageComplete], rest)
  {
    hide Run, Push, Absorb, NewMessage;
    var init, last := data[..|data| - 1], data[|data| - 1];
    assert data + rest == init + ([last] + rest);
    SkipCounted(max, p, log, init, [last] + rest);
    LastBodyByte(max, p.(length := 1), Absorb(log, Body, init), last, rest);
    AbsorbMore(log, Body, init, [last]);
    assert init + [last] == data;
    AbsorbFresh(log, Body, data);
    PushNotify(log + [Data(Body, data)], MessageComplete);
    assert log + [Data(Body, data)] + [MessageComplete] == log + [Data(Body, data), MessageComplete];
  }

  /** A parser waiting for a request, with `carried` bytes counted already. */
  predicate Ready(p: Parser, carried: nat) { Inv(p) && p.state == StartReq && p.kind.Request? && p.nread == carried }

  /** A parser behind request `r`: it waits for the next one, or is done with the
      connection. */
  predicate Waiting(p: Parser, r: Request) {
    && Inv(p) && p.state == (if Stays(r) then StartReq else Dead) && p.kind.Request? && p.nread == Carried(BodyRead(r))
    && p.upgrade == Leaves(r)
  }

  lemma NewState(p: Parser, major: nat, minor: nat)
    requires p.kind.Request? && p.major == major && p.minor == minor
    ensures NewMessage(p) == if GoesOn(major, minor, p.flags) then StartReq else Dead
  {
  }

  /** The empty line and the body. */
  lemma BodyRuns(max: nat, p: Parser, log: seq<Event>, r: Request, rest: seq<Byte>) returns (q: Parser)
    requires Inv(p) && HeadRead(p, r) && FramingOk(max, r.headers, r.framing) && p.nread + EndSize(r.bareEnd) <= max < MOD32 - 1
    ensures Run(max, p, log, Ending(r.bareEnd, BodyBytesOf(BodyRead(r), rest))) ==
            Over(max, q, log + [HeadDone(r)] + BodyEvents(BodyRead(r)), rest)
    ensures Waiting(q, r)
  {
    hide Run, Push, Absorb, BodyOf, ChunkEvents, NewMessage, LastOk, HeadersFlags, Inv, Ending, AllFine, HeadersLength;
    HeadEnds(max, p, log, r, BodyBytesOf(BodyRead(r), rest));
    var q0 := p.(state := BodyState(r), upgrade := Leaves(r), nread := 0);
    var log1 := log + [HeadDone(r)];
    HeadDoneEvent(r);
    BodyInv(p, q0, r);
    match BodyRead(r) {
      case NoBody =>
        q := q0;
        assert log1 + [MessageComplete] == log + [HeadDone(r), MessageComplete];
      case Sized(data) =>
        if data == [] {
          q := q0;
          assert data + rest == rest;
          assert log1 + [MessageComplete] == log + [HeadDone(r), MessageComplete];
        } else {
          SizedBodyRuns(max, q0, log1, data, rest);
          NewState(q0.(length := 0), Major(r.protocol), Minor(r.protocol));
          q := q0.(length := 0, state := NewMessage(q0.(length := 0)));
          DoneInv(q);
        }
      case Coded(cs, last) =>
        q := ChunkedRoundTrip(max, q0, log1, cs, last, rest);
        NewState(q, Major(r.protocol), Minor(r.protocol));
    }
  }

  /** The invariant at the body's start, and between messages. */
  lemma BodyInv(p: Parser, q: Parser, r: Request)
    requires Inv(p) && HeadRead(p, r)
    requires q == p.(state := BodyState(r), upgrade := Leaves(r), nread := 0)
    ensures Inv(q)
  {
    hide HeadFlags;
  }

  lemma DoneInv(q: Parser)
    requires Between(q.state) && q.length == 0
    ensures Inv(q)
  {
  }

  // ----- whole requests ----------------------------------------------------

  /** The parser at the first header line. */
  function HeadBegun(p: Parser, r: Request): Parser {
    p.(flags := NO_FLAGS, length := MAX64, verb := r.verb, index := |MethodName(r.verb)| + 1, major := Major(r.protocol), minor := Minor(r.protocol),
       state := HeaderFieldStart, nread := p.nread + LineSize(r))
  }

  lemma RequestLineRuns(max: nat, p: Parser, log: seq<Event>, r: Request, carried: nat, rest: seq<Byte>)
    requires Ready(p, carried) && LineOk(r) && carried + LineSize(r) <= max < MOD32 - 1
    ensures Run(max, p, log, RequestLine(r, rest)) ==
            Run(max, HeadBegun(p, r), log + [MessageBegin, Data(Url, r.target)], rest)
    ensures Inv(HeadBegun(p, r))
  {
    hide Run, Push, MethodName, UrlFold, VersionPart, VersionSize, Spaces, LineOk;
    var part := r.target + VersionPart(r, rest);
    FrontOk(r);
    BlankLines(max, p, log, r.blank, MethodName(r.verb) + ([SP] + (Spaces(r.lead) + part)));
    var p0 := p.(nread := p.nread + |r.blank|);
    MethodRuns(max, p0, log, r.verb, Spaces(r.lead) + part);
    PushNotify(log, MessageBegin);
    var log1, p1 := log + [MessageBegin], AfterMethod(p0, r.verb);
    SpacesRun(max, p1, log1, r.lead, part);
    TargetPartRuns(max, p1.(nread := p1.nread + r.lead), log1, r, rest);
    assert log1 + [Data(Url, r.target)] == log + [MessageBegin, Data(Url, r.target)];
  }

  lemma FrontOk(r: Request)
    requires LineOk(r)
    ensures LineEnds(r.blank)
  {
  }

  /** Line ends in front of a message are ignored, but counted. */
  lemma {:induction false} BlankLines(max: nat, p: Parser, log: seq<Event>, w: seq<Byte>, rest: seq<Byte>)
    requires Between(p.state) && p.state != Dead && LineEnds(w) && p.nread + |w| <= max < MOD32 - 1
    ensures Run(max, p, log, w + rest) == Run(max, p.(nread := p.nread + |w|), log, rest)
    decreases |w|
  {
    hide Run;
    if w == [] {
      assert w + rest == rest;
    } else {
      assert w + rest == [w[0]] + (w[1..] + rest);
      assert OnByte(CountByte(p), w[0]) == OnBetween(CountByte(p), w[0]);
      QuietByte(max, p, log, w[0], w[1..] + rest);
      BlankLines(max, p.(nread := p.nread + 1), log, w[1..], rest);
    }
  }

  /** The request line and all headers, up to the empty line. */
  lemma HeadRuns(max: nat, p: Parser, log: seq<Event>, r: Request, carried: nat, rest: seq<Byte>) returns (q: Parser)
    requires Ready(p, carried) && LineOk(r) && AllFine(false, r.headers) && carried + HeadSize(r) <= max < MOD32 - 1
    ensures Run(max, p, log, HeadBytes(r, rest)) ==
            Run(max, q, log + [MessageBegin, Data(Url, r.target)] + HeadersEvents(r.headers), Ending(r.bareEnd, rest))
    ensures q == HeadBegun(p, r).(hs := q.hs, index := q.index, nread := p.nread + LineSize(r) + HeadersSize(r.headers),
                                  flags := HeadFlags(r.headers), length := HeadersLength(MAX64, r.headers)) && Inv(q)
  {
    hide Run, LineOk, AllFine, Inv, RequestLine, HeadersFlags, HeadersLength, HeadersBytes, HeadersEvents, Ending, LineSize;
    var ending := Ending(r.bareEnd, rest);
    EndingStarts(r.bareEnd, rest);
    RequestLineRuns(max, p, log, r, carried, HeadersBytes(r.headers, ending));
    q := LinesRun(max, HeadBegun(p, r), log + [MessageBegin, Data(Url, r.target)], r.headers, ending);
  }

  /** A request is consumed whole, and its callbacks are exactly the request's own.
      One that asks for another protocol leaves what follows to it; behind any other
      the parser waits for the next request or, if the connection is to be closed,
      for nothing. */
  lemma RequestRuns(max: nat, p: Parser, log: seq<Event>, r: Request, carried: nat, rest: seq<Byte>) returns (q: Parser)
    requires Ready(p, carried) && RequestOk(max, carried, r)
    ensures Run(max, p, log, RequestBytes(r, rest)) ==
            if Leaves(r) then Stopped(q, log + RequestEvents(r), rest) else Run(max, q, log + RequestEvents(r), rest)
    ensures Waiting(q, r)
  {
    hide Run, LineOk, Inv, HeadBytes, BodyBytesOf, BodyEvents, HeadersEvents, HeadDone, HeadersFlags, HeadersLength, Stays,
      AllFine, Ending, HeadRead, LineSize, Frames, Leaves;
    var q1 := HeadRuns(max, p, log, r, carried, BodyBytesOf(BodyRead(r), rest));
    var log1 := log + [MessageBegin, Data(Url, r.target)] + HeadersEvents(r.headers);
    HeadTold(q1, r);
    q := BodyRuns(max, q1, log1, r, rest);
    assert log1 + [HeadDone(r)] + BodyEvents(BodyRead(r)) == log + RequestEvents(r);
  }

  /** The header limit is not the only way to fail: a head is also refused, and with
      which error, exactly if a Content-Length is not taken or comes with chunked. */
  lemma RequestRefused(max: nat, p: Parser, log: seq<Event>, r: Request, carried: nat, rest: seq<Byte>)
    requires Ready(p, carried) && LineOk(r) && AllLines(r.headers) && carried + HeadSize(r) <= max < MOD32 - 1
    requires !AllFine(false, r.headers) || (HeadFlags(r.headers).chunked && HeadFlags(r.headers).contentLength)
    ensures var o := Run(max, p, log, HeadBytes(r, rest));
      o.Broken? && o.error == if AllFine(false, r.headers) then UNEXPECTED_CONTENT_LENGTH else LinesError(NO_FLAGS, r.headers)
  {
    hide Run, LineOk, AllFine, Inv, RequestLine, HeadersFlags, HeadersLength, HeadersBytes, HeadersEvents, Ending, LineSize, LinesError;
    if AllFine(false, r.headers) {
      var q := HeadRuns(max, p, log, r, carried, rest);
      HeadersTell(NO_FLAGS, r.headers);
      TwoFramings(max, q, log + [MessageBegin, Data(Url, r.target)] + HeadersEvents(r.headers), r.bareEnd, rest);
    } else {
      var ending := Ending(r.bareEnd, rest);
      EndingStarts(r.bareEnd, rest);
      RequestLineRuns(max, p, log, r, carried, HeadersBytes(r.headers, ending));
      LinesRefused(max, HeadBegun(p, r), log + [MessageBegin, Data(Url, r.target)], r.headers, ending);
    }
  }

  /** Both framings at once are refused at the empty line. */
  lemma TwoFramings(max: nat, p: Parser, log: seq<Event>, bare: bool, rest: seq<Byte>)
    requires Inv(p) && p.state == HeaderFieldStart && p.flags.chunked && p.flags.contentLength && !p.flags.trailing
    requires p.nread + EndSize(bare) <= max < MOD32 - 1
    ensures Run(max, p, log, Ending(bare, rest)) == Broken(UNEXPECTED_CONTENT_LENGTH, [LF] + rest)
  {
    hide Run, OnByte, Ending, Inv;
    var q := EmptyLine(max, p, log, bare, rest);
    RunCons(max, q, log, LF, rest);
  }

  // ----- pipelining --------------------------------------------------------

  /** Requests that keep the connection open and in HTTP, each within the header limit. */
  predicate AllOk(max: nat, carried: nat, rs: seq<Request>)
    decreases |rs|
  {
    rs == [] || (RequestOk(max, carried, rs[0]) && Stays(rs[0]) && !Leaves(rs[0]) && AllOk(max, Carried(BodyRead(rs[0])), rs[1..]))
  }

  function CarriedAfter(carried: nat, rs: seq<Request>): nat
    decreases |rs|
  {
    if rs == [] then carried else CarriedAfter(Carried(BodyRead(rs[0])), rs[1..])
  }

  function Wire(rs: seq<Request>, rest: seq<Byte>): seq<Byte> {
    if rs == [] then rest else RequestBytes(rs[0], Wire(rs[1..], rest))
  }

  function AllEvents(rs: seq<Request>): seq<Event> {
    if rs == [] then [] else RequestEvents(rs[0]) + AllEvents(rs[1..])
  }

  /** Requests one after the other: the callbacks are those of the first, then
      those of the second, and so on. */
  lemma {:induction false} Pipelined(max: nat, p: Parser, log: seq<Event>, rs: seq<Request>, carried: nat, rest: seq<Byte>) returns (q: Parser)
    requires Ready(p, carried) && AllOk(max, carried, rs)
    ensures Run(max, p, log, Wire(rs, rest)) == Run(max, q, log + AllEvents(rs), rest) && Ready(q, CarriedAfter(carried, rs))
    decreases |rs|
  {
    hide Run, RequestBytes, RequestEvents, Inv, Stays, Carried, FramingOk, Leaves, HeadSize;
    if rs == [] {
      assert log + AllEvents(rs) == log;
      q := p;
    } else {
      var q0 := RequestRuns(max, p, log, rs[0], carried, Wire(rs[1..], rest));
      q := Pipelined(max, q0, log + RequestEvents(rs[0]), rs[1..], Carried(BodyRead(rs[0])), rest);
      assert log + RequestEvents(rs[0]) + AllEvents(rs[1..]) == log + AllEvents(rs);
    }
  }

  /** From a fresh request parser. */
  lemma PipelinedFromInit(max: nat, rs: seq<Request>)
    requires AllOk(max, 0, rs)
    ensures var r := Run(max, Init(Kind.Request), [], Wire(rs, [])); r.Running? && r.log == AllEvents(rs) && r.p.state == StartReq
  {
    hide Run, AllOk;
    var q := Pipelined(max, Init(Kind.Request), [], rs, 0, []);
    NoBytes(max, q, [] + AllEvents(rs));
    assert [] + AllEvents(rs) == AllEvents(rs);
  }

  // ----- the end of a connection -------------------------------------------

  /** On a closed connection line ends are ignored, and anything else is an error. */
  lemma {:induction false} ClosedConnection(max: nat, p: Parser, log: seq<Event>, w: seq<Byte>, ch: Byte, rest: seq<Byte>)
    requires p.state == Dead && LineEnds(w) && ch != CR && ch != LF && p.nread + |w| + 1 <= max < MOD32 - 1
    ensures Run(max, p, log, w + ([ch] + rest)) == Broken(CLOSED_CONNECTION, [ch] + rest)
    decreases |w|
  {
    hide Run;
    if w == [] {
      assert w + ([ch] + rest) == [ch] + rest;
      RunCons(max, p, log, ch, rest);
      assert OnByte(CountByte(p), ch) == OnBetween(CountByte(p), ch);
    } else {
      assert w + ([ch] + rest) == [w[0]] + (w[1..] + ([ch] + rest));
      assert OnByte(CountByte(p), w[0]) == OnBetween(CountByte(p), w[0]);
      QuietByte(max, p, log, w[0], w[1..] + ([ch] + rest));
      ClosedConnection(max, p.(nread := p.nread + 1), log, w[1..], ch, rest);
    }
  }

  /** After requests that keep the connection open and one that closes it, whatever
      follows but line ends is refused. */
  lemma ClosedAfter(max: nat, p: Parser, log: seq<Event>, rs: seq<Request>, carried: nat, r: Request, w: seq<Byte>, ch: Byte, rest: seq<Byte>)
    requires Ready(p, carried) && AllOk(max, carried, rs) && RequestOk(max, CarriedAfter(carried, rs), r)
    requires !Stays(r) && !Leaves(r) && LineEnds(w) && ch != CR && ch != LF && Carried(BodyRead(r)) + |w| + 1 <= max
    ensures Run(max, p, log, Wire(rs, RequestBytes(r, w + ([ch] + rest)))) == Broken(CLOSED_CONNECTION, [ch] + rest)
  {
    hide Run, RequestBytes, AllOk, Inv, Stays, Carried, MethodName, UrlFold, FramingOk, Leaves, Wire;
    var q := Pipelined(max, p, log, rs, carried, RequestBytes(r, w + ([ch] + rest)));
    var q1 := RequestRuns(max, q, log + AllEvents(rs), r, CarriedAfter(carried, rs), w + ([ch] + rest));
    ClosedConnection(max, q1, log + AllEvents(rs) + RequestEvents(r), w, ch, rest);
  }

  /** After such requests and one that asks for another protocol the parser stops,
      and everything behind that request is left unread. */
  lemma LeftAfter(max: nat, p: Parser, log: seq<Event>, rs: seq<Request>, carried: nat, r: Request, rest: seq<Byte>) returns (q: Parser)
    requires Ready(p, carried) && AllOk(max, carried, rs) && RequestOk(max, CarriedAfter(carried, rs), r) && Leaves(r)
    ensures Run(max, p, log, Wire(rs, RequestBytes(r, rest))) == Stopped(q, log + AllEvents(rs) + RequestEvents(r), rest)
    ensures Waiting(q, r)
  {
    hide Run, RequestBytes, AllOk, Inv, Stays, Carried, MethodName, UrlFold, FramingOk, Leaves, Wire;
    var q1 := Pipelined(max, p, log, rs, carried, RequestBytes(r, rest));
    q := RequestRuns(max, q1, log + AllEvents(rs), r, CarriedAfter(carried, rs), rest);
  }
}
