/** Whole responses: the status line, and the four ways in which a response's
    body can end. */
module HttpResponse {
  import opened Basics
  import opened HttpTypes
  import opened HttpAct
  import opened HttpRun
  import opened HttpInvariant
  import opened HttpSkip
  import opened HttpSteps
  import opened HttpLength
  import opened HttpHeaders
  import opened HttpLines
  import opened HttpChunked
  import opened HttpMessage

  /** A response of any one-digit version with any headers. There may be line ends in
      front; the code may have more
      than one space in front, and none behind if there is no reason; the status line
      and the empty line may end in LF alone; `NoBody` says only that no header frames
      the body. */
  datatype Response = Response(blank: seq<Byte>, major: Digit, minor: Digit, lead: nat, code: seq<Byte>, spaced: bool, reason: seq<Byte>,
                               bareLine: bool, headers: seq<Header>, bareEnd: bool, framing: Framing)

  function StatusOf(r: Response): nat
    requires SizeBytes(r.code)
  {
    Number(10, 0, r.code)
  }

  function ReasonSize(r: Response): nat { (if r.spaced then 1 else 0) + |r.reason| + EndSize(r.bareLine) }

  function StatusSize(r: Response): nat { |r.blank| + 9 + r.lead + |r.code| + ReasonSize(r) }

  function ResponseHeadSize(r: Response): nat { StatusSize(r) + HeadersSize(r.headers) + EndSize(r.bareEnd) }

  predicate StatusOk(r: Response) {
    && LineEnds(r.blank) && r.code != [] && Digits(r.code) && SizeBytes(r.code) && StatusOf(r) <= 999
    && NoLineEnd(r.reason) && (r.spaced || r.reason == [])
  }

  /** It is the answer to a request for another protocol. */
  predicate Switches(r: Response)
    requires SizeBytes(r.code)
  {
    HeadFlags(r.headers).upgrade && HeadFlags(r.headers).connUpgrade && StatusOf(r) == 101
  }

  /** A response within the limits, after `carried` bytes. */
  predicate ResponseOk(max: nat, carried: nat, r: Response) {
    StatusOk(r) && FramingOk(max, r.headers, r.framing) && carried + ResponseHeadSize(r) <= max < MOD32 - 1
  }

  /** Its end can be told from the response itself. */
  predicate Delimited(r: Response)
    requires SizeBytes(r.code)
  {
    !r.framing.NoBody? || BodyLess(StatusOf(r))
  }

  predicate ResponseStays(r: Response) { GoesOn(r.major, r.minor, LastFlags(r.headers, r.framing)) }

  /** HTTP/ and the version. */
  function Prologue(major: Digit, minor: Digit, rest: seq<Byte>): seq<Byte> {
    [72] + ([84] + ([84] + ([80] + ([47] + ([DigitByte10(major)] + ([46] + ([DigitByte10(minor)] + ([SP] + rest))))))))
  }

  function ReasonBytesOf(r: Response, rest: seq<Byte>): seq<Byte> {
    if r.spaced then [SP] + (r.reason + Ending(r.bareLine, rest)) else Ending(r.bareLine, rest)
  }

  function StatusLine(r: Response, rest: seq<Byte>): seq<Byte> {
    r.blank + Prologue(r.major, r.minor, Spaces(r.lead) + (r.code + ReasonBytesOf(r, rest)))
  }

  function ResponseHeadBytes(r: Response, rest: seq<Byte>): seq<Byte> {
    StatusLine(r, HeadersBytes(r.headers, Ending(r.bareEnd, rest)))
  }

  function ResponseBytes(r: Response, rest: seq<Byte>): seq<Byte> { ResponseHeadBytes(r, BodyBytesOf(r.framing, rest)) }

  function ResponseDone(r: Response): Event
    requires SizeBytes(r.code)
  {
    HeadersComplete(ResponseHead(StatusOf(r)), r.major, r.minor, r.framing.Coded?,
                    if r.framing.Sized? then |r.framing.data| else MAX64, Switches(r))
  }

  function ResponseHeadEvents(r: Response): seq<Event>
    requires SizeBytes(r.code)
  {
    [MessageBegin, Data(Status, r.reason)] + HeadersEvents(r.headers) + [ResponseDone(r)]
  }

  // ----- the status line ---------------------------------------------------

  lemma PrologueByte(max: nat, p: Parser, log: seq<Event>, ch: Byte, s: State, rest: seq<Byte>)
    requires p.nread + 1 <= max < MOD32 - 1
    requires (p.state == ResH && ch == 84 && s == ResHT) || (p.state == ResHT && ch == 84 && s == ResHTT)
          || (p.state == ResHTT && ch == 80 && s == ResHTTP) || (p.state == ResHTTP && ch == 47 && s == ResMajor)
          || (p.state == ResMajor && IsNum(ch) && s == ResDot) || (p.state == ResDot && ch == 46 && s == ResMinor)
          || (p.state == ResMinor && IsNum(ch) && s == ResEnd) || (p.state == ResEnd && ch == SP && s == ResFirstStatusCode)
          || (p.state == ResFirstStatusCode && ch == SP && s == ResFirstStatusCode)
          || (p.state == ResStatusCode && ch == SP && s == ResStatusStart)
          || (p.state == ResLineAlmostDone && ch == LF && s == HeaderFieldStart)
    ensures Run(max, p, log, [ch] + rest) ==
            Run(max, p.(state := s, nread := p.nread + 1, major := if p.state == ResMajor then ch - 48 else p.major,
                        minor := if p.state == ResMinor then ch - 48 else p.minor), log, rest)
  {
    hide Run;
    var q := CountByte(p);
    assert OnByte(q, ch) == OnResponseLine(q, ch);
    QuietByte(max, p, log, ch, rest);
  }

  lemma FirstLetter(max: nat, p: Parser, log: seq<Event>, rest: seq<Byte>)
    requires p.state == StartRes && p.nread + 1 <= max < MOD32 - 1
    ensures Run(max, p, log, [72] + rest) ==
            Run(max, p.(state := ResH, flags := NO_FLAGS, length := MAX64, nread := p.nread + 1), log + [MessageBegin], rest)
  {
    hide Run, Push;
    var q := CountByte(p);
    assert OnByte(q, 72) == OnStartRes(q, 72);
    assert [Notify(MessageBegin)] + [] == [Notify(MessageBegin)];
    NotifyByte(max, p, log, 72, rest, MessageBegin);
    PushNotify(log, MessageBegin);
  }

  function Announced(p: Parser, major: nat, minor: nat): Parser {
    p.(flags := NO_FLAGS, length := MAX64, state := ResFirstStatusCode, nread := p.nread + 9, major := major, minor := minor)
  }

  lemma PrologueRuns(max: nat, p: Parser, log: seq<Event>, major: Digit, minor: Digit, rest: seq<Byte>)
    requires p.state == StartRes && p.nread + 9 <= max < MOD32 - 1
    ensures Run(max, p, log, Prologue(major, minor, rest)) == Run(max, Announced(p, major, minor), log + [MessageBegin], rest)
  {
    hide Run;
    var n, es := p.nread, log + [MessageBegin];
    var q := p.(flags := NO_FLAGS, length := MAX64, state := ResH, nread := n + 1);
    var half := [DigitByte10(major)] + ([46] + ([DigitByte10(minor)] + ([SP] + rest)));
    FirstLetter(max, p, log, [84] + ([84] + ([80] + ([47] + half))));
    PrologueByte(max, q, es, 84, ResHT, [84] + ([80] + ([47] + half)));
    PrologueByte(max, q.(state := ResHT, nread := n + 2), es, 84, ResHTT, [80] + ([47] + half));
    PrologueByte(max, q.(state := ResHTT, nread := n + 3), es, 80, ResHTTP, [47] + half);
    PrologueByte(max, q.(state := ResHTTP, nread := n + 4), es, 47, ResMajor, half);
    StatusVersion(max, q.(state := ResMajor, nread := n + 5), es, major, minor, rest);
  }

  lemma StatusVersion(max: nat, q: Parser, es: seq<Event>, major: Digit, minor: Digit, rest: seq<Byte>)
    requires q.state == ResMajor && q.nread + 4 <= max < MOD32 - 1
    ensures Run(max, q, es, [DigitByte10(major)] + ([46] + ([DigitByte10(minor)] + ([SP] + rest)))) ==
            Run(max, q.(state := ResFirstStatusCode, nread := q.nread + 4, major := major, minor := minor), es, rest)
  {
    hide Run;
    var n, a, b := q.nread, DigitByte10(major), DigitByte10(minor);
    PrologueByte(max, q, es, a, ResDot, [46] + ([b] + ([SP] + rest)));
    PrologueByte(max, q.(state := ResDot, nread := n + 1, major := major), es, 46, ResMinor, [b] + ([SP] + rest));
    PrologueByte(max, q.(state := ResMinor, nread := n + 2, major := major), es, b, ResEnd, [SP] + rest);
    PrologueByte(max, q.(state := ResEnd, nread := n + 3, major := major, minor := minor), es, SP, ResFirstStatusCode, rest);
  }

  /** Further spaces in front of the code are passed over. */
  lemma {:induction false} LeadRuns(max: nat, p: Parser, log: seq<Event>, n: nat, rest: seq<Byte>)
    requires p.state == ResFirstStatusCode && p.nread + n <= max < MOD32 - 1
    ensures Run(max, p, log, Spaces(n) + rest) == Run(max, p.(nread := p.nread + n), log, rest)
    decreases n
  {
    hide Run;
    if n == 0 {
      assert Spaces(n) + rest == rest;
    } else {
      assert Spaces(n) + rest == [SP] + (Spaces(n - 1) + rest);
      PrologueByte(max, p, log, SP, ResFirstStatusCode, Spaces(n - 1) + rest);
      LeadRuns(max, p.(nread := p.nread + 1), log, n - 1, rest);
    }
  }

  lemma StatusByte(max: nat, p: Parser, log: seq<Event>, ch: Byte, rest: seq<Byte>)
    requires p.state == ResStatusCode && IsNum(ch) && p.nread + 1 <= max < MOD32 - 1
    ensures Run(max, p, log, [ch] + rest) ==
            if p.status * 10 + Unhex(ch) > 999 then Broken(INVALID_STATUS, [ch] + rest)
            else Run(max, p.(status := p.status * 10 + Unhex(ch), nread := p.nread + 1), log, rest)
  {
    hide Run;
    var q := CountByte(p);
    assert OnByte(q, ch) == OnResStatusCode(q, ch);
    if p.status * 10 + Unhex(ch) > 999 {
      RunCons(max, p, log, ch, rest);
    } else {
      QuietByte(max, p, log, ch, rest);
    }
  }

  /** Any number of digits: the status is their value, and they are refused
      exactly if it is above 999. */
  lemma {:induction false} StatusCounts(max: nat, p: Parser, log: seq<Event>, w: seq<Byte>, rest: seq<Byte>)
    requires p.state == ResStatusCode && p.status <= 999 && Digits(w) && SizeBytes(w) && p.nread + |w| <= max < MOD32 - 1
    ensures var r := Run(max, p, log, w + rest);
      if Number(10, p.status, w) > 999 then r.Broken? && r.error == INVALID_STATUS
      else r == Run(max, p.(status := Number(10, p.status, w), nread := p.nread + |w|), log, rest)
    decreases |w|
  {
    hide Run, Unhex;
    if w == [] {
      assert w + rest == rest;
    } else {
      var init, last := w[..|w| - 1], w[|w| - 1];
      assert w + rest == init + ([last] + rest);
      StatusCounts(max, p, log, init, [last] + rest);
      if Number(10, p.status, init) <= 999 {
        StatusByte(max, p.(status := Number(10, p.status, init), nread := p.nread + |init|), log, last, rest);
      }
    }
  }

  lemma FirstDigit(max: nat, p: Parser, log: seq<Event>, d: Byte, rest: seq<Byte>)
    requires p.state == ResFirstStatusCode && IsNum(d) && p.nread + 1 <= max < MOD32 - 1
    ensures Run(max, p, log, [d] + rest) == Run(max, p.(state := ResStatusCode, status := Unhex(d), nread := p.nread + 1), log, rest)
    ensures Unhex(d) <= 9
  {
    hide Run;
    assert OnByte(CountByte(p), d) == OnResFirstStatusCode(CountByte(p), d);
    QuietByte(max, p, log, d, rest);
  }

  lemma CodeRuns(max: nat, p: Parser, log: seq<Event>, code: seq<Byte>, rest: seq<Byte>)
    requires p.state == ResFirstStatusCode && code != [] && Digits(code) && SizeBytes(code) && Number(10, 0, code) <= 999
    requires p.nread + |code| <= max < MOD32 - 1
    ensures Run(max, p, log, code + rest) ==
            Run(max, p.(state := ResStatusCode, status := Number(10, 0, code), nread := p.nread + |code|), log, rest)
  {
    hide Run, Unhex, OnByte;
    var d, more := code[0], code[1..];
    var q := p.(state := ResStatusCode, status := Unhex(d), nread := p.nread + 1);
    assert code + rest == [d] + (more + rest);
    FirstDigit(max, p, log, d, more + rest);
    assert code == [d] + more;
    NumberCons(10, 0, d, more);
    StatusCounts(max, q, log, more, rest);
  }

  // ----- the reason --------------------------------------------------------

  lemma ReasonByte(max: nat, p: Parser, log: seq<Event>, ch: Byte, rest: seq<Byte>)
    requires (p.state == ResStatusStart || p.state == ResStatus) && ch != CR && ch != LF && p.nread + 1 <= max < MOD32 - 1
    ensures Run(max, p, log, [ch] + rest) ==
            Run(max, p.(state := ResStatus, index := if p.state == ResStatusStart then 0 else p.index, nread := p.nread + 1),
                Absorb(log, Status, [ch]), rest)
  {
    hide Run, Absorb;
    var q := CountByte(p);
    assert OnByte(q, ch) == OnResponseLine(q, ch);
    if p.state == ResStatusStart {
      assert [Mark(Status)] + [] == [Mark(Status)];
      FirstByte(max, p, log, ch, rest, Status);
    } else {
      MoreByte(max, p, log, ch, rest, Status);
    }
  }

  lemma {:induction false} ReasonBytes(max: nat, p: Parser, log: seq<Event>, w: seq<Byte>, rest: seq<Byte>)
    requires p.state == ResStatusStart && w != [] && NoLineEnd(w) && p.nread + |w| <= max < MOD32 - 1
    ensures Run(max, p, log, w + rest) ==
            Run(max, p.(state := ResStatus, index := 0, nread := p.nread + |w|), Absorb(log, Status, w), rest)
    decreases |w|
  {
    hide Run, Absorb;
    var init, last := w[..|w| - 1], w[|w| - 1];
    if init == [] {
      assert w == [last];
      ReasonByte(max, p, log, last, rest);
    } else {
      assert w + rest == init + ([last] + rest);
      ReasonBytes(max, p, log, init, [last] + rest);
      ReasonByte(max, p.(state := ResStatus, index := 0, nread := p.nread + |init|), Absorb(log, Status, init), last, rest);
      AbsorbMore(log, Status, init, [last]);
      assert init + [last] == w;
    }
  }

  /** The state behind the first byte of a line end. */
  function LineState(ch: Byte): State { if ch == CR then ResLineAlmostDone else HeaderFieldStart }

  lemma ReasonEnds(max: nat, p: Parser, log: seq<Event>, w: seq<Byte>, ch: Byte, rest: seq<Byte>)
    requires p.state == ResStatus && w != [] && (ch == CR || ch == LF) && p.nread + 1 <= max < MOD32 - 1
    ensures Run(max, p, Absorb(log, Status, w), [ch] + rest) ==
            Run(max, p.(state := LineState(ch), nread := p.nread + 1), Absorb(log, Status, w), rest)
  {
    hide Run, Absorb;
    var q := CountByte(p);
    assert OnByte(q, ch) == OnResStatus(q, ch);
    assert [Flush(Status)] + [] == [Flush(Status)];
    EndByte(max, p, log, ch, rest, Status, w);
  }

  /** An empty reason is reported as such. */
  lemma NoReason(max: nat, p: Parser, log: seq<Event>, ch: Byte, rest: seq<Byte>)
    requires (p.state == ResStatusStart || p.state == ResStatusCode) && (ch == CR || ch == LF) && p.nread + 1 <= max < MOD32 - 1
    ensures Run(max, p, log, [ch] + rest) ==
            Run(max, p.(state := LineState(ch), index := 0, nread := p.nread + 1), Push(log, Data(Status, [])), rest)
  {
    hide Run, Push, OnByte, DoOps;
    RunCons(max, p, log, ch, rest);
    NoReasonArm(p, ch);
    EmptyOps(ch);
    assert [Data(Status, [])] + FlushAll(NO_MARKS, [ch]) == [Data(Status, [])];
    PushesOne(log, Data(Status, []));
  }

  lemma NoReasonArm(p: Parser, ch: Byte)
    requires (p.state == ResStatusStart || p.state == ResStatusCode) && (ch == CR || ch == LF) && p.nread + 1 < MOD32
    ensures OnByte(CountByte(p), ch) ==
            Act(p.(state := LineState(ch), index := 0, nread := p.nread + 1), [Mark(Status), Flush(Status)], Go)
  {
    var q := CountByte(p);
    assert OnByte(q, ch) == OnResStatusStart(q.(state := ResStatusStart), ch);
    assert [Mark(Status)] + ([Flush(Status)] + []) == [Mark(Status), Flush(Status)];
  }

  lemma EmptyOps(ch: Byte)
    ensures DoOps(NO_MARKS, [Mark(Status), Flush(Status)], [ch], 0) == Marked(NO_MARKS, [Data(Status, [])])
  {
    var ops := [Mark(Status), Flush(Status)];
    assert ops[1..] == [Flush(Status)] && ops[1..][1..] == [];
    var one := DoOp(NO_MARKS, ops[0], [ch], 0);
    assert one == Marked(Only(Some(Status), 0), []);
    assert [ch][0..0] == [];
    assert DoOp(one.marks, ops[1..][0], [ch], 0) == Marked(NO_MARKS, [Data(Status, [])]);
    assert DoOps(one.marks, ops[1..], [ch], 0) == Marked(NO_MARKS, [Data(Status, [])] + []);
  }

  /** The rest of the status line; with no space behind the code the reason is
      reported as empty too. */
  lemma ReasonRuns(max: nat, p: Parser, log: seq<Event>, r: Response, rest: seq<Byte>)
    requires p.state == ResStatusCode && NoLineEnd(r.reason) && (r.spaced || r.reason == [])
    requires p.nread + ReasonSize(r) <= max < MOD32 - 1 && log != [] && !log[|log| - 1].Data?
    ensures Run(max, p, log, ReasonBytesOf(r, rest)) ==
            Run(max, p.(state := HeaderFieldStart, index := 0, nread := p.nread + ReasonSize(r)), log + [Data(Status, r.reason)], rest)
  {
    hide Run, Absorb;
    var w, es, ending := r.reason, log + [Data(Status, r.reason)], Ending(r.bareLine, rest);
    var q := p;
    if r.spaced {
      PrologueByte(max, p, log, SP, ResStatusStart, w + ending);
      q := p.(state := ResStatusStart, nread := p.nread + 1);
    }
    var ch, tail := if r.bareLine then LF else CR, if r.bareLine then rest else [LF] + rest;
    assert ending == [ch] + tail;
    if w == [] {
      assert w + ending == ending;
      NoReason(max, q, log, ch, tail);
      assert Push(log, Data(Status, [])) == es;
    } else {
      ReasonBytes(max, q, log, w, ending);
      ReasonEnds(max, q.(state := ResStatus, index := 0, nread := q.nread + |w|), log, w, ch, tail);
      AbsorbFresh(log, Status, w);
    }
    if !r.bareLine {
      PrologueByte(max, q.(state := ResLineAlmostDone, index := 0, nread := q.nread + |w| + 1), es, LF, HeaderFieldStart, rest);
    }
  }

  // ----- the head ----------------------------------------------------------

  /** A parser waiting for a response, with `carried` bytes counted already. */
  predicate ReadyForResponse(p: Parser, carried: nat) {
    Inv(p) && p.state == StartRes && p.kind.Response? && p.nread == carried && !p.verb.CONNECT?
  }

  /** A parser behind response `r`: it waits for the next one, or is done with the
      connection. */
  predicate WaitingForResponse(p: Parser, r: Response)
    requires SizeBytes(r.code)
  {
    && Inv(p) && p.state == (if ResponseStays(r) then StartRes else Dead) && p.kind.Response? && p.nread == Carried(r.framing)
    && !p.verb.CONNECT? && p.upgrade == Switches(r)
  }

  function StatusRead(p: Parser, r: Response): Parser
    requires SizeBytes(r.code)
  {
    Announced(p, r.major, r.minor).(state := HeaderFieldStart, status := StatusOf(r), index := 0, nread := p.nread + StatusSize(r))
  }

  /** Any version, spaces in front of the code, any code up to 999 with any number of
      digits, with or without a reason. */
  lemma StatusLineRuns(max: nat, p: Parser, log: seq<Event>, r: Response, rest: seq<Byte>)
    requires Inv(p) && p.state == StartRes && StatusOk(r) && p.nread + StatusSize(r) <= max < MOD32 - 1
    ensures Run(max, p, log, StatusLine(r, rest)) ==
            Run(max, StatusRead(p, r), log + [MessageBegin, Data(Status, r.reason)], rest)
    ensures Inv(StatusRead(p, r))
  {
    hide Run, Number, Prologue, ReasonBytesOf;
    var line := ReasonBytesOf(r, rest);
    BlankLines(max, p, log, r.blank, Prologue(r.major, r.minor, Spaces(r.lead) + (r.code + line)));
    var p0 := p.(nread := p.nread + |r.blank|);
    var es, q := log + [MessageBegin], Announced(p0, r.major, r.minor);
    PrologueRuns(max, p0, log, r.major, r.minor, Spaces(r.lead) + (r.code + line));
    LeadRuns(max, q, es, r.lead, r.code + line);
    var q1 := q.(nread := q.nread + r.lead);
    CodeRuns(max, q1, es, r.code, line);
    ReasonRuns(max, q1.(state := ResStatusCode, status := StatusOf(r), nread := q1.nread + |r.code|), es, r, rest);
    assert es + [Data(Status, r.reason)] == log + [MessageBegin, Data(Status, r.reason)];
  }

  /** What the parser knows at the end of a response's head. */
  predicate ResponseRead(p: Parser, r: Response)
    requires SizeBytes(r.code)
  {
    && p.state == HeaderFieldStart && p.kind.Response? && p.status == StatusOf(r) && p.major == r.major && p.minor == r.minor
    && p.flags == HeadFlags(r.headers) && !p.flags.trailing && !p.flags.skipBody && !p.verb.CONNECT?
    && p.length == (if r.framing.Sized? then |r.framing.data| else MAX64) && Frames(p.flags, p.length, r.framing)
  }

  lemma ResponseTold(p: Parser, r: Response)
    requires SizeBytes(r.code) && p.state == HeaderFieldStart && p.kind.Response? && p.status == StatusOf(r) && !p.verb.CONNECT?
    requires p.major == r.major && p.minor == r.minor
    requires p.flags == HeadFlags(r.headers) && p.length == HeadersLength(MAX64, r.headers)
    requires Frames(HeadFlags(r.headers), HeadersLength(MAX64, r.headers), r.framing)
    ensures ResponseRead(p, r)
  {
    hide HeadersFlags, HeadersLength, Number;
    HeadersTell(NO_FLAGS, r.headers);
    if !r.framing.Sized? {
      LengthStays(NO_FLAGS, MAX64, r.headers);
    }
  }

  /** The message ends with its head. */
  predicate HeadOnly(r: Response)
    requires SizeBytes(r.code)
  {
    match r.framing
    case Coded(_, _) => false
    case Sized(data) => data == []
    case NoBody => BodyLess(StatusOf(r))
  }

  /** The state the empty line leads to. */
  function AfterHead(r: Response): State
    requires SizeBytes(r.code)
  {
    if HeadOnly(r) then (if GoesOn(r.major, r.minor, HeadFlags(r.headers)) then StartRes else Dead)
    else match r.framing
         case Coded(_, _) => ChunkSizeStart
         case Sized(_) => BodyIdentity
         case NoBody => BodyIdentityEof
  }

  lemma ResponseHeadArm(p: Parser, r: Response)
    requires SizeBytes(r.code) && ResponseRead(p, r) && Inv(p)
    ensures var a := OnHeadersAlmostDone(p.(state := HeadersAlmostDone), LF);
      && a.out == (if Switches(r) && HeadOnly(r) then Leave else Go)
      && a.p == p.(state := AfterHead(r), upgrade := Switches(r), nread := 0)
      && a.ops == if HeadOnly(r) then [Notify(ResponseDone(r)), Notify(MessageComplete)] else [Notify(ResponseDone(r))]
  {
    hide Number, HeadFlags;
  }

  lemma ResponseHeadEnds(max: nat, p: Parser, log: seq<Event>, r: Response, rest: seq<Byte>)
    requires SizeBytes(r.code) && ResponseRead(p, r) && Inv(p) && p.nread + EndSize(r.bareEnd) <= max < MOD32 - 1
    ensures var q := p.(state := AfterHead(r), upgrade := Switches(r), nread := 0);
      Run(max, p, log, Ending(r.bareEnd, rest)) ==
      if HeadOnly(r) then Over(max, q, log + [ResponseDone(r), MessageComplete], rest) else Run(max, q, log + [ResponseDone(r)], rest)
  {
    hide Run, Push, AfterHead, HeadOnly, ResponseDone, Number, HeadFlags, OnByte, OnHeadersAlmostDone, Frames, Inv, Ending, Switches;
    var q1 := EmptyLine(max, p, log, r.bareEnd, rest);
    ResponseNread(p, q1.nread + 1, r);
    ResponseHeadArm(p.(nread := q1.nread + 1), r);
    DoneEvent(r);
    PushNotify(log, ResponseDone(r));
    if HeadOnly(r) {
      NotifyTwice(max, q1, log, LF, rest, ResponseDone(r), MessageComplete);
      PushNotify(log + [ResponseDone(r)], MessageComplete);
      assert log + [ResponseDone(r)] + [MessageComplete] == log + [ResponseDone(r), MessageComplete];
    } else {
      NotifyByte(max, q1, log, LF, rest, ResponseDone(r));
    }
  }

  lemma ResponseNread(p: Parser, n: nat, r: Response)
    requires SizeBytes(r.code) && ResponseRead(p, r) && Inv(p)
    ensures ResponseRead(p.(nread := n), r) && Inv(p.(nread := n))
  {
    hide HeadFlags, Frames, Number;
  }

  lemma DoneEvent(r: Response)
    requires SizeBytes(r.code)
    ensures !ResponseDone(r).Data?
  {
  }

  /** The status line and all headers, up to the empty line. */
  lemma ResponseLinesRun(max: nat, p: Parser, log: seq<Event>, r: Response, carried: nat, rest: seq<Byte>) returns (q: Parser, es: seq<Event>)
    requires ReadyForResponse(p, carried) && StatusOk(r) && AllFine(false, r.headers) && carried + ResponseHeadSize(r) <= max < MOD32 - 1
    ensures Run(max, p, log, ResponseHeadBytes(r, rest)) == Run(max, q, es, Ending(r.bareEnd, rest))
    ensures q == StatusRead(p, r).(hs := q.hs, index := q.index, nread := carried + StatusSize(r) + HeadersSize(r.headers),
                                   flags := HeadFlags(r.headers), length := HeadersLength(MAX64, r.headers)) && Inv(q)
    ensures es + [ResponseDone(r)] == log + ResponseHeadEvents(r)
  {
    hide Run, Inv, HeadersBytes, HeadersEvents, ResponseDone, Number, StatusLine, HeadersFlags, HeadersLength, Ending, AllFine, StatusSize;
    var ending := Ending(r.bareEnd, rest);
    EndingStarts(r.bareEnd, rest);
    StatusLineRuns(max, p, log, r, HeadersBytes(r.headers, ending));
    var log0 := log + [MessageBegin, Data(Status, r.reason)];
    q := LinesRun(max, StatusRead(p, r), log0, r.headers, ending);
    es := log0 + HeadersEvents(r.headers);
    assert es + [ResponseDone(r)] == log + ResponseHeadEvents(r);
  }

  // ----- whole responses ---------------------------------------------------

  lemma NewResponse(p: Parser, major: nat, minor: nat)
    requires p.kind.Response? && p.major == major && p.minor == minor && (p.flags.chunked || p.length != MAX64)
    ensures NewMessage(p) == if GoesOn(major, minor, p.flags) then StartRes else Dead
  {
  }

  lemma ResponseInv(p: Parser, q: Parser, r: Response)
    requires SizeBytes(r.code) && Inv(p) && ResponseRead(p, r)
    requires q == p.(state := AfterHead(r), upgrade := Switches(r), nread := 0)
    ensures Inv(q)
  {
    hide HeadFlags, Number;
  }

  /** A response that says where it ends: its callbacks are exactly its own. One that
      switches to another protocol leaves what follows to it; behind any other the
      parser waits for the next response or, if the connection is to be closed, for
      nothing. */
  lemma ResponseRuns(max: nat, p: Parser, log: seq<Event>, r: Response, carried: nat, rest: seq<Byte>) returns (q: Parser)
    requires ReadyForResponse(p, carried) && ResponseOk(max, carried, r) && Delimited(r)
    ensures var es := log + ResponseHeadEvents(r) + BodyEvents(r.framing);
      Run(max, p, log, ResponseBytes(r, rest)) == if Switches(r) then Stopped(q, es, rest) else Run(max, q, es, rest)
    ensures WaitingForResponse(q, r)
  {
    hide Run, ResponseHeadEvents, Number, ResponseHeadBytes, Inv, HeadFlags, ResponseRead, BodyBytesOf, BodyEvents, HeadersLength, Ending,
      AllFine, Frames, LastOk, Switches, ResponseStays;
    var p0, es := ResponseLinesRun(max, p, log, r, carried, BodyBytesOf(r.framing, rest));
    ResponseTold(p0, r);
    q := ResponseBodyRuns(max, p0, es, r, rest);
    assert es + [ResponseDone(r)] + BodyEvents(r.framing) == log + ResponseHeadEvents(r) + BodyEvents(r.framing);
  }

  /** The empty line and the body. */
  lemma ResponseBodyRuns(max: nat, p: Parser, log: seq<Event>, r: Response, rest: seq<Byte>) returns (q: Parser)
    requires SizeBytes(r.code) && Inv(p) && ResponseRead(p, r) && FramingOk(max, r.headers, r.framing) && Delimited(r)
    requires p.nread + EndSize(r.bareEnd) <= max < MOD32 - 1
    ensures Run(max, p, log, Ending(r.bareEnd, BodyBytesOf(r.framing, rest))) ==
            Over(max, q, log + [ResponseDone(r)] + BodyEvents(r.framing), rest)
    ensures WaitingForResponse(q, r)
  {
    hide Run, Push, Absorb, BodyOf, ChunkEvents, NewMessage, LastOk, HeadersFlags, Inv, Number, Ending, AllFine, HeadersLength;
    var body := BodyBytesOf(r.framing, rest);
    ResponseHeadEnds(max, p, log, r, body);
    var q0 := p.(state := AfterHead(r), upgrade := Switches(r), nread := 0);
    var log1 := log + [ResponseDone(r)];
    DoneEvent(r);
    ResponseInv(p, q0, r);
    if HeadOnly(r) {
      q := q0;
      assert body == rest;
      assert log + [ResponseDone(r), MessageComplete] == log1 + [MessageComplete];
    } else if r.framing.Sized? {
      SizedBodyRuns(max, q0, log1, r.framing.data, rest);
      NewResponse(q0.(length := 0), r.major, r.minor);
      q := q0.(length := 0, state := NewMessage(q0.(length := 0)));
      DoneInv(q);
    } else {
      q := ChunkedRoundTrip(max, q0, log1, r.framing.chunks, r.framing.last, rest);
      StillChunked(q0.flags, r.framing.last.trailer);
      NewResponse(q, r.major, r.minor);
    }
  }

  lemma StillChunked(f: Flags, trailer: seq<Header>)
    requires f.chunked
    ensures TrailerFlags(f, trailer).chunked
  {
    HeadersTell(f.(trailing := true), trailer);
  }

  /** A response that does not: everything behind its head is its body, and only
      the end of the input ends it. */
  lemma ResponseUntilEof(max: nat, p: Parser, log: seq<Event>, r: Response, carried: nat, data: seq<Byte>) returns (q: Parser)
    requires ReadyForResponse(p, carried) && ResponseOk(max, carried, r) && !Delimited(r)
    ensures Run(max, p, log, ResponseHeadBytes(r, data)) ==
            Running(q, log + ResponseHeadEvents(r) + if data == [] then [] else [Data(Body, data)])
    ensures q.state == BodyIdentityEof
  {
    hide Run, Push, Absorb, ResponseHeadEvents, ResponseDone, Number, ResponseHeadBytes, HeadFlags, ResponseRead, HeadersLength, Ending,
      AllFine, Frames, Inv;
    var p0, es := ResponseLinesRun(max, p, log, r, carried, data);
    ResponseTold(p0, r);
    ResponseHeadEnds(max, p0, es, r, data);
    q := p0.(state := AfterHead(r), upgrade := Switches(r), nread := 0);
    var log1 := es + [ResponseDone(r)];
    DoneEvent(r);
    if data == [] {
      NoBytes(max, q, log1);
    } else {
      SkipToEof(max, q, log1, data, []);
      assert data + [] == data;
      AbsorbFresh(log1, Body, data);
      NoBytes(max, q, log1 + [Data(Body, data)]);
    }
  }

  /** A head is refused, and with which error, if a Content-Length is not taken or
      comes with chunked. */
  lemma ResponseRefused(max: nat, p: Parser, log: seq<Event>, r: Response, carried: nat, rest: seq<Byte>)
    requires ReadyForResponse(p, carried) && StatusOk(r) && AllLines(r.headers) && carried + ResponseHeadSize(r) <= max < MOD32 - 1
    requires !AllFine(false, r.headers) || (HeadFlags(r.headers).chunked && HeadFlags(r.headers).contentLength)
    ensures var o := Run(max, p, log, ResponseHeadBytes(r, rest));
      o.Broken? && o.error == if AllFine(false, r.headers) then UNEXPECTED_CONTENT_LENGTH else LinesError(NO_FLAGS, r.headers)
  {
    hide Run, AllFine, Inv, StatusLine, HeadersFlags, HeadersLength, HeadersBytes, HeadersEvents, Ending, StatusSize, LinesError, Number;
    if AllFine(false, r.headers) {
      var q, es := ResponseLinesRun(max, p, log, r, carried, rest);
      HeadersTell(NO_FLAGS, r.headers);
      TwoFramings(max, q, es, r.bareEnd, rest);
    } else {
      var ending := Ending(r.bareEnd, rest);
      EndingStarts(r.bareEnd, rest);
      StatusLineRuns(max, p, log, r, HeadersBytes(r.headers, ending));
      LinesRefused(max, StatusRead(p, r), log + [MessageBegin, Data(Status, r.reason)], r.headers, ending);
    }
  }

  // ----- one response after the other --------------------------------------

  /** Delimited responses that keep the connection open and in HTTP, each within the
      header limit. */
  predicate AllResponsesOk(max: nat, carried: nat, rs: seq<Response>)
    decreases |rs|
  {
    rs == [] || (ResponseOk(max, carried, rs[0]) && Delimited(rs[0]) && ResponseStays(rs[0]) && !Switches(rs[0])
                 && AllResponsesOk(max, Carried(rs[0].framing), rs[1..]))
  }

  function ResponsesCarry(carried: nat, rs: seq<Response>): nat
    decreases |rs|
  {
    if rs == [] then carried else ResponsesCarry(Carried(rs[0].framing), rs[1..])
  }

  function ResponsesWire(rs: seq<Response>, rest: seq<Byte>): seq<Byte> {
    if rs == [] then rest else ResponseBytes(rs[0], ResponsesWire(rs[1..], rest))
  }

  function ResponsesEvents(rs: seq<Response>): seq<Event>
    requires forall i :: 0 <= i < |rs| ==> SizeBytes(rs[i].code)
  {
    if rs == [] then [] else ResponseHeadEvents(rs[0]) + BodyEvents(rs[0].framing) + ResponsesEvents(rs[1..])
  }

  lemma {:induction false} CodesAreSizes(max: nat, carried: nat, rs: seq<Response>)
    requires AllResponsesOk(max, carried, rs)
    ensures forall i :: 0 <= i < |rs| ==> SizeBytes(rs[i].code)
    decreases |rs|
  {
    hide FramingOk, ResponseStays, Switches, Delimited;
    if rs != [] {
      CodesAreSizes(max, Carried(rs[0].framing), rs[1..]);
      assert forall i :: 1 <= i < |rs| ==> rs[i] == rs[1..][i - 1];
    }
  }

  lemma {:induction false} ResponsesRun(max: nat, p: Parser, log: seq<Event>, rs: seq<Response>, carried: nat, rest: seq<Byte>) returns (q: Parser)
    requires ReadyForResponse(p, carried) && AllResponsesOk(max, carried, rs)
    ensures forall i :: 0 <= i < |rs| ==> SizeBytes(rs[i].code)
    ensures Run(max, p, log, ResponsesWire(rs, rest)) == Run(max, q, log + ResponsesEvents(rs), rest)
    ensures ReadyForResponse(q, ResponsesCarry(carried, rs))
    decreases |rs|
  {
    hide Run, ResponseOk, ResponseBytes, ResponseHeadEvents, BodyEvents, Inv, ResponseStays, Carried, Delimited, Switches, SizeBytes;
    CodesAreSizes(max, carried, rs);
    if rs == [] {
      assert log + ResponsesEvents(rs) == log;
      q := p;
    } else {
      var head, body := ResponseHeadEvents(rs[0]), BodyEvents(rs[0].framing);
      var q0 := ResponseRuns(max, p, log, rs[0], carried, ResponsesWire(rs[1..], rest));
      q := ResponsesRun(max, q0, log + head + body, rs[1..], Carried(rs[0].framing), rest);
      Regroup(log, head, body, ResponsesEvents(rs[1..]));
    }
  }

  lemma Regroup(log: seq<Event>, a: seq<Event>, b: seq<Event>, c: seq<Event>)
    ensures log + a + b + c == log + (a + b + c)
  {
  }

  /** After a response that closes the connection, whatever follows but line ends
      is refused. */
  lemma ClosedAfterResponse(max: nat, p: Parser, log: seq<Event>, r: Response, carried: nat, w: seq<Byte>, ch: Byte, rest: seq<Byte>)
    requires ReadyForResponse(p, carried) && ResponseOk(max, carried, r) && Delimited(r) && !ResponseStays(r) && !Switches(r)
    requires LineEnds(w) && ch != CR && ch != LF && Carried(r.framing) + |w| + 1 <= max
    ensures Run(max, p, log, ResponseBytes(r, w + ([ch] + rest))) == Broken(CLOSED_CONNECTION, [ch] + rest)
  {
    hide Run, ResponseBytes, ResponseHeadEvents, BodyEvents, Inv, ResponseStays, Carried, Delimited, FramingOk, Number, Switches,
      ResponseHeadSize;
    var q := ResponseRuns(max, p, log, r, carried, w + ([ch] + rest));
    ClosedConnection(max, q, log + ResponseHeadEvents(r) + BodyEvents(r.framing), w, ch, rest);
  }
}
