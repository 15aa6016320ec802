/** Bytes that have no place where they stand: which error refuses them. */
module HttpRefusals {
  import opened Basics
  import opened HttpTypes
  import opened HttpAct
  import opened HttpRun
  import opened HttpInvariant
  import opened HttpSkip
  import opened HttpTarget

  predicate IsDigit(c: Byte) { '0' as int <= c <= '9' as int }

  predicate IsLineEnd(c: Byte) { c == '\r' as int || c == '\n' as int }

  /** What may stand in a status line, and the error for anything else. */
  predicate StatusLineError(s: State, c: Byte, e: Failure) {
    || (s == StartRes && !IsLineEnd(c) && c != 'H' as int && e == INVALID_CONSTANT)
    || (s == ResH && c != 'T' as int && e == STRICT) || (s == ResHT && c != 'T' as int && e == STRICT)
    || (s == ResHTT && c != 'P' as int && e == STRICT) || (s == ResHTTP && c != '/' as int && e == STRICT)
    || ((s == ResMajor || s == ResMinor) && !IsDigit(c) && e == INVALID_VERSION)
    || (s == ResDot && c != '.' as int && e == INVALID_VERSION) || (s == ResEnd && c != ' ' as int && e == INVALID_VERSION)
    || (s == ResFirstStatusCode && !IsDigit(c) && c != ' ' as int && e == INVALID_STATUS)
    || (s == ResStatusCode && !IsDigit(c) && c != ' ' as int && !IsLineEnd(c) && e == INVALID_STATUS)
    || (s == ResLineAlmostDone && c != '\n' as int && e == STRICT)
  }

  lemma StatusLineRefuses(max: nat, p: Parser, log: seq<Event>, c: Byte, e: Failure, rest: seq<Byte>)
    requires p.nread + 1 <= max < MOD32 - 1 && StatusLineError(p.state, c, e)
    ensures Run(max, p, log, [c] + rest) == Broken(e, [c] + rest)
  {
    hide Run;
    var q := CountByte(p);
    RunCons(max, p, log, c, rest);
    if p.state == StartRes {
      assert OnByte(q, c) == OnStartRes(q, c);
    } else {
      assert OnByte(q, c) == OnResponseLine(q, c);
    }
  }

  /** The same for a request line; the first letters of the methods are those of the
      fifteen names that start the guessing. */
  predicate RequestLineError(p: Parser, c: Byte, e: Failure) {
    var s := p.state;
    || (s == StartReq && !IsLineEnd(c) && c !in {65, 66, 67, 68, 71, 72, 76, 77, 78, 79, 80, 82, 83, 84, 85} && e == INVALID_METHOD)
    || (s == ReqHttpStart && c != ' ' as int && c != 'H' as int && (c != 'I' as int || !p.verb.SOURCE?) && e == INVALID_CONSTANT)
    || (s == ReqH && c != 'T' as int && e == STRICT) || (s == ReqHT && c != 'T' as int && e == STRICT)
    || (s == ReqHTT && c != 'P' as int && e == STRICT) || (s == ReqI && c != 'C' as int && e == STRICT)
    || (s == ReqIC && c != 'E' as int && e == STRICT) || (s == ReqHTTP && c != '/' as int && e == STRICT)
    || ((s == ReqMajor || s == ReqMinor) && !IsDigit(c) && e == INVALID_VERSION)
    || (s == ReqDot && c != '.' as int && e == INVALID_VERSION) || (s == ReqEnd && !IsLineEnd(c) && e == INVALID_VERSION)
    || (s == ReqLineAlmostDone && c != '\n' as int && e == LF_EXPECTED)
  }

  lemma RequestLineRefuses(max: nat, p: Parser, log: seq<Event>, c: Byte, e: Failure, rest: seq<Byte>)
    requires p.nread + 1 <= max < MOD32 - 1 && RequestLineError(p, c, e)
    ensures Run(max, p, log, [c] + rest) == Broken(e, [c] + rest)
  {
    hide Run;
    var q := CountByte(p);
    RunCons(max, p, log, c, rest);
    if p.state == StartReq {
      assert OnByte(q, c) == OnStartReq(q, c);
    } else {
      assert OnByte(q, c) == OnRequestLine(q, c);
    }
  }

  /** A target that the automaton does not take is refused at the byte where it stops. */
  lemma TargetRefuses(max: nat, p: Parser, log: seq<Event>, c: Byte, rest: seq<Byte>)
    requires UrlState(p.state) && p.nread + 1 <= max < MOD32 - 1 && ParseUrlChar(p.state, c) == Dead
    requires !(TargetEnds(p.state) && (c == ' ' as int || IsLineEnd(c)))
    ensures Run(max, p, log, [c] + rest) == Broken(INVALID_URL, [c] + rest)
  {
    hide Run, ParseUrlChar;
    var q := CountByte(p);
    RunCons(max, p, log, c, rest);
    assert OnByte(q, c) == OnUrl(q, c);
  }

  /** The same for header lines and the chunk framing. */
  predicate LineError(p: Parser, c: Byte, e: Failure) {
    var s := p.state;
    || (s == HeaderFieldStart && !IsLineEnd(c) && Token(c) == 0 && e == INVALID_HEADER_TOKEN)
    || (s == HeaderField && Token(c) == 0 && c != ':' as int && e == INVALID_HEADER_TOKEN)
    || (s == HeaderValue && !p.lenient && !IsLineEnd(c) && !IsHeaderChar(c) && e == INVALID_HEADER_TOKEN)
    || (s == HeaderAlmostDone && c != '\n' as int && e == LF_EXPECTED)
    || ((s == ValueDiscardWsAlmostDone || s == HeadersAlmostDone) && c != '\n' as int && e == STRICT)
    || (s == ChunkSizeAlmostDone && c != '\n' as int && e == STRICT)
    || (s == ChunkDataAlmostDone && c != '\r' as int && e == STRICT) || (s == ChunkDataDone && c != '\n' as int && e == STRICT)
  }

  lemma LineRefuses(max: nat, p: Parser, log: seq<Event>, c: Byte, e: Failure, rest: seq<Byte>)
    requires Inv(p) && p.nread + 1 <= max < MOD32 - 1 && LineError(p, c, e)
    ensures Run(max, p, log, [c] + rest) == Broken(e, [c] + rest)
  {
    hide Run, Token, IsHeaderChar, ValueNext;
    var q := CountByte(p);
    RunCons(max, p, log, c, rest);
    if InBody(p.state) {
      assert OnByte(q, c) == OnBody(q, c);
    } else {
      assert OnByte(q, c) == OnHeaderLine(q, c);
    }
  }
}
