/** One invariant that every byte keeps, and what it rules out: no internal
    assertion of the parser can fire on any byte stream. */
module HttpInvariant {
  import opened Basics
  import opened HttpTypes
  import opened HttpAct
  import opened HttpRun

  /** The header sub-states a field value can be read in. */
  predicate ValueHs(hs: HeaderState) {
    hs.General? || hs.HContentLengthNum? || hs.HContentLengthWs? || hs.MatchingChunked? || hs.MatchingTokenStart?
    || hs.MatchingKeepAlive? || hs.MatchingClose? || hs.MatchingConnUpgrade? || hs.MatchingToken?
    || hs.HChunked? || hs.HKeepAlive? || hs.HClose? || hs.HConnUpgrade?
  }

  /** In the middle of a Content-Length value. */
  predicate Numeric(hs: HeaderState) { hs.HContentLengthNum? || hs.HContentLengthWs? }

  /** A message head or a trailer is being read. */
  predicate InHead(s: State) { !Between(s) && !InBody(s) }

  predicate StateInv(p: Parser) {
    var s := p.state;
    && (s == ReqMethod ==> p.index <= |MethodName(p.verb)|)
    && (s == HeaderField || s == ValueDiscardWs || s == ValueDiscardWsAlmostDone || s == ValueDiscardLws ==> FieldHs(p.hs))
    && (s == HeaderValue || s == HeaderAlmostDone || s == ValueLws ==>
          ValueHs(p.hs) && (Numeric(p.hs) ==> p.flags.contentLength))
    && (s == ChunkSizeStart ==> p.nread == 0)
    && (s == ChunkSize || s == ChunkParameters || s == ChunkSizeAlmostDone ==> p.length < MAX64)
    && (s == ChunkData || s == BodyIdentity ==> 0 < p.length < MAX64)
    && (s == ChunkDataAlmostDone ==> p.length == 0)
    && (InBody(s) && s != BodyIdentity && s != BodyIdentityEof ==> p.flags.chunked)
    && s != ValueStart && s != HeadersDone && s != MessageDone  // left within the byte that enters them
  }

  /** A Content-Length is never mistaken for its absence, and conversely. */
  predicate LengthInv(p: Parser) {
    && p.length <= MAX64
    && (p.flags.contentLength ==> p.length < MAX64)
    && (InHead(p.state) && !p.flags.trailing && !p.flags.contentLength ==> p.length == MAX64)
  }

  predicate Inv(p: Parser) { StateInv(p) && LengthInv(p) }

  /** What Inv is after an arm, when the arm does not report an error. */
  predicate Keeps(a: Act) { !a.out.Trap? && (a.out.Fail? || Inv(a.p)) }

  lemma KeepsHeadersDone(p: Parser, ch: Byte)
    requires LengthInv(p)
    ensures Keeps(OnHeadersDone(p, ch))
  {
  }

  lemma KeepsHeadersAlmostDone(p: Parser, ch: Byte)
    requires LengthInv(p) && p.state == HeadersAlmostDone
    ensures Keeps(OnHeadersAlmostDone(p, ch))
  {
    if ch == LF && !p.flags.trailing && !(p.flags.chunked && p.flags.contentLength) {
      KeepsHeadersDone(p.(state := HeadersDone, upgrade := Upgrading(p)), ch);
    }
  }

  lemma KeepsHeaderFieldStart(p: Parser, ch: Byte)
    requires LengthInv(p) && p.state == HeaderFieldStart
    ensures Keeps(OnHeaderFieldStart(p, ch))
  {
    KeepsHeadersAlmostDone(p.(state := HeadersAlmostDone), ch);
  }

  lemma KeepsHeaderField(p: Parser, ch: Byte)
    requires Inv(p) && p.state == HeaderField
    ensures Keeps(OnHeaderField(p, ch))
  {
  }

  lemma KeepsValueStart(p: Parser, ch: Byte)
    requires LengthInv(p) && InHead(p.state) && (Numeric(p.hs) ==> p.flags.contentLength)
    ensures Keeps(OnValueStart(p, ch))
  {
    var a := OnValueStart(p, ch);
    assert a.p.state == HeaderValue && (a.out.Fail? || (a.out.Go? && ValueHs(a.p.hs)));
    assert a.out.Go? && Numeric(a.p.hs) ==> a.p.flags.contentLength;
  }

  /** A value byte never meets an impossible sub-state, and the length it
      leaves is below the sentinel. */
  lemma ScanKeeps(v: Scan, ch: Byte)
    requires v.Scan? && ValueHs(v.hs) && (Numeric(v.hs) ==> v.flags.contentLength && v.length < MAX64)
    ensures var r := ValueNext(v, ch);
      && !r.ScanTrap?
      && (r.Scan? ==>
            && ValueHs(r.hs)
            && r.flags.contentLength == v.flags.contentLength && r.flags.trailing == v.flags.trailing
            && r.flags.chunked == v.flags.chunked && r.flags.skipBody == v.flags.skipBody
            && (Numeric(r.hs) ==> Numeric(v.hs))
            && (if Numeric(v.hs) then r.length < MAX64 else r.length == v.length))
  {
  }

  lemma KeepsHeaderValue(p: Parser, ch: Byte)
    requires Inv(p) && p.state == HeaderValue
    ensures Keeps(OnHeaderValue(p, ch))
  {
    hide ValueNext;
    ScanKeeps(ScanOf(p), ch);
  }

  /** Switching to another method stays inside its name. */
  lemma NextMethodInside(m: Method, pos: nat, ch: Byte)
    ensures var n := NextMethod(m, pos, ch); n.Some? ==> pos + 1 <= |MethodName(n.value)|
  {
    var n := NextMethod(m, pos, ch);
    if n.Some? && pos > 2 {
      assert n.value == MKCALENDAR || n.value == PROPPATCH || n.value == UNLINK;
    }
  }

  /** The matcher never leaves the method name it is reading. */
  predicate InsideName(p: Parser, a: Act) {
    || a.out.Fail?
    || (a.out.Go? && a.p == p.(state := ReqSpacesBeforeUrl, index := a.p.index))
    || (a.out.Go? && a.p == p.(verb := a.p.verb, index := a.p.index) && a.p.index <= |MethodName(a.p.verb)|)
  }

  lemma StaysInsideName(p: Parser, ch: Byte)
    requires p.state == ReqMethod && p.index <= |MethodName(p.verb)|
    ensures InsideName(p, OnReqMethod(p, ch))
  {
    NextMethodInside(p.verb, p.index, ch);
  }

  lemma KeepsInsideName(p: Parser, a: Act)
    requires Inv(p) && p.state == ReqMethod && InsideName(p, a)
    ensures Keeps(a)
  {
  }

  lemma KeepsReqMethod(p: Parser, ch: Byte)
    requires Inv(p) && p.state == ReqMethod
    ensures Keeps(OnReqMethod(p, ch))
  {
    StaysInsideName(p, ch);
    KeepsInsideName(p, OnReqMethod(p, ch));
  }

  lemma KeepsChunkSize(p: Parser, ch: Byte)
    requires Inv(p) && p.state == ChunkSize
    ensures Keeps(OnChunkSize(p, ch))
  {
  }

  lemma KeepsValueDiscardWs(p: Parser, ch: Byte)
    requires Inv(p) && p.state == ValueDiscardWs
    ensures Keeps(OnValueDiscardWs(p, ch))
  {
    KeepsValueStart(p, ch);
  }

  lemma KeepsValueLws(p: Parser, ch: Byte)
    requires Inv(p) && p.state == ValueLws
    ensures Keeps(OnValueLws(p, ch))
  {
    if ch == SP || ch == HT {
      KeepsValueStart(p.(hs := if p.hs.HContentLengthNum? then HContentLengthWs else p.hs, state := ValueStart), ch);
    } else {
      KeepsHeaderFieldStart(p.(flags := FinishHeader(p.flags, p.hs), state := HeaderFieldStart), ch);
    }
  }

  lemma KeepsValueDiscardLws(p: Parser, ch: Byte)
    requires Inv(p) && p.state == ValueDiscardLws
    ensures Keeps(OnValueDiscardLws(p, ch))
  {
    KeepsHeaderFieldStart(p.(flags := FinishHeader(p.flags, p.hs), state := HeaderFieldStart), ch);
  }

  lemma KeepsBetween(p: Parser, ch: Byte)
    requires Inv(p) && Between(p.state)
    ensures Keeps(OnBetween(p, ch))
  {
  }

  /** An arm of a start line that only moves on to a state with nothing to keep. */
  predicate MovesOn(p: Parser, a: Act) {
    || a.out.Fail?
    || (a.out.Go? && a.p.flags == p.flags && a.p.length == p.length
        && (ResOrRespH <= a.p.state < ReqMethod || ReqMethod < a.p.state <= HeaderFieldStart) && a.p.state != StartReq && a.p.state != StartRes)
  }

  lemma KeepsMovesOn(p: Parser, a: Act)
    requires LengthInv(p) && InHead(p.state) && MovesOn(p, a)
    ensures Keeps(a)
  {
  }

  lemma KeepsResponseLine(p: Parser, ch: Byte)
    requires Inv(p) && ResponseLine(p.state)
    ensures Keeps(OnResponseLine(p, ch))
  {
    if p.state != ResOrRespH {
      assert MovesOn(p, OnResponseLine(p, ch));
      KeepsMovesOn(p, OnResponseLine(p, ch));
    }
  }

  /** A URL byte is refused or stays in the URL. */
  lemma UrlStays(s: State, ch: Byte)
    ensures var t := ParseUrlChar(s, ch); t == Dead || UrlState(t)
  {
  }

  lemma KeepsUrl(p: Parser, ch: Byte)
    requires Inv(p) && UrlState(p.state)
    ensures Keeps(OnUrl(p, ch))
  {
    UrlStays(p.state, ch);
    assert MovesOn(p, OnUrl(p, ch));
    KeepsMovesOn(p, OnUrl(p, ch));
  }

  lemma KeepsSpacesBeforeUrl(p: Parser, ch: Byte)
    requires Inv(p) && p.state == ReqSpacesBeforeUrl
    ensures Keeps(OnReqSpacesBeforeUrl(p, ch))
  {
    UrlStays(if p.verb.CONNECT? then ReqServerStart else ReqSpacesBeforeUrl, ch);
    assert MovesOn(p, OnReqSpacesBeforeUrl(p, ch));
    KeepsMovesOn(p, OnReqSpacesBeforeUrl(p, ch));
  }

  lemma KeepsRequestLine(p: Parser, ch: Byte)
    requires Inv(p) && InHead(p.state) && !ResponseLine(p.state) && !HeaderLine(p.state)
    ensures Keeps(OnRequestLine(p, ch))
  {
    if p.state == ReqMethod {
      KeepsReqMethod(p, ch);
    } else if p.state == ReqSpacesBeforeUrl {
      KeepsSpacesBeforeUrl(p, ch);
    } else if UrlState(p.state) {
      KeepsUrl(p, ch);
    } else {
      assert MovesOn(p, OnRequestLine(p, ch));
      KeepsMovesOn(p, OnRequestLine(p, ch));
    }
  }

  lemma KeepsHeaderLine(p: Parser, ch: Byte)
    requires Inv(p) && HeaderLine(p.state)
    ensures Keeps(OnHeaderLine(p, ch))
  {
    if p.state == HeaderFieldStart { KeepsHeaderFieldStart(p, ch); }
    else if p.state == HeaderField { KeepsHeaderField(p, ch); }
    else if p.state == HeaderValue { KeepsHeaderValue(p, ch); }
    else if p.state == ValueDiscardWs { KeepsValueDiscardWs(p, ch); }
    else if p.state == ValueLws { KeepsValueLws(p, ch); }
    else if p.state == ValueDiscardLws { KeepsValueDiscardLws(p, ch); }
    else if p.state == HeadersAlmostDone { KeepsHeadersAlmostDone(p, ch); }
  }

  lemma KeepsBody(p: Parser, ch: Byte)
    requires Inv(p) && InBody(p.state)
    ensures Keeps(OnBody(CountByte(p), ch))
  {
    if p.state == ChunkSize {
      KeepsChunkSize(CountByte(p), ch);
    }
  }

  /** Every arm keeps the invariant and passes its assertions. */
  lemma ByteKeepsInv(p: Parser, ch: Byte)
    requires Inv(p)
    ensures Keeps(OnByte(CountByte(p), ch))
  {
    var q := CountByte(p);
    if InBody(p.state) {
      KeepsBody(p, ch);
    } else {
      assert Inv(q);
      if Between(p.state) {
        KeepsBetween(q, ch);
      } else if ResponseLine(p.state) {
        KeepsResponseLine(q, ch);
      } else if HeaderLine(p.state) {
        KeepsHeaderLine(q, ch);
      } else {
        KeepsRequestLine(q, ch);
      }
    }
  }

  /** No internal assertion fires, whatever the bytes, from any state of the invariant. */
  lemma {:induction false} NoTrap(max: nat, p: Parser, log: seq<Event>, data: seq<Byte>)
    requires Inv(p)
    ensures var r := Run(max, p, log, data);
      !r.Trapped? && (r.Running? || r.Stopped? ==> Inv(r.p))
    decreases |data|
  {
    if data != [] {
      ByteKeepsInv(p, data[0]);
      var r := Step(max, p, log, data[0], data[1..]);
      if r.Running? {
        NoTrap(max, r.p, r.log, data[1..]);
      }
    }
  }

  /** In particular from a freshly initialised parser. */
  lemma NoTrapFromInit(max: nat, kind: Kind, data: seq<Byte>)
    ensures !Run(max, Init(kind), [], data).Trapped?
  {
    NoTrap(max, Init(kind), [], data);
  }
}
