/** What the parser does with one byte. Each function below is one arm of the
    byte loop's switch; an arm that re-executes the byte in another state calls
    that state's function. Callbacks return 0 and never pause. */
module HttpAct {
  import opened Basics
  import opened HttpTypes

  /** What an arm does besides changing the parser record. */
  datatype Op =
    | Mark(kind: DataKind)       // remember the current byte as a start, unless a start is set
    | Flush(kind: DataKind)      // data callback up to, not including, the current byte
    | FlushIncl(kind: DataKind)  // data callback up to and including the current byte
    | Notify(event: Event)

  /** `Leave` is the exit after an upgrade; `Trap` is a failing C assertion or
      a read outside a keyword. */
  datatype Outcome = Go | Fail(error: Failure) | Leave | Trap

  datatype Act = Act(p: Parser, ops: seq<Op>, out: Outcome)

  function To(p: Parser, s: State): Act { Act(p.(state := s), [], Go) }
  function Err(p: Parser, e: Failure): Act { Act(p, [], Fail(e)) }
  function Then(ops: seq<Op>, a: Act): Act { Act(a.p, ops + a.ops, a.out) }

  /** STRICT_CHECK, then a state change. */
  function Expect(p: Parser, ch: Byte, want: Byte, s: State): Act {
    if ch != want then Err(p, STRICT) else To(p, s)
  }

  // ----- message boundaries ------------------------------------------------

  /** Statuses without a body, unless a header frames one. */
  predicate BodyLess(status: nat) { status / 100 == 1 || status == 204 || status == 304 }

  predicate NeedsEof(p: Parser) {
    if p.kind.Request? then false
    else if BodyLess(p.status) || p.flags.skipBody then false
    else !(p.flags.chunked || p.length != MAX64)
  }

  predicate ShouldKeepAlive(p: Parser) {
    (if p.major > 0 && p.minor > 0 then !p.flags.close else p.flags.keepAlive) && !NeedsEof(p)
  }

  function StartState(p: Parser): State { if p.kind.Request? then StartReq else StartRes }
  function NewMessage(p: Parser): State { if ShouldKeepAlive(p) then StartState(p) else Dead }

  /** Back to a start state, or to the dead state, reporting the message. */
  function Complete(p: Parser, out: Outcome): Act {
    Act(p.(state := NewMessage(p)), [Notify(MessageComplete)], out)
  }

  function OnMessageDone(p: Parser): Act { Complete(p, if p.upgrade then Leave else Go) }

  function OnHeadersDone(p0: Parser, ch: Byte): Act {
    if ch != LF then Err(p0, STRICT) else
    var p := p0.(nread := 0);
    var hasBody := p.flags.chunked || (p.length > 0 && p.length != MAX64);
    if p.upgrade && (p.verb.CONNECT? || p.flags.skipBody || !hasBody) then Complete(p, Leave)
    else if p.flags.skipBody then Complete(p, Go)
    else if p.flags.chunked then To(p, ChunkSizeStart)
    else if p.length == 0 then Complete(p, Go)
    else if p.length != MAX64 then To(p, BodyIdentity)
    else if !NeedsEof(p) then Complete(p, Go)
    else To(p, BodyIdentityEof)
  }

  function HeadEvent(p: Parser): Event {
    HeadersComplete(if p.kind.Request? then RequestHead(p.verb) else ResponseHead(p.status),
                    p.major, p.minor, p.flags.chunked, p.length, p.upgrade)
  }

  function Upgrading(p: Parser): bool {
    if p.flags.upgrade && p.flags.connUpgrade then p.kind.Request? || p.status == 101 else p.verb.CONNECT?
  }

  function OnHeadersAlmostDone(p: Parser, ch: Byte): Act {
    if ch != LF then Err(p, STRICT)
    else if p.flags.trailing then Then([Notify(ChunkComplete)], OnMessageDone(p.(state := MessageDone)))
    else if p.flags.chunked && p.flags.contentLength then Err(p, UNEXPECTED_CONTENT_LENGTH)
    else
      var q := p.(state := HeadersDone, upgrade := Upgrading(p));
      Then([Notify(HeadEvent(q))], OnHeadersDone(q, ch))
  }

  // ----- start line of a response ------------------------------------------

  function OnStartRes(p: Parser, ch: Byte): Act {
    if ch == CR || ch == LF then Act(p, [], Go)
    else
      var q := p.(flags := NO_FLAGS, length := MAX64);
      if ch == 72 /* H */ then Then([Notify(MessageBegin)], To(q, ResH)) else Err(q, INVALID_CONSTANT)
  }

  function OnResMajor(p: Parser, ch: Byte): Act {
    if !IsNum(ch) then Err(p, INVALID_VERSION) else To(p.(major := ch - 48), ResDot)
  }

  function OnResMinor(p: Parser, ch: Byte): Act {
    if !IsNum(ch) then Err(p, INVALID_VERSION) else To(p.(minor := ch - 48), ResEnd)
  }

  function OnResFirstStatusCode(p: Parser, ch: Byte): Act {
    if IsNum(ch) then To(p.(status := ch - 48), ResStatusCode)
    else if ch == SP then Act(p, [], Go)
    else Err(p, INVALID_STATUS)
  }

  function OnResStatus(p: Parser, ch: Byte): Act {
    if ch == CR then Then([Flush(Status)], To(p, ResLineAlmostDone))
    else if ch == LF then Then([Flush(Status)], To(p, HeaderFieldStart))
    else Act(p, [], Go)
  }

  function OnResStatusStart(p: Parser, ch: Byte): Act {
    var q := p.(state := ResStatus, index := 0);
    Then([Mark(Status)], if ch == CR || ch == LF then OnResStatus(q, ch) else Act(q, [], Go))
  }

  function OnResStatusCode(p: Parser, ch: Byte): Act {
    if IsNum(ch) then
      var q := p.(status := p.status * 10 + (ch - 48));
      if q.status > 999 then Err(q, INVALID_STATUS) else Act(q, [], Go)
    else if ch == SP then To(p, ResStatusStart)
    else if ch == CR || ch == LF then OnResStatusStart(p.(state := ResStatusStart), ch)
    else Err(p, INVALID_STATUS)
  }

  // ----- start line of a request -------------------------------------------

  function FirstMethod(ch: Byte): Maybe<Method> {
    match ch
    case 65 => Some(ACL)
    case 66 => Some(BIND)
    case 67 => Some(CONNECT)
    case 68 => Some(DELETE)
    case 71 => Some(GET)
    case 72 => Some(HEAD)
    case 76 => Some(LOCK)
    case 77 => Some(MKCOL)
    case 78 => Some(NOTIFY)
    case 79 => Some(OPTIONS)
    case 80 => Some(POST)
    case 82 => Some(REPORT)
    case 83 => Some(SUBSCRIBE)
    case 84 => Some(TRACE)
    case 85 => Some(UNLOCK)
    case _ => None
  }

  /** The method to switch to when the guess `m` fails at position `pos` on `ch`. */
  function NextMethod(m: Method, pos: nat, ch: Byte): Maybe<Method> {
    match m
    case POST => if pos != 1 then None else if ch == 85 then Some(PUT) else if ch == 65 then Some(PATCH)
                 else if ch == 82 then Some(PROPFIND) else None
    case PUT => if pos == 2 && ch == 82 then Some(PURGE) else None
    case CONNECT => if pos == 1 && ch == 72 then Some(CHECKOUT) else if pos == 2 && ch == 80 then Some(COPY) else None
    case MKCOL => if pos == 1 && ch == 79 then Some(MOVE) else if pos == 1 && ch == 69 then Some(MERGE)
                  else if pos == 1 && ch == 45 then Some(MSEARCH) else if pos == 2 && ch == 65 then Some(MKACTIVITY)
                  else if pos == 3 && ch == 65 then Some(MKCALENDAR) else None
    case SUBSCRIBE => if pos != 1 then None else if ch == 69 then Some(SEARCH) else if ch == 79 then Some(SOURCE) else None
    case REPORT => if pos == 2 && ch == 66 then Some(REBIND) else None
    case PROPFIND => if pos == 4 && ch == 80 then Some(PROPPATCH) else None
    case LOCK => if pos == 1 && ch == 73 then Some(LINK) else None
    case UNLOCK => if pos == 2 && ch == 83 then Some(UNSUBSCRIBE) else if pos == 2 && ch == 66 then Some(UNBIND)
                   else if pos == 3 && ch == 73 then Some(UNLINK) else None
    case _ => None
  }

  function OnStartReq(p: Parser, ch: Byte): Act {
    if ch == CR || ch == LF then Act(p, [], Go)
    else
      var q := p.(flags := NO_FLAGS, length := MAX64);
      if !IsAlpha(ch) then Err(q, INVALID_METHOD)
      else
        match FirstMethod(ch)
        case None => Err(q.(verb := DELETE, index := 1), INVALID_METHOD)
        case Some(m) => Then([Notify(MessageBegin)], To(q.(verb := m, index := 1), ReqMethod))
  }

  function OnStartReqOrRes(p: Parser, ch: Byte): Act {
    if ch == CR || ch == LF then Act(p, [], Go)
    else
      var q := p.(flags := NO_FLAGS, length := MAX64);
      if ch == 72 /* H */ then Then([Notify(MessageBegin)], To(q, ResOrRespH))
      else OnStartReq(q.(kind := Request, state := StartReq), ch)
  }

  function OnResOrRespH(p: Parser, ch: Byte): Act {
    if ch == 84 /* T */ then To(p.(kind := Response), ResHT)
    else if ch != 69 /* E */ then Err(p, INVALID_CONSTANT)
    else To(p.(kind := Request, verb := HEAD, index := 2), ReqMethod)
  }

  /** The 7-bit matcher index. */
  function Inc(i: nat): nat { (i + 1) % 128 }

  function OnReqMethod(p: Parser, ch: Byte): Act {
    if ch == 0 then Err(p, INVALID_METHOD)
    else if p.index > |MethodName(p.verb)| then Act(p, [], Trap)
    else
      var want := CharAt(MethodName(p.verb), p.index);
      if ch == SP && want == 0 then To(p.(index := Inc(p.index)), ReqSpacesBeforeUrl)
      else if ch == want then Act(p.(index := Inc(p.index)), [], Go)
      else if 65 <= ch <= 90 || ch == 45 /* - */ then
        match NextMethod(p.verb, p.index, ch)
        case None => Err(p, INVALID_METHOD)
        case Some(m) => Act(p.(verb := m, index := Inc(p.index)), [], Go)
      else Err(p, INVALID_METHOD)
  }

  /** `parse_url_char` in strict mode; `Dead` is its rejection. */
  function ParseUrlChar(s: State, ch: Byte): State {
    if ch == SP || ch == CR || ch == LF || ch == HT || ch == 12 /* FF */ then Dead
    else if s == ReqSpacesBeforeUrl then
        if ch == SLASH || ch == 42 /* * */ then ReqPath else if IsAlpha(ch) then ReqSchema else Dead
    else if s == ReqSchema then
        if IsAlpha(ch) then ReqSchema else if ch == COLON then ReqSchemaSlash else Dead
    else if s == ReqSchemaSlash then if ch == SLASH then ReqSchemaSlashSlash else Dead
    else if s == ReqSchemaSlashSlash then if ch == SLASH then ReqServerStart else Dead
    else if s == ReqServerWithAt then if ch == 64 /* @ */ then Dead else ParseServerChar(ch)
    else if s == ReqServerStart then ParseServerChar(ch)
    else if s == ReqServer then ParseServerChar(ch)
    else if s == ReqPath then
        if IsUrlChar(ch) then ReqPath else if ch == 63 /* ? */ then ReqQueryStart
        else if ch == 35 /* # */ then ReqFragmentStart else Dead
    else if s == ReqQueryStart then ParseQueryChar(ch)
    else if s == ReqQuery then ParseQueryChar(ch)
    else if s == ReqFragmentStart then
        if IsUrlChar(ch) || ch == 63 then ReqFragment else if ch == 35 then ReqFragmentStart else Dead
    else if s == ReqFragment then if IsUrlChar(ch) || ch == 63 || ch == 35 then ReqFragment else Dead
    else Dead
  }

  function ParseServerChar(ch: Byte): State {
    if ch == SLASH then ReqPath
    else if ch == 63 /* ? */ then ReqQueryStart
    else if ch == 64 /* @ */ then ReqServerWithAt
    else if IsUserinfoChar(ch) || ch == 91 /* [ */ || ch == 93 /* ] */ then ReqServer
    else Dead
  }

  function ParseQueryChar(ch: Byte): State {
    if IsUrlChar(ch) || ch == 63 then ReqQuery else if ch == 35 then ReqFragmentStart else Dead
  }

  /** Take a URL byte, starting from state `from`. */
  function OnUrlByte(p: Parser, from: State, ch: Byte): Act {
    var s := ParseUrlChar(from, ch);
    if s == Dead then Err(p.(state := s), INVALID_URL) else To(p, s)
  }

  function OnReqSpacesBeforeUrl(p: Parser, ch: Byte): Act {
    if ch == SP then Act(p, [], Go)
    else Then([Mark(Url)], OnUrlByte(p, if p.verb.CONNECT? then ReqServerStart else ReqSpacesBeforeUrl, ch))
  }

  /** In the scheme, where white space is not allowed. */
  function OnReqSchema(p: Parser, ch: Byte): Act {
    if ch == SP || ch == CR || ch == LF then Err(p, INVALID_URL) else OnUrlByte(p, p.state, ch)
  }

  function OnReqUrl(p: Parser, ch: Byte): Act {
    if ch == SP then Then([Flush(Url)], To(p, ReqHttpStart))
    else if ch == CR || ch == LF then
      Then([Flush(Url)], To(p.(major := 0, minor := 9), if ch == CR then ReqLineAlmostDone else HeaderFieldStart))
    else OnUrlByte(p, p.state, ch)
  }

  function OnReqHttpStart(p: Parser, ch: Byte): Act {
    if ch == SP then Act(p, [], Go)
    else if ch == 72 /* H */ then To(p, ReqH)
    else if ch == 73 /* I */ && p.verb.SOURCE? then To(p, ReqI)
    else Err(p, INVALID_CONSTANT)
  }

  function OnReqMajor(p: Parser, ch: Byte): Act {
    if !IsNum(ch) then Err(p, INVALID_VERSION) else To(p.(major := ch - 48), ReqDot)
  }

  function OnReqMinor(p: Parser, ch: Byte): Act {
    if !IsNum(ch) then Err(p, INVALID_VERSION) else To(p.(minor := ch - 48), ReqEnd)
  }

  function OnReqEnd(p: Parser, ch: Byte): Act {
    if ch == CR then To(p, ReqLineAlmostDone)
    else if ch == LF then To(p, HeaderFieldStart)
    else Err(p, INVALID_VERSION)
  }

  // ----- header fields -----------------------------------------------------

  function OnHeaderFieldStart(p: Parser, ch: Byte): Act {
    if ch == CR then To(p, HeadersAlmostDone)
    else if ch == LF then OnHeadersAlmostDone(p.(state := HeadersAlmostDone), ch)
    else if Token(ch) == 0 then Err(p, INVALID_HEADER_TOKEN)
    else Then([Mark(Field)], To(p.(index := 0, hs := FirstHeaderState(Token(ch))), HeaderField))
  }

  function FirstHeaderState(c: Byte): HeaderState {
    if c == 99 /* c */ then HC
    else if c == 112 /* p */ then MatchingProxyConnection
    else if c == 116 /* t */ then MatchingTransferEncoding
    else if c == 117 /* u */ then MatchingUpgrade
    else General
  }

  /** One step of matching `word`: miss, still matching, or complete. */
  function Match(word: seq<Byte>, i: nat, c: Byte, miss: HeaderState, more: HeaderState, done: HeaderState): HeaderState
    requires |word| > 0
  {
    if i > |word| || c != CharAt(word, i) then miss else if i == |word| - 1 then done else more
  }

  /** The header sub-states a field name can be read in. */
  predicate FieldHs(hs: HeaderState) {
    hs.General? || hs.HC? || hs.HCO? || hs.HCON? || hs.MatchingConnection? || hs.MatchingProxyConnection?
    || hs.MatchingContentLength? || hs.MatchingTransferEncoding? || hs.MatchingUpgrade?
    || hs.HConnection? || hs.HContentLength? || hs.HTransferEncoding? || hs.HUpgrade?
  }

  datatype Matching = Matching(hs: HeaderState, index: nat)

  /** The sub-state after a name byte whose token is `c`. */
  function FieldNext(m: Matching, c: Byte): Matching
    requires FieldHs(m.hs)
  {
    var i := Inc(m.index);
    match m.hs
    case General => m
    case HC => Matching(if c == 111 /* o */ then HCO else General, i)
    case HCO => Matching(if c == 110 /* n */ then HCON else General, i)
    case HCON => Matching(if c == 110 /* n */ then MatchingConnection
                          else if c == 116 /* t */ then MatchingContentLength else General, i)
    case MatchingConnection => Matching(Match(CONNECTION, i, c, General, m.hs, HConnection), i)
    case MatchingProxyConnection => Matching(Match(PROXY_CONNECTION, i, c, General, m.hs, HConnection), i)
    case MatchingContentLength => Matching(Match(CONTENT_LENGTH, i, c, General, m.hs, HContentLength), i)
    case MatchingTransferEncoding => Matching(Match(TRANSFER_ENCODING, i, c, General, m.hs, HTransferEncoding), i)
    case MatchingUpgrade => Matching(Match(UPGRADE, i, c, General, m.hs, HUpgrade), i)
    case _ => m.(hs := General)
  }

  function OnHeaderField(p: Parser, ch: Byte): Act {
    if Token(ch) != 0 then
      if !FieldHs(p.hs) then Act(p, [], Trap)
      else
        var m := FieldNext(Matching(p.hs, p.index), Token(ch));
        Act(p.(hs := m.hs, index := m.index), [], Go)
    else if ch == COLON then Then([Flush(Field)], To(p, ValueDiscardWs))
    else Err(p, INVALID_HEADER_TOKEN)
  }

  // ----- header values -----------------------------------------------------

  function OnValueStart(p: Parser, ch: Byte): Act {
    var q := p.(state := HeaderValue, index := 0);
    if p.hs.HContentLength? && !IsNum(ch) then Act(q, [Mark(Value)], Fail(INVALID_CONTENT_LENGTH))
    else if p.hs.HContentLength? && p.flags.contentLength then Act(q, [Mark(Value)], Fail(UNEXPECTED_CONTENT_LENGTH))
    else
      Act(q.(hs := ValueHeaderState(p.hs, Lower(ch)), flags := ValueFlags(p.flags, p.hs),
             length := if p.hs.HContentLength? then ch - 48 else p.length), [Mark(Value)], Go)
  }

  /** The sub-state a value starts in, from the one its name left. */
  function ValueHeaderState(hs: HeaderState, c: Byte): HeaderState {
    match hs
    case HTransferEncoding => if c == 99 /* c */ then MatchingChunked else General
    case HContentLength => HContentLengthNum
    case HContentLengthWs => HContentLengthWs
    case HConnection => ConnectionToken(c)
    case MatchingTokenStart => MatchingTokenStart
    case _ => General
  }

  function ValueFlags(f: Flags, hs: HeaderState): Flags {
    if hs.HUpgrade? then f.(upgrade := true) else if hs.HContentLength? then f.(contentLength := true) else f
  }

  function ConnectionToken(c: Byte): HeaderState {
    if c == 107 /* k */ then MatchingKeepAlive
    else if c == 99 /* c */ then MatchingClose
    else if c == 117 /* u */ then MatchingConnUpgrade
    else MatchingToken
  }

  function OnValueDiscardWs(p: Parser, ch: Byte): Act {
    if ch == SP || ch == HT then Act(p, [], Go)
    else if ch == CR then To(p, ValueDiscardWsAlmostDone)
    else if ch == LF then To(p, ValueDiscardLws)
    else OnValueStart(p, ch)
  }

  /** What a value byte that is not CR or LF changes. */
  datatype Scan = Scan(hs: HeaderState, index: nat, flags: Flags, length: nat) | ScanFail(error: Failure) | ScanTrap

  function ScanLength(v: Scan, ch: Byte): Scan
    requires v.Scan?
  {
    if ch == SP then v.(hs := HContentLengthWs)
    else if !IsNum(ch) || (MAX64 - 10) / 10 < v.length then ScanFail(INVALID_CONTENT_LENGTH)
    else v.(hs := HContentLengthNum, length := (v.length * 10 + (ch - 48)) % MOD64)
  }

  function SetConnection(f: Flags, hs: HeaderState): Flags {
    if hs.HKeepAlive? then f.(keepAlive := true)
    else if hs.HClose? then f.(close := true)
    else if hs.HConnUpgrade? then f.(connUpgrade := true)
    else f
  }

  function ValueNext(v: Scan, ch: Byte): Scan
    requires v.Scan?
  {
    var c := Lower(ch);
    var i := Inc(v.index);
    match v.hs
    case General => v
    case HConnection => ScanTrap
    case HTransferEncoding => ScanTrap
    case HContentLength => if ch == SP then v else ScanLength(v, ch)
    case HContentLengthNum => ScanLength(v, ch)
    case HContentLengthWs => if ch == SP then v else ScanFail(INVALID_CONTENT_LENGTH)
    case MatchingChunked => v.(index := i, hs := Match(CHUNKED, i, c, General, v.hs, HChunked))
    case MatchingTokenStart =>
      v.(hs := if !ConnectionToken(c).MatchingToken? then ConnectionToken(c)
               else if Token(c) != 0 then MatchingToken
               else if c == SP || c == HT then v.hs
               else General)
    case MatchingKeepAlive => v.(index := i, hs := Match(KEEP_ALIVE, i, c, MatchingToken, v.hs, HKeepAlive))
    case MatchingClose => v.(index := i, hs := Match(CLOSE, i, c, MatchingToken, v.hs, HClose))
    case MatchingConnUpgrade => v.(index := i, hs := Match(UPGRADE, i, c, MatchingToken, v.hs, HConnUpgrade))
    case MatchingToken => if ch == COMMA then v.(hs := MatchingTokenStart, index := 0) else v
    case HChunked => if ch != SP then v.(hs := General) else v
    case HKeepAlive => AfterConnectionWord(v, ch)
    case HClose => AfterConnectionWord(v, ch)
    case HConnUpgrade => AfterConnectionWord(v, ch)
    case _ => v.(hs := General)
  }

  function AfterConnectionWord(v: Scan, ch: Byte): Scan
    requires v.Scan?
  {
    if ch == COMMA then v.(flags := SetConnection(v.flags, v.hs), hs := MatchingTokenStart, index := 0)
    else if ch != SP then v.(hs := MatchingToken)
    else v
  }

  function ScanOf(p: Parser): Scan { Scan(p.hs, p.index, p.flags, p.length) }

  function WithScan(p: Parser, v: Scan): Parser
    requires v.Scan?
  {
    p.(hs := v.hs, index := v.index, flags := v.flags, length := v.length)
  }

  /** A value byte that is neither CR nor LF. */
  function ScanByte(lenient: bool, v: Scan, ch: Byte): Scan
    requires v.Scan?
  {
    if !lenient && !IsHeaderChar(ch) then ScanFail(INVALID_HEADER_TOKEN) else ValueNext(v, ch)
  }

  function OnHeaderValue(p: Parser, ch: Byte): Act {
    if ch == CR then Then([Flush(Value)], To(p, HeaderAlmostDone))
    else if ch == LF then Then([Flush(Value)], OnHeaderAlmostDone(p.(state := HeaderAlmostDone), ch))
    else
      match ScanByte(p.lenient, ScanOf(p), ch)
      case ScanFail(e) => Err(p, e)
      case ScanTrap => Act(p, [], Trap)
      case Scan(_, _, _, _) => Act(WithScan(p, ScanByte(p.lenient, ScanOf(p), ch)), [], Go)
  }

  function OnHeaderAlmostDone(p: Parser, ch: Byte): Act {
    if ch != LF then Err(p, LF_EXPECTED) else To(p, ValueLws)
  }

  /** The flags a finished header leaves. */
  function FinishHeader(f: Flags, hs: HeaderState): Flags {
    if hs.HChunked? then f.(chunked := true) else SetConnection(f, hs)
  }

  function OnValueLws(p: Parser, ch: Byte): Act {
    if ch == SP || ch == HT then
      OnValueStart(p.(hs := if p.hs.HContentLengthNum? then HContentLengthWs else p.hs, state := ValueStart), ch)
    else
      OnHeaderFieldStart(p.(flags := FinishHeader(p.flags, p.hs), state := HeaderFieldStart), ch)
  }

  function OnValueDiscardLws(p: Parser, ch: Byte): Act {
    if ch == SP || ch == HT then To(p, ValueDiscardWs)
    else if p.hs.HContentLength? then Err(p, INVALID_CONTENT_LENGTH)
    else
      Then([Mark(Value), Flush(Value)],
           OnHeaderFieldStart(p.(flags := FinishHeader(p.flags, p.hs), state := HeaderFieldStart), ch))
  }

  // ----- bodies ------------------------------------------------------------

  function OnBodyIdentity(p: Parser): Act {
    if p.length == 0 || p.length == MAX64 then Act(p, [], Trap)
    else if p.length == 1 then
      Then([Mark(Body), FlushIncl(Body)], OnMessageDone(p.(length := 0, state := MessageDone)))
    else Act(p.(length := p.length - 1), [Mark(Body)], Go)
  }

  function OnChunkSizeStart(p: Parser, ch: Byte): Act {
    if p.nread != 1 || !p.flags.chunked then Act(p, [], Trap)
    else if Unhex(ch) == -1 then Err(p, INVALID_CHUNK_SIZE)
    else To(p.(length := Unhex(ch)), ChunkSize)
  }

  function OnChunkSize(p: Parser, ch: Byte): Act {
    if !p.flags.chunked then Act(p, [], Trap)
    else if ch == CR then To(p, ChunkSizeAlmostDone)
    else if Unhex(ch) == -1 then
      if ch == 59 /* ; */ || ch == SP then To(p, ChunkParameters) else Err(p, INVALID_CHUNK_SIZE)
    else if (MAX64 - 16) / 16 < p.length then Err(p, INVALID_CONTENT_LENGTH)
    else Act(p.(length := (p.length * 16 + Unhex(ch)) % MOD64), [], Go)
  }

  function OnChunkParameters(p: Parser, ch: Byte): Act {
    if !p.flags.chunked then Act(p, [], Trap)
    else if ch == CR then To(p, ChunkSizeAlmostDone)
    else Act(p, [], Go)
  }

  function OnChunkSizeAlmostDone(p: Parser, ch: Byte): Act {
    if !p.flags.chunked then Act(p, [], Trap)
    else if ch != LF then Err(p, STRICT)
    else if p.length == 0 then
      Act(p.(nread := 0, flags := p.flags.(trailing := true), state := HeaderFieldStart), [Notify(ChunkHeader(0))], Go)
    else Act(p.(nread := 0, state := ChunkData), [Notify(ChunkHeader(p.length))], Go)
  }

  function OnChunkData(p: Parser): Act {
    if !p.flags.chunked || p.length == 0 || p.length == MAX64 then Act(p, [], Trap)
    else if p.length == 1 then Act(p.(length := 0, state := ChunkDataAlmostDone), [Mark(Body)], Go)
    else Act(p.(length := p.length - 1), [Mark(Body)], Go)
  }

  function OnChunkDataAlmostDone(p: Parser, ch: Byte): Act {
    if !p.flags.chunked || p.length != 0 then Act(p, [], Trap)
    else if ch != CR then Err(p, STRICT)
    else Then([Flush(Body)], To(p, ChunkDataDone))
  }

  function OnChunkDataDone(p: Parser, ch: Byte): Act {
    if !p.flags.chunked then Act(p, [], Trap)
    else if ch != LF then Err(p, STRICT)
    else Act(p.(nread := 0, state := ChunkSizeStart), [Notify(ChunkComplete)], Go)
  }

  // ----- the switch --------------------------------------------------------

  function OnBetween(p: Parser, ch: Byte): Act {
    if p.state == StartReqOrRes then OnStartReqOrRes(p, ch)
    else if p.state == StartRes then OnStartRes(p, ch)
    else if p.state == StartReq then OnStartReq(p, ch)
    else if ch == CR || ch == LF then Act(p, [], Go) else Err(p, CLOSED_CONNECTION)
  }

  function OnResponseLine(p: Parser, ch: Byte): Act {
    if p.state == ResOrRespH then OnResOrRespH(p, ch)
    else if p.state == ResH then Expect(p, ch, 84, ResHT)
    else if p.state == ResHT then Expect(p, ch, 84, ResHTT)
    else if p.state == ResHTT then Expect(p, ch, 80, ResHTTP)
    else if p.state == ResHTTP then Expect(p, ch, SLASH, ResMajor)
    else if p.state == ResMajor then OnResMajor(p, ch)
    else if p.state == ResDot then if ch != 46 /* . */ then Err(p, INVALID_VERSION) else To(p, ResMinor)
    else if p.state == ResMinor then OnResMinor(p, ch)
    else if p.state == ResEnd then if ch != SP then Err(p, INVALID_VERSION) else To(p, ResFirstStatusCode)
    else if p.state == ResFirstStatusCode then OnResFirstStatusCode(p, ch)
    else if p.state == ResStatusCode then OnResStatusCode(p, ch)
    else if p.state == ResStatusStart then OnResStatusStart(p, ch)
    else if p.state == ResStatus then OnResStatus(p, ch)
    else Expect(p, ch, LF, HeaderFieldStart)
  }

  function OnUrl(p: Parser, ch: Byte): Act {
    if p.state == ReqSchema || p.state == ReqSchemaSlash || p.state == ReqSchemaSlashSlash || p.state == ReqServerStart
    then OnReqSchema(p, ch) else OnReqUrl(p, ch)
  }

  function OnRequestLine(p: Parser, ch: Byte): Act {
    if p.state == ReqMethod then OnReqMethod(p, ch)
    else if p.state == ReqSpacesBeforeUrl then OnReqSpacesBeforeUrl(p, ch)
    else if p.state == ReqHttpStart then OnReqHttpStart(p, ch)
    else if p.state == ReqH then Expect(p, ch, 84, ReqHT)
    else if p.state == ReqHT then Expect(p, ch, 84, ReqHTT)
    else if p.state == ReqHTT then Expect(p, ch, 80, ReqHTTP)
    else if p.state == ReqI then Expect(p, ch, 67, ReqIC)
    else if p.state == ReqIC then Expect(p, ch, 69, ReqHTTP)
    else if p.state == ReqHTTP then Expect(p, ch, SLASH, ReqMajor)
    else if p.state == ReqMajor then OnReqMajor(p, ch)
    else if p.state == ReqDot then if ch != 46 /* . */ then Err(p, INVALID_VERSION) else To(p, ReqMinor)
    else if p.state == ReqMinor then OnReqMinor(p, ch)
    else if p.state == ReqEnd then OnReqEnd(p, ch)
    else if p.state == ReqLineAlmostDone then if ch != LF then Err(p, LF_EXPECTED) else To(p, HeaderFieldStart)
    else OnUrl(p, ch)
  }

  function OnHeaderLine(p: Parser, ch: Byte): Act {
    if p.state == HeaderFieldStart then OnHeaderFieldStart(p, ch)
    else if p.state == HeaderField then OnHeaderField(p, ch)
    else if p.state == ValueDiscardWs then OnValueDiscardWs(p, ch)
    else if p.state == ValueDiscardWsAlmostDone then Expect(p, ch, LF, ValueDiscardLws)
    else if p.state == ValueDiscardLws then OnValueDiscardLws(p, ch)
    else if p.state == ValueStart then OnValueStart(p, ch)
    else if p.state == HeaderValue then OnHeaderValue(p, ch)
    else if p.state == ValueLws then OnValueLws(p, ch)
    else if p.state == HeaderAlmostDone then OnHeaderAlmostDone(p, ch)
    else if p.state == HeadersAlmostDone then OnHeadersAlmostDone(p, ch)
    else OnHeadersDone(p, ch)
  }

  function OnBody(p: Parser, ch: Byte): Act {
    if p.state == ChunkSizeStart then OnChunkSizeStart(p, ch)
    else if p.state == ChunkSize then OnChunkSize(p, ch)
    else if p.state == ChunkParameters then OnChunkParameters(p, ch)
    else if p.state == ChunkSizeAlmostDone then OnChunkSizeAlmostDone(p, ch)
    else if p.state == ChunkData then OnChunkData(p)
    else if p.state == ChunkDataAlmostDone then OnChunkDataAlmostDone(p, ch)
    else if p.state == ChunkDataDone then OnChunkDataDone(p, ch)
    else if p.state == BodyIdentity then OnBodyIdentity(p)
    else if p.state == BodyIdentityEof then Act(p, [Mark(Body)], Go)
    else OnMessageDone(p)
  }

  function OnByte(p: Parser, ch: Byte): Act {
    if Between(p.state) then OnBetween(p, ch)
    else if ResponseLine(p.state) then OnResponseLine(p, ch)
    else if HeaderLine(p.state) then OnHeaderLine(p, ch)
    else if InBody(p.state) then OnBody(p, ch)
    else OnRequestLine(p, ch)
  }
}
