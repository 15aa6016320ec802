/** The order and the amount of the callbacks, for every byte stream: a monitor
    that knows nothing of the parser's states accepts every log. */
module HttpMonitor {
  import opened Basics
  import opened HttpTypes
  import opened HttpAct
  import opened HttpRun
  import opened HttpInvariant
  import opened HttpMarks
  import opened HttpTidy
  import opened HttpHeaders

  /** Where a well-behaved sequence of callbacks is. `Wrong` is for ever. */
  datatype Phase =
    | Idle                  // between messages
    | Line                  // after the message's begin: URL or status text
    | Name | Values         // in a header's name; in its value
    | Counted(left: nat)    // a body with so many bytes to come
    | Open                  // a body that ends with the connection
    | Chunks                // a chunk header is due
    | Chunk(left: nat)      // chunk data with so many bytes to come
    | Trailer | TrailerName | TrailerValue
    | Ending                // only the message's end is due
    | Wrong

  /** What the end of the head announces. */
  function Announced(e: Event): Phase
    requires e.HeadersComplete?
  {
    if e.head == RequestHead(CONNECT) then Ending
    else if e.chunked then Chunks
    else if e.length != MAX64 then Counted(e.length)
    else if e.head.RequestHead? || BodyLess(e.head.status) then Ending
    else Open
  }

  function OnData(ph: Phase, k: DataKind, n: nat): Phase {
    match ph
    case Line => if k.Url? || k.Status? then Line else if k.Field? then Name else Wrong
    case Name => if k.Field? then Name else if k.Value? then Values else Wrong
    case Values => if k.Value? then Values else if k.Field? then Name else Wrong
    case Counted(left) => if k.Body? && n <= left then Counted(left - n) else Wrong
    case Open => if k.Body? then Open else Wrong
    case Chunk(left) => if k.Body? && n <= left then Chunk(left - n) else Wrong
    case Trailer => if k.Field? then TrailerName else Wrong
    case TrailerName => if k.Field? then TrailerName else if k.Value? then TrailerValue else Wrong
    case TrailerValue => if k.Value? then TrailerValue else if k.Field? then TrailerName else Wrong
    case _ => Wrong
  }

  function OnEvent(ph: Phase, e: Event): Phase {
    match e
    case Data(k, b) => OnData(ph, k, |b|)
    case MessageBegin => if ph.Idle? then Line else Wrong
    case HeadersComplete(_, _, _, _, _, _) => if ph.Line? || ph.Values? then Announced(e) else Wrong
    case ChunkHeader(n) => if ph.Chunks? then (if n == 0 then Trailer else Chunk(n)) else Wrong
    case ChunkComplete =>
      if ph == Chunk(0) then Chunks else if ph.Trailer? || ph.TrailerValue? then Ending else Wrong
    case MessageComplete => if ph == Counted(0) || ph.Open? || ph.Ending? then Idle else Wrong
  }

  function Watch(ph: Phase, es: seq<Event>): Phase
    decreases |es|
  {
    if es == [] then ph else OnEvent(Watch(ph, es[..|es| - 1]), es[|es| - 1])
  }

  lemma {:induction false} WatchConcat(ph: Phase, a: seq<Event>, b: seq<Event>)
    ensures Watch(ph, a + b) == Watch(Watch(ph, a), b)
    decreases |b|
  {
    if b == [] {
      assert a + b == a;
    } else {
      assert (a + b)[..|a + b| - 1] == a + b[..|b| - 1];
      WatchConcat(ph, a, b[..|b| - 1]);
    }
  }

  /** The monitor does not see how data is cut into callbacks. */
  lemma DataAdds(ph: Phase, k: DataKind, x: nat, y: nat)
    ensures OnData(OnData(ph, k, x), k, y) == OnData(ph, k, x + y)
  {
  }

  lemma WatchPush(ph: Phase, log: seq<Event>, e: Event)
    ensures Watch(ph, Push(log, e)) == OnEvent(Watch(ph, log), e)
  {
    hide OnData;
    if log != [] && e.Data? && log[|log| - 1].Data? && log[|log| - 1].kind == e.kind {
      var init, last := log[..|log| - 1], log[|log| - 1];
      var joined := Data(e.kind, last.bytes + e.bytes);
      assert Push(log, e) == init + [joined] && (init + [joined])[..|init|] == init;
      DataAdds(Watch(ph, init), e.kind, |last.bytes|, |e.bytes|);
    } else {
      assert (log + [e])[..|log|] == log;
    }
  }

  lemma {:induction false} WatchPushAll(ph: Phase, log: seq<Event>, es: seq<Event>)
    ensures Watch(ph, PushAll(log, es)) == Watch(Watch(ph, log), es)
    decreases |es|
  {
    hide Push, OnEvent;
    if es != [] {
      WatchPush(ph, log, es[0]);
      WatchPushAll(ph, Push(log, es[0]), es[1..]);
      assert es == [es[0]] + es[1..];
      assert [es[0]][..0] == [];
      WatchConcat(Watch(ph, log), [es[0]], es[1..]);
    }
  }

  // ----- the callbacks of one byte -----------------------------------------

  /** The callbacks of an arm on the single byte `ch`, at most one mark live. */
  function Emits(live: Maybe<DataKind>, ops: seq<Op>, ch: Byte): seq<Event>
    decreases |ops|
  {
    if ops == [] then (if live.None? then [] else [Data(live.value, [ch])])
    else
      match ops[0]
      case Mark(k) => Emits(Some(k), ops[1..], ch)
      case Flush(k) => (if live.None? then [] else [Data(k, [])]) + Emits(None, ops[1..], ch)
      case FlushIncl(k) => [Data(k, [ch])] + Emits(None, ops[1..], ch)
      case Notify(e) => [e] + Emits(None, ops[1..], ch)
  }

  lemma FlushOne(live: Maybe<DataKind>, ch: Byte)
    ensures FlushAll(Only(live, 0), [ch]) == Emits(live, [], ch)
  {
    assert [ch][0..] == [ch];
  }

  lemma {:induction false} EmitsAll(live: Maybe<DataKind>, ops: seq<Op>, end: Maybe<DataKind>, ch: Byte)
    requires Tidy(live, ops, end)
    ensures var m := DoOps(Only(live, 0), ops, [ch], 0); m.calls + FlushAll(m.marks, [ch]) == Emits(live, ops, ch)
    decreases |ops|
  {
    hide Only, GetMark, SetMark, FlushAll;
    if ops == [] {
      FlushOne(live, ch);
      assert [] + FlushAll(Only(live, 0), [ch]) == FlushAll(Only(live, 0), [ch]);
    } else {
      var k := match ops[0] case Mark(k) => k case Flush(k) => k case FlushIncl(k) => k case Notify(_) => Body;
      OnlyMark(k, 0);
      assert [ch][0..0] == [] && [ch][0..1] == [ch];
      var first := DoOp(Only(live, 0), ops[0], [ch], 0);
      var next := match ops[0] case Mark(k) => Some(k) case _ => None;
      assert first.marks == Only(next, 0);
      EmitsAll(next, ops[1..], end, ch);
      var rest := DoOps(first.marks, ops[1..], [ch], 0);
      assert (first.calls + rest.calls) + FlushAll(rest.marks, [ch]) == first.calls + (rest.calls + FlushAll(rest.marks, [ch]));
    }
  }

  // ----- what the parser's state tells of the monitor ----------------------

  /** Callbacks never ask for the body to be skipped; a response has no method. */
  predicate Quiet(p: Parser) {
    && !p.flags.skipBody
    && (!p.kind.Request? ==> !p.verb.CONNECT?)
    && (p.kind.Both? <==> p.state == StartReqOrRes || p.state == ResOrRespH)
    && (StartReq <= p.state <= ReqLineAlmostDone ==> p.kind.Request?)
    && (p.flags.trailing ==> Between(p.state) || HeaderLine(p.state))
  }

  predicate Fits(p: Parser, ph: Phase) {
    var s, t := p.state, p.flags.trailing;
    if Between(s) then ph.Idle?
    else if s == HeaderFieldStart || s == HeadersAlmostDone then
      if t then ph.Trailer? || ph.TrailerValue? else ph.Line? || ph.Values?
    else if HeaderField <= s <= ValueDiscardLws then ph == if t then TrailerName else Name
    else if HeaderLine(s) then ph == if t then TrailerValue else Values
    else if ChunkSizeStart <= s <= ChunkSizeAlmostDone then ph.Chunks?
    else if s == ChunkData || s == ChunkDataAlmostDone then ph == Chunk(p.length)
    else if s == ChunkDataDone then ph == Chunk(0)
    else if s == BodyIdentity then ph == Counted(p.length)
    else if s == BodyIdentityEof then ph.Open?
    else ph.Line?
  }

  /** An arm from phase `ph` and live mark `live` ends in a phase that fits. */
  predicate Watched(live: Maybe<DataKind>, ph: Phase, a: Act, ch: Byte) {
    a.out.Go? || a.out.Leave? ==> Quiet(a.p) && Fits(a.p, Watch(ph, Emits(live, a.ops, ch)))
  }

  lemma WatchCons(ph: Phase, e: Event, es: seq<Event>)
    ensures Watch(ph, [e] + es) == Watch(OnEvent(ph, e), es) && Watch(ph, [e]) == OnEvent(ph, e) && Watch(ph, []) == ph
  {
    assert [e][..0] == [];
    WatchConcat(ph, [e], es);
  }

  /** A notification, then another arm. */
  lemma WatchedNotify(ph: Phase, e: Event, a: Act, ch: Byte)
    requires Watched(None, OnEvent(ph, e), a, ch)
    ensures Watched(None, ph, Then([Notify(e)], a), ch)
  {
    hide OnEvent, Fits, Quiet;
    var ops := [Notify(e)] + a.ops;
    assert ops[1..] == a.ops;
    WatchCons(ph, e, Emits(None, a.ops, ch));
  }

  lemma EmitsNothing(ch: Byte, k: DataKind)
    ensures Emits(None, [], ch) == [] && Emits(Some(k), [], ch) == [Data(k, [ch])]
    ensures Emits(None, [Mark(k)], ch) == [Data(k, [ch])]
    ensures Emits(Some(k), [Flush(k)], ch) == [Data(k, [])]
    ensures Emits(None, [Flush(k)], ch) == []
    ensures Emits(None, [Mark(k)] + [Flush(k)], ch) == [Data(k, [])]
  {
    assert [Mark(k)][1..] == [] && [Flush(k)][1..] == [];
    assert ([Mark(k)] + [Flush(k)])[1..] == [Flush(k)];
  }

  lemma EmitsEvent(e: Event, ch: Byte)
    ensures Emits(None, [Notify(e)], ch) == [e]
  {
    assert [Notify(e)][1..] == [];
  }

  lemma WatchedComplete(p: Parser, out: Outcome, ph: Phase, ch: Byte)
    requires Quiet(p) && !p.kind.Both? && (ph == Counted(0) || ph.Open? || ph.Ending?)
    ensures Watched(None, ph, Complete(p, out), ch)
  {
    EmitsEvent(MessageComplete, ch);
    WatchCons(ph, MessageComplete, []);
  }

  lemma WatchedHeadersDone(p: Parser, ph: Phase, ch: Byte)
    requires Quiet(p) && LengthInv(p) && !p.kind.Both? && !p.flags.trailing && ph == Announced(HeadEvent(p))
    requires p.upgrade == Upgrading(p)
    ensures Watched(None, ph, OnHeadersDone(p, ch), ch)
  {
    hide Complete, NeedsEof, Watch, OnEvent;
    EmitsNothing(ch, Body);
    WatchCons(ph, MessageComplete, []);
    var q := p.(nread := 0);
    if ph == Counted(0) || ph.Open? || ph.Ending? {
      WatchedComplete(q, Go, ph, ch);
      WatchedComplete(q, Leave, ph, ch);
    }
    EofStatus(q);
  }

  /** Only responses of other statuses can last until the end of the input. */
  lemma EofStatus(p: Parser)
    ensures NeedsEof(p) ==> !p.kind.Request? && !BodyLess(p.status)
  {
  }

  lemma WatchedHeadersAlmostDone(p: Parser, ph: Phase, ch: Byte)
    requires Quiet(p) && LengthInv(p) && !p.kind.Both? && p.state == HeadersAlmostDone && Fits(p, ph)
    ensures Watched(None, ph, OnHeadersAlmostDone(p, ch), ch)
  {
    hide OnHeadersDone, Complete, Watch, Emits, Announced;
    if ch == LF {
      if p.flags.trailing {
        var q := p.(state := MessageDone);
        WatchedTrailing(p, ph, ch);
      } else {
        var h := p.(state := HeadersDone, upgrade := Upgrading(p));
        assert OnEvent(ph, HeadEvent(h)) == Announced(HeadEvent(h));
        WatchedHeadersDone(h, Announced(HeadEvent(h)), ch);
        WatchedNotify(ph, HeadEvent(h), OnHeadersDone(h, ch), ch);
      }
    }
  }

  lemma WatchedTrailing(p: Parser, ph: Phase, ch: Byte)
    requires Quiet(p) && !p.kind.Both? && p.state == HeadersAlmostDone && p.flags.trailing && Fits(p, ph)
    ensures Watched(None, ph, Then([Notify(ChunkComplete)], OnMessageDone(p.(state := MessageDone))), ch)
  {
    var out := if p.upgrade then Leave else Go;
    var q := p.(state := MessageDone);
    EmitsEvent(MessageComplete, ch);
    WatchCons(Ending, MessageComplete, []);
    assert Watched(None, Ending, OnMessageDone(q), ch);
    WatchedNotify(ph, ChunkComplete, OnMessageDone(q), ch);
  }

  lemma WatchedHeaderFieldStart(p: Parser, ph: Phase, ch: Byte)
    requires Quiet(p) && LengthInv(p) && !p.kind.Both? && p.state == HeaderFieldStart && Fits(p, ph)
    ensures Watched(None, ph, OnHeaderFieldStart(p, ch), ch)
  {
    hide OnHeadersAlmostDone, Watch, Emits;
    WatchedHeadersAlmostDone(p.(state := HeadersAlmostDone), ph, ch);
    EmitsNothing(ch, Field);
    WatchCons(ph, Data(Field, [ch]), []);
    assert [Mark(Field)] + [] == [Mark(Field)];
  }

  // ----- the arms ----------------------------------------------------------

  lemma WatchedBetween(p: Parser, ch: Byte)
    requires Quiet(p) && Between(p.state)
    ensures Watched(None, Idle, OnBetween(p, ch), ch)
  {
    hide Watch, Emits, FirstMethod;
    EmitsNothing(ch, Body);
    EmitsEvent(MessageBegin, ch);
    WatchCons(Idle, MessageBegin, []);
    assert [Notify(MessageBegin)] + [] == [Notify(MessageBegin)];
  }

  lemma WatchedStatus(p: Parser, ch: Byte)
    requires Quiet(p) && ResponseLine(p.state)
    ensures p.state == ResStatus ==> Watched(Some(Status), Line, OnResStatus(p, ch), ch)
    ensures p.state == ResStatusCode || p.state == ResStatusStart ==> Watched(None, Line, OnResStatusStart(p, ch), ch)
  {
    hide Watch, Emits;
    EmitsNothing(ch, Status);
    WatchCons(Line, Data(Status, [ch]), []);
    WatchCons(Line, Data(Status, []), []);
    assert [Flush(Status)] + [] == [Flush(Status)] && [Mark(Status)] + [] == [Mark(Status)];
    var a := OnResStatusStart(p, ch);
    assert a.ops == [Mark(Status)] || a.ops == [Mark(Status)] + [Flush(Status)];
  }

  lemma WatchedResponseLine(p: Parser, ch: Byte)
    requires Quiet(p) && ResponseLine(p.state)
    ensures Watched(Resuming(p.state), Line, OnResponseLine(p, ch), ch)
  {
    hide Watch, Emits, IsNum, OnResStatus, OnResStatusStart;
    EmitsNothing(ch, Status);
    WatchCons(Line, MessageBegin, []);
    if p.state == ResStatusCode {
      WatchedStatus(p.(state := ResStatusStart), ch);
    } else if p.state == ResStatus || p.state == ResStatusStart {
      WatchedStatus(p, ch);
    } else {
      assert OnResponseLine(p, ch).ops == [];
      assert Emits(None, [], ch) == [];
    }
  }

  lemma WatchedUrl(p: Parser, ch: Byte)
    requires Quiet(p) && UrlState(p.state)
    ensures Watched(Some(Url), Line, OnUrl(p, ch), ch)
  {
    hide Watch, Emits, ParseUrlChar;
    UrlStays(p.state, ch);
    EmitsNothing(ch, Url);
    WatchCons(Line, Data(Url, [ch]), []);
    WatchCons(Line, Data(Url, []), []);
    assert [Flush(Url)] + [] == [Flush(Url)];
  }

  /** An arm of the request line outside the URL only moves on. */
  predicate LineGoesOn(p: Parser, a: Act) {
    a.out.Fail? || a.out.Trap? ||
    (a.out.Go? && a.ops == [] && a.p.kind == p.kind && a.p.flags == p.flags && ReqMethod <= a.p.state <= HeaderFieldStart)
  }

  lemma RequestLineGoesOn(p: Parser, ch: Byte)
    requires ReqMethod <= p.state < HeaderFieldStart && !UrlState(p.state) && p.state != ReqSpacesBeforeUrl
    ensures LineGoesOn(p, OnRequestLine(p, ch))
  {
    hide MethodName, NextMethod, IsNum, OnUrl;
  }

  lemma WatchedSpaces(p: Parser, ch: Byte)
    requires Quiet(p) && p.state == ReqSpacesBeforeUrl
    ensures Watched(None, Line, OnReqSpacesBeforeUrl(p, ch), ch)
  {
    hide Watch, Emits, ParseUrlChar;
    EmitsNothing(ch, Url);
    WatchCons(Line, Data(Url, [ch]), []);
    UrlStays(if p.verb.CONNECT? then ReqServerStart else ReqSpacesBeforeUrl, ch);
    assert [Mark(Url)] + [] == [Mark(Url)];
  }

  lemma WatchedRequestLine(p: Parser, ch: Byte)
    requires Quiet(p) && InHead(p.state) && !ResponseLine(p.state) && !HeaderLine(p.state)
    ensures Watched(Resuming(p.state), Line, OnRequestLine(p, ch), ch)
  {
    hide Watch, Emits, OnUrl, OnReqSpacesBeforeUrl, OnReqMethod;
    EmitsNothing(ch, Url);
    if UrlState(p.state) {
      WatchedUrl(p, ch);
    } else if p.state == ReqSpacesBeforeUrl {
      WatchedSpaces(p, ch);
    } else {
      RequestLineGoesOn(p, ch);
      WatchCons(Line, MessageBegin, []);
    }
  }

  lemma WatchedValueStart(p: Parser, ph: Phase, ch: Byte)
    requires Quiet(p) && !p.kind.Both? && HeaderLine(p.state)
    requires ph == (if p.flags.trailing then TrailerName else Name) || ph == (if p.flags.trailing then TrailerValue else Values)
    ensures Watched(None, ph, OnValueStart(p, ch), ch)
  {
    hide Watch, Emits, OnValueStart;
    EmitsNothing(ch, Value);
    WatchCons(ph, Data(Value, [ch]), []);
    ValueStartQuiet(p, ch);
  }

  lemma ValueStartFlags(p: Parser, ch: Byte)
    ensures var f := OnValueStart(p, ch).p.flags; f.trailing == p.flags.trailing && f.skipBody == p.flags.skipBody
  {
    hide ValueHeaderState, Lower, IsNum;
  }

  lemma ValueStartQuiet(p: Parser, ch: Byte)
    ensures var a := OnValueStart(p, ch);
      && a.ops == [Mark(Value)]
      && a.p.state == HeaderValue && a.p.kind == p.kind && a.p.verb == p.verb
      && a.p.flags.trailing == p.flags.trailing && a.p.flags.skipBody == p.flags.skipBody
  {
    assert OnValueStart(p, ch).ops == [Mark(Value)];
    hide OnValueStart;
    ValueStartFrame(p, ch);
    ValueStartFlags(p, ch);
  }

  lemma WatchedHeaderValue(p: Parser, ph: Phase, ch: Byte)
    requires Inv(p) && Quiet(p) && !p.kind.Both? && p.state == HeaderValue && Fits(p, ph)
    ensures Watched(Some(Value), ph, OnHeaderValue(p, ch), ch)
  {
    hide Watch, Emits, ValueNext;
    EmitsNothing(ch, Value);
    WatchCons(ph, Data(Value, [ch]), []);
    WatchCons(ph, Data(Value, []), []);
    ScanKeeps(ScanOf(p), ch);
    assert [Flush(Value)] + [] == [Flush(Value)];
  }

  lemma FinishQuiet(p: Parser)
    requires Quiet(p) && HeaderLine(p.state)
    ensures var q := p.(flags := FinishHeader(p.flags, p.hs), state := HeaderFieldStart);
      Quiet(q) && q.flags.trailing == p.flags.trailing && (LengthInv(p) ==> LengthInv(q))
  {
  }

  lemma WatchedValueLws(p: Parser, ph: Phase, ch: Byte)
    requires Inv(p) && Quiet(p) && !p.kind.Both? && p.state == ValueLws && Fits(p, ph)
    ensures Watched(None, ph, OnValueLws(p, ch), ch)
  {
    hide Watch, Emits, OnValueStart, OnHeaderFieldStart, Watched;
    FinishQuiet(p);
    if ch == SP || ch == HT {
      WatchedValueStart(p.(hs := if p.hs.HContentLengthNum? then HContentLengthWs else p.hs, state := ValueStart), ph, ch);
    } else {
      WatchedHeaderFieldStart(p.(flags := FinishHeader(p.flags, p.hs), state := HeaderFieldStart), ph, ch);
    }
  }

  lemma WatchedValueDiscardLws(p: Parser, ph: Phase, ch: Byte)
    requires Inv(p) && Quiet(p) && !p.kind.Both? && p.state == ValueDiscardLws && Fits(p, ph)
    ensures Watched(None, ph, OnValueDiscardLws(p, ch), ch)
  {
    hide Watch, OnHeaderFieldStart;
    EmitsNothing(ch, Value);
    WatchCons(ph, Data(Value, []), []);
    if ch != SP && ch != HT && !p.hs.HContentLength? {
      FinishQuiet(p);
      var q := p.(flags := FinishHeader(p.flags, p.hs), state := HeaderFieldStart);
      var next := OnEvent(ph, Data(Value, []));
      WatchedHeaderFieldStart(q, next, ch);
      var a := OnHeaderFieldStart(q, ch);
      var ops := [Mark(Value), Flush(Value)] + a.ops;
      assert ops[1..] == [Flush(Value)] + a.ops && ops[1..][1..] == a.ops;
      assert Emits(None, ops, ch) == [Data(Value, [])] + Emits(None, a.ops, ch);
      WatchCons(ph, Data(Value, []), Emits(None, a.ops, ch));
    }
  }

  lemma WatchedHeaderField(p: Parser, ph: Phase, ch: Byte)
    requires Quiet(p) && !p.kind.Both? && p.state == HeaderField && Fits(p, ph)
    ensures Watched(Some(Field), ph, OnHeaderField(p, ch), ch)
  {
    hide Watch, Emits, FieldNext, Token;
    EmitsNothing(ch, Field);
    WatchCons(ph, Data(Field, [ch]), []);
    WatchCons(ph, Data(Field, []), []);
    assert [Flush(Field)] + [] == [Flush(Field)];
  }

  lemma WatchedHeaderLine(p: Parser, ph: Phase, ch: Byte)
    requires Inv(p) && Quiet(p) && !p.kind.Both? && HeaderLine(p.state) && Fits(p, ph)
    ensures Watched(Resuming(p.state), ph, OnHeaderLine(p, ch), ch)
  {
    hide Watch, Emits, OnHeaderFieldStart, OnHeadersAlmostDone, OnHeadersDone, OnValueStart, OnHeaderValue, OnValueLws,
      OnValueDiscardLws, OnHeaderField;
    EmitsNothing(ch, Body);
    WatchCons(ph, MessageBegin, []);
    if p.state == HeaderFieldStart {
      WatchedHeaderFieldStart(p, ph, ch);
    } else if p.state == HeaderField {
      WatchedHeaderField(p, ph, ch);
    } else if p.state == HeaderValue {
      WatchedHeaderValue(p, ph, ch);
    } else if p.state == ValueLws {
      WatchedValueLws(p, ph, ch);
    } else if p.state == ValueDiscardLws {
      WatchedValueDiscardLws(p, ph, ch);
    } else if p.state == HeadersAlmostDone {
      WatchedHeadersAlmostDone(p, ph, ch);
    } else if p.state == ValueDiscardWs {
      WatchedValueStart(p, ph, ch);
    }
  }

  lemma WatchedBody(p: Parser, ph: Phase, ch: Byte)
    requires Inv(p) && Quiet(p) && !p.kind.Both? && InBody(p.state) && Fits(p, ph)
    requires p.state == ChunkSizeStart || p.state == ChunkSize || p.state == ChunkParameters || p.state == ChunkSizeAlmostDone
          || p.state == ChunkDataAlmostDone || p.state == ChunkDataDone
    ensures Watched(None, ph, OnBody(CountByte(p), ch), ch)
  {
    hide Watch, Emits, Unhex;
    EmitsNothing(ch, Body);
    EmitsEvent(ChunkHeader(p.length), ch);
    EmitsEvent(ChunkComplete, ch);
    WatchCons(ph, ChunkHeader(p.length), []);
    WatchCons(ph, ChunkComplete, []);
    assert [Flush(Body)] + [] == [Flush(Body)];
  }

  lemma WatchedData(p: Parser, ph: Phase, ch: Byte)
    requires Inv(p) && Quiet(p) && !p.kind.Both? && Fits(p, ph)
    requires p.state == ChunkData || p.state == BodyIdentity || p.state == BodyIdentityEof
    ensures Watched(None, ph, OnBody(p, ch), ch)
  {
    hide Watch, Emits;
    EmitsNothing(ch, Body);
    WatchCons(ph, Data(Body, [ch]), []);
    if p.state == BodyIdentity && p.length == 1 {
      EmitsLast(ch, MessageComplete);
      WatchCons(ph, Data(Body, [ch]), [MessageComplete]);
      WatchCons(Counted(0), MessageComplete, []);
      assert [Data(Body, [ch])] + [MessageComplete] == [Data(Body, [ch]), MessageComplete];
    }
  }

  lemma EmitsLast(ch: Byte, e: Event)
    ensures Emits(None, [Mark(Body), FlushIncl(Body)] + [Notify(e)], ch) == [Data(Body, [ch]), e]
  {
    var ops := [Mark(Body), FlushIncl(Body)] + [Notify(e)];
    assert ops[1..] == [FlushIncl(Body), Notify(e)] && ops[1..][1..] == [Notify(e)];
    EmitsEvent(e, ch);
    assert Emits(Some(Body), ops[1..], ch) == [Data(Body, [ch])] + [e];
  }

  // ----- every run ---------------------------------------------------------

  lemma WatchedByte(p: Parser, ph: Phase, ch: Byte)
    requires Inv(p) && Quiet(p) && Fits(p, ph)
    ensures Watched(Resuming(p.state), ph, OnByte(CountByte(p), ch), ch)
  {
    hide OnBetween, OnResponseLine, OnHeaderLine, OnBody, OnRequestLine, Watched, Watch, Emits;
    var q := CountByte(p);
    if Between(p.state) {
      WatchedBetween(q, ch);
    } else if ResponseLine(p.state) {
      WatchedResponseLine(q, ch);
    } else if HeaderLine(p.state) {
      WatchedHeaderLine(q, ph, ch);
    } else if InBody(p.state) {
      if p.state == ChunkData || p.state == BodyIdentity || p.state == BodyIdentityEof {
        WatchedData(p, ph, ch);
      } else {
        WatchedBody(p, ph, ch);
      }
    } else {
      WatchedRequestLine(q, ch);
    }
  }

  /** The callbacks of one byte are those the monitor is shown. */
  lemma StepEmits(p: Parser, ch: Byte)
    requires Inv(p)
    ensures var a := OnByte(CountByte(p), ch);
      var m := DoOps(Only(Resuming(p.state), 0), a.ops, [ch], 0);
      && (a.out.Go? ==> m.calls + FlushAll(m.marks, [ch]) == Emits(Resuming(p.state), a.ops, ch))
      && (a.out.Leave? ==> m.calls == Emits(Resuming(p.state), a.ops, ch))
  {
    hide OnByte, Inv, DoOps, Only, Emits;
    var q := CountByte(p);
    var a := OnByte(q, ch);
    if p.state == ChunkData || p.state == BodyIdentity || p.state == BodyIdentityEof {
      BodyStepEmits(p, ch);
    } else if p.state == ChunkDataAlmostDone {
      AfterChunkEmits(p, ch);
    } else {
      TidyByte(q, ch);
      if a.out.Go? {
        EmitsAll(Resuming(p.state), a.ops, Resuming(a.p.state), ch);
      } else if a.out.Leave? {
        LeaveEmits(Resuming(p.state), a.ops, ch);
      }
    }
  }

  lemma LeaveEmits(live: Maybe<DataKind>, ops: seq<Op>, ch: Byte)
    requires Tidy(live, ops, None)
    ensures DoOps(Only(live, 0), ops, [ch], 0).calls == Emits(live, ops, ch)
  {
    hide Emits, Push;
    EmitsAll(live, ops, None, ch);
    var m := DoOps(Only(live, 0), ops, [ch], 0);
    OpsAgree(live, ops, None, 0, [ch], 0, []);
    OnlyMark(Body, 0);
    assert m.marks == NO_MARKS;
    assert m.calls + FlushAll(NO_MARKS, [ch]) == m.calls;
  }

  lemma BodyStepEmits(p: Parser, ch: Byte)
    requires Inv(p) && (p.state == ChunkData || p.state == BodyIdentity || p.state == BodyIdentityEof)
    ensures var a := OnByte(CountByte(p), ch);
      var m := DoOps(Only(Resuming(p.state), 0), a.ops, [ch], 0);
      && (a.out.Go? ==> m.calls + FlushAll(m.marks, [ch]) == Emits(Resuming(p.state), a.ops, ch))
      && (a.out.Leave? ==> m.calls == Emits(Resuming(p.state), a.ops, ch))
  {
    hide OnByte, Inv, Push, FlushAll;
    var a := OnByte(p, ch);
    TidyBodyByte(p, ch);
    OnlyMark(Body, 0);
    assert DoOp(NO_MARKS, a.ops[0], [ch], 0) == DoOp(Only(Some(Body), 0), a.ops[0], [ch], 0);
    assert Emits(None, a.ops, ch) == Emits(Some(Body), a.ops, ch);
    if a.out.Go? {
      EmitsAll(Some(Body), a.ops, if Between(a.p.state) then None else Some(Body), ch);
    } else if a.out.Leave? {
      LeaveEmits(Some(Body), a.ops, ch);
    }
  }

  lemma AfterChunkEmits(p: Parser, ch: Byte)
    requires Inv(p) && p.state == ChunkDataAlmostDone
    ensures var a := OnByte(CountByte(p), ch);
      var m := DoOps(Only(Resuming(p.state), 0), a.ops, [ch], 0);
      && !a.out.Leave?
      && (a.out.Go? ==> m.calls + FlushAll(m.marks, [ch]) == Emits(Resuming(p.state), a.ops, ch))
  {
    var a := OnByte(CountByte(p), ch);
    assert a == OnChunkDataAlmostDone(p, ch);
    if a.out.Go? {
      assert a.ops == [Flush(Body)] && a.ops[1..] == [];
      EmitsNothing(ch, Body);
      assert DoOps(NO_MARKS, a.ops, [ch], 0) == Marked(NO_MARKS, []);
    }
  }

  /** Whatever the bytes, the monitor accepts the log, and its phase is the one
      the parser's state calls for: in a body the bytes still due are exactly
      those the parser still counts. */
  lemma {:induction false} EveryLogIsAccepted(max: nat, p: Parser, log: seq<Event>, data: seq<Byte>)
    requires Inv(p) && Quiet(p) && Fits(p, Watch(Idle, log))
    ensures var r := Run(max, p, log, data);
      r.Running? || r.Stopped? ==> Quiet(r.p) && Fits(r.p, Watch(Idle, r.log)) && !Watch(Idle, r.log).Wrong?
    decreases |data|
  {
    hide OnByte, Inv, Emits, DoOps, Only, Watch, FlushAll, PushAll, Quiet;
    if data != [] {
      var ch := data[0];
      var live := Resuming(p.state);
      var a := OnByte(CountByte(p), ch);
      ByteKeepsInv(p, ch);
      WatchedByte(p, Watch(Idle, log), ch);
      StepEmits(p, ch);
      WatchPushAll(Idle, log, Emits(live, a.ops, ch));
      var r := Step(max, p, log, ch, data[1..]);
      if r.Running? {
        EveryLogIsAccepted(max, r.p, r.log, data[1..]);
      }
    }
  }

  /** In particular from a fresh parser. */
  lemma LogsFromInit(max: nat, kind: Kind, data: seq<Byte>)
    ensures var r := Run(max, Init(kind), [], data);
      r.Running? || r.Stopped? ==> Fits(r.p, Watch(Idle, r.log)) && !Watch(Idle, r.log).Wrong?
  {
    EveryLogIsAccepted(max, Init(kind), [], data);
  }
}
