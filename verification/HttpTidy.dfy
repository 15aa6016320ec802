/** Every arm of the switch keeps its marks tidy: it leaves exactly the mark
    that a call resuming in the new state would set. */
module HttpTidy {
  import opened Basics
  import opened HttpTypes
  import opened HttpAct
  import opened HttpRun
  import opened HttpInvariant
  import opened HttpMarks

  /** From a live mark `live`, the arm's operations leave the mark of its new state. */
  predicate ArmTidy(live: Maybe<DataKind>, a: Act) {
    && (a.out.Go? ==> Tidy(live, a.ops, Resuming(a.p.state)))
    && (a.out.Leave? ==> Tidy(live, a.ops, None))
  }

  lemma TidyThen(live: Maybe<DataKind>, pre: seq<Op>, mid: Maybe<DataKind>, a: Act)
    requires Tidy(live, pre, mid) && ArmTidy(mid, a)
    ensures ArmTidy(live, Then(pre, a))
  {
    if a.out.Go? {
      TidyConcat(live, pre, mid, a.ops, Resuming(a.p.state));
    } else if a.out.Leave? {
      TidyConcat(live, pre, mid, a.ops, None);
    }
  }

  lemma TidyOne(live: Maybe<DataKind>, op: Op, next: Maybe<DataKind>)
    requires match op
             case Mark(k) => live.None? && next == Some(k)
             case Flush(k) => live == Some(k) && next.None?
             case FlushIncl(k) => live == Some(k) && next.None?
             case Notify(_) => live.None? && next.None?
    ensures Tidy(live, [op], next)
  {
    assert [op][1..] == [];
  }

  lemma TidyComplete(p: Parser, out: Outcome)
    ensures ArmTidy(None, Complete(p, out))
  {
    TidyOne(None, Notify(MessageComplete), None);
  }

  lemma TidyHeadersDone(p: Parser, ch: Byte)
    ensures ArmTidy(None, OnHeadersDone(p, ch))
  {
    TidyComplete(p.(nread := 0), Go);
    TidyComplete(p.(nread := 0), Leave);
  }

  lemma TidyHeadersAlmostDone(p: Parser, ch: Byte)
    ensures ArmTidy(None, OnHeadersAlmostDone(p, ch))
  {
    hide OnHeadersDone, Complete;
    var q := p.(state := MessageDone);
    TidyComplete(q, if q.upgrade then Leave else Go);
    TidyOne(None, Notify(ChunkComplete), None);
    TidyThen(None, [Notify(ChunkComplete)], None, OnMessageDone(q));
    var h := p.(state := HeadersDone, upgrade := Upgrading(p));
    TidyHeadersDone(h, ch);
    TidyOne(None, Notify(HeadEvent(h)), None);
    TidyThen(None, [Notify(HeadEvent(h))], None, OnHeadersDone(h, ch));
  }

  lemma TidyHeaderFieldStart(p: Parser, ch: Byte)
    ensures ArmTidy(None, OnHeaderFieldStart(p, ch))
  {
    hide OnHeadersAlmostDone;
    TidyHeadersAlmostDone(p.(state := HeadersAlmostDone), ch);
    TidyOne(None, Mark(Field), Some(Field));
    TidyThen(None, [Mark(Field)], Some(Field), To(p.(index := 0, hs := FirstHeaderState(Token(ch))), HeaderField));
  }

  lemma TidyBetween(p: Parser, ch: Byte)
    requires Between(p.state)
    ensures ArmTidy(None, OnBetween(p, ch))
  {
    TidyOne(None, Notify(MessageBegin), None);
    var a := OnBetween(p, ch);
    assert a.ops == [] || a.ops == [Notify(MessageBegin)] + [];
    assert [Notify(MessageBegin)] + [] == [Notify(MessageBegin)];
  }

  lemma TidyResponseLine(p: Parser, ch: Byte)
    requires ResponseLine(p.state)
    ensures ArmTidy(Resuming(p.state), OnResponseLine(p, ch))
  {
    hide IsNum;
    TidyOne(None, Mark(Status), Some(Status));
    TidyOne(Some(Status), Flush(Status), None);
    assert [Flush(Status)] + [] == [Flush(Status)];
    assert [Mark(Status)] + [] == [Mark(Status)];
    TidyConcat(None, [Mark(Status)], Some(Status), [Flush(Status)], None);
  }

  lemma TidyUrl(p: Parser, ch: Byte)
    requires UrlState(p.state)
    ensures ArmTidy(Some(Url), OnUrl(p, ch))
  {
    UrlStays(p.state, ch);
    TidyOne(Some(Url), Flush(Url), None);
    assert [Flush(Url)] + [] == [Flush(Url)];
  }

  lemma TidyRequestLine(p: Parser, ch: Byte)
    requires InHead(p.state) && !ResponseLine(p.state) && !HeaderLine(p.state)
    ensures ArmTidy(Resuming(p.state), OnRequestLine(p, ch))
  {
    if p.state == ReqMethod {
      assert OnReqMethod(p, ch).ops == [];
    } else if p.state == ReqSpacesBeforeUrl {
      UrlStays(if p.verb.CONNECT? then ReqServerStart else ReqSpacesBeforeUrl, ch);
      TidyOne(None, Mark(Url), Some(Url));
      assert [Mark(Url)] + [] == [Mark(Url)];
    } else if UrlState(p.state) {
      TidyUrl(p, ch);
    }
  }

  lemma TidyValueStart(p: Parser, ch: Byte)
    ensures ArmTidy(None, OnValueStart(p, ch))
  {
    TidyOne(None, Mark(Value), Some(Value));
  }

  lemma TidyHeaderValue(p: Parser, ch: Byte)
    requires p.state == HeaderValue
    ensures ArmTidy(Some(Value), OnHeaderValue(p, ch))
  {
    hide ScanByte;
    TidyOne(Some(Value), Flush(Value), None);
    assert [Flush(Value)] + [] == [Flush(Value)];
  }

  lemma TidyValueEnd(p: Parser, ch: Byte)
    ensures ArmTidy(None, OnValueLws(p, ch)) && ArmTidy(None, OnValueDiscardLws(p, ch))
    ensures p.state == ValueDiscardWs ==> ArmTidy(None, OnValueDiscardWs(p, ch))
  {
    hide OnValueStart, OnHeaderFieldStart;
    TidyValueStart(p, ch);
    TidyValueStart(p.(hs := if p.hs.HContentLengthNum? then HContentLengthWs else p.hs, state := ValueStart), ch);
    var q := p.(flags := FinishHeader(p.flags, p.hs), state := HeaderFieldStart);
    TidyHeaderFieldStart(q, ch);
    TidyOne(None, Mark(Value), Some(Value));
    TidyOne(Some(Value), Flush(Value), None);
    TidyConcat(None, [Mark(Value)], Some(Value), [Flush(Value)], None);
    assert [Mark(Value)] + [Flush(Value)] == [Mark(Value), Flush(Value)];
    TidyThen(None, [Mark(Value), Flush(Value)], None, OnHeaderFieldStart(q, ch));
  }

  lemma TidyHeaderLine(p: Parser, ch: Byte)
    requires HeaderLine(p.state)
    ensures ArmTidy(Resuming(p.state), OnHeaderLine(p, ch))
  {
    hide OnHeaderFieldStart, OnHeadersAlmostDone, OnHeadersDone, OnValueStart, OnHeaderValue, OnValueLws, OnValueDiscardLws,
      OnValueDiscardWs;
    if p.state == HeaderValue {
      TidyHeaderValue(p, ch);
    } else if p.state == HeaderField {
      TidyOne(Some(Field), Flush(Field), None);
      assert [Flush(Field)] + [] == [Flush(Field)];
    } else {
      TidyHeaderFieldStart(p, ch);
      TidyHeadersAlmostDone(p, ch);
      TidyHeadersDone(p, ch);
      TidyValueStart(p, ch);
      TidyValueEnd(p, ch);
    }
  }

  /** Chunk framing, where no body mark is set. */
  lemma TidyBody(p: Parser, ch: Byte)
    requires InBody(p.state) && p.state != ChunkData && p.state != ChunkDataAlmostDone
    requires p.state != BodyIdentity && p.state != BodyIdentityEof
    ensures ArmTidy(None, OnBody(p, ch))
  {
    TidyComplete(p, if p.upgrade then Leave else Go);
    TidyOne(None, Notify(ChunkHeader(p.length)), None);
    TidyOne(None, Notify(ChunkComplete), None);
  }

  /** The last byte of a counted stretch of body, or one up to the end of the
      connection: a body mark is live, and stays live unless the body ends. */
  lemma TidyBodyByte(p: Parser, ch: Byte)
    requires Inv(p) && (p.state == ChunkData || p.state == BodyIdentity || p.state == BodyIdentityEof)
    ensures var a := OnByte(p, ch);
      && a.ops != [] && a.ops[0] == Mark(Body)
      && (a.out.Go? ==> Tidy(Some(Body), a.ops, if Between(a.p.state) then None else Some(Body)))
      && (a.out.Leave? ==> Tidy(Some(Body), a.ops, None))
      && (a.out.Go? && !Between(a.p.state) ==>
            a.p.state == p.state || (p.state == ChunkData && a.p.state == ChunkDataAlmostDone))
  {
    var a := OnByte(p, ch);
    assert a == OnBody(p, ch);
    assert [Mark(Body)][1..] == [];
    assert Tidy(Some(Body), [Mark(Body)], Some(Body));
    TidyOne(Some(Body), FlushIncl(Body), None);
    TidyConcat(Some(Body), [Mark(Body)], Some(Body), [FlushIncl(Body)], None);
    assert [Mark(Body)] + [FlushIncl(Body)] == [Mark(Body), FlushIncl(Body)];
    if p.state == BodyIdentity && p.length == 1 {
      var q := p.(length := 0, state := MessageDone);
      TidyComplete(q, if q.upgrade then Leave else Go);
      TidyConcat(Some(Body), [Mark(Body), FlushIncl(Body)], None, OnMessageDone(q).ops, None);
    }
  }

  /** Every arm outside the body bytes. */
  lemma TidyByte(p: Parser, ch: Byte)
    requires p.state != ChunkData && p.state != ChunkDataAlmostDone
    requires p.state != BodyIdentity && p.state != BodyIdentityEof
    ensures ArmTidy(Resuming(p.state), OnByte(p, ch))
  {
    hide OnBetween, OnResponseLine, OnHeaderLine, OnBody, OnRequestLine, ArmTidy;
    if Between(p.state) {
      TidyBetween(p, ch);
    } else if ResponseLine(p.state) {
      TidyResponseLine(p, ch);
    } else if HeaderLine(p.state) {
      TidyHeaderLine(p, ch);
    } else if InBody(p.state) {
      TidyBody(p, ch);
    } else {
      TidyRequestLine(p, ch);
    }
  }
}
