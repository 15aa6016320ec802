/** Header lines: what is reported, and what they tell about the body. */
module HttpHeaders {
  import opened Basics
  import opened HttpTypes
  import opened HttpAct
  import opened HttpRun
  import opened HttpInvariant
  import opened HttpSkip
  import opened HttpSteps
  import opened HttpNames

  /** A header line; a `bare` one ends in LF alone. */
  datatype Header = Header(name: seq<Byte>, ows: seq<Byte>, value: seq<Byte>, bare: bool)

  /** A line end in front of `rest`. */
  function Ending(bare: bool, rest: seq<Byte>): seq<Byte> { if bare then [LF] + rest else [CR] + ([LF] + rest) }

  function EndSize(bare: bool): nat { if bare then 1 else 2 }

  predicate Blank(w: seq<Byte>) { forall i :: 0 <= i < |w| ==> w[i] == SP || w[i] == HT }

  /** A name, white space and a value on one line. */
  predicate HeaderOk(h: Header) {
    && h.name != [] && AllTokens(h.name) && Blank(h.ows)
    && NoLineEnd(h.value) && Acceptable(false, h.value)
    && (h.value != [] ==> h.value[0] != SP && h.value[0] != HT)
  }

  function HeaderBytes(h: Header, rest: seq<Byte>): seq<Byte> {
    h.name + ([COLON] + (h.ows + (h.value + Ending(h.bare, rest))))
  }

  function HeaderSize(h: Header): nat { |h.name| + |h.ows| + |h.value| + 1 + EndSize(h.bare) }

  /** The next line does not continue this one. */
  predicate LineStarts(rest: seq<Byte>) { rest != [] && rest[0] != SP && rest[0] != HT }

  // ----- the name ----------------------------------------------------------

  /** The parser once the name and its colon are read. */
  function Named(p: Parser, name: seq<Byte>): Parser
    requires name != []
  {
    var m := AfterNameBytes(name);
    p.(hs := m.hs, index := m.index, state := ValueDiscardWs, nread := p.nread + |name| + 1)
  }

  lemma NameRuns(max: nat, p: Parser, log: seq<Event>, name: seq<Byte>, rest: seq<Byte>)
    requires p.state == HeaderFieldStart && name != [] && AllTokens(name) && p.nread + |name| + 1 <= max < MOD32 - 1
    ensures Run(max, p, log, name + ([COLON] + rest)) == Run(max, Named(p, name), Absorb(log, Field, name), rest)
  {
    hide Run, Absorb, Token, NameRun;
    var ch, more := name[0], name[1..];
    var tail := [COLON] + rest;
    assert name + tail == [ch] + (more + tail);
    FirstNameByte(max, p, log, ch, more + tail);
    var q := p.(index := 0, hs := FirstHeaderState(Token(ch)), state := HeaderField, nread := p.nread + 1);
    SkipName(max, q, Absorb(log, Field, [ch]), more, tail);
    AbsorbMore(log, Field, [ch], more);
    assert [ch] + more == name;
    NameColon(max, AfterName(q, more), log, name, rest);
  }

  lemma FirstNameByte(max: nat, p: Parser, log: seq<Event>, ch: Byte, rest: seq<Byte>)
    requires p.state == HeaderFieldStart && Token(ch) != 0 && p.nread + 1 <= max < MOD32 - 1
    ensures var hs := FirstHeaderState(Token(ch));
      FieldHs(hs) && Run(max, p, log, [ch] + rest) ==
      Run(max, p.(index := 0, hs := hs, state := HeaderField, nread := p.nread + 1), Absorb(log, Field, [ch]), rest)
  {
    hide Run, Absorb;
    var q := CountByte(p);
    assert ch != CR && ch != LF;
    assert OnByte(q, ch) == OnHeaderFieldStart(q, ch);
    assert [Mark(Field)] + [] == [Mark(Field)];
    FirstByte(max, p, log, ch, rest, Field);
  }

  lemma NameColon(max: nat, p: Parser, log: seq<Event>, name: seq<Byte>, rest: seq<Byte>)
    requires p.state == HeaderField && name != [] && p.nread + 1 <= max < MOD32 - 1
    ensures Run(max, p, Absorb(log, Field, name), [COLON] + rest) ==
            Run(max, p.(state := ValueDiscardWs, nread := p.nread + 1), Absorb(log, Field, name), rest)
  {
    hide Run, Absorb;
    var q := CountByte(p);
    assert OnByte(q, COLON) == OnHeaderField(q, COLON);
    assert [Flush(Field)] + [] == [Flush(Field)];
    EndByte(max, p, log, COLON, rest, Field, name);
  }

  // ----- white space and the value -----------------------------------------

  lemma {:induction false} SkipBlank(max: nat, p: Parser, log: seq<Event>, w: seq<Byte>, rest: seq<Byte>)
    requires p.state == ValueDiscardWs && Blank(w) && p.nread + |w| <= max < MOD32 - 1
    ensures Run(max, p, log, w + rest) == Run(max, p.(nread := p.nread + |w|), log, rest)
    decreases |w|
  {
    hide Run;
    if w == [] {
      assert w + rest == rest;
    } else {
      assert w + rest == [w[0]] + (w[1..] + rest);
      assert OnByte(CountByte(p), w[0]) == OnValueDiscardWs(CountByte(p), w[0]);
      QuietByte(max, p, log, w[0], w[1..] + rest);
      SkipBlank(max, CountByte(p), log, w[1..], rest);
    }
  }

  /** The parser after the first byte of a value. */
  function Valued(p: Parser, ch: Byte): Parser { OnValueStart(p.(nread := p.nread + 1), ch).p }

  lemma FirstValueByte(max: nat, p: Parser, log: seq<Event>, ch: Byte, rest: seq<Byte>)
    requires Inv(p) && p.state == ValueDiscardWs && ch != SP && ch != HT && ch != CR && ch != LF
    requires p.nread + 1 <= max < MOD32 - 1 && OnValueStart(p.(nread := p.nread + 1), ch).out.Go?
    ensures Run(max, p, log, [ch] + rest) == Run(max, Valued(p, ch), Absorb(log, Value, [ch]), rest)
    ensures Inv(Valued(p, ch)) && Valued(p, ch).state == HeaderValue && Valued(p, ch).nread == p.nread + 1
  {
    hide Run, Absorb;
    var q := CountByte(p);
    assert q == p.(nread := p.nread + 1);
    assert OnByte(q, ch) == OnValueStart(q, ch);
    assert OnValueStart(q, ch).ops == [Mark(Value)];
    FirstByte(max, p, log, ch, rest, Value);
    ByteKeepsInv(p, ch);
  }

  /** The line end after a value. */
  lemma ValueEnds(max: nat, p: Parser, log: seq<Event>, value: seq<Byte>, bare: bool, rest: seq<Byte>)
    requires p.state == HeaderValue && value != [] && p.nread + EndSize(bare) <= max < MOD32 - 1
    ensures Run(max, p, Absorb(log, Value, value), Ending(bare, rest)) ==
            Run(max, p.(state := ValueLws, nread := p.nread + EndSize(bare)), Absorb(log, Value, value), rest)
  {
    hide Run, Absorb;
    var q := CountByte(p);
    assert [Flush(Value)] + [] == [Flush(Value)];
    if bare {
      assert OnByte(q, LF) == OnHeaderValue(q, LF);
      EndByte(max, p, log, LF, rest, Value, value);
    } else {
      assert OnByte(q, CR) == OnHeaderValue(q, CR);
      EndByte(max, p, log, CR, [LF] + rest, Value, value);
      var q1 := q.(state := HeaderAlmostDone);
      assert OnByte(CountByte(q1), LF) == OnHeaderAlmostDone(CountByte(q1), LF);
      QuietByte(max, q1, Absorb(log, Value, value), LF, rest);
    }
  }

  /** The line end of an empty value. */
  lemma EmptyValueEnds(max: nat, p: Parser, log: seq<Event>, bare: bool, rest: seq<Byte>)
    requires p.state == ValueDiscardWs && p.nread + EndSize(bare) <= max < MOD32 - 1
    ensures Run(max, p, log, Ending(bare, rest)) ==
            Run(max, p.(state := ValueDiscardLws, nread := p.nread + EndSize(bare)), log, rest)
  {
    hide Run;
    var q := CountByte(p);
    if bare {
      assert OnByte(q, LF) == OnValueDiscardWs(q, LF);
      QuietByte(max, p, log, LF, rest);
    } else {
      assert OnByte(q, CR) == OnValueDiscardWs(q, CR);
      QuietByte(max, p, log, CR, [LF] + rest);
      var q1 := q.(state := ValueDiscardWsAlmostDone);
      assert OnByte(CountByte(q1), LF) == OnHeaderLine(CountByte(q1), LF);
      QuietByte(max, q1, log, LF, rest);
    }
  }

  // ----- the header is done when the next line starts -----------------------

  /** The parser ready for the next line. */
  function Finished(p: Parser): Parser { p.(flags := FinishHeader(p.flags, p.hs), state := HeaderFieldStart) }

  lemma LineFollows(max: nat, p: Parser, log: seq<Event>, rest: seq<Byte>)
    requires p.state == ValueLws && LineStarts(rest)
    ensures Run(max, p, log, rest) == Run(max, Finished(p), log, rest)
  {
    hide OnHeaderFieldStart;
    var q, ch := Finished(p), rest[0];
    assert OnByte(CountByte(p), ch) == OnValueLws(CountByte(p), ch) == OnHeaderFieldStart(CountByte(q), ch);
    assert OnByte(CountByte(q), ch) == OnHeaderFieldStart(CountByte(q), ch);
    assert Step(max, p, log, ch, rest[1..]) == Step(max, q, log, ch, rest[1..]);
  }

  lemma EmptyValueArm(p: Parser, ch: Byte)
    requires p.state == ValueDiscardLws && ch != SP && ch != HT && !p.hs.HContentLength?
    ensures OnByte(CountByte(p), ch) == Then([Mark(Value), Flush(Value)], OnByte(CountByte(Finished(p)), ch))
  {
    hide OnHeaderFieldStart;
  }

  /** An empty value is reported when the next line starts. */
  lemma LineFollowsEmpty(max: nat, p: Parser, log: seq<Event>, rest: seq<Byte>)
    requires p.state == ValueDiscardLws && LineStarts(rest) && !p.hs.HContentLength?
    ensures Run(max, p, log, rest) == Run(max, Finished(p), Push(log, Data(Value, [])), rest)
  {
    hide OnByte, Push, Run, DoOps;
    var q, ch, more := Finished(p), rest[0], rest[1..];
    assert rest == [ch] + more;
    RunCons(max, p, log, ch, more);
    RunCons(max, q, Push(log, Data(Value, [])), ch, more);
    var a := OnByte(CountByte(q), ch);
    var pre := [Mark(Value), Flush(Value)];
    EmptyValueArm(p, ch);
    OpsFirst(pre, a.ops, ch);
    var n := DoOps(NO_MARKS, a.ops, [ch], 0);
    var tail := n.calls + FlushAll(n.marks, [ch]);
    assert ([Data(Value, [])] + n.calls) + FlushAll(n.marks, [ch]) == [Data(Value, [])] + tail;
    PushAllConcat(log, [Data(Value, [])], tail);
    PushAllConcat(log, [Data(Value, [])], n.calls);
    PushesOne(log, Data(Value, []));
  }

  lemma OpsFirst(pre: seq<Op>, ops: seq<Op>, ch: Byte)
    requires pre == [Mark(Value), Flush(Value)]
    ensures var m, n := DoOps(NO_MARKS, pre + ops, [ch], 0), DoOps(NO_MARKS, ops, [ch], 0);
      m.marks == n.marks && m.calls == [Data(Value, [])] + n.calls
  {
    var all := pre + ops;
    assert all[1..] == [Flush(Value)] + ops && all[1..][1..] == ops;
    var one := DoOp(NO_MARKS, all[0], [ch], 0);
    assert one == Marked(Only(Some(Value), 0), []);
    assert [ch][0..0] == [];
    assert DoOp(one.marks, all[1..][0], [ch], 0) == Marked(NO_MARKS, [Data(Value, [])]);
    var n := DoOps(NO_MARKS, ops, [ch], 0);
    assert DoOps(one.marks, all[1..], [ch], 0) == Marked(n.marks, [Data(Value, [])] + n.calls);
    assert [] + ([Data(Value, [])] + n.calls) == [Data(Value, [])] + n.calls;
  }

  // ----- a whole header line -----------------------------------------------

  /** What the value bytes leave, from the parser that has read the name. */
  function ValueScan(p: Parser, h: Header): Scan
    requires h.name != [] && h.value != []
  {
    ValueRun(p.lenient, ScanOf(Valued(Named(p, h.name), h.value[0])), h.value[1..])
  }

  /** The parser after the header line, before the next line starts. */
  function AfterLine(p: Parser, h: Header, v: Scan): Parser
    requires v.Scan?
  {
    Finished(WithScan(p, v)).(nread := p.nread + HeaderSize(h))
  }

  function HeaderEvents(h: Header): seq<Event> { [Data(Field, h.name), Data(Value, h.value)] }

  predicate NotField(log: seq<Event>) { log == [] || !log[|log| - 1].Data? || !log[|log| - 1].kind.Field? }

  /** The parser behind the line, which may still be continued by the next. */
  function BehindLine(p: Parser, h: Header, v: Scan): Parser
    requires v.Scan?
  {
    WithScan(p, v).(state := ValueLws, nread := p.nread + HeaderSize(h))
  }

  /** A header line with a value, up to its end. */
  lemma ValuedLineRuns(max: nat, p: Parser, log: seq<Event>, h: Header, rest: seq<Byte>)
    requires Inv(p) && p.state == HeaderFieldStart && HeaderOk(h) && h.value != [] && NotField(log)
    requires p.nread + HeaderSize(h) <= max < MOD32 - 1
    requires OnValueStart(Named(p, h.name), h.value[0]).out.Go? && ValueScan(p, h).Scan?
    ensures Run(max, p, log, HeaderBytes(h, rest)) ==
            Run(max, BehindLine(p, h, ValueScan(p, h)), Absorb(log + [Data(Field, h.name)], Value, h.value), rest)
    ensures Inv(BehindLine(p, h, ValueScan(p, h)))
  {
    hide Run, Absorb, Inv, AfterNameBytes, OnValueStart, ValueRun, FinishHeader, AllTokens, NoLineEnd, Acceptable, Blank, Ending;
    var tail := Ending(h.bare, rest);
    NameRuns(max, p, log, h.name, h.ows + (h.value + tail));
    AbsorbFresh(log, Field, h.name);
    var log1 := log + [Data(Field, h.name)];
    var q := Named(p, h.name);
    NamedKeeps(p, h.name);
    SkipBlank(max, q, log1, h.ows, h.value + tail);
    var q1 := q.(nread := q.nread + |h.ows|);
    var ch, more := h.value[0], h.value[1..];
    assert h.value + tail == [ch] + (more + tail);
    MoreValue(h.value);
    ValueStartNread(q, q.nread + |h.ows| + 1, ch);
    ValueStartNread(q, q.nread + 1, ch);
    InvNread(q, q1.nread);
    FirstValueByte(max, q1, log1, ch, more + tail);
    var q2 := Valued(q1, ch);
    ValueStartFrame(q1.(nread := q1.nread + 1), ch);
    ValueStartFrame(q.(nread := q.nread + 1), ch);
    assert ScanOf(q2) == ScanOf(Valued(q, ch)) && q2.lenient == p.lenient;
    SkipValue(max, q2, Absorb(log1, Value, [ch]), more, tail);
    AbsorbMore(log1, Value, [ch], more);
    assert [ch] + more == h.value;
    var q3 := AfterValue(q2, more);
    ValueEnds(max, q3, log1, h.value, h.bare, rest);
    LwsInv(q3, q3.nread + EndSize(h.bare));
  }

  lemma LwsInv(p: Parser, n: nat)
    requires Inv(p) && p.state == HeaderValue
    ensures Inv(p.(state := ValueLws, nread := n))
  {
  }

  /** A header with a value is reported as it stands. */
  lemma ValuedHeaderRuns(max: nat, p: Parser, log: seq<Event>, h: Header, rest: seq<Byte>)
    requires Inv(p) && p.state == HeaderFieldStart && HeaderOk(h) && h.value != [] && LineStarts(rest) && NotField(log)
    requires p.nread + HeaderSize(h) <= max < MOD32 - 1
    requires OnValueStart(Named(p, h.name), h.value[0]).out.Go? && ValueScan(p, h).Scan?
    ensures Run(max, p, log, HeaderBytes(h, rest)) ==
            Run(max, AfterLine(p, h, ValueScan(p, h)), log + HeaderEvents(h), rest)
  {
    hide Run, Absorb, Inv, AfterNameBytes, OnValueStart, ValueScan, FinishHeader, HeaderBytes, AllTokens, NoLineEnd, Acceptable;
    ValuedLineRuns(max, p, log, h, rest);
    var log1 := log + [Data(Field, h.name)];
    LineFollows(max, BehindLine(p, h, ValueScan(p, h)), Absorb(log1, Value, h.value), rest);
    AbsorbFresh(log1, Value, h.value);
    assert log1 + [Data(Value, h.value)] == log + HeaderEvents(h);
  }

  lemma MoreValue(w: seq<Byte>)
    requires NoLineEnd(w) && w != []
    ensures w[0] != CR && w[0] != LF && NoLineEnd(w[1..])
  {
  }

  lemma InvNread(p: Parser, n: nat)
    requires Inv(p) && p.state == ValueDiscardWs
    ensures Inv(p.(nread := n))
  {
  }

  lemma NamedKeeps(p: Parser, name: seq<Byte>)
    requires Inv(p) && p.state == HeaderFieldStart && name != [] && AllTokens(name)
    ensures Inv(Named(p, name))
  {
    assert FieldHs(AfterNameBytes(name).hs);
  }

  /** The start of a value leaves the rest of the parser alone. */
  lemma ValueStartFrame(p: Parser, ch: Byte)
    ensures var q := OnValueStart(p, ch).p;
      q == p.(state := HeaderValue, index := q.index, hs := q.hs, flags := q.flags, length := q.length)
  {
  }

  /** The start of a value does not look at the byte count. */
  lemma ValueStartNread(p: Parser, n: nat, ch: Byte)
    ensures var a, b := OnValueStart(p, ch), OnValueStart(p.(nread := n), ch);
      a.out == b.out && b.p == a.p.(nread := n)
  {
  }

  /** A header without a value is reported with an empty one. */
  lemma EmptyHeaderRuns(max: nat, p: Parser, log: seq<Event>, h: Header, rest: seq<Byte>)
    requires Inv(p) && p.state == HeaderFieldStart && HeaderOk(h) && h.value == [] && LineStarts(rest) && NotField(log)
    requires p.nread + HeaderSize(h) <= max < MOD32 - 1 && !AfterNameBytes(h.name).hs.HContentLength?
    ensures Run(max, p, log, HeaderBytes(h, rest)) ==
            Run(max, Finished(Named(p, h.name)).(nread := p.nread + HeaderSize(h)), log + HeaderEvents(h), rest)
  {
    hide Run, Absorb, Inv, AfterNameBytes, AllTokens, Blank, FinishHeader, Ending;
    var tail := Ending(h.bare, rest);
    NameRuns(max, p, log, h.name, h.ows + (h.value + tail));
    AbsorbFresh(log, Field, h.name);
    var log1 := log + [Data(Field, h.name)];
    var q := Named(p, h.name);
    assert h.value + tail == tail;
    SkipBlank(max, q, log1, h.ows, tail);
    var q1 := q.(nread := q.nread + |h.ows|);
    EmptyValueEnds(max, q1, log1, h.bare, rest);
    LineFollowsEmpty(max, q1.(state := ValueDiscardLws, nread := q1.nread + EndSize(h.bare)), log1, rest);
    assert Push(log1, Data(Value, [])) == log1 + [Data(Value, [])] == log + HeaderEvents(h);
  }

  // ----- headers of no interest --------------------------------------------

  /** Not one of the names that change how the message is read. */
  predicate Plain(h: Header) {
    var t := Lowered(h.name);
    HeaderOk(h) && t != CONNECTION && t != PROXY_CONNECTION && t != CONTENT_LENGTH && t != TRANSFER_ENCODING && t != UPGRADE
  }

  lemma PlainValue(p: Parser, h: Header)
    requires Plain(h) && h.value != []
    ensures OnValueStart(Named(p, h.name), h.value[0]).out.Go?
    ensures ValueScan(p, h) == Scan(General, 0, p.flags, p.length)
  {
    hide AfterNameBytes, ValueRun, Lowered;
    SpecialNames(h.name);
    NamePlain(h);
    var q := Valued(Named(p, h.name), h.value[0]);
    assert ScanOf(q) == Scan(General, 0, p.flags, p.length);
    NoValue(p.lenient, ScanOf(q));
    ValueRunGeneral(p.lenient, ScanOf(q), [], h.value[1..]);
    assert [] + h.value[1..] == h.value[1..];
  }

  lemma NoValue(lenient: bool, v: Scan)
    ensures ValueRun(lenient, v, []) == v
  {
  }

  /** A plain header is reported and tells nothing about the body. */
  lemma PlainRuns(max: nat, p: Parser, log: seq<Event>, h: Header, rest: seq<Byte>) returns (q: Parser)
    requires Inv(p) && p.state == HeaderFieldStart && Plain(h) && LineStarts(rest) && NotField(log)
    requires p.nread + HeaderSize(h) <= max < MOD32 - 1
    ensures Run(max, p, log, HeaderBytes(h, rest)) == Run(max, q, log + HeaderEvents(h), rest)
    ensures q == p.(hs := q.hs, index := q.index, nread := p.nread + HeaderSize(h)) && Inv(q)
  {
    hide Run, OnValueStart, ValueScan, Lowered, AfterNameBytes, HeaderOk;
    NamePlain(h);
    if h.value == [] {
      EmptyHeaderRuns(max, p, log, h, rest);
      q := Finished(Named(p, h.name)).(nread := p.nread + HeaderSize(h));
    } else {
      PlainValue(p, h);
      ValuedHeaderRuns(max, p, log, h, rest);
      q := AfterLine(p, h, ValueScan(p, h));
    }
  }

  lemma NamePlain(h: Header)
    requires Plain(h)
    ensures h.name != [] && FieldHs(AfterNameBytes(h.name).hs) && !AfterNameBytes(h.name).hs.HContentLength?
  {
    SpecialNames(h.name);
  }

  /** Without the spaces behind. */
  function StripTrail(t: seq<Byte>): (w: seq<Byte>)
    ensures |w| <= |t|
    decreases |t|
  {
    if t != [] && t[|t| - 1] == SP then StripTrail(t[..|t| - 1]) else t
  }

  lemma TrailStep(t: seq<Byte>, ch: Byte)
    ensures ch == SP ==> StripTrail(t + [ch]) == StripTrail(t)
    ensures ch != SP ==> StripTrail(t + [ch]) == t + [ch]
    ensures |StripTrail(t)| <= |t|
  {
    assert (t + [ch])[..|t|] == t;
  }
}
