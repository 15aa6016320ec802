/** Header values that go on in further lines, which start with white space: what is
    reported, and what such lines still mean. */
module HttpFolded {
  import opened Basics
  import opened HttpTypes
  import opened HttpAct
  import opened HttpRun
  import opened HttpInvariant
  import opened HttpSkip
  import opened HttpSteps
  import opened HttpNames
  import opened HttpHeaders
  import opened HttpFraming

  /** A line that continues a value. */
  datatype Fold = Fold(blank: Byte, text: seq<Byte>, bare: bool)

  predicate FoldOk(f: Fold) { (f.blank == SP || f.blank == HT) && NoLineEnd(f.text) && Acceptable(false, f.text) }

  predicate FoldsOk(fs: seq<Fold>) { forall i :: 0 <= i < |fs| ==> FoldOk(fs[i]) }

  function FoldSize(f: Fold): nat { 1 + |f.text| + EndSize(f.bare) }

  function FoldsSize(fs: seq<Fold>): nat { if fs == [] then 0 else FoldSize(fs[0]) + FoldsSize(fs[1..]) }

  function FoldsBytes(fs: seq<Fold>, rest: seq<Byte>): seq<Byte> {
    if fs == [] then rest else [fs[0].blank] + (fs[0].text + Ending(fs[0].bare, FoldsBytes(fs[1..], rest)))
  }

  /** The value goes on with the white space and the text, without the line end. */
  function FoldsText(fs: seq<Fold>): seq<Byte> {
    if fs == [] then [] else [fs[0].blank] + fs[0].text + FoldsText(fs[1..])
  }

  /** What is still known of a value at the start of a further line: that a number must
      not go on, and that a list is between two elements. */
  function StillKnown(hs: HeaderState): HeaderState {
    if hs.MatchingTokenStart? then hs
    else if hs.HContentLengthNum? || hs.HContentLengthWs? then HContentLengthWs
    else General
  }

  function FoldStart(v: Scan): Scan
    requires v.Scan?
  {
    Scan(StillKnown(v.hs), 0, v.flags, v.length)
  }

  function FoldsScan(lenient: bool, v: Scan, fs: seq<Fold>): Scan
    decreases |fs|
  {
    if fs == [] || !v.Scan? then v else FoldsScan(lenient, ValueRun(lenient, FoldStart(v), fs[0].text), fs[1..])
  }

  // ----- one line, then many -----------------------------------------------

  lemma FoldByte(max: nat, p: Parser, log: seq<Event>, w: seq<Byte>, c: Byte, rest: seq<Byte>)
    requires Inv(p) && p.state == ValueLws && (c == SP || c == HT) && w != [] && p.nread + 1 <= max < MOD32 - 1
    ensures var q := WithScan(p, FoldStart(ScanOf(p))).(state := HeaderValue, nread := p.nread + 1);
      Run(max, p, Absorb(log, Value, w), [c] + rest) == Run(max, q, Absorb(log, Value, w + [c]), rest) && Inv(q)
  {
    hide Run, Absorb;
    var u := CountByte(p);
    assert OnByte(u, c) == OnValueLws(u, c);
    assert ValueHs(p.hs);
    assert [Mark(Value)] + [] == [Mark(Value)];
    FirstByte(max, p, Absorb(log, Value, w), c, rest, Value);
    AbsorbMore(log, Value, w, [c]);
    ByteKeepsInv(p, c);
  }

  lemma OneFold(max: nat, p: Parser, log: seq<Event>, w: seq<Byte>, f: Fold, rest: seq<Byte>) returns (q: Parser)
    requires Inv(p) && p.state == ValueLws && FoldOk(f) && w != [] && p.nread + FoldSize(f) <= max < MOD32 - 1
    requires ValueRun(p.lenient, FoldStart(ScanOf(p)), f.text).Scan?
    ensures q == WithScan(p, ValueRun(p.lenient, FoldStart(ScanOf(p)), f.text)).(nread := p.nread + FoldSize(f)) && Inv(q)
    ensures Run(max, p, Absorb(log, Value, w), [f.blank] + (f.text + Ending(f.bare, rest))) ==
            Run(max, q, Absorb(log, Value, w + ([f.blank] + f.text)), rest)
  {
    hide Run, Absorb, Inv, ValueRun, Ending, NoLineEnd, Acceptable, StillKnown;
    var tail := Ending(f.bare, rest);
    FoldByte(max, p, log, w, f.blank, f.text + tail);
    var q0 := WithScan(p, FoldStart(ScanOf(p))).(state := HeaderValue, nread := p.nread + 1);
    var w1 := w + [f.blank];
    SkipValue(max, q0, Absorb(log, Value, w1), f.text, tail);
    AbsorbMore(log, Value, w1, f.text);
    assert w1 + f.text == w + ([f.blank] + f.text);
    var q1 := AfterValue(q0, f.text);
    ValueEnds(max, q1, log, w1 + f.text, f.bare, rest);
    LwsInv(q1, q1.nread + EndSize(f.bare));
    q := q1.(state := ValueLws, nread := q1.nread + EndSize(f.bare));
  }

  lemma {:induction false} FoldsRun(max: nat, p: Parser, log: seq<Event>, w: seq<Byte>, fs: seq<Fold>, rest: seq<Byte>) returns (q: Parser)
    requires Inv(p) && p.state == ValueLws && FoldsOk(fs) && w != [] && p.nread + FoldsSize(fs) <= max < MOD32 - 1
    requires FoldsScan(p.lenient, ScanOf(p), fs).Scan?
    ensures q == WithScan(p, FoldsScan(p.lenient, ScanOf(p), fs)).(nread := p.nread + FoldsSize(fs)) && Inv(q)
    ensures Run(max, p, Absorb(log, Value, w), FoldsBytes(fs, rest)) == Run(max, q, Absorb(log, Value, w + FoldsText(fs)), rest)
    decreases |fs|
  {
    hide Run, Absorb, Inv, ValueRun, Ending, FoldOk, FoldStart, FoldSize, FoldsScan, FoldsBytes, FoldsText, FoldsSize;
    if fs == [] {
      NoFolds(p.lenient, ScanOf(p), rest);
      assert w + FoldsText(fs) == w;
      q := p;
    } else {
      assert FoldOk(fs[0]);
      FoldsCons(p.lenient, ScanOf(p), fs, rest);
      var q0 := OneFold(max, p, log, w, fs[0], FoldsBytes(fs[1..], rest));
      var w1 := w + ([fs[0].blank] + fs[0].text);
      q := FoldsRun(max, q0, log, w1, fs[1..], rest);
      assert w1 + FoldsText(fs[1..]) == w + FoldsText(fs);
    }
  }

  lemma NoFolds(lenient: bool, v: Scan, rest: seq<Byte>)
    ensures FoldsScan(lenient, v, []) == v && FoldsBytes([], rest) == rest && FoldsText([]) == [] && FoldsSize([]) == 0
  {
  }

  lemma FoldsCons(lenient: bool, v: Scan, fs: seq<Fold>, rest: seq<Byte>)
    requires fs != [] && v.Scan? && FoldsScan(lenient, v, fs).Scan?
    ensures var u := ValueRun(lenient, FoldStart(v), fs[0].text); u.Scan? && FoldsScan(lenient, v, fs) == FoldsScan(lenient, u, fs[1..])
    ensures FoldsBytes(fs, rest) == [fs[0].blank] + (fs[0].text + Ending(fs[0].bare, FoldsBytes(fs[1..], rest)))
    ensures FoldsText(fs) == ([fs[0].blank] + fs[0].text) + FoldsText(fs[1..]) && FoldsSize(fs) == FoldSize(fs[0]) + FoldsSize(fs[1..])
  {
    hide ValueRun, FoldStart, Ending, FoldSize;
  }

  /** A value may also start in a further line: the white space in front of it is
      passed over like that behind the colon. */
  lemma LateValue(max: nat, p: Parser, log: seq<Event>, c: Byte, rest: seq<Byte>)
    requires p.state == ValueDiscardLws && (c == SP || c == HT) && p.nread + 1 <= max < MOD32 - 1
    ensures Run(max, p, log, [c] + rest) == Run(max, p.(state := ValueDiscardWs, nread := p.nread + 1), log, rest)
  {
    hide Run;
    assert OnByte(CountByte(p), c) == OnValueDiscardLws(CountByte(p), c);
    QuietByte(max, p, log, c, rest);
  }

  // ----- what folded headers mean ------------------------------------------

  function FoldedBytes(h: Header, fs: seq<Fold>, rest: seq<Byte>): seq<Byte> { HeaderBytes(h, FoldsBytes(fs, rest)) }

  function FoldedEvents(h: Header, fs: seq<Fold>): seq<Event> { [Data(Field, h.name), Data(Value, h.value + FoldsText(fs))] }

  /** A header with further lines is reported with its value and theirs as one. */
  lemma FoldedRuns(max: nat, p: Parser, log: seq<Event>, h: Header, fs: seq<Fold>, rest: seq<Byte>) returns (q: Parser)
    requires Inv(p) && p.state == HeaderFieldStart && HeaderOk(h) && h.value != [] && FoldsOk(fs) && LineStarts(rest) && NotField(log)
    requires p.nread + HeaderSize(h) + FoldsSize(fs) <= max < MOD32 - 1
    requires OnValueStart(Named(p, h.name), h.value[0]).out.Go? && ValueScan(p, h).Scan?
    requires FoldsScan(p.lenient, ValueScan(p, h), fs).Scan?
    ensures Run(max, p, log, FoldedBytes(h, fs, rest)) == Run(max, q, log + FoldedEvents(h, fs), rest)
    ensures q == Finished(WithScan(p, FoldsScan(p.lenient, ValueScan(p, h), fs))).(nread := p.nread + HeaderSize(h) + FoldsSize(fs))
  {
    hide Run, Absorb, Inv, AfterNameBytes, OnValueStart, ValueScan, FinishHeader, HeaderBytes, FoldsScan, FoldsBytes, FoldsText, FoldsOk,
      AllTokens, NoLineEnd, Acceptable;
    ValuedLineRuns(max, p, log, h, FoldsBytes(fs, rest));
    var log1, v := log + [Data(Field, h.name)], ValueScan(p, h);
    var q0 := BehindLine(p, h, v);
    assert ScanOf(q0) == v && q0.lenient == p.lenient;
    var q1 := FoldsRun(max, q0, log1, h.value, fs, rest);
    LineFollows(max, q1, Absorb(log1, Value, h.value + FoldsText(fs)), rest);
    AbsorbFresh(log1, Value, h.value + FoldsText(fs));
    assert log1 + [Data(Value, h.value + FoldsText(fs))] == log + FoldedEvents(h, fs);
    q := Finished(q1);
  }

  lemma {:induction false} GeneralStays(lenient: bool, v: Scan, fs: seq<Fold>)
    requires v.Scan? && StillKnown(v.hs).General? && FoldsOk(fs) && fs != []
    ensures FoldsScan(lenient, v, fs) == Scan(General, 0, v.flags, v.length)
    decreases |fs|
  {
    hide ValueRun, FoldOk;
    var u := FoldStart(v);
    assert FoldOk(fs[0]);
    GeneralText(lenient, u, fs[0]);
    if |fs| > 1 {
      GeneralStays(lenient, u, fs[1..]);
    } else {
      assert FoldsScan(lenient, u, fs[1..]) == u;
    }
  }

  lemma GeneralText(lenient: bool, v: Scan, f: Fold)
    requires v.Scan? && v.hs.General? && FoldOk(f)
    ensures ValueRun(lenient, v, f.text) == v
  {
    hide ValueRun, IsHeaderChar;
    NoValue(lenient, v);
    ValueRunGeneral(lenient, v, [], f.text);
    assert [] + f.text == f.text;
  }

  /** A header of no interest goes on in further lines without a meaning. */
  lemma PlainFolded(max: nat, p: Parser, log: seq<Event>, h: Header, fs: seq<Fold>, rest: seq<Byte>) returns (q: Parser)
    requires Inv(p) && p.state == HeaderFieldStart && Plain(h) && h.value != [] && fs != [] && FoldsOk(fs) && LineStarts(rest) && NotField(log)
    requires p.nread + HeaderSize(h) + FoldsSize(fs) <= max < MOD32 - 1
    ensures Run(max, p, log, FoldedBytes(h, fs, rest)) == Run(max, q, log + FoldedEvents(h, fs), rest)
    ensures q == p.(hs := q.hs, index := q.index, nread := q.nread)
  {
    hide Run, OnValueStart, ValueScan, Inv, FoldsScan, FoldsOk, FoldedBytes, FoldedEvents, Lowered, AllTokens, NoLineEnd, Acceptable;
    PlainValue(p, h);
    PlainOk(h);
    GeneralStays(p.lenient, ValueScan(p, h), fs);
    q := FoldedRuns(max, p, log, h, fs, rest);
  }

  lemma PlainOk(h: Header)
    requires Plain(h)
    ensures HeaderOk(h)
  {
  }

  /** A Transfer-Encoding header that goes on in a further line, even a blank one, is
      not recognised, also if it is the word chunked. */
  lemma EncodingFolded(max: nat, p: Parser, log: seq<Event>, h: Header, fs: seq<Fold>, rest: seq<Byte>) returns (q: Parser)
    requires Inv(p) && p.state == HeaderFieldStart && EncodingHeader(h) && h.value != [] && fs != [] && FoldsOk(fs) && LineStarts(rest) && NotField(log)
    requires p.nread + HeaderSize(h) + FoldsSize(fs) <= max < MOD32 - 1
    ensures Run(max, p, log, FoldedBytes(h, fs, rest)) == Run(max, q, log + FoldedEvents(h, fs), rest)
    ensures q == p.(hs := q.hs, index := q.index, nread := q.nread)
  {
    hide Run, OnValueStart, ValueScan, Inv, FoldsScan, FoldsOk, FoldedBytes, FoldedEvents, Lowered, ChunkedValue, AfterNameBytes, AllTokens,
      NoLineEnd, Acceptable;
    EncodingValue(p, h);
    EncodingStates(p, h);
    GeneralStays(p.lenient, ValueScan(p, h), fs);
    q := FoldedRuns(max, p, log, h, fs, rest);
  }

  lemma EncodingStates(p: Parser, h: Header)
    requires EncodingHeader(h) && h.value != []
    ensures var u := ValueScan(p, h); u.Scan? && StillKnown(u.hs).General?
  {
    hide AfterNameBytes, ValueRun, Lowered, ChunkedValue, Lower;
    EncodingName(h);
    var c, w := h.value[0], h.value[1..];
    assert h.value == [c] + w;
    var v := ScanOf(Valued(Named(p, h.name), c));
    assert v == Scan(ValueHeaderState(HTransferEncoding, Lower(c)), 0, p.flags, p.length);
    CodingScan(p.lenient, v, c, w);
  }

  predicate BlankFolds(fs: seq<Fold>) { forall i :: 0 <= i < |fs| ==> forall k :: 0 <= k < |fs[i].text| ==> fs[i].text[k] == SP }

  lemma {:induction false} SpacesScan(lenient: bool, v: Scan, w: seq<Byte>)
    requires v.Scan? && v.hs.HContentLengthWs? && Acceptable(lenient, w)
    ensures ValueRun(lenient, v, w) == if forall k :: 0 <= k < |w| ==> w[k] == SP then v else ScanFail(INVALID_CONTENT_LENGTH)
    decreases |w|
  {
    hide ScanByte;
    if w != [] {
      var init, last := w[..|w| - 1], w[|w| - 1];
      SpacesScan(lenient, v, init);
      AfterDigit(lenient, v, last);
      assert forall k :: 0 <= k < |init| ==> init[k] == w[k];
    }
  }

  lemma {:induction false} NumberStays(lenient: bool, v: Scan, fs: seq<Fold>)
    requires v.Scan? && (v.hs.HContentLengthNum? || v.hs.HContentLengthWs?) && FoldsOk(fs) && fs != []
    ensures FoldsScan(lenient, v, fs) ==
            if BlankFolds(fs) then Scan(HContentLengthWs, 0, v.flags, v.length) else ScanFail(INVALID_CONTENT_LENGTH)
    decreases |fs|
  {
    var u := FoldStart(v);
    assert FoldOk(fs[0]);
    SpacesScan(lenient, u, fs[0].text);
    assert BlankFolds(fs) <==> (forall k :: 0 <= k < |fs[0].text| ==> fs[0].text[k] == SP) && BlankFolds(fs[1..]) by {
      assert forall i :: 1 <= i < |fs| ==> fs[i] == fs[1..][i - 1];
    }
    if ValueRun(lenient, u, fs[0].text).Scan? && |fs| > 1 {
      NumberStays(lenient, u, fs[1..]);
    }
  }

  /** A Content-Length keeps its number behind further lines that are blank. */
  lemma LengthFolded(max: nat, p: Parser, log: seq<Event>, h: Header, fs: seq<Fold>, rest: seq<Byte>) returns (q: Parser)
    requires Inv(p) && p.state == HeaderFieldStart && LengthHeader(h) && LengthTaken(h.value) && !p.flags.contentLength
    requires fs != [] && FoldsOk(fs) && BlankFolds(fs) && LineStarts(rest) && NotField(log)
    requires p.nread + HeaderSize(h) + FoldsSize(fs) <= max < MOD32 - 1
    ensures Run(max, p, log, FoldedBytes(h, fs, rest)) == Run(max, q, log + FoldedEvents(h, fs), rest)
    ensures q == p.(hs := q.hs, index := q.index, nread := q.nread, flags := p.flags.(contentLength := true), length := LengthOf(h.value))
  {
    hide Run, OnValueStart, ValueScan, Inv, FoldsScan, FoldsOk, BlankFolds, FoldedBytes, FoldedEvents, Lowered, LengthTaken, LengthOf;
    TakenStarts(h.value);
    LengthValue(p, h);
    NumberStays(p.lenient, ValueScan(p, h), fs);
    q := FoldedRuns(max, p, log, h, fs, rest);
  }
}
