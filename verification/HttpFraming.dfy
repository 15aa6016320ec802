/** The headers that frame a body: which Content-Length and Transfer-Encoding values
    are taken, and what they leave. */
module HttpFraming {
  import opened Basics
  import opened HttpTypes
  import opened HttpAct
  import opened HttpRun
  import opened HttpInvariant
  import opened HttpSkip
  import opened HttpSteps
  import opened HttpLength
  import opened HttpNames
  import opened HttpHeaders

  // ----- Content-Length ----------------------------------------------------

  const LENGTH_LIMIT: nat := (MAX64 - 10) / 10

  /** The values that are taken: digits with spaces behind them. The limit is on what
      stands before the last digit. */
  predicate LengthTaken(value: seq<Byte>) {
    var w := StripTrail(value);
    && w != [] && Digits(w) && SizeBytes(w)
    && (|w| == 1 || Number(10, 0, w[..|w| - 1]) <= LENGTH_LIMIT)
  }

  function LengthOf(value: seq<Byte>): nat
    requires LengthTaken(value)
  {
    Number(10, 0, StripTrail(value))
  }

  /** The digits `w` are taken behind the number `n`. */
  predicate TakenBehind(n: nat, w: seq<Byte>) {
    Digits(w) && SizeBytes(w) && (w == [] || Number(10, n, w[..|w| - 1]) <= LENGTH_LIMIT)
  }

  lemma DigitsAreSizes(w: seq<Byte>)
    requires Digits(w)
    ensures SizeBytes(w)
  {
  }

  lemma AfterDigit(lenient: bool, v: Scan, ch: Byte)
    requires v.Scan? && (v.hs.HContentLengthNum? || v.hs.HContentLengthWs?) && (lenient || IsHeaderChar(ch))
    ensures ch == SP ==> ScanByte(lenient, v, ch) == v.(hs := HContentLengthWs)
    ensures ch != SP && (v.hs.HContentLengthWs? || !IsNum(ch)) ==> ScanByte(lenient, v, ch) == ScanFail(INVALID_CONTENT_LENGTH)
  {
  }

  lemma {:induction false} StrippedAll(w: seq<Byte>)
    requires Digits(w)
    ensures StripTrail(w) == w
  {
  }

  /** Any bytes behind the first digit: they are taken if and only if they are digits
      within the limit and then spaces. */
  lemma {:induction false} LengthScan(lenient: bool, v: Scan, w: seq<Byte>)
    requires v.Scan? && v.hs.HContentLengthNum? && v.length < MAX64 && Acceptable(lenient, w)
    ensures var u, r := StripTrail(w), ValueRun(lenient, v, w);
      && (if TakenBehind(v.length, u)
          then r == v.(hs := if u == w then HContentLengthNum else HContentLengthWs, length := Number(10, v.length, u)) && r.length < MAX64
          else r == ScanFail(INVALID_CONTENT_LENGTH))
    decreases |w|
  {
    hide ScanByte;
    if w == [] {
      assert StripTrail(w) == [];
    } else {
      var init, last := w[..|w| - 1], w[|w| - 1];
      assert w == init + [last];
      TrailStep(init, last);
      LengthScan(lenient, v, init);
      var r := ValueRun(lenient, v, init);
      if r.Scan? {
        AfterDigit(lenient, r, last);
      }
      if last != SP {
        if Digits(init) && IsNum(last) {
          StrippedAll(init);
          DigitsAreSizes(init);
          DigitsAreSizes(w);
          DigitsCount(lenient, v, w);
        } else if r.Scan? && IsNum(last) {
          assert StripTrail(init) != init;
        }
        assert !Digits(init) || !IsNum(last) ==> !Digits(w) by {
          if Digits(w) {
            assert forall i :: 0 <= i < |init| ==> init[i] == w[i];
          }
        }
      }
    }
  }

  /** The same from the first digit on. */
  lemma FirstDigitOf(d: Byte, w: seq<Byte>)
    requires IsNum(d)
    ensures 0 <= Unhex(d) == d - 48 < 10
    ensures LengthTaken([d] + w) <==> TakenBehind(Unhex(d), StripTrail(w))
    ensures LengthTaken([d] + w) ==> LengthOf([d] + w) == Number(10, Unhex(d), StripTrail(w))
  {
    hide StripTrail, Number, Digits, SizeBytes, Unhex;
    var u := StripTrail(w);
    StripCons(d, w);
    DigitsCons(d, u);
    if Digits(u) {
      DigitsAreSizes(u);
      NumberCons(10, 0, d, u);
      NumberStarts(d);
      if u != [] {
        var init := u[..|u| - 1];
        assert ([d] + u)[..|u|] == [d] + init;
        InitSizes(u);
        NumberCons(10, 0, d, init);
      }
    }
  }

  lemma InitSizes(u: seq<Byte>)
    requires u != [] && SizeBytes(u)
    ensures SizeBytes(u[..|u| - 1])
  {
  }

  lemma NumberStarts(d: Byte)
    requires IsNum(d)
    ensures 0 <= Unhex(d) == d - 48 < 10
  {
  }

  lemma DigitsCons(d: Byte, u: seq<Byte>)
    requires IsNum(d)
    ensures Digits([d] + u) <==> Digits(u)
    ensures Digits(u) ==> SizeBytes([d] + u)
    ensures 0 <= Unhex(d) == d - 48 < 10
  {
    if Digits([d] + u) {
      assert forall i :: 0 <= i < |u| ==> u[i] == ([d] + u)[i + 1];
    }
  }

  lemma {:induction false} StripCons(d: Byte, w: seq<Byte>)
    requires d != SP
    ensures StripTrail([d] + w) == [d] + StripTrail(w)
    decreases |w|
  {
    if w == [] {
      assert [d] + w == [d];
    } else {
      assert ([d] + w)[..|w|] == [d] + w[..|w| - 1];
      StripCons(d, w[..|w| - 1]);
    }
  }

  /** A value that does not start with a digit is not taken. */
  lemma NoFirstDigit(value: seq<Byte>)
    requires value == [] || (value[0] != SP && !IsNum(value[0]))
    ensures !LengthTaken(value)
  {
    if value != [] {
      StripCons(value[0], value[1..]);
      assert [value[0]] + value[1..] == value;
      assert StripTrail(value)[0] == value[0];
    }
  }

  predicate LengthHeader(h: Header) { HeaderOk(h) && Lowered(h.name) == CONTENT_LENGTH }

  /** What the bytes of a Content-Length value leave. */
  lemma LengthValue(p: Parser, h: Header)
    requires LengthHeader(h) && h.value != [] && IsNum(h.value[0]) && !p.flags.contentLength
    ensures OnValueStart(Named(p, h.name), h.value[0]).out.Go?
    ensures var u := ValueScan(p, h);
      if LengthTaken(h.value)
      then u.Scan? && u == Scan(u.hs, 0, p.flags.(contentLength := true), LengthOf(h.value)) && u.length < MAX64
           && (u.hs.HContentLengthNum? || u.hs.HContentLengthWs?)
      else u == ScanFail(INVALID_CONTENT_LENGTH)
  {
    hide AfterNameBytes, ValueRun, Lowered, StripTrail, Number, LengthTaken, LengthOf, TakenBehind;
    SpecialNames(h.name);
    var d, w := h.value[0], h.value[1..];
    assert h.value == [d] + w;
    FirstDigitOf(d, w);
    var q := Valued(Named(p, h.name), d);
    assert ScanOf(q) == Scan(HContentLengthNum, 0, p.flags.(contentLength := true), Unhex(d));
    LengthScan(p.lenient, ScanOf(q), w);
  }

  /** A Content-Length header that is taken sets the counter to its number. */
  lemma LengthRuns(max: nat, p: Parser, log: seq<Event>, h: Header, rest: seq<Byte>) returns (q: Parser)
    requires Inv(p) && p.state == HeaderFieldStart && LengthHeader(h) && LengthTaken(h.value) && LineStarts(rest) && NotField(log)
    requires !p.flags.contentLength && p.nread + HeaderSize(h) <= max < MOD32 - 1
    ensures Run(max, p, log, HeaderBytes(h, rest)) == Run(max, q, log + HeaderEvents(h), rest)
    ensures q == p.(hs := q.hs, index := q.index, nread := p.nread + HeaderSize(h),
                    flags := p.flags.(contentLength := true), length := LengthOf(h.value)) && Inv(q)
  {
    hide Run, OnValueStart, ValueScan, Lowered, Number, LengthTaken, LengthOf;
    TakenStarts(h.value);
    LengthValue(p, h);
    ValuedHeaderRuns(max, p, log, h, rest);
    q := AfterLine(p, h, ValueScan(p, h));
  }

  lemma TakenStarts(value: seq<Byte>)
    requires LengthTaken(value) && (value != [] ==> value[0] != SP)
    ensures value != [] && IsNum(value[0])
  {
    if value == [] || !IsNum(value[0]) {
      NoFirstDigit(value);
    }
  }

  /** The error for one that is not: a second number, or not a number. */
  function LengthError(f: Flags, value: seq<Byte>): Failure {
    if value != [] && IsNum(value[0]) && f.contentLength then UNEXPECTED_CONTENT_LENGTH else INVALID_CONTENT_LENGTH
  }

  /** Any other Content-Length header is refused. */
  lemma LengthRefused(max: nat, p: Parser, log: seq<Event>, h: Header, rest: seq<Byte>)
    requires Inv(p) && p.state == HeaderFieldStart && LengthHeader(h) && LineStarts(rest) && NotField(log)
    requires !LengthTaken(h.value) || p.flags.contentLength
    requires p.nread + HeaderSize(h) < max < MOD32 - 1
    ensures var r := Run(max, p, log, HeaderBytes(h, rest)); r.Broken? && r.error == LengthError(p.flags, h.value)
  {
    hide Run, ValueScan, Lowered, LengthTaken, LengthOf, AfterNameBytes;
    SpecialNames(h.name);
    if h.value == [] {
      EmptyLength(max, p, log, h, rest);
    } else {
      if IsNum(h.value[0]) && !p.flags.contentLength {
        LengthValue(p, h);
      }
      ValuedHeaderFails(max, p, log, h, rest);
    }
  }

  /** A value that is refused at one of its bytes. */
  lemma ValuedHeaderFails(max: nat, p: Parser, log: seq<Event>, h: Header, rest: seq<Byte>)
    requires Inv(p) && p.state == HeaderFieldStart && HeaderOk(h) && h.value != [] && NotField(log)
    requires p.nread + HeaderSize(h) <= max < MOD32 - 1
    requires var a := OnValueStart(Named(p, h.name), h.value[0]); a.out.Fail? || (a.out.Go? && ValueScan(p, h).ScanFail?)
    ensures var a, r := OnValueStart(Named(p, h.name), h.value[0]), Run(max, p, log, HeaderBytes(h, rest));
      r.Broken? && r.error == if a.out.Fail? then a.out.error else ValueScan(p, h).error
  {
    hide Run, Absorb, Inv, AfterNameBytes, OnValueStart, ValueRun, FinishHeader, AllTokens, NoLineEnd, Acceptable, Blank, Ending;
    var tail := Ending(h.bare, rest);
    NameRuns(max, p, log, h.name, h.ows + (h.value + tail));
    AbsorbFresh(log, Field, h.name);
    var log1 := log + [Data(Field, h.name)];
    var q := Named(p, h.name);
    NamedKeeps(p, h.name);
    SkipBlank(max, q, log1, h.ows, h.value + tail);
    var q1 := q.(nread := q.nread + |h.ows|);
    var ch, more := h.value[0], h.value[1..];
    assert h.value + tail == [ch] + (more + tail);
    MoreValue(h.value);
    ValueStartNread(q, q.nread + |h.ows| + 1, ch);
    ValueStartNread(q, q.nread + 1, ch);
    InvNread(q, q1.nread);
    if OnValueStart(q, ch).out.Fail? {
      FirstByteFails(max, q1, log1, ch, more + tail);
    } else {
      FirstValueByte(max, q1, log1, ch, more + tail);
      var q2 := Valued(q1, ch);
      ValueStartFrame(q1.(nread := q1.nread + 1), ch);
      ValueStartFrame(q.(nread := q.nread + 1), ch);
      assert ScanOf(q2) == ScanOf(Valued(q, ch)) && q2.lenient == p.lenient;
      SkipValue(max, q2, Absorb(log1, Value, [ch]), more, tail);
    }
  }

  lemma FirstByteFails(max: nat, p: Parser, log: seq<Event>, ch: Byte, rest: seq<Byte>)
    requires p.state == ValueDiscardWs && ch != SP && ch != HT && ch != CR && ch != LF && p.nread + 1 <= max < MOD32 - 1
    requires OnValueStart(p.(nread := p.nread + 1), ch).out.Fail?
    ensures Run(max, p, log, [ch] + rest) == Broken(OnValueStart(p.(nread := p.nread + 1), ch).out.error, [ch] + rest)
  {
    hide Run, OnValueStart;
    RunCons(max, p, log, ch, rest);
    assert OnByte(CountByte(p), ch) == OnValueStart(p.(nread := p.nread + 1), ch);
  }

  /** An empty value is found out when the next line starts. */
  lemma EmptyLength(max: nat, p: Parser, log: seq<Event>, h: Header, rest: seq<Byte>)
    requires Inv(p) && p.state == HeaderFieldStart && HeaderOk(h) && h.value == [] && LineStarts(rest) && NotField(log)
    requires p.nread + HeaderSize(h) < max < MOD32 - 1 && AfterNameBytes(h.name).hs.HContentLength?
    ensures var r := Run(max, p, log, HeaderBytes(h, rest)); r.Broken? && r.error == INVALID_CONTENT_LENGTH
  {
    hide Run, Absorb, Inv, AfterNameBytes, AllTokens, Blank, Ending;
    var tail := Ending(h.bare, rest);
    NameRuns(max, p, log, h.name, h.ows + (h.value + tail));
    AbsorbFresh(log, Field, h.name);
    var log1 := log + [Data(Field, h.name)];
    var q := Named(p, h.name);
    assert h.value + tail == tail;
    SkipBlank(max, q, log1, h.ows, tail);
    var q1 := q.(nread := q.nread + |h.ows|);
    EmptyValueEnds(max, q1, log1, h.bare, rest);
    var q2 := q1.(state := ValueDiscardLws, nread := q1.nread + EndSize(h.bare));
    assert rest == [rest[0]] + rest[1..];
    RunCons(max, q2, log1, rest[0], rest[1..]);
    assert OnByte(CountByte(q2), rest[0]) == OnValueDiscardLws(CountByte(q2), rest[0]);
  }

  /** The number 5 with a tab behind it: white space, and still refused. */
  lemma LengthAndTab()
    ensures !LengthTaken([53, HT]) && LengthTaken([53, SP]) && LengthOf([53, SP]) == 5
  {
    FirstDigitOf(53, [HT]);
    FirstDigitOf(53, [SP]);
    assert [53] + [HT] == [53, HT] && [53] + [SP] == [53, SP];
    assert StripTrail([HT]) == [HT] && !IsNum([HT][0]);
    assert [SP][..0] == [] && StripTrail([SP]) == [];
  }

  // ----- Transfer-Encoding -------------------------------------------------

  predicate EncodingHeader(h: Header) { HeaderOk(h) && Lowered(h.name) == TRANSFER_ENCODING }

  /** The letters of `word` from the start, in any case. */
  predicate Spells(t: seq<Byte>, word: seq<Byte>) { |t| <= |word| && forall i :: 0 <= i < |t| ==> Lower(t[i]) == word[i] }

  /** The word chunked, with spaces behind it. */
  predicate ChunkedValue(value: seq<Byte>) {
    var w := StripTrail(value);
    |w| == |CHUNKED| && Spells(w, CHUNKED)
  }

  /** What a value, or the beginning of one, is known to be. */
  function CodingState(t: seq<Byte>): HeaderState {
    if ChunkedValue(t) then HChunked else if |t| < |CHUNKED| && Spells(t, CHUNKED) then MatchingChunked else General
  }

  lemma SpellsStep(t: seq<Byte>, ch: Byte, word: seq<Byte>)
    ensures Spells(t + [ch], word) <==> Spells(t, word) && |t| < |word| && Lower(ch) == word[|t|]
  {
    assert forall i :: 0 <= i < |t| ==> (t + [ch])[i] == t[i];
    assert (t + [ch])[|t|] == ch;
  }

  lemma NoSpaceInside()
    ensures forall i :: 0 <= i < |CHUNKED| ==> CHUNKED[i] != Lower(SP)
  {
  }

  lemma CodingByte(v: Scan, t: seq<Byte>, ch: Byte)
    requires v.Scan? && t != [] && v.hs == CodingState(t) && (v.hs.MatchingChunked? ==> v.index == |t| - 1)
    ensures var u := ValueNext(v, ch);
      && u.Scan? && u.flags == v.flags && u.length == v.length
      && u.hs == CodingState(t + [ch]) && (u.hs.MatchingChunked? ==> u.index == |t|)
  {
    hide Lower, StripTrail, Spells;
    TrailStep(t, ch);
    SpellsStep(t, ch, CHUNKED);
    NoSpaceInside();
    StrippedSpells(t);
    StrippedSpells(t + [ch]);
  }

  lemma StrippedSpells(t: seq<Byte>)
    ensures |t| <= |CHUNKED| && Spells(t, CHUNKED) ==> StripTrail(t) == t
    ensures |StripTrail(t)| <= |t|
  {
    NoSpaceInside();
  }

  /** Any value: the scanner takes it for the word chunked if and only if it is. */
  lemma {:induction false} CodingScan(lenient: bool, v: Scan, c: Byte, w: seq<Byte>)
    requires v.Scan? && v.index == 0 && v.hs == ValueHeaderState(HTransferEncoding, Lower(c)) && c != SP && Acceptable(lenient, w)
    ensures var u := ValueRun(lenient, v, w);
      && u.Scan? && u.flags == v.flags && u.length == v.length
      && u.hs == CodingState([c] + w) && (u.hs.MatchingChunked? ==> u.index == |w|)
    decreases |w|
  {
    hide Lower, ValueNext, StripTrail, CodingState, IsHeaderChar;
    if w == [] {
      FirstCoding(c);
      assert [c] + w == [c];
    } else {
      var init, last := w[..|w| - 1], w[|w| - 1];
      CodingScan(lenient, v, c, init);
      assert [c] + w == ([c] + init) + [last];
      CodingByte(ValueRun(lenient, v, init), [c] + init, last);
    }
  }

  lemma FirstCoding(c: Byte)
    requires c != SP
    ensures CodingState([c]) == ValueHeaderState(HTransferEncoding, Lower(c))
  {
    assert StripTrail([c]) == [c];
    assert CHUNKED[0] == 99;
  }

  /** A Transfer-Encoding header, whatever its value, sets the chunked flag if and
      only if it is the word chunked, and changes nothing else. */
  lemma EncodingRuns(max: nat, p: Parser, log: seq<Event>, h: Header, rest: seq<Byte>) returns (q: Parser)
    requires Inv(p) && p.state == HeaderFieldStart && EncodingHeader(h) && LineStarts(rest) && NotField(log)
    requires p.nread + HeaderSize(h) <= max < MOD32 - 1
    ensures Run(max, p, log, HeaderBytes(h, rest)) == Run(max, q, log + HeaderEvents(h), rest)
    ensures q == p.(hs := q.hs, index := q.index, nread := p.nread + HeaderSize(h),
                    flags := p.flags.(chunked := p.flags.chunked || ChunkedValue(h.value))) && Inv(q)
  {
    hide Run, OnValueStart, ValueScan, Lowered, ChunkedValue, AfterNameBytes;
    EncodingName(h);
    if h.value == [] {
      NotChunked();
      EmptyHeaderRuns(max, p, log, h, rest);
      q := Finished(Named(p, h.name)).(nread := p.nread + HeaderSize(h));
    } else {
      EncodingValue(p, h);
      ValuedHeaderRuns(max, p, log, h, rest);
      q := AfterLine(p, h, ValueScan(p, h));
    }
  }

  lemma EncodingName(h: Header)
    requires EncodingHeader(h)
    ensures AfterNameBytes(h.name).hs.HTransferEncoding?
  {
    SpecialNames(h.name);
  }

  lemma NotChunked()
    ensures !ChunkedValue([])
  {
  }

  lemma EncodingValue(p: Parser, h: Header)
    requires EncodingHeader(h) && h.value != []
    ensures OnValueStart(Named(p, h.name), h.value[0]).out.Go?
    ensures var u := ValueScan(p, h);
      && u.Scan? && u.flags == p.flags && u.length == p.length && ValueHs(u.hs) && !Numeric(u.hs)
      && FinishHeader(u.flags, u.hs) == p.flags.(chunked := p.flags.chunked || ChunkedValue(h.value))
  {
    hide AfterNameBytes, ValueRun, Lowered, ChunkedValue, Lower;
    EncodingName(h);
    var c, w := h.value[0], h.value[1..];
    assert h.value == [c] + w;
    var v := ScanOf(Valued(Named(p, h.name), c));
    assert v == Scan(ValueHeaderState(HTransferEncoding, Lower(c)), 0, p.flags, p.length);
    CodingScan(p.lenient, v, c, w);
  }
}
