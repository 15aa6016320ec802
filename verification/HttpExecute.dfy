/** `http_parser_execute`: a buffer at a time, with the loops that run over
    names, values and bodies without going through the switch. */
module HttpExecute {
  import opened Basics
  import opened HttpTypes
  import opened HttpAct
  import opened HttpRun
  import opened HttpInvariant
  import opened HttpSkip
  import opened HttpMarks
  import opened HttpTidy

  // ----- one byte in the middle of a buffer --------------------------------

  predicate BodyBytes(s: State) { s == ChunkData || s == BodyIdentity || s == BodyIdentityEof }

  /** The mark that can be live when the next byte is read in state `s`. */
  predicate LiveOk(s: State, live: Maybe<DataKind>, m: nat, i: nat) {
    if BodyBytes(s) || s == ChunkDataAlmostDone then live.None? || (live == Some(Body) && m < i)
    else live == Resuming(s)
  }

  /** What the arm at offset `i` does to the buffer's marks and calls. */
  predicate Agrees(max: nat, st: Parser, slog: seq<Event>, data: seq<Byte>, i: nat, rest: seq<Byte>,
                   a: Act, e: Marked, r: seq<Event>, end: Maybe<DataKind>, m': nat)
    requires i < |data|
  {
    && m' <= i
    && (a.out.Go? ==>
          && e.marks == Only(end, m')
          && LiveOk(a.p.state, end, m', i + 1)
          && Step(max, st, slog, data[i], rest) == Running(a.p, Pend(PushAll(r, e.calls), end, m', data, i + 1)))
    && (a.out.Leave? ==>
          && e.marks == NO_MARKS
          && Step(max, st, slog, data[i], rest) == Stopped(a.p, PushAll(r, e.calls), rest))
  }

  /** An arm that starts from the mark a call resuming here would set. */
  lemma SimpleByteAgrees(max: nat, st: Parser, slog: seq<Event>, data: seq<Byte>, i: nat, rest: seq<Byte>,
                         live: Maybe<DataKind>, m: nat, r: seq<Event>) returns (end: Maybe<DataKind>, m': nat)
    requires m <= i < |data| && !Overflows(max, st) && Inv(st)
    requires !BodyBytes(st.state) && st.state != ChunkDataAlmostDone && live == Resuming(st.state)
    requires slog == Pend(r, live, m, data, i)
    ensures m' <= i
    ensures var a := OnByte(CountByte(st), data[i]);
      Agrees(max, st, slog, data, i, rest, a, DoOps(Only(live, m), a.ops, data, i), r, end, m')
  {
    hide OnByte, Inv, DoOps, Only, Pend, Absorb, PushAll, FlushAll;
    var a := OnByte(CountByte(st), data[i]);
    TidyByte(CountByte(st), data[i]);
    ByteKeepsInv(st, data[i]);
    end, m' := None, 0;
    if a.out.Go? || a.out.Leave? {
      end := if a.out.Go? then Resuming(a.p.state) else None;
      m' := MarkAfter(live, m, a.ops, i);
      OpsAgree(live, a.ops, end, m, data, i, r);
      OnlyMark(Body, m');
      OnlyMark(Body, 0);
      var s := DoOps(Only(live, 0), a.ops, [data[i]], 0);
      var e := DoOps(Only(live, m), a.ops, data, i);
      ByteEnds(end, m', data, i, PushAll(r, e.calls));
      PushAllConcat(slog, s.calls, FlushAll(s.marks, [data[i]]));
      PendNone(PushAll(r, e.calls), m', data, i);
    }
  }

  lemma PendNone(r: seq<Event>, m: nat, data: seq<Byte>, i: nat)
    requires m <= i <= |data|
    ensures Pend(r, None, m, data, i) == r
  {
  }

  /** A body byte, where the buffer's body mark is live already. */
  lemma BodyByteAgrees(max: nat, st: Parser, slog: seq<Event>, data: seq<Byte>, i: nat, rest: seq<Byte>,
                       m: nat, r: seq<Event>) returns (end: Maybe<DataKind>, m': nat)
    requires m <= i < |data| && Inv(st) && BodyBytes(st.state)
    requires slog == Pend(r, Some(Body), m, data, i)
    ensures m' <= i
    ensures var a := OnByte(CountByte(st), data[i]);
      Agrees(max, st, slog, data, i, rest, a, DoOps(Only(Some(Body), m), a.ops, data, i), r, end, m')
  {
    hide OnByte, Inv, Only, Pend, Absorb, PushAll, FlushAll;
    assert CountByte(st) == st && !Overflows(max, st);
    var a := OnByte(st, data[i]);
    TidyBodyByte(st, data[i]);
    ByteKeepsInv(st, data[i]);
    end, m' := None, 0;
    if a.out.Go? || a.out.Leave? {
      end := if a.out.Go? && !Between(a.p.state) then Some(Body) else None;
      m' := MarkAfter(Some(Body), m, a.ops, i);
      OpsAgree(Some(Body), a.ops, end, m, data, i, r);
      OnlyMark(Body, m');
      OnlyMark(Body, 0);
      // the single byte has no mark yet; its first operation sets one
      var s := DoOps(NO_MARKS, a.ops, [data[i]], 0);
      assert DoOp(NO_MARKS, a.ops[0], [data[i]], 0) == DoOp(Only(Some(Body), 0), a.ops[0], [data[i]], 0);
      assert s == DoOps(Only(Some(Body), 0), a.ops, [data[i]], 0);
      var e := DoOps(Only(Some(Body), m), a.ops, data, i);
      ByteEnds(end, m', data, i, PushAll(r, e.calls));
      PushAllConcat(slog, s.calls, FlushAll(s.marks, [data[i]]));
      PendNone(PushAll(r, e.calls), m', data, i);
    }
  }

  /** The byte after a chunk's data, where a body mark may be live. */
  lemma AfterChunkAgrees(max: nat, st: Parser, slog: seq<Event>, data: seq<Byte>, i: nat, rest: seq<Byte>,
                         live: Maybe<DataKind>, m: nat, r: seq<Event>)
    requires m <= i < |data| && Inv(st) && st.state == ChunkDataAlmostDone && LiveOk(st.state, live, m, i)
    requires slog == Pend(r, live, m, data, i)
    ensures var a := OnByte(CountByte(st), data[i]);
      Agrees(max, st, slog, data, i, rest, a, DoOps(Only(live, m), a.ops, data, i), r, None, m)
  {
    hide Push, PushAll;
    var a := OnByte(CountByte(st), data[i]);
    assert a == OnChunkDataAlmostDone(st, data[i]);
    if a.out.Go? {
      assert a.ops == [Flush(Body)] && a.ops[1..] == [];
      OnlyMark(Body, m);
      OnlyMark(Body, 0);
      var s := DoOps(NO_MARKS, a.ops, [data[i]], 0);
      var e := DoOps(Only(live, m), a.ops, data, i);
      assert s == Marked(NO_MARKS, []);
      assert FlushAll(NO_MARKS, [data[i]]) == [];
      assert e.marks == NO_MARKS;
      assert [] + FlushAll(NO_MARKS, [data[i]]) == [];
      PushesNone(slog);
      PushesNone(r);
      if live.Some? {
        assert e.calls == [Data(Body, data[m..i])];
        PushesOne(r, Data(Body, data[m..i]));
      } else {
        assert e.calls == [];
      }
    }
  }

  lemma PushesNone(log: seq<Event>)
    ensures PushAll(log, []) == log
  {
  }

  /** The byte at offset `i`, in any state. */
  lemma ByteAgrees(max: nat, st: Parser, slog: seq<Event>, data: seq<Byte>, i: nat, rest: seq<Byte>,
                   live: Maybe<DataKind>, m: nat, r: seq<Event>) returns (end: Maybe<DataKind>, m': nat)
    requires m <= i < |data| && !Overflows(max, st) && Inv(st)
    requires if BodyBytes(st.state) then live == Some(Body) else LiveOk(st.state, live, m, i)
    requires slog == Pend(r, live, m, data, i)
    ensures m' <= i
    ensures var a := OnByte(CountByte(st), data[i]);
      Agrees(max, st, slog, data, i, rest, a, DoOps(Only(live, m), a.ops, data, i), r, end, m')
  {
    hide Agrees, OnByte, Inv, DoOps, Only;
    if BodyBytes(st.state) {
      end, m' := BodyByteAgrees(max, st, slog, data, i, rest, m, r);
    } else if st.state == ChunkDataAlmostDone {
      AfterChunkAgrees(max, st, slog, data, i, rest, live, m, r);
      end, m' := None, m;
    } else {
      end, m' := SimpleByteAgrees(max, st, slog, data, i, rest, live, m, r);
    }
  }

  /** Data skipped with a live mark is collected by it. */
  lemma PendMore(r: seq<Event>, k: DataKind, m: nat, data: seq<Byte>, i: nat, j: nat)
    requires m <= i <= j <= |data|
    ensures Absorb(Pend(r, Some(k), m, data, i), k, data[i..j]) == Pend(r, Some(k), m, data, j)
  {
    assert data[m..i] + data[i..j] == data[m..j];
    AbsorbMore(r, k, data[m..i], data[i..j]);
  }

  // ----- the run-skipping loops --------------------------------------------

  function Min(a: nat, b: nat): nat { if a <= b then a else b }

  lemma NameExtends(m0: Matching, data: seq<Byte>, start: nat, j: nat)
    requires start <= j < |data| && FieldHs(m0.hs) && AllTokens(data[start..j]) && Token(data[j]) != 0
    ensures AllTokens(data[start..j + 1])
    ensures var m := NameRun(m0, data[start..j]);
      NameRun(m0, data[start..j + 1]) == if m.hs.General? then m else FieldNext(m, Token(data[j]))
  {
    hide FieldNext, Token;
    var w := data[start..j];
    assert data[start..j + 1] == w + [data[j]] && (w + [data[j]])[..|w|] == w;
    if NameRun(m0, w).hs.General? {
      NameRunGeneral(m0, w, [data[j]]);
    }
  }

  /** The loop over a field name: stops at the first non-token byte. */
  method NameLoop(max: nat, data: seq<Byte>, start: nat, m0: Matching) returns (j: nat, m: Matching)
    requires start <= |data| && FieldHs(m0.hs)
    ensures start <= j <= |data| && AllTokens(data[start..j]) && m == NameRun(m0, data[start..j])
    ensures j < |data| ==> Token(data[j]) == 0
  {
    hide FieldNext, Token, NameRun, AllTokens;
    j, m := start, m0;
    NameStarts(m0, data, start);
    while j < |data| && Token(data[j]) != 0
      invariant start <= j <= |data| && AllTokens(data[start..j]) && m == NameRun(m0, data[start..j])
    {
      NameExtends(m0, data, start, j);
      if m.hs.General? {
        var pe := j + Min(|data| - j, max);
        while j + 1 < pe && Token(data[j + 1]) != 0
          invariant start <= j < |data| && AllTokens(data[start..j + 1]) && m == NameRun(m0, data[start..j + 1])
        {
          NameExtends(m0, data, start, j + 1);
          j := j + 1;
        }
      } else {
        m := FieldNext(m, Token(data[j]));
      }
      j := j + 1;
    }
  }

  lemma NameStarts(m0: Matching, data: seq<Byte>, start: nat)
    requires start <= |data| && FieldHs(m0.hs)
    ensures AllTokens(data[start..start]) && NameRun(m0, data[start..start]) == m0
  {
  }

  /** What the invariant says of the part of the parser a value changes. */
  predicate ScanInv(v: Scan) {
    v.Scan? && ValueHs(v.hs) && (Numeric(v.hs) ==> v.flags.contentLength && v.length < MAX64)
  }

  /** `v` is what the value bytes `data[start..j]` leave. */
  predicate Scanned(lenient: bool, v0: Scan, data: seq<Byte>, start: nat, j: nat, v: Scan)
    requires start <= j <= |data|
  {
    NoLineEnd(data[start..j]) && v == ValueRun(lenient, v0, data[start..j])
  }

  /** The value bytes `data[start..j]` are all accepted. */
  predicate ScannedWell(lenient: bool, v0: Scan, data: seq<Byte>, start: nat, j: nat)
    requires start <= j <= |data|
  {
    NoLineEnd(data[start..j]) && ValueRun(lenient, v0, data[start..j]).Scan?
  }

  lemma ScanExtends(lenient: bool, v0: Scan, data: seq<Byte>, start: nat, j: nat, v: Scan)
    requires start <= j < |data| && data[j] != CR && data[j] != LF && ScanInv(v)
    requires Scanned(lenient, v0, data, start, j, v)
    ensures var u := ScanByte(lenient, v, data[j]);
      && Scanned(lenient, v0, data, start, j + 1, u)
      && !u.ScanTrap? && (u.Scan? ==> ScanInv(u))
      && (v.hs.General? && u.Scan? ==> u == v)
  {
    hide ValueNext;
    var w := data[start..j];
    assert data[start..j + 1] == w + [data[j]] && (w + [data[j]])[..|w|] == w;
    ScanKeeps(v, data[j]);
    if v.hs.General? && (lenient || IsHeaderChar(data[j])) {
      ValueRunGeneral(lenient, v0, w, [data[j]]);
    }
  }

  lemma ScanStarts(lenient: bool, v0: Scan, data: seq<Byte>, start: nat)
    requires start <= |data|
    ensures Scanned(lenient, v0, data, start, start, v0)
  {
  }

  /** The loop over a field value: stops at CR, LF, a refused byte or the end.
      `over` tells that the inner loop gave up at the header limit, at offset
      `pe`, and that the byte there was passed over unseen. */
  method ValueLoop(max: nat, lenient: bool, data: seq<Byte>, start: nat, v0: Scan)
      returns (j: nat, v: Scan, e: Errno, over: bool, ghost pe: nat)
    requires start <= |data| && v0.Scan? && ScanInv(v0)
    ensures start <= j <= |data|
    ensures over ==> start + max <= pe < j && ScannedWell(lenient, v0, data, start, pe)
    ensures !over ==> Scanned(lenient, v0, data, start, j, v) && v.Scan?
    ensures !over && e.OK? && j < |data| ==> data[j] == CR || data[j] == LF
    ensures !e.OK? ==> j < |data|
    ensures !over && !e.OK? ==> data[j] != CR && data[j] != LF && ScanByte(lenient, v, data[j]) == ScanFail(e)
  {
    hide ScanInv, ValueNext, ValueRun, IsHeaderChar, NoLineEnd;
    j, v, e, over, pe := start, v0, OK, false, 0;
    ScanStarts(lenient, v0, data, start);
    while j < |data| && data[j] != CR && data[j] != LF
      invariant start <= j <= |data| && ScanInv(v) && v.Scan? && e.OK?
      invariant over ==> start + max <= pe < j && ScannedWell(lenient, v0, data, start, pe)
      invariant !over ==> Scanned(lenient, v0, data, start, j, v)
    {
      ScanSafe(lenient, v, data[j]);
      if !over {
        ScanExtends(lenient, v0, data, start, j, v);
      }
      if !lenient && !IsHeaderChar(data[j]) {
        e := INVALID_HEADER_TOKEN;
        return;
      }
      if v.hs.General? {
        var end := j + Min(|data| - j, max);
        var from := j;
        while j < end && data[j] != CR && data[j] != LF
          invariant from <= j <= end
          invariant !over ==> Scanned(lenient, v0, data, start, j, v)
        {
          if !over {
            ScanExtends(lenient, v0, data, start, j, v);
          }
          if !lenient && !IsHeaderChar(data[j]) {
            e := INVALID_HEADER_TOKEN;
            return;
          }
          ScanSafe(lenient, v, data[j]);
          j := j + 1;
        }
        if j == end && j != |data| {
          if !over {
            over, pe := true, j;
          }
          j := j + 1;
        }
      } else {
        var u := ValueNext(v, data[j]);
        if u.ScanFail? {
          e := u.error;
          return;
        }
        v := u;
        j := j + 1;
      }
    }
  }

  /** A value byte never meets an impossible sub-state. */
  lemma ScanSafe(lenient: bool, v: Scan, ch: Byte)
    requires ScanInv(v)
    ensures v.Scan?
    ensures var u := ValueNext(v, ch); !u.ScanTrap? && (u.Scan? ==> ScanInv(u)) && (v.hs.General? ==> u == v)
  {
    ScanKeeps(v, ch);
  }

  // ----- the loops against the bytes taken one at a time --------------------

  /** Where a run leaves the byte-at-a-time parser: at offset `j`, before that
      byte is counted. */
  predicate RunsTo(max: nat, st: Parser, slog: seq<Event>, data: seq<Byte>, i: nat, k: DataKind, st': Parser, j: nat)
    requires i <= |data|
  {
    && i <= j <= |data|
    && Inv(st') && st'.state == st.state && st'.nread <= max
    && (j < |data| ==> !Overflows(max, st'))
    && Run(max, st, slog, data[i..j]) == Running(st', Absorb(slog, k, data[i..j]))
  }

  /** Where a call started. */
  datatype Origin = Origin(p: Parser, log: seq<Event>)

  /** What the whole buffer comes to, one byte at a time. */
  function Whole(max: nat, o: Origin, data: seq<Byte>): Result { Run(max, o.p, o.log, data) }

  /** The first `i` bytes lead to `st` with the merged callbacks `log`. */
  predicate Taken(max: nat, o: Origin, data: seq<Byte>, i: nat, st: Parser, log: seq<Event>)
    requires i <= |data|
  {
    Run(max, o.p, o.log, data[..i]) == Running(st, log)
  }

  lemma TakenRest(max: nat, o: Origin, data: seq<Byte>, i: nat, st: Parser, log: seq<Event>)
    requires i <= |data| && Taken(max, o, data, i, st, log)
    ensures Whole(max, o, data) == Run(max, st, log, data[i..])
  {
    hide Run;
    assert data == data[..i] + data[i..];
    RunConcat(max, o.p, o.log, data[..i], data[i..]);
  }

  lemma TakenMore(max: nat, o: Origin, data: seq<Byte>, i: nat, st: Parser, log: seq<Event>, j: nat, st': Parser, log': seq<Event>)
    requires i <= j <= |data| && Taken(max, o, data, i, st, log) && Run(max, st, log, data[i..j]) == Running(st', log')
    ensures Taken(max, o, data, j, st', log')
  {
    hide Run;
    assert data[..j] == data[..i] + data[i..j];
    RunConcat(max, o.p, o.log, data[..i], data[i..j]);
  }

  /** The callbacks `calls` are those of the first `n` bytes, but for data that a live
      mark has collected. */
  ghost predicate MadeTo(max: nat, o: Origin, data: seq<Byte>, n: nat, calls: seq<Event>) {
    n <= |data| &&
      var r := Run(max, o.p, o.log, data[..n]);
      r.Running? && exists live, m: nat :: m <= n && r.log == Pend(Merge(calls), live, m, data, n)
  }

  /** The same of some of the first `n` bytes, and perhaps the value that was read when
      the header limit was met. */
  ghost predicate MadeBefore(max: nat, o: Origin, data: seq<Byte>, n: nat, calls: seq<Event>) {
    n <= |data| && exists k: nat, x :: k <= n && MadeTo(max, o, data, k, x) && (calls == x || ValueBehind(x, data, n, calls))
  }

  ghost predicate ValueBehind(x: seq<Event>, data: seq<Byte>, n: nat, calls: seq<Event>)
    requires n <= |data|
  {
    exists m: nat :: m <= n && calls == x + [Data(Value, data[m..n])]
  }

  /** What the bytes one at a time do where a call fails with `e` at `rest`: they
      fail there with the same error, unless they met the header limit, which a
      call may notice later. */
  predicate Refused(r: Result, e: Errno, rest: seq<Byte>) {
    r.Broken? && (r.error == HEADER_OVERFLOW || (r.error == e && r.rest == rest))
  }

  /** A byte that does not fit the header limit any more. */
  lemma OverflowBreaks(max: nat, st: Parser, slog: seq<Event>, data: seq<Byte>)
    requires data != [] && Overflows(max, st)
    ensures var r := Run(max, st, slog, data); r.Broken? && r.error == HEADER_OVERFLOW
  {
  }

  /** The 32-bit counter does not wrap on a buffer it can count. */
  lemma CountsUp(max: nat, p: Parser, n: nat)
    requires p.nread + 1 + n < MOD32 && ParsingHeader(p.state)
    ensures Counted(Counted(p.nread, 1), n) == p.nread + 1 + n
    ensures Overflows(max, p) <==> p.nread + 1 > max
  {
  }

  lemma NameKeeps(p: Parser, w: seq<Byte>)
    requires Inv(p) && p.state == HeaderField
    ensures Inv(AfterName(p, w))
  {
  }

  /** The s_header_field arm up to the byte that ends the name. */
  method RunName(max: nat, data: seq<Byte>, i: nat, st: Parser, ghost slog: seq<Event>)
      returns (fits: bool, j: nat, st': Parser)
    requires i < |data| && |data| + max < MOD32
    requires Inv(st) && st.state == HeaderField && st.nread <= max && !Overflows(max, st)
    ensures i <= j <= |data|
    ensures !fits ==> Refused(Run(max, st, slog, data[i..]), HEADER_OVERFLOW, [])
    ensures fits ==> RunsTo(max, st, slog, data, i, Field, st', j)
  {
    hide Run, NameRun, Inv, Absorb, AllTokens, Counted, Overflows;
    InvName(st);
    var m;
    j, m := NameLoop(max, data, i, Matching(st.hs, st.index));
    var n := if j == |data| then j - 1 - i else j - i;
    fits := Counted(Counted(st.nread, 1), n) <= max;
    st' := st.(hs := m.hs, index := m.index, nread := st.nread + (j - i));
    ghost var w, rest := data[i..j], data[j..];
    assert data[i..] == w + rest;
    CountsUp(max, st, n);
    CountsUp(max, st', 0);
    SkipName(max, st, slog, w, rest);
    if st.nread + |w| <= max {
      assert st' == AfterName(st, w);
      NameKeeps(st, w);
      assert w + [] == w;
      SkipName(max, st, slog, w, []);
      RunNone(max, st', Absorb(slog, Field, w));
      if j < |data| && Overflows(max, st') {
        OverflowBreaks(max, st', Absorb(slog, Field, w), rest);
      }
    }
  }

  lemma InvName(p: Parser)
    requires Inv(p) && p.state == HeaderField
    ensures FieldHs(p.hs)
  {
  }

  lemma InvValue(p: Parser)
    requires Inv(p) && p.state == HeaderValue
    ensures ScanInv(ScanOf(p))
  {
  }

  /** Giving up at the limit means the limit is exceeded. */
  lemma OverRuns(max: nat, st: Parser, slog: seq<Event>, w: seq<Byte>, rest: seq<Byte>)
    requires Inv(st) && st.state == HeaderValue && NoLineEnd(w) && st.nread <= max && st.nread + |w| + 1 < MOD32
    requires |w| >= max && rest != [] && ValueRun(st.lenient, ScanOf(st), w).Scan?
    ensures var r := Run(max, st, slog, w + rest); r.Broken? && r.error == HEADER_OVERFLOW
  {
    hide Run, Inv, ValueRun, NoLineEnd, Absorb, Overflows;
    SkipValue(max, st, slog, w, rest);
    if st.nread + |w| <= max {
      CountsUp(max, AfterValue(st, w), 0);
      OverflowBreaks(max, AfterValue(st, w), Absorb(slog, Value, w), rest);
    }
  }

  /** A refused byte behind accepted ones. */
  lemma ValueRefused(max: nat, p: Parser, log: seq<Event>, w: seq<Byte>, ch: Byte, rest: seq<Byte>, e: Failure)
    requires Inv(p) && p.state == HeaderValue && NoLineEnd(w) && ch != CR && ch != LF && p.nread <= max && p.nread + |w| + 1 < MOD32
    requires var v := ValueRun(p.lenient, ScanOf(p), w); v.Scan? && ScanByte(p.lenient, v, ch) == ScanFail(e)
    ensures Refused(Run(max, p, log, w + ([ch] + rest)), e, [ch] + rest)
  {
    hide Step, ScanByte, Inv, Run, ValueRun, NoLineEnd, Absorb;
    SkipValue(max, p, log, w, [ch] + rest);
    if p.nread + |w| <= max {
      var q, mid := AfterValue(p, w), Absorb(log, Value, w);
      RunCons(max, q, mid, ch, rest);
      ValueByte(max, q, mid, ch, rest);
    }
  }

  /** The s_header_value arm up to the CR or LF that ends the line. `late` says
      that the limit is found exceeded only after the value has been reported. */
  method RunValue(max: nat, data: seq<Byte>, i: nat, st: Parser, ghost slog: seq<Event>)
      returns (e: Errno, late: bool, j: nat, st': Parser)
    requires i < |data| && |data| + max < MOD32
    requires Inv(st) && st.state == HeaderValue && st.nread <= max && !Overflows(max, st)
    ensures i <= j <= |data| && (e.OK? || e == HEADER_OVERFLOW || j < |data|)
    ensures !e.OK? ==> Refused(Run(max, st, slog, data[i..]), e, data[j..])
    ensures late ==> j < |data| && data[j] == CR && e == HEADER_OVERFLOW
    ensures !e.OK? && Run(max, st, slog, data[i..]).error != HEADER_OVERFLOW ==>
      Run(max, st, slog, data[i..j]) == Running(st', Absorb(slog, Value, data[i..j]))
    ensures e.OK? ==> !late && RunsTo(max, st, slog, data, i, Value, st', j)
  {
    hide Run, Inv, ValueRun, ScanInv, Absorb, NoLineEnd, Counted, Overflows, ScanByte;
    InvValue(st);
    var v, over;
    ghost var pe;
    late, st' := false, st;
    j, v, e, over, pe := ValueLoop(max, st.lenient, data, i, ScanOf(st));
    if over {
      assert data[i..] == data[i..pe] + data[pe..];
      OverRuns(max, st, slog, data[i..pe], data[pe..]);
      if e.OK? {
        late := j < |data| && data[j] == CR;
        e := HEADER_OVERFLOW;
      }
      return;
    }
    var w := data[i..j];
    ghost var rest := data[j..];
    assert data[i..] == w + rest;
    if !e.OK? {
      assert rest == [data[j]] + data[j + 1..];
      ValueRefused(max, st, slog, w, data[j], data[j + 1..], e);
      SkipValue(max, st, slog, w, rest);
      if st.nread + |w| <= max {
        st' := WithScan(st, v).(nread := st.nread + |w|);
        ValueTaken(max, st, slog, w);
      }
      return;
    }
    SkipValue(max, st, slog, w, rest);
    var n := if j == |data| then j - 1 - i else j - i;
    st' := WithScan(st, v).(nread := st.nread + (j - i));
    CountsUp(max, st, n);
    CountsUp(max, st', 0);
    if Counted(Counted(st.nread, 1), n) > max {
      late := j < |data| && data[j] == CR;
      e := HEADER_OVERFLOW;
      if st.nread + |w| <= max {
        OverflowBreaks(max, AfterValue(st, w), Absorb(slog, Value, w), rest);
      }
    } else {
      assert st' == AfterValue(st, w);
      ValueTaken(max, st, slog, w);
    }
  }

  lemma ValueTaken(max: nat, st: Parser, slog: seq<Event>, w: seq<Byte>)
    requires Inv(st) && st.state == HeaderValue && NoLineEnd(w) && st.nread + |w| <= max && st.nread + |w| < MOD32
    requires ValueRun(st.lenient, ScanOf(st), w).Scan?
    ensures Run(max, st, slog, w) == Running(AfterValue(st, w), Absorb(slog, Value, w))
  {
    hide Run, Inv, ValueRun, Absorb, NoLineEnd;
    assert w + [] == w;
    SkipValue(max, st, slog, w, []);
    RunNone(max, AfterValue(st, w), Absorb(slog, Value, w));
  }

  /** The body arms, up to the last byte they take from this buffer. */
  method RunBody(max: nat, data: seq<Byte>, i: nat, st: Parser, ghost slog: seq<Event>) returns (j: nat, st': Parser)
    requires i < |data| && Inv(st) && BodyBytes(st.state) && st.nread <= max
    ensures i <= j < |data| && RunsTo(max, st, slog, data, i, Body, st', j)
  {
    hide Run, Absorb;
    if st.state == BodyIdentityEof {
      j, st' := |data| - 1, st;
      assert data[i..j] + [] == data[i..j];
      SkipToEof(max, st, slog, data[i..j], []);
    } else {
      var toRead := Min(st.length, |data| - i);
      j, st' := i + toRead - 1, st.(length := st.length - (toRead - 1));
      assert data[i..j] + [] == data[i..j];
      SkipCounted(max, st, slog, data[i..j], []);
    }
    RunNone(max, st', Absorb(slog, Body, data[i..j]));
  }

  // ----- the byte loop -----------------------------------------------------

  /** An arm keeps the byte count or starts it anew. */
  predicate CountKept(p: Parser, a: Act) { a.p.nread == p.nread || a.p.nread == 0 }

  lemma HeadersCount(p: Parser, ch: Byte)
    ensures CountKept(p, OnHeadersAlmostDone(p, ch)) && CountKept(p, OnHeaderFieldStart(p, ch))
  {
    hide HeadEvent, NewMessage, Upgrading, FirstHeaderState;
  }

  lemma HeaderLineCount(p: Parser, ch: Byte)
    ensures CountKept(p, OnHeaderLine(p, ch))
  {
    hide ScanByte, FieldNext, OnHeadersAlmostDone, OnHeaderFieldStart;
    HeadersCount(p, ch);
    HeadersCount(p.(flags := FinishHeader(p.flags, p.hs), state := HeaderFieldStart), ch);
  }

  lemma RequestLineCount(p: Parser, ch: Byte)
    ensures CountKept(p, OnRequestLine(p, ch))
  {
    hide ParseUrlChar, MethodName, NextMethod;
  }

  lemma StatusLineCount(p: Parser, ch: Byte)
    ensures CountKept(p, OnResponseLine(p, ch))
  {
  }

  lemma ArmCount(p: Parser, ch: Byte)
    ensures CountKept(p, OnByte(p, ch))
  {
    hide OnHeaderLine, OnResponseLine, OnRequestLine, FirstMethod, NewMessage;
    HeaderLineCount(p, ch);
    RequestLineCount(p, ch);
    StatusLineCount(p, ch);
  }

  // ----- leaving HTTP ------------------------------------------------------

  /** A parser that has handed the connection over to another protocol. */
  predicate Exited(p: Parser) { p.upgrade && Between(p.state) }

  /** An arm leaves exactly into such a state. */
  predicate ExitTold(a: Act) { (a.out.Go? ==> !Exited(a.p)) && (a.out.Leave? ==> Exited(a.p)) }

  lemma HeadDoneExit(p: Parser, ch: Byte)
    ensures ExitTold(OnHeadersDone(p, ch))
  {
  }

  lemma HeadersExit(p: Parser, ch: Byte)
    ensures ExitTold(OnHeadersAlmostDone(p, ch)) && ExitTold(OnHeaderFieldStart(p, ch)) && ExitTold(OnHeadersDone(p, ch))
  {
    hide HeadEvent, Upgrading, OnHeadersDone, ShouldKeepAlive;
    var p1 := p.(state := HeadersAlmostDone);
    HeadDoneExit(p, ch);
    HeadDoneExit(p1.(state := HeadersDone, upgrade := Upgrading(p1)), ch);
    HeadDoneExit(p.(state := HeadersDone, upgrade := Upgrading(p)), ch);
  }

  lemma HeaderLineExit(p: Parser, ch: Byte)
    requires !Between(p.state)
    ensures ExitTold(OnHeaderLine(p, ch))
  {
    hide ScanByte, FieldNext, OnHeadersAlmostDone, OnHeaderFieldStart, OnHeadersDone;
    HeadersExit(p, ch);
    HeadersExit(p.(flags := FinishHeader(p.flags, p.hs), state := HeaderFieldStart), ch);
  }

  lemma StartLineExit(p: Parser, ch: Byte)
    requires !Between(p.state)
    ensures ExitTold(OnRequestLine(p, ch))
  {
    hide ParseUrlChar, MethodName, NextMethod;
    UrlGoesOn(p.state, ch);
    UrlGoesOn(ReqServerStart, ch);
  }

  lemma StatusLineExit(p: Parser, ch: Byte)
    requires !Between(p.state)
    ensures ExitTold(OnResponseLine(p, ch))
  {
  }

  lemma UrlGoesOn(s: State, ch: Byte)
    ensures var t := ParseUrlChar(s, ch); t == Dead || !Between(t)
  {
  }

  lemma ArmExit(p: Parser, ch: Byte)
    requires !Exited(p)
    ensures ExitTold(OnByte(p, ch))
  {
    hide OnHeaderLine, OnResponseLine, OnRequestLine, FirstMethod;
    if !Between(p.state) {
      HeaderLineExit(p, ch);
      StartLineExit(p, ch);
      StatusLineExit(p, ch);
    }
  }

  /** A caller sees from the parser whether it has left HTTP. */
  lemma {:induction false} ExitSeen(max: nat, p: Parser, log: seq<Event>, data: seq<Byte>)
    requires !Exited(p)
    ensures var r := Run(max, p, log, data); (r.Running? ==> !Exited(r.p)) && (r.Stopped? ==> Exited(r.p))
    decreases |data|
  {
    hide OnByte, DoOps, PushAll, FlushAll;
    if data != [] {
      ArmExit(CountByte(p), data[0]);
      var r := Step(max, p, log, data[0], data[1..]);
      if r.Running? {
        ExitSeen(max, r.p, r.log, data[1..]);
      }
    }
  }

  /** The local variables of a call. */
  datatype Cursor = Cursor(st: Parser, marks: Marks, calls: seq<Event>, i: nat)

  /** The callbacks so far, with the data a live mark has collected. */
  function Seen(c: Cursor, live: Maybe<DataKind>, m: nat, data: seq<Byte>): seq<Event>
    requires m <= c.i <= |data|
  {
    Pend(Merge(c.calls), live, m, data, c.i)
  }

  /** What holds each time round the loop: the bytes so far, one at a time, lead here. */
  predicate LoopInv(max: nat, o: Origin, data: seq<Byte>, c: Cursor, live: Maybe<DataKind>, m: nat) {
    && m <= c.i <= |data|
    && c.marks == Only(live, m)
    && Inv(c.st) && c.st.nread <= max
    && LiveOk(c.st.state, live, m, c.i)
    && Taken(max, o, data, c.i, c.st, Seen(c, live, m, data))
  }

  /** A run leaves the loop's invariant intact but for its offset. */
  lemma RunKeeps(max: nat, o: Origin, data: seq<Byte>, c: Cursor, k: DataKind, live: Maybe<DataKind>, m: nat,
                 m': nat, st': Parser, j: nat)
    requires LoopInv(max, o, data, c, live, m)
    requires RunsTo(max, c.st, Seen(c, live, m, data), data, c.i, k, st', j)
    requires if live.None? then k == Body && m' == c.i else live == Some(k) && m' == m
    ensures var c' := Cursor(st', Only(Some(k), m'), c.calls, j);
      && m' <= j <= |data|
      && Taken(max, o, data, j, st', Seen(c', Some(k), m', data))
  {
    hide Run, Inv, Absorb, Merge, Only, Taken;
    TakenMore(max, o, data, c.i, c.st, Seen(c, live, m, data), j, st', Absorb(Seen(c, live, m, data), k, data[c.i..j]));
    if live.None? {
      assert data[c.i..c.i] == [];
      AbsorbNone(Merge(c.calls), k);
    }
    PendMore(Merge(c.calls), k, m', data, c.i, j);
  }

  /** The arm at offset `c.i`, once any run before it is skipped. */
  method Arm(max: nat, data: seq<Byte>, c: Cursor, ghost o: Origin, ghost live: Maybe<DataKind>, ghost m: nat)
      returns (c': Cursor, out: Outcome, ghost live': Maybe<DataKind>, ghost m': nat)
    requires m <= c.i < |data| && c.marks == Only(live, m)
    requires Inv(c.st) && c.st.nread <= max && !Overflows(max, c.st)
    requires if BodyBytes(c.st.state) then live == Some(Body) else LiveOk(c.st.state, live, m, c.i)
    requires Taken(max, o, data, c.i, c.st, Seen(c, live, m, data))
    ensures !out.Trap? && c.calls <= c'.calls
    ensures out.Go? ==> LoopInv(max, o, data, c', live', m') && m' < c'.i == c.i + 1
    ensures out.Fail? ==> c' == c && Refused(Whole(max, o, data), out.error, data[c.i..])
    ensures out.Leave? ==> c.i < c'.i <= |data| && Inv(c'.st) && c'.st.nread <= max
    ensures out.Leave? ==> Whole(max, o, data) == Stopped(c'.st, Merge(c'.calls), data[c'.i..])
  {
    hide OnByte, Inv, DoOps, Only, Pend, PushAll, Step, Run, Taken, Whole;
    TakenRest(max, o, data, c.i, c.st, Seen(c, live, m, data));
    var q := CountByte(c.st);
    var a := OnByte(q, data[c.i]);
    out := a.out;
    ghost var slog, rest := Seen(c, live, m, data), data[c.i + 1..];
    assert data[c.i..] == [data[c.i]] + rest;
    RunCons(max, c.st, slog, data[c.i], rest);
    ByteKeepsInv(c.st, data[c.i]);
    ArmCount(q, data[c.i]);
    live', m' := ByteAgrees(max, c.st, slog, data, c.i, rest, live, m, Merge(c.calls));
    c' := c;
    if a.out.Fail? {
      FailsWith(max, c.st, slog, data[c.i], rest);
    } else {
      var e := DoOps(c.marks, a.ops, data, c.i);
      c' := Cursor(a.p, e.marks, c.calls + e.calls, c.i + 1);
      MergeConcat(c.calls, e.calls);
      if a.out.Go? {
        OneTaken(max, c.st, slog, data[c.i], rest);
        assert data[c.i..c.i + 1] == [data[c.i]];
        TakenMore(max, o, data, c.i, c.st, slog, c.i + 1, a.p, Seen(c', live', m', data));
      }
    }
  }

  /** A byte that is taken leads to the same place whatever follows. */
  lemma OneTaken(max: nat, p: Parser, log: seq<Event>, ch: Byte, rest: seq<Byte>)
    requires Step(max, p, log, ch, rest).Running?
    ensures Run(max, p, log, [ch]) == Step(max, p, log, ch, rest)
  {
    hide OnByte, DoOps, PushAll, FlushAll, Only;
    assert [ch] + [] == [ch];
    RunCons(max, p, log, ch, []);
  }

  lemma FailsWith(max: nat, p: Parser, log: seq<Event>, ch: Byte, rest: seq<Byte>)
    requires !Overflows(max, p) && OnByte(CountByte(p), ch).out.Fail?
    ensures Step(max, p, log, ch, rest) == Broken(OnByte(CountByte(p), ch).out.error, [ch] + rest)
  {
  }

  lemma MergeConcat(a: seq<Event>, b: seq<Event>)
    ensures Merge(a + b) == PushAll(Merge(a), b)
  {
    PushAllConcat([], a, b);
  }

  /** Once round the loop: unless the call ends here, at most one mark is set. */
  method NextByte(max: nat, data: seq<Byte>, c: Cursor, ghost o: Origin, ghost live: Maybe<DataKind>, ghost m: nat)
      returns (c': Cursor, out: Outcome, ghost live': Maybe<DataKind>, ghost m': nat)
    requires |data| + max < MOD32 && c.i < |data| && LoopInv(max, o, data, c, live, m)
    ensures !out.Trap? && c.calls <= c'.calls && c.i <= c'.i <= |data|
    ensures out.Go? ==> LoopInv(max, o, data, c', live', m') && m' < c'.i && c.i < c'.i && Count(c'.marks) <= 1
    ensures out.Fail? ==> Refused(Whole(max, o, data), out.error, data[c'.i..]) && MadeBefore(max, o, data, c'.i, c'.calls)
    ensures out.Fail? && Whole(max, o, data).error != HEADER_OVERFLOW ==> MadeTo(max, o, data, c'.i, c'.calls)
    ensures out.Leave? ==>
      Inv(c'.st) && c'.st.nread <= max && Whole(max, o, data) == Stopped(c'.st, Merge(c'.calls), data[c'.i..])
  {
    hide Run, Inv, Only, Pend, Merge, OnByte, Overflows, Taken, Whole, MadeTo, MadeBefore;
    TakenRest(max, o, data, c.i, c.st, Seen(c, live, m, data));
    MadeNow(max, o, data, c, live, m);
    c', out, live', m' := c, Go, live, m;
    ghost var slog := Seen(c, live, m, data);
    if Overflows(max, c.st) {
      out := Fail(HEADER_OVERFLOW);
      OverflowBreaks(max, c.st, slog, data[c.i..]);
      MadeSo(max, o, data, c.i, c.i, c.calls);
      return;
    }
    if c.st.state == HeaderField {
      var fits, j, st := RunName(max, data, c.i, c.st, slog);
      if !fits {
        out := Fail(HEADER_OVERFLOW);
        c' := c.(i := LastSeen(data, c.i, j));
        MadeSo(max, o, data, c.i, c'.i, c.calls);
        return;
      }
      RunKeeps(max, o, data, c, Field, live, m, m, st, j);
      c' := c.(st := st, i := j);
    } else if c.st.state == HeaderValue {
      var e, late, j, st := RunValue(max, data, c.i, c.st, slog);
      if !e.OK? {
        out := Fail(e);
        c' := c.(i := LastSeen(data, c.i, j));
        if late {
          c' := c'.(calls := c.calls + DoOp(c.marks, Flush(Value), data, j).calls);
        }
        ValueFails(max, o, data, c, m, e, late, j, st, c'.i, c'.calls);
        return;
      }
      RunKeeps(max, o, data, c, Value, live, m, m, st, j);
      c' := c.(st := st, i := j);
    } else if BodyBytes(c.st.state) {
      var j, st := RunBody(max, data, c.i, c.st, slog);
      live', m' := Some(Body), if live.None? then c.i else m;
      OnlyMark(Body, c.i);
      OnlyMark(Body, m);
      RunKeeps(max, o, data, c, Body, live, m, m', st, j);
      c' := Cursor(st, DoOp(c.marks, Mark(Body), data, c.i).marks, c.calls, j);
    }
    if c'.i < |data| {
      ghost var d, u, k := c', live', m';
      c', out, live', m' := Arm(max, data, c', o, live', m');
      if out.Fail? {
        MadeAt(max, o, data, d.i, d.st, d.calls, u, k);
        MadeSo(max, o, data, d.i, d.i, d.calls);
      }
    }
    AtMostOneMark(live', m');
  }

  lemma MadeAt(max: nat, o: Origin, data: seq<Byte>, n: nat, st: Parser, calls: seq<Event>, live: Maybe<DataKind>, m: nat)
    requires m <= n <= |data| && Taken(max, o, data, n, st, Pend(Merge(calls), live, m, data, n))
    ensures MadeTo(max, o, data, n, calls)
  {
    hide Run, Merge, Pend;
  }

  lemma MadeNow(max: nat, o: Origin, data: seq<Byte>, c: Cursor, live: Maybe<DataKind>, m: nat)
    requires m <= c.i <= |data| && Taken(max, o, data, c.i, c.st, Seen(c, live, m, data))
    ensures MadeTo(max, o, data, c.i, c.calls)
  {
    hide Taken, MadeTo;
    MadeAt(max, o, data, c.i, c.st, c.calls, live, m);
  }

  lemma MadeSo(max: nat, o: Origin, data: seq<Byte>, k: nat, n: nat, calls: seq<Event>)
    requires k <= n <= |data| && MadeTo(max, o, data, k, calls)
    ensures MadeBefore(max, o, data, n, calls)
  {
    hide MadeTo;
  }

  /** The same where a value fails. */
  lemma ValueFails(max: nat, o: Origin, data: seq<Byte>, c: Cursor, m: nat, e: Errno, late: bool, j: nat, st: Parser, n: nat, calls: seq<Event>)
    requires m <= c.i <= n < |data| && c.i <= j <= |data| && (j < |data| ==> n == j) && c.marks == Only(Some(Value), m)
    requires Taken(max, o, data, c.i, c.st, Seen(c, Some(Value), m, data))
    requires !e.OK? && (e == HEADER_OVERFLOW || j < |data|) && (late ==> j < |data| && e == HEADER_OVERFLOW)
    requires Refused(Whole(max, o, data), e, data[j..])
    requires Whole(max, o, data).error != HEADER_OVERFLOW ==>
      Run(max, c.st, Seen(c, Some(Value), m, data), data[c.i..j]) ==
      Running(st, Absorb(Seen(c, Some(Value), m, data), Value, data[c.i..j]))
    requires calls == if late then c.calls + DoOp(c.marks, Flush(Value), data, j).calls else c.calls
    ensures MadeBefore(max, o, data, n, calls)
    ensures Whole(max, o, data).error != HEADER_OVERFLOW ==> MadeTo(max, o, data, n, calls)
  {
    hide Run, Merge, Absorb, Only, Taken, MadeTo, MadeBefore, Pend, Whole;
    var slog := Seen(c, Some(Value), m, data);
    MadeNow(max, o, data, c, Some(Value), m);
    MadeSo(max, o, data, c.i, n, c.calls);
    if late {
      OnlyMark(Value, m);
      MadeLate(max, o, data, c.i, j, m, c.calls);
    } else if Whole(max, o, data).error != HEADER_OVERFLOW {
      TakenMore(max, o, data, c.i, c.st, slog, j, st, Absorb(slog, Value, data[c.i..j]));
      PendMore(Merge(c.calls), Value, m, data, c.i, j);
      MadeAt(max, o, data, j, st, c.calls, Some(Value), m);
    }
  }

  lemma MadeLate(max: nat, o: Origin, data: seq<Byte>, k: nat, n: nat, m: nat, calls: seq<Event>)
    requires m <= k <= n <= |data| && MadeTo(max, o, data, k, calls)
    ensures MadeBefore(max, o, data, n, calls + [Data(Value, data[m..n])])
  {
    hide MadeTo;
  }

  /** Where `p` points when a loop from `i` to `j` gives up. */
  function LastSeen(data: seq<Byte>, i: nat, j: nat): (k: nat)
    requires i < |data| && i <= j <= |data|
    ensures i <= k < |data| && (j < |data| ==> k == j)
  {
    if j == |data| then j - 1 else j
  }

  lemma FlushOnly(k: DataKind, m: nat, data: seq<Byte>)
    requires m <= |data|
    ensures FlushAll(Only(Some(k), m), data) == [Data(k, data[m..])] && FlushAll(Only(None, m), data) == []
  {
    hide Push;
  }

  /** The callbacks for what is left when the buffer is used up. */
  lemma BufferEnds(calls: seq<Event>, live: Maybe<DataKind>, m: nat, data: seq<Byte>)
    requires m < |data|
    ensures Merge(calls + FlushAll(Only(live, m), data)) == Pend(Merge(calls), live, m, data, |data|)
  {
    hide Merge, Push, FlushAll, Only, PushAll;
    MergeConcat(calls, FlushAll(Only(live, m), data));
    FlushOnly(if live.Some? then live.value else Body, m, data);
    if live.Some? {
      assert data[m..|data|] == data[m..];
      PushesOne(Merge(calls), Data(live.value, data[m..]));
    } else {
      PushesNone(Merge(calls));
    }
  }

  /** How many marks are set. */
  function Count(ms: Marks): nat {
    (if ms.field.At? then 1 else 0) + (if ms.value.At? then 1 else 0) + (if ms.url.At? then 1 else 0)
    + (if ms.body.At? then 1 else 0) + (if ms.status.At? then 1 else 0)
  }

  lemma AtMostOneMark(live: Maybe<DataKind>, m: nat)
    ensures Count(Only(live, m)) <= 1
  {
  }

  /** `struct http_parser`, with the callbacks it has made. */
  class HttpParser {
    var kind: Kind
    var flags: Flags
    var state: State
    var hs: HeaderState
    var index: nat
    var lenient: bool
    var nread: nat
    var length: nat
    var major: nat
    var minor: nat
    var status: nat
    var verb: Method
    var upgrade: bool
    var errno: Errno
    var maxHeader: nat
    var calls: seq<Event>

    function Value(): Parser
      reads this
    {
      Parser(kind, flags, state, hs, index, lenient, nread, length, major, minor, status, verb, upgrade)
    }

    predicate Valid()
      reads this
    {
      errno.OK? ==> Inv(Value()) && nread <= maxHeader
    }

    /** `http_parser_init`. */
    constructor (kind: Kind, maxHeader: nat)
      ensures Valid() && errno.OK? && Value() == Init(kind) && calls == [] && this.maxHeader == maxHeader
    {
      this.kind, flags, hs, index, lenient, nread, length := kind, NO_FLAGS, General, 0, false, 0, 0;
      state := if kind.Request? then StartReq else if kind.Response? then StartRes else StartReqOrRes;
      major, minor, status, verb, upgrade, errno := 0, 0, 0, DELETE, false, OK;
      calls, this.maxHeader := [], maxHeader;
    }

    method StoreState(p: Parser)
      modifies this`kind, this`flags, this`state, this`hs, this`index, this`lenient
      ensures kind == p.kind && flags == p.flags && state == p.state && hs == p.hs && index == p.index && lenient == p.lenient
    {
      kind := p.kind;
      flags := p.flags;
      state := p.state;
      hs := p.hs;
      index := p.index;
      lenient := p.lenient;
    }

    method StoreMessage(p: Parser)
      modifies this`nread, this`length, this`major, this`minor, this`status, this`verb, this`upgrade
      ensures nread == p.nread && length == p.length && major == p.major && minor == p.minor && status == p.status
      ensures verb == p.verb && upgrade == p.upgrade
    {
      nread := p.nread;
      length := p.length;
      major := p.major;
      minor := p.minor;
      status := p.status;
      verb := p.verb;
      upgrade := p.upgrade;
    }

    method Store(p: Parser)
      modifies this
      ensures Value() == p && errno == old(errno) && maxHeader == old(maxHeader) && calls == old(calls)
    {
      StoreState(p);
      StoreMessage(p);
    }

    /** The end of the input: a call with no bytes. */
    method ExecuteEof() returns (n: nat)
      requires Valid()
      modifies this`errno, this`calls
      ensures Valid()
      ensures !old(errno).OK? ==> n == 0 && errno == old(errno) && calls == old(calls)
      ensures old(errno).OK? && state == BodyIdentityEof ==> n == 0 && errno.OK? && calls == old(calls) + [MessageComplete]
      ensures old(errno).OK? && Between(state) ==> n == 0 && errno.OK? && calls == old(calls)
      ensures old(errno).OK? && state != BodyIdentityEof && !Between(state) ==>
        n == 1 && errno == INVALID_EOF_STATE && calls == old(calls)
    {
      n := 0;
      if errno.OK? {
        if state == BodyIdentityEof {
          calls := calls + [MessageComplete];
        } else if !Between(state) {
          errno, n := INVALID_EOF_STATE, 1;
        }
      }
    }

    /** A call with bytes: it fails exactly when the bytes one at a time do, with
        the same error at the same byte unless they met the header limit, and
        otherwise ends in the same state with the same merged callbacks. The
        callbacks made before an error are those of the bytes before it. */
    method Execute(data: seq<Byte>) returns (n: nat)
      requires Valid() && data != [] && maxHeader + |data| < MOD32
      modifies this
      ensures Valid() && maxHeader == old(maxHeader) && old(calls) <= calls && n <= |data|
      ensures !old(errno).OK? ==> n == 0 && Value() == old(Value()) && errno == old(errno) && calls == old(calls)
      ensures old(errno).OK? ==>
        var r := Run(maxHeader, old(Value()), Merge(old(calls)), data);
        && !r.Trapped?
        && (errno.OK? <==> r.Running? || r.Stopped?)
        && (r.Running? ==> Value() == r.p && Merge(calls) == r.log && n == |data|)
        && (r.Stopped? ==> Value() == r.p && Merge(calls) == r.log && data[n..] == r.rest)
        && (r.Broken? ==> r.error == HEADER_OVERFLOW || (errno == r.error && data[n..] == r.rest))
      ensures old(errno).OK? && !errno.OK? ==>
        var o := Origin(old(Value()), Merge(old(calls)));
        && MadeBefore(maxHeader, o, data, n, calls)
        && (Whole(maxHeader, o, data).error != HEADER_OVERFLOW ==> MadeTo(maxHeader, o, data, n, calls))
    {
      hide Run, Inv, Pend, Merge, Only, Taken, MadeTo, MadeBefore;
      if !errno.OK? {
        return 0;
      }
      ghost var o := Origin(Value(), Merge(calls));
      ghost var whole := Whole(maxHeader, o, data);
      ghost var live := Resuming(state);
      ghost var m: nat := 0;
      var c := Cursor(Value(), Only(Resuming(state), 0), calls, 0);
      var out: Outcome := Go;
      StartsLoop(maxHeader, data, c);
      while c.i < |data| && out.Go?
        invariant 0 <= c.i <= |data| && calls <= c.calls && !out.Trap?
        invariant out.Go? ==> LoopInv(maxHeader, o, data, c, live, m) && (c.i > 0 ==> m < c.i && Count(c.marks) <= 1)
        invariant out.Fail? ==> Refused(whole, out.error, data[c.i..]) && MadeBefore(maxHeader, o, data, c.i, c.calls)
        invariant out.Fail? && whole.error != HEADER_OVERFLOW ==> MadeTo(maxHeader, o, data, c.i, c.calls)
        invariant out.Leave? ==>
          Inv(c.st) && c.st.nread <= maxHeader && whole == Stopped(c.st, Merge(c.calls), data[c.i..])
        modifies {}
        decreases |data| - c.i, if out.Go? then 1 else 0
      {
        c, out, live, m := NextByte(maxHeader, data, c, o, live, m);
      }
      n := c.i;
      match out {
        case Go =>
          assert Count(c.marks) <= 1;
          TakenRest(maxHeader, o, data, c.i, c.st, Seen(c, live, m, data));
          BufferEnds(c.calls, live, m, data);
          RunNone(maxHeader, c.st, Pend(Merge(c.calls), live, m, data, |data|));
          assert data[c.i..] == [];
          calls := c.calls + FlushAll(c.marks, data);
        case Fail(e) =>
          errno, calls := e, c.calls;
        case Leave =>
          calls := c.calls;
      }
      Store(c.st);
    }

    /** The same input in any number of calls, however it is cut, up to the first
        error or the exit for an upgrade: what happens depends only on the bytes,
        and so do the bytes left unread. Only where the bytes one at a time meet
        the header limit may a call report another error, or notice it later. */
    method ExecuteParts(parts: seq<seq<Byte>>) returns (unread: seq<Byte>)
      requires Valid() && errno.OK? && !Exited(Value())
      requires forall k :: 0 <= k < |parts| ==> parts[k] != [] && maxHeader + |parts[k]| < MOD32
      modifies this
      ensures Valid() && maxHeader == old(maxHeader)
      ensures var r := Run(maxHeader, old(Value()), Merge(old(calls)), Joined(parts));
        && !r.Trapped?
        && (errno.OK? <==> r.Running? || r.Stopped?)
        && (r.Running? ==> Value() == r.p && Merge(calls) == r.log && unread == [] && !Exited(Value()))
        && (r.Stopped? ==> Value() == r.p && Merge(calls) == r.log && unread == r.rest && Exited(Value()))
        && (r.Broken? ==> r.error == HEADER_OVERFLOW || (errno == r.error && unread == r.rest))
    {
      hide Run, Inv, Merge, Exited;
      ghost var whole := Run(maxHeader, Value(), Merge(calls), Joined(parts));
      var k := 0;
      unread := Joined(parts);
      assert parts[0..] == parts;
      while k < |parts| && errno.OK? && !Exited(Value())
        invariant 0 <= k <= |parts| && Valid() && maxHeader == old(maxHeader)
        invariant !errno.OK? ==> Refused(whole, errno, unread)
        invariant errno.OK? && Exited(Value()) ==> whole == Stopped(Value(), Merge(calls), unread)
        invariant errno.OK? && !Exited(Value()) ==>
          unread == Joined(parts[k..]) && whole == Run(maxHeader, Value(), Merge(calls), unread)
      {
        ghost var later := Joined(parts[k + 1..]);
        assert parts[k..][0] == parts[k] && parts[k..][1..] == parts[k + 1..];
        RunConcat(maxHeader, Value(), Merge(calls), parts[k], later);
        ExitSeen(maxHeader, Value(), Merge(calls), parts[k]);
        var n := Execute(parts[k]);
        unread := parts[k][n..] + Joined(parts[k + 1..]);
        assert n == |parts[k]| ==> unread == later;
        k := k + 1;
      }
      RunNone(maxHeader, Value(), Merge(calls));
    }
  }

  function Joined(parts: seq<seq<Byte>>): seq<Byte> {
    if parts == [] then [] else parts[0] + Joined(parts[1..])
  }

  lemma RunNone(max: nat, p: Parser, log: seq<Event>)
    ensures Run(max, p, log, []) == Running(p, log)
  {
  }

  lemma StartsLoop(max: nat, data: seq<Byte>, c: Cursor)
    requires c.i == 0 && c.marks == Only(Resuming(c.st.state), 0) && Inv(c.st) && c.st.nread <= max
    ensures LoopInv(max, Origin(c.st, Merge(c.calls)), data, c, Resuming(c.st.state), 0)
  {
    hide Run, Inv, Merge;
    assert data[..0] == [];
    RunNone(max, c.st, Merge(c.calls));
    assert data[0..0] == [];
  }
}
