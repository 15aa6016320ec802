/** Runs of bytes that the buffered parser skips in one go, and what the
    byte-at-a-time parser makes of them; and how marks carried across bytes
    relate to marks set anew for every byte. */
module HttpSkip {
  import opened Basics
  import opened HttpTypes
  import opened HttpAct
  import opened HttpRun
  import opened HttpInvariant

  /** `log` with data `w` of kind `k` added, if there is any. */
  function Absorb(log: seq<Event>, k: DataKind, w: seq<Byte>): seq<Event> {
    if w == [] then log else Push(log, Data(k, w))
  }

  lemma AbsorbNone(log: seq<Event>, k: DataKind)
    ensures Absorb(log, k, []) == log
  {
  }

  lemma AbsorbMore(log: seq<Event>, k: DataKind, x: seq<Byte>, y: seq<Byte>)
    ensures Absorb(Absorb(log, k, x), k, y) == Absorb(log, k, x + y)
  {
    if x == [] {
      assert x + y == y;
    } else if y == [] {
      assert x + y == x;
    } else {
      PushTwice(log, k, x, y);
    }
  }

  /** One byte of data of kind `k`, with nothing else happening. */
  lemma DataByte(k: DataKind, ops: seq<Op>, resuming: Maybe<DataKind>, ch: Byte, log: seq<Event>)
    requires (resuming == Some(k) && ops == []) || (resuming.None? && ops == [Mark(k)])
    ensures var m := DoOps(Only(resuming, 0), ops, [ch], 0);
      PushAll(log, m.calls + FlushAll(m.marks, [ch])) == Push(log, Data(k, [ch]))
  {
    hide Only, SetMark, GetMark, FlushAll, PushAll, Push;
    OnlyMark(k, 0);
    OnlyLeft(k, ch);
    PushesOne(log, Data(k, [ch]));
    MarkOps(k, ops, resuming, ch);
    assert [] + [Data(k, [ch])] == [Data(k, [ch])];
  }

  lemma MarkOps(k: DataKind, ops: seq<Op>, resuming: Maybe<DataKind>, ch: Byte)
    requires (resuming == Some(k) && ops == []) || (resuming.None? && ops == [Mark(k)])
    ensures DoOps(Only(resuming, 0), ops, [ch], 0) == Marked(Only(Some(k), 0), [])
  {
    hide Only, SetMark, GetMark;
    OnlyMark(k, 0);
    if ops != [] {
      assert ops[1..] == [];
      assert DoOp(NO_MARKS, ops[0], [ch], 0) == Marked(Only(Some(k), 0), []);
      assert DoOps(Only(Some(k), 0), ops[1..], [ch], 0) == Marked(Only(Some(k), 0), []);
    }
  }

  // ----- field names -------------------------------------------------------

  predicate AllTokens(w: seq<Byte>) { forall i :: 0 <= i < |w| ==> Token(w[i]) != 0 }

  function NameRun(m: Matching, w: seq<Byte>): (r: Matching)
    requires FieldHs(m.hs)
    ensures FieldHs(r.hs)
    decreases |w|
  {
    if w == [] then m else FieldNext(NameRun(m, w[..|w| - 1]), Token(w[|w| - 1]))
  }

  /** Once the name cannot match any more, its bytes change nothing. */
  lemma {:induction false} NameRunGeneral(m: Matching, w: seq<Byte>, x: seq<Byte>)
    requires FieldHs(m.hs) && NameRun(m, w).hs.General?
    ensures NameRun(m, w + x) == NameRun(m, w)
    decreases |x|
  {
    if x == [] {
      assert w + x == w;
    } else {
      var y := x[..|x| - 1];
      NameRunGeneral(m, w, y);
      assert (w + x)[..|w + x| - 1] == w + y;
    }
  }

  function AfterName(p: Parser, w: seq<Byte>): Parser
    requires FieldHs(p.hs)
  {
    var m := NameRun(Matching(p.hs, p.index), w);
    p.(hs := m.hs, index := m.index, nread := p.nread + |w|)
  }

  lemma RunCons(max: nat, p: Parser, log: seq<Event>, ch: Byte, rest: seq<Byte>)
    ensures var r := Step(max, p, log, ch, rest);
      Run(max, p, log, [ch] + rest) == if r.Running? then Run(max, r.p, r.log, rest) else r
  {
    assert ([ch] + rest)[1..] == rest;
  }

  lemma NameByte(max: nat, p: Parser, log: seq<Event>, ch: Byte, rest: seq<Byte>)
    requires p.state == HeaderField && FieldHs(p.hs) && Token(ch) != 0 && p.nread <= max && p.nread + 1 < MOD32
    ensures var m := FieldNext(Matching(p.hs, p.index), Token(ch));
      Step(max, p, log, ch, rest) ==
      if p.nread + 1 <= max
      then Running(p.(hs := m.hs, index := m.index, nread := p.nread + 1), Absorb(log, Field, [ch]))
      else Broken(HEADER_OVERFLOW, [ch] + rest)
  {
    var q := CountByte(p);
    assert q.nread == p.nread + 1;
    assert OnByte(q, ch) == OnHeaderField(q, ch);
    DataByte(Field, OnHeaderField(q, ch).ops, Resuming(p.state), ch, log);
  }

  /** Name bytes skipped together. */
  lemma {:induction false} SkipName(max: nat, p: Parser, log: seq<Event>, w: seq<Byte>, rest: seq<Byte>)
    requires p.state == HeaderField && FieldHs(p.hs) && AllTokens(w) && p.nread <= max && p.nread + |w| < MOD32
    ensures var r := Run(max, p, log, w + rest);
      if p.nread + |w| <= max then r == Run(max, AfterName(p, w), Absorb(log, Field, w), rest)
      else r.Broken? && r.error == HEADER_OVERFLOW
    decreases |w|
  {
    hide Step, Absorb, FieldNext, Token, FieldHs;
    if w == [] {
      AbsorbNone(log, Field);
      assert w + rest == rest;
    } else {
      var init, last := w[..|w| - 1], w[|w| - 1];
      assert w + rest == init + ([last] + rest);
      SkipName(max, p, log, init, [last] + rest);
      if p.nread + |init| <= max {
        var q := AfterName(p, init);
        var mid := Absorb(log, Field, init);
        RunCons(max, q, mid, last, rest);
        NameByte(max, q, mid, last, rest);
        AbsorbMore(log, Field, init, [last]);
        assert init + [last] == w;
      }
    }
  }

  // ----- field values ------------------------------------------------------

  predicate NoLineEnd(w: seq<Byte>) { forall i :: 0 <= i < |w| ==> w[i] != CR && w[i] != LF }

  function ValueRun(lenient: bool, v: Scan, w: seq<Byte>): Scan
    decreases |w|
  {
    if w == [] then v
    else
      var u := ValueRun(lenient, v, w[..|w| - 1]);
      if u.Scan? then ScanByte(lenient, u, w[|w| - 1]) else u
  }

  /** A value of no interest is only checked for bad bytes. */
  predicate Acceptable(lenient: bool, w: seq<Byte>) { forall i :: 0 <= i < |w| ==> lenient || IsHeaderChar(w[i]) }

  lemma {:induction false} ValueRunGeneral(lenient: bool, v: Scan, w: seq<Byte>, x: seq<Byte>)
    requires var u := ValueRun(lenient, v, w); u.Scan? && u.hs.General?
    requires Acceptable(lenient, x)
    ensures ValueRun(lenient, v, w + x) == ValueRun(lenient, v, w)
    decreases |x|
  {
    if x == [] {
      assert w + x == w;
    } else {
      var y := x[..|x| - 1];
      ValueRunGeneral(lenient, v, w, y);
      assert (w + x)[..|w + x| - 1] == w + y;
    }
  }

  lemma {:induction false} ValueRunConcat(lenient: bool, v: Scan, a: seq<Byte>, b: seq<Byte>)
    requires ValueRun(lenient, v, a).Scan?
    ensures ValueRun(lenient, v, a + b) == ValueRun(lenient, ValueRun(lenient, v, a), b)
    decreases |b|
  {
    hide ScanByte;
    if b == [] {
      assert a + b == a;
    } else {
      var n := |b| - 1;
      assert (a + b)[..|a + b| - 1] == a + b[..n];
      ValueRunConcat(lenient, v, a, b[..n]);
    }
  }

  lemma OneByte(lenient: bool, v: Scan, ch: Byte)
    requires v.Scan?
    ensures ValueRun(lenient, v, [ch]) == ScanByte(lenient, v, ch)
  {
    hide ScanByte;
    assert [ch][..0] == [];
  }

  function AfterValue(p: Parser, w: seq<Byte>): Parser
    requires ValueRun(p.lenient, ScanOf(p), w).Scan?
  {
    WithScan(p, ValueRun(p.lenient, ScanOf(p), w)).(nread := p.nread + |w|)
  }

  lemma ValueByte(max: nat, p: Parser, log: seq<Event>, ch: Byte, rest: seq<Byte>)
    requires Inv(p) && p.state == HeaderValue && ch != CR && ch != LF && p.nread <= max && p.nread + 1 < MOD32
    ensures var v := ScanByte(p.lenient, ScanOf(p), ch);
      !v.ScanTrap? &&
      Step(max, p, log, ch, rest) ==
      if p.nread + 1 > max then Broken(HEADER_OVERFLOW, [ch] + rest)
      else if v.ScanFail? then Broken(v.error, [ch] + rest)
      else Running(WithScan(p, v).(nread := p.nread + 1), Absorb(log, Value, [ch]))
  {
    var q := CountByte(p);
    assert q.nread == p.nread + 1;
    assert OnByte(q, ch) == OnHeaderValue(q, ch);
    ScanKeeps(ScanOf(p), ch);
    if p.nread + 1 <= max && ScanByte(p.lenient, ScanOf(p), ch).Scan? {
      DataByte(Value, OnHeaderValue(q, ch).ops, Resuming(p.state), ch, log);
    }
  }

  /** What a value byte keeps: the invariant of the sub-state. */
  lemma ValueByteKeeps(p: Parser, ch: Byte)
    requires Inv(p) && p.state == HeaderValue
    ensures var v := ScanByte(p.lenient, ScanOf(p), ch);
      !v.ScanTrap? && (v.Scan? ==> Inv(WithScan(p, v).(nread := p.nread + 1)))
  {
    ScanKeeps(ScanOf(p), ch);
  }

  /** Value bytes skipped together. */
  lemma {:induction false} SkipValue(max: nat, p: Parser, log: seq<Event>, w: seq<Byte>, rest: seq<Byte>)
    requires Inv(p) && p.state == HeaderValue && NoLineEnd(w) && p.nread <= max && p.nread + |w| < MOD32
    ensures var v := ValueRun(p.lenient, ScanOf(p), w);
      && !v.ScanTrap?
      && (v.Scan? ==> Inv(AfterValue(p, w)))
      && (if v.Scan? && p.nread + |w| <= max
          then Run(max, p, log, w + rest) == Run(max, AfterValue(p, w), Absorb(log, Value, w), rest)
          else Run(max, p, log, w + rest).Broken?)
      && (v.Scan? && p.nread + |w| > max ==> Run(max, p, log, w + rest).error == HEADER_OVERFLOW)
      && (v.ScanFail? && p.nread + |w| <= max ==> Run(max, p, log, w + rest).error == v.error)
    decreases |w|
  {
    hide Step, Absorb, ScanByte, Inv;
    if w == [] {
      AbsorbNone(log, Value);
      assert w + rest == rest;
      assert AfterValue(p, w) == p;
    } else {
      var init, last := w[..|w| - 1], w[|w| - 1];
      assert w + rest == init + ([last] + rest);
      SkipValue(max, p, log, init, [last] + rest);
      if ValueRun(p.lenient, ScanOf(p), init).Scan? {
        var q := AfterValue(p, init);
        ValueByteKeeps(q, last);
        if p.nread + |init| <= max {
          var mid := Absorb(log, Value, init);
          RunCons(max, q, mid, last, rest);
          ValueByte(max, q, mid, last, rest);
          AbsorbMore(log, Value, init, [last]);
          assert init + [last] == w;
        }
      }
    }
  }

  // ----- bodies ------------------------------------------------------------

  lemma BodyByte(max: nat, p: Parser, log: seq<Event>, ch: Byte, rest: seq<Byte>)
    requires p.state == BodyIdentityEof || (Inv(p) && (p.state == ChunkData || p.state == BodyIdentity) && p.length > 1)
    ensures Step(max, p, log, ch, rest) ==
            Running(if p.state == BodyIdentityEof then p else p.(length := p.length - 1), Absorb(log, Body, [ch]))
  {
    assert OnByte(p, ch) == OnBody(p, ch) && OnBody(p, ch).ops == [Mark(Body)];
    DataByte(Body, [Mark(Body)], Resuming(p.state), ch, log);
  }

  /** Body bytes before the last one of a counted body or chunk. */
  lemma {:induction false} SkipCounted(max: nat, p: Parser, log: seq<Event>, w: seq<Byte>, rest: seq<Byte>)
    requires Inv(p) && (p.state == ChunkData || p.state == BodyIdentity) && |w| < p.length
    ensures Run(max, p, log, w + rest) == Run(max, p.(length := p.length - |w|), Absorb(log, Body, w), rest)
    decreases |w|
  {
    hide Step, Absorb;
    if w == [] {
      AbsorbNone(log, Body);
      assert w + rest == rest;
    } else {
      var init, last := w[..|w| - 1], w[|w| - 1];
      assert w + rest == init + ([last] + rest);
      SkipCounted(max, p, log, init, [last] + rest);
      var q := p.(length := p.length - |init|);
      var mid := Absorb(log, Body, init);
      RunCons(max, q, mid, last, rest);
      BodyByte(max, q, mid, last, rest);
      AbsorbMore(log, Body, init, [last]);
      assert init + [last] == w;
    }
  }

  /** Body bytes up to the end of the connection. */
  lemma {:induction false} SkipToEof(max: nat, p: Parser, log: seq<Event>, w: seq<Byte>, rest: seq<Byte>)
    requires p.state == BodyIdentityEof
    ensures Run(max, p, log, w + rest) == Run(max, p, Absorb(log, Body, w), rest)
    decreases |w|
  {
    hide Step, Absorb;
    if w == [] {
      AbsorbNone(log, Body);
      assert w + rest == rest;
    } else {
      var init, last := w[..|w| - 1], w[|w| - 1];
      assert w + rest == init + ([last] + rest);
      SkipToEof(max, p, log, init, [last] + rest);
      var mid := Absorb(log, Body, init);
      RunCons(max, p, mid, last, rest);
      BodyByte(max, p, mid, last, rest);
      AbsorbMore(log, Body, init, [last]);
      assert init + [last] == w;
    }
  }
}
