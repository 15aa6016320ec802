/** Marks carried across the bytes of a buffer against marks set anew for
    every byte: both give the same merged log. */
module HttpMarks {
  import opened Basics
  import opened HttpTypes
  import opened HttpAct
  import opened HttpRun
  import opened HttpSkip

  /** The operations take at most one live mark from `live` to `end`; a mark is
      set only when no other is live, and nothing is reported past a live one. */
  predicate Tidy(live: Maybe<DataKind>, ops: seq<Op>, end: Maybe<DataKind>)
    decreases |ops|
  {
    if ops == [] then live == end
    else
      match ops[0]
      case Mark(k) => (live.None? || live == Some(k)) && Tidy(Some(k), ops[1..], end)
      case Flush(k) => live == Some(k) && Tidy(None, ops[1..], end)
      case FlushIncl(k) => live == Some(k) && Tidy(None, ops[1..], end)
      case Notify(_) => live.None? && Tidy(None, ops[1..], end)
  }

  lemma {:induction false} TidyConcat(live: Maybe<DataKind>, a: seq<Op>, mid: Maybe<DataKind>, b: seq<Op>, end: Maybe<DataKind>)
    requires Tidy(live, a, mid) && Tidy(mid, b, end)
    ensures Tidy(live, a + b, end)
    decreases |a|
  {
    if a == [] {
      assert a + b == b;
    } else {
      assert (a + b)[1..] == a[1..] + b;
      var next := match a[0] case Mark(k) => Some(k) case _ => None;
      TidyConcat(next, a[1..], mid, b, end);
    }
  }

  /** `log` with the data that the live mark `m` has collected before offset `i`. */
  function Pend(log: seq<Event>, live: Maybe<DataKind>, m: nat, data: seq<Byte>, i: nat): seq<Event>
    requires m <= i <= |data|
  {
    if live.None? then log else Absorb(log, live.value, data[m..i])
  }

  /** The offset of the live mark after `ops`. */
  function MarkAfter(live: Maybe<DataKind>, m: nat, ops: seq<Op>, i: nat): nat
    decreases |ops|
  {
    if ops == [] then m
    else
      match ops[0]
      case Mark(k) => MarkAfter(Some(k), if live.None? then i else m, ops[1..], i)
      case _ => MarkAfter(None, m, ops[1..], i)
  }

  /** Reporting the data before offset `i`: the single byte reports none of its own. */
  lemma FlushAgrees(r: seq<Event>, k: DataKind, m: nat, data: seq<Byte>, i: nat)
    requires m <= i <= |data|
    ensures Push(Absorb(r, k, data[m..i]), Data(k, [])) == Push(r, Data(k, data[m..i]))
  {
    if m < i {
      PushTwice(r, k, data[m..i], []);
      assert data[m..i] + [] == data[m..i];
    }
  }

  /** Reporting the data up to and including offset `i`. */
  lemma FlushInclAgrees(r: seq<Event>, k: DataKind, m: nat, data: seq<Byte>, i: nat)
    requires m <= i < |data|
    ensures Push(Absorb(r, k, data[m..i]), Data(k, [data[i]])) == Push(r, Data(k, data[m..i + 1]))
  {
    assert data[m..i] + [data[i]] == data[m..i + 1];
    AbsorbMore(r, k, data[m..i], [data[i]]);
  }

  /** One operation: in the buffer (mark at `m`) and on the single byte (mark at 0). */
  lemma OpAgrees(live: Maybe<DataKind>, op: Op, next: Maybe<DataKind>, m: nat, data: seq<Byte>, i: nat, r: seq<Event>)
    requires m <= i < |data| && Tidy(live, [op], next)
    ensures
      var e := DoOp(Only(live, m), op, data, i);
      var s := DoOp(Only(live, 0), op, [data[i]], 0);
      var m' := MarkAfter(live, m, [op], i);
      && m' <= i && e.marks == Only(next, m') && s.marks == Only(next, 0)
      && PushAll(Pend(r, live, m, data, i), s.calls) == Pend(PushAll(r, e.calls), next, m', data, i)
  {
    hide Only, SetMark, GetMark, Push, Absorb;
    assert [op][1..] == [];
    match op {
      case Mark(k) =>
        OnlyMark(k, m);
        OnlyMark(k, i);
        OnlyMark(k, 0);
        assert data[i..i] == [];
        AbsorbNone(r, k);
      case Flush(k) =>
        OnlyMark(k, m);
        OnlyMark(k, 0);
        assert [data[i]][0..0] == [];
        PushesOne(Pend(r, live, m, data, i), Data(k, []));
        PushesOne(r, Data(k, data[m..i]));
        FlushAgrees(r, k, m, data, i);
      case FlushIncl(k) =>
        OnlyMark(k, m);
        OnlyMark(k, 0);
        assert [data[i]][0..1] == [data[i]];
        PushesOne(Pend(r, live, m, data, i), Data(k, [data[i]]));
        PushesOne(r, Data(k, data[m..i + 1]));
        FlushInclAgrees(r, k, m, data, i);
      case Notify(e) =>
        OnlyMark(Body, m);
        OnlyMark(Body, 0);
    }
  }

  /** All the operations of an arm. */
  lemma {:induction false} OpsAgree(live: Maybe<DataKind>, ops: seq<Op>, end: Maybe<DataKind>, m: nat,
                                    data: seq<Byte>, i: nat, r: seq<Event>)
    requires m <= i < |data| && Tidy(live, ops, end)
    ensures
      var e := DoOps(Only(live, m), ops, data, i);
      var s := DoOps(Only(live, 0), ops, [data[i]], 0);
      var m' := MarkAfter(live, m, ops, i);
      && m' <= i && e.marks == Only(end, m') && s.marks == Only(end, 0)
      && PushAll(Pend(r, live, m, data, i), s.calls) == Pend(PushAll(r, e.calls), end, m', data, i)
    decreases |ops|
  {
    hide Only, DoOp, Push, Absorb, Pend;
    if ops != [] {
      var op := ops[0];
      assert [op][1..] == [];
      var next := match op case Mark(k) => Some(k) case _ => None;
      OpAgrees(live, op, next, m, data, i, r);
      var e := DoOp(Only(live, m), op, data, i);
      var s := DoOp(Only(live, 0), op, [data[i]], 0);
      var m1 := MarkAfter(live, m, [op], i);
      var r1 := PushAll(r, e.calls);
      OpsAgree(next, ops[1..], end, m1, data, i, r1);
      assert MarkAfter(live, m, ops, i) == MarkAfter(next, m1, ops[1..], i);
      PushAllConcat(r, e.calls, DoOps(e.marks, ops[1..], data, i).calls);
      PushAllConcat(Pend(r, live, m, data, i), s.calls, DoOps(s.marks, ops[1..], [data[i]], 0).calls);
    }
  }

  /** A mark that stays live over the byte collects it. */
  lemma ByteEnds(end: Maybe<DataKind>, m: nat, data: seq<Byte>, i: nat, r: seq<Event>)
    requires m <= i < |data|
    ensures PushAll(Pend(r, end, m, data, i), FlushAll(Only(end, 0), [data[i]])) == Pend(r, end, m, data, i + 1)
  {
    if end.Some? {
      var k := end.value;
      assert [data[i]][0..] == [data[i]];
      assert FlushAll(Only(end, 0), [data[i]]) == [Data(k, [data[i]])];
      PushesOne(Pend(r, end, m, data, i), Data(k, [data[i]]));
      FlushInclAgrees(r, k, m, data, i);
    }
  }
}
