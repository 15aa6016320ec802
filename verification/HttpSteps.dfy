/** Single bytes and fixed strings of bytes, as equations between runs. */
module HttpSteps {
  import opened Basics
  import opened HttpTypes
  import opened HttpAct
  import opened HttpRun
  import opened HttpSkip

  /** A byte that only changes the parser. */
  lemma QuietByte(max: nat, p: Parser, log: seq<Event>, ch: Byte, rest: seq<Byte>)
    requires !Overflows(max, p) && Resuming(p.state).None?
    requires var a := OnByte(CountByte(p), ch); a.out.Go? && a.ops == []
    ensures Run(max, p, log, [ch] + rest) == Run(max, OnByte(CountByte(p), ch).p, log, rest)
  {
    hide OnByte, Run;
    RunCons(max, p, log, ch, rest);
    assert DoOps(NO_MARKS, [], [ch], 0) == Marked(NO_MARKS, []);
    assert [] + FlushAll(NO_MARKS, [ch]) == [];
  }

  lemma OneNotify(ch: Byte, e: Event)
    ensures DoOps(NO_MARKS, [Notify(e)], [ch], 0) == Marked(NO_MARKS, [e])
  {
    var ops := [Notify(e)];
    assert ops[1..] == [];
    assert [e] + [] == [e];
  }

  /** A byte that makes one notification. */
  lemma NotifyByte(max: nat, p: Parser, log: seq<Event>, ch: Byte, rest: seq<Byte>, e: Event)
    requires !Overflows(max, p) && Resuming(p.state).None?
    requires var a := OnByte(CountByte(p), ch); a.out.Go? && a.ops == [Notify(e)]
    ensures Run(max, p, log, [ch] + rest) == Run(max, OnByte(CountByte(p), ch).p, Push(log, e), rest)
  {
    hide OnByte, Run, Push;
    RunCons(max, p, log, ch, rest);
    OneNotify(ch, e);
    assert [e] + FlushAll(NO_MARKS, [ch]) == [e];
    PushesOne(log, e);
  }

  /** The end of a message in front of `rest`: the parser goes on with it, or leaves
      it to another protocol. */
  function Over(max: nat, p: Parser, log: seq<Event>, rest: seq<Byte>): Result {
    if p.upgrade then Stopped(p, log, rest) else Run(max, p, log, rest)
  }

  /** A byte that makes two notifications, the second for the end of a message. */
  lemma NotifyTwice(max: nat, p: Parser, log: seq<Event>, ch: Byte, rest: seq<Byte>, e: Event, f: Event)
    requires !Overflows(max, p) && Resuming(p.state).None?
    requires var a := OnByte(CountByte(p), ch); a.out == (if a.p.upgrade then Leave else Go) && a.ops == [Notify(e), Notify(f)]
    ensures Run(max, p, log, [ch] + rest) == Over(max, OnByte(CountByte(p), ch).p, Push(Push(log, e), f), rest)
  {
    hide OnByte, Run, Push;
    RunCons(max, p, log, ch, rest);
    var ops := [Notify(e), Notify(f)];
    assert ops[1..] == [Notify(f)] && ops[1..][1..] == [];
    var m := DoOps(NO_MARKS, ops, [ch], 0);
    OneNotify(ch, f);
    assert DoOp(NO_MARKS, ops[0], [ch], 0) == Marked(NO_MARKS, [e]);
    assert m == Marked(NO_MARKS, [e] + [f]);
    assert m.calls + FlushAll(NO_MARKS, [ch]) == [e, f];
    assert [e, f][1..] == [f];
    PushesOne(Push(log, e), f);
  }

  /** The first byte of data of kind `k`. */
  lemma FirstByte(max: nat, p: Parser, log: seq<Event>, ch: Byte, rest: seq<Byte>, k: DataKind)
    requires !Overflows(max, p) && Resuming(p.state).None?
    requires var a := OnByte(CountByte(p), ch); a.out.Go? && a.ops == [Mark(k)]
    ensures Run(max, p, log, [ch] + rest) == Run(max, OnByte(CountByte(p), ch).p, Absorb(log, k, [ch]), rest)
  {
    hide OnByte, Run, Push, PushAll;
    RunCons(max, p, log, ch, rest);
    DataByte(k, [Mark(k)], None, ch, log);
  }

  /** A further byte of the data a call resuming here is in. */
  lemma MoreByte(max: nat, p: Parser, log: seq<Event>, ch: Byte, rest: seq<Byte>, k: DataKind)
    requires !Overflows(max, p) && Resuming(p.state) == Some(k)
    requires var a := OnByte(CountByte(p), ch); a.out.Go? && a.ops == []
    ensures Run(max, p, log, [ch] + rest) == Run(max, OnByte(CountByte(p), ch).p, Absorb(log, k, [ch]), rest)
  {
    hide OnByte, Run, Push, PushAll;
    RunCons(max, p, log, ch, rest);
    DataByte(k, [], Some(k), ch, log);
  }

  /** A byte that ends the data just delivered. */
  lemma EndByte(max: nat, p: Parser, log: seq<Event>, ch: Byte, rest: seq<Byte>, k: DataKind, w: seq<Byte>)
    requires !Overflows(max, p) && Resuming(p.state) == Some(k) && w != []
    requires var a := OnByte(CountByte(p), ch); a.out.Go? && a.ops == [Flush(k)]
    ensures Run(max, p, Absorb(log, k, w), [ch] + rest) == Run(max, OnByte(CountByte(p), ch).p, Absorb(log, k, w), rest)
  {
    hide OnByte, Run, Push, PushAll, Only, GetMark, SetMark;
    RunCons(max, p, Absorb(log, k, w), ch, rest);
    var ops := [Flush(k)];
    assert ops[1..] == [];
    OnlyMark(k, 0);
    var m := DoOps(Only(Some(k), 0), ops, [ch], 0);
    assert [ch][0..0] == [];
    assert DoOp(Only(Some(k), 0), ops[0], [ch], 0) == Marked(NO_MARKS, [Data(k, [])]);
    assert DoOps(NO_MARKS, ops[1..], [ch], 0) == Marked(NO_MARKS, []);
    assert m == Marked(NO_MARKS, [Data(k, [])] + []);
    assert m.calls + FlushAll(NO_MARKS, [ch]) == [Data(k, [])];
    PushesOne(Push(log, Data(k, w)), Data(k, []));
    PushTwice(log, k, w, []);
    assert w + [] == w;
  }

  /** A notification after something that is not data of its kind stands alone. */
  lemma PushNotify(log: seq<Event>, e: Event)
    requires !e.Data?
    ensures Push(log, e) == log + [e]
  {
  }

  /** Data after anything but data of its kind stands alone. */
  lemma AbsorbFresh(log: seq<Event>, k: DataKind, w: seq<Byte>)
    requires w != [] && (log == [] || !log[|log| - 1].Data? || log[|log| - 1].kind != k)
    ensures Absorb(log, k, w) == log + [Data(k, w)]
  {
  }
}
