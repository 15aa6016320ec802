/** The parser fed one byte at a time: the reference that the buffered parser
    of module HttpExecute is compared with. */
module HttpRun {
  import opened Basics
  import opened HttpTypes
  import opened HttpAct

  // ----- callback logs -----------------------------------------------------

  /** Append a callback, joining it to a directly preceding data callback of
      the same kind: `http_data_cb` may deliver one string in many pieces. */
  function Push(log: seq<Event>, e: Event): seq<Event> {
    if log != [] && e.Data? && log[|log| - 1].Data? && log[|log| - 1].kind == e.kind
    then log[..|log| - 1] + [Data(e.kind, log[|log| - 1].bytes + e.bytes)]
    else log + [e]
  }

  function PushAll(log: seq<Event>, es: seq<Event>): seq<Event>
    decreases |es|
  {
    if es == [] then log else PushAll(Push(log, es[0]), es[1..])
  }

  /** The log with adjacent data callbacks of one kind joined. */
  function Merge(calls: seq<Event>): seq<Event> { PushAll([], calls) }

  lemma PushTwice(log: seq<Event>, k: DataKind, x: seq<Byte>, y: seq<Byte>)
    ensures Push(Push(log, Data(k, x)), Data(k, y)) == Push(log, Data(k, x + y))
  {
    var one := Push(log, Data(k, x));
    var last := |one| - 1;
    assert one[last].Data? && one[last].kind == k;
    if log != [] && log[|log| - 1].Data? && log[|log| - 1].kind == k {
      var b := log[|log| - 1].bytes;
      assert one[..last] == log[..|log| - 1];
      assert (b + x) + y == b + (x + y);
    } else {
      assert one[..last] == log;
    }
  }

  lemma {:induction false} PushAllConcat(log: seq<Event>, a: seq<Event>, b: seq<Event>)
    ensures PushAll(log, a + b) == PushAll(PushAll(log, a), b)
    decreases |a|
  {
    if a == [] {
      assert a + b == b;
    } else {
      assert (a + b)[1..] == a[1..] + b;
      PushAllConcat(Push(log, a[0]), a[1..], b);
    }
  }

  // ----- marks -------------------------------------------------------------

  /** A start-of-data pointer of a call, as an offset into its buffer. */
  datatype Offset = Unset | At(pos: nat)

  datatype Marks = Marks(field: Offset, value: Offset, url: Offset, body: Offset, status: Offset)

  const NO_MARKS := Marks(Unset, Unset, Unset, Unset, Unset)

  function GetMark(ms: Marks, k: DataKind): Offset {
    match k case Field => ms.field case Value => ms.value case Url => ms.url case Body => ms.body case Status => ms.status
  }

  function SetMark(ms: Marks, k: DataKind, m: Offset): (r: Marks)
    ensures forall i :: MarksBelow(ms, i) && Below(m, i) ==> MarksBelow(r, i)
  {
    match k
    case Field => ms.(field := m)
    case Value => ms.(value := m)
    case Url => ms.(url := m)
    case Body => ms.(body := m)
    case Status => ms.(status := m)
  }

  predicate Below(m: Offset, i: nat) { m.At? ==> m.pos <= i }

  predicate MarksBelow(ms: Marks, i: nat) {
    Below(ms.field, i) && Below(ms.value, i) && Below(ms.url, i) && Below(ms.body, i) && Below(ms.status, i)
  }

  /** The data a call that resumes in state `s` is in the middle of. */
  function Resuming(s: State): Maybe<DataKind> {
    if s == HeaderField then Some(Field)
    else if s == HeaderValue then Some(Value)
    else if UrlState(s) then Some(Url)
    else if s == ResStatus then Some(Status)
    else None
  }

  /** At most the mark of kind `k`, at offset `m`. */
  function Only(k: Maybe<DataKind>, m: nat): (ms: Marks)
    ensures forall i :: m <= i ==> MarksBelow(ms, i)
  {
    if k.None? then NO_MARKS else SetMark(NO_MARKS, k.value, At(m))
  }

  datatype Marked = Marked(marks: Marks, calls: seq<Event>)

  /** Perform an arm's operation at offset `i` of `data`. */
  function DoOp(ms: Marks, op: Op, data: seq<Byte>, i: nat): (r: Marked)
    requires MarksBelow(ms, i) && i < |data|
    ensures MarksBelow(r.marks, i)
  {
    match op
    case Mark(k) => Marked(if GetMark(ms, k).Unset? then SetMark(ms, k, At(i)) else ms, [])
    case Flush(k) =>
      if GetMark(ms, k).Unset? then Marked(ms, [])
      else Marked(SetMark(ms, k, Unset), [Data(k, data[GetMark(ms, k).pos..i])])
    case FlushIncl(k) =>
      if GetMark(ms, k).Unset? then Marked(ms, [])
      else Marked(SetMark(ms, k, Unset), [Data(k, data[GetMark(ms, k).pos..i + 1])])
    case Notify(e) => Marked(ms, [e])
  }

  function DoOps(ms: Marks, ops: seq<Op>, data: seq<Byte>, i: nat): (r: Marked)
    requires MarksBelow(ms, i) && i < |data|
    ensures MarksBelow(r.marks, i)
    decreases |ops|
  {
    if ops == [] then Marked(ms, [])
    else
      var first := DoOp(ms, ops[0], data, i);
      var rest := DoOps(first.marks, ops[1..], data, i);
      Marked(rest.marks, first.calls + rest.calls)
  }

  function LeftOver(k: DataKind, m: Offset, data: seq<Byte>): seq<Event>
    requires Below(m, |data|)
  {
    if m.Unset? then [] else [Data(k, data[m.pos..])]
  }

  /** The callbacks for marks left when the buffer is used up. */
  function FlushAll(ms: Marks, data: seq<Byte>): seq<Event>
    requires MarksBelow(ms, |data|)
  {
    LeftOver(Field, ms.field, data) + LeftOver(Value, ms.value, data) + LeftOver(Url, ms.url, data)
    + LeftOver(Body, ms.body, data) + LeftOver(Status, ms.status, data)
  }

  /** Setting, reading and clearing the only mark. */
  lemma OnlyMark(k: DataKind, m: nat)
    ensures Only(None, m) == NO_MARKS && GetMark(NO_MARKS, k) == Unset
    ensures SetMark(NO_MARKS, k, At(m)) == Only(Some(k), m)
    ensures GetMark(Only(Some(k), m), k) == At(m)
    ensures SetMark(Only(Some(k), m), k, Unset) == NO_MARKS
  {
  }

  lemma PushesOne(log: seq<Event>, e: Event)
    ensures PushAll(log, [e]) == Push(log, e)
  {
    assert [e][1..] == [];
  }

  /** The only mark left at the end of a one-byte buffer reports that byte. */
  lemma OnlyLeft(k: DataKind, ch: Byte)
    ensures FlushAll(Only(Some(k), 0), [ch]) == [Data(k, [ch])]
  {
    assert [ch][0..] == [ch];
    assert LeftOver(k, At(0), [ch]) == [Data(k, [ch])];
    match k
    case Field =>
    case Value =>
    case Url =>
    case Body =>
    case Status =>
  }

  // ----- one byte, then many -----------------------------------------------

  /** `Stopped` is the exit after an upgrade, with the bytes left unread;
      `Broken` a reported error, with the refused byte and those behind it;
      `Trapped` a failed internal assertion. */
  datatype Result =
    | Running(p: Parser, log: seq<Event>)
    | Stopped(p: Parser, log: seq<Event>, rest: seq<Byte>)
    | Broken(error: Failure, rest: seq<Byte>)
    | Trapped

  /** COUNT_HEADER_SIZE(v) on the 32-bit counter. */
  function Counted(nread: nat, v: nat): nat { (nread + v) % MOD32 }

  function CountByte(p: Parser): Parser {
    if ParsingHeader(p.state) then p.(nread := Counted(p.nread, 1)) else p
  }

  predicate Overflows(max: nat, p: Parser) { ParsingHeader(p.state) && CountByte(p).nread > max }

  /** `http_parser_execute` on the one-byte buffer `[ch]`, in front of `rest`. */
  function Step(max: nat, p: Parser, log: seq<Event>, ch: Byte, rest: seq<Byte>): Result {
    if Overflows(max, p) then Broken(HEADER_OVERFLOW, [ch] + rest)
    else
      var a := OnByte(CountByte(p), ch);
      match a.out
      case Fail(e) => Broken(e, [ch] + rest)
      case Trap => Trapped
      case Leave => Stopped(a.p, PushAll(log, DoOps(Only(Resuming(p.state), 0), a.ops, [ch], 0).calls), rest)
      case Go =>
        var m := DoOps(Only(Resuming(p.state), 0), a.ops, [ch], 0);
        Running(a.p, PushAll(log, m.calls + FlushAll(m.marks, [ch])))
  }

  /** The bytes of `data`, one at a time, from parser `p` with merged log `log`. */
  function Run(max: nat, p: Parser, log: seq<Event>, data: seq<Byte>): Result
    decreases |data|
  {
    if data == [] then Running(p, log)
    else
      var r := Step(max, p, log, data[0], data[1..]);
      if r.Running? then Run(max, r.p, r.log, data[1..]) else r
  }

  /** `r` with `b` behind the bytes it was given. */
  function Onward(max: nat, r: Result, b: seq<Byte>): Result {
    match r
    case Running(p, log) => Run(max, p, log, b)
    case Stopped(p, log, rest) => Stopped(p, log, rest + b)
    case Broken(e, rest) => Broken(e, rest + b)
    case Trapped => Trapped
  }

  /** Feeding `a + b` is feeding `a` and then `b`. */
  lemma {:induction false} RunConcat(max: nat, p: Parser, log: seq<Event>, a: seq<Byte>, b: seq<Byte>)
    ensures Run(max, p, log, a + b) == Onward(max, Run(max, p, log, a), b)
    decreases |a|
  {
    if a == [] {
      assert a + b == b;
    } else {
      assert (a + b)[1..] == a[1..] + b;
      assert [a[0]] + a[1..] + b == [a[0]] + (a[1..] + b);
      var r := Step(max, p, log, a[0], a[1..]);
      if r.Running? {
        RunConcat(max, r.p, r.log, a[1..], b);
      }
    }
  }

  // ----- the parser at the start -------------------------------------------

  /** `http_parser_init`. */
  function Init(kind: Kind): Parser {
    Parser(kind, NO_FLAGS, if kind.Request? then StartReq else if kind.Response? then StartRes else StartReqOrRes,
           General, 0, false, 0, 0, 0, 0, 0, DELETE, false)
  }
}
