/** Whole I2C transfers, from start to stop: an address and its direction, the
    acknowledge, and what follows it. */
module I2cTransfer {
  import opened Basics
  import opened I2c

  // ----- what the slave does -----------------------------------------------

  /** The slave keeps SDA at `b` while SCL is high in a bit. */
  predicate Keeps(s: Slave, b: bool) { Lasts(s) && s.a[|s.a| - 1] == b && Rests(s.b, b) }

  /** It leaves SDA alone in a whole start or stop. */
  predicate Free(s: Slave) { Lasts(s) && Rests(s.a, true) && Rests(s.b, true) && Rests(s.c, true) }

  // ----- what the tokens say, one by one -----------------------------------

  /** Bits of the master, with the slave off the line. */
  predicate Sent(ins: seq<Input>) {
    forall k :: 0 <= k < |ins| ==> (ins[k].token == '0' || ins[k].token == '1') && Keeps(ins[k].slave, true)
  }

  /** Bits of the master, and acknowledges of the slave. */
  predicate Written(ins: seq<Input>) {
    forall k :: 0 <= k < |ins| ==>
      if ins[k].token == 'Z' then Keeps(ins[k].slave, false)
      else (ins[k].token == '0' || ins[k].token == '1') && Keeps(ins[k].slave, true)
  }

  function BitsWritten(ins: seq<Input>): seq<Symbol> {
    seq(|ins|, k requires 0 <= k < |ins| => Bit(ins[k].token == '1'))
  }

  function Acks(ins: seq<Input>): seq<char>
    decreases |ins|
  {
    if ins == [] then [] else Acks(ins[..|ins| - 1]) + if ins[|ins| - 1].token == 'Z' then ['A'] else []
  }

  /** Bits of the slave, acknowledges of the master, and tokens that mean nothing
      here, among them the bits of the master. */
  predicate Read(ins: seq<Input>) {
    forall k :: 0 <= k < |ins| ==>
      && ins[k].token != 'S' && ins[k].token != 'P' && ins[k].token != 'N' && Lasts(ins[k].slave)
      && (ins[k].token == 'Z' ==> Keeps(ins[k].slave, ins[k].slave.a[|ins[k].slave.a| - 1]))
      && (ins[k].token == 'A' ==> Keeps(ins[k].slave, true))
  }

  function BitsRead(ins: seq<Input>): seq<Symbol>
    requires AllLast(ins)
    decreases |ins|
  {
    if ins == [] then [] else
      var i := ins[|ins| - 1];
      BitsRead(ins[..|ins| - 1])
      + if i.token == 'Z' then [Bit(i.slave.a[|i.slave.a| - 1])] else if i.token == 'A' then [Bit(false)] else []
  }

  function CharsRead(ins: seq<Input>): seq<char>
    requires AllLast(ins)
    decreases |ins|
  {
    if ins == [] then [] else
      var i := ins[|ins| - 1];
      CharsRead(ins[..|ins| - 1]) + if i.token == 'Z' then (if i.slave.a[|i.slave.a| - 1] then ['1'] else ['0']) else []
  }

  /** Anything but a start and a stop, and a slave that does what it likes. */
  predicate Idle(ins: seq<Input>) {
    forall k :: 0 <= k < |ins| ==> ins[k].token != 'S' && ins[k].token != 'P' && Lasts(ins[k].slave)
  }

  // ----- the bus in the middle of a run ------------------------------------

  datatype Bus = Bus(e: Engine, v: bool, r: Receiver)

  ghost predicate Good(b: Bus) { InStep(b.e, b.v, b.r) }

  /** The tokens take the bus from `b` to `q`; the receiver sees `w`, and `c` is
      reported. */
  ghost predicate Goes(b: Bus, ins: seq<Input>, w: seq<Symbol>, c: seq<char>, q: Bus)
    requires AllLast(ins)
  {
    && Good(q) && q.e == EngineAfter(b.e, ins) && q.r == Watch(b.r, WireOf(b.e, ins))
    && Decode(b.r, WireOf(b.e, ins)) == w && ReportsOf(b.e, ins) == c
  }

  lemma {:induction false} RunsConcat(e: Engine, x: seq<Input>, y: seq<Input>)
    requires AllLast(x) && AllLast(y)
    ensures AllLast(x + y)
    ensures var q := EngineAfter(e, x);
      && EngineAfter(e, x + y) == EngineAfter(q, y) && WireOf(e, x + y) == WireOf(e, x) + WireOf(q, y)
      && ReportsOf(e, x + y) == ReportsOf(e, x) + ReportsOf(q, y)
    decreases |y|
  {
    hide EngineAfter, WireOf, ReportsOf, Lasts;
    var q := EngineAfter(e, x);
    if y == [] {
      assert x + y == x;
      NoInputs(q);
    } else {
      var init, i := y[..|y| - 1], y[|y| - 1];
      RunsConcat(e, x, init);
      assert x + y == (x + init) + [i] && y == init + [i];
      RunSnoc(e, x + init, i);
      RunSnoc(q, init, i);
    }
  }

  lemma NoInputs(e: Engine)
    ensures EngineAfter(e, []) == e && WireOf(e, []) == [] && ReportsOf(e, []) == []
  {
  }

  lemma RunSnoc(e: Engine, x: seq<Input>, i: Input)
    requires AllLast(x) && Lasts(i.slave)
    ensures AllLast(x + [i])
    ensures var q := EngineAfter(e, x);
      && EngineAfter(e, x + [i]) == Step(q, i) && WireOf(e, x + [i]) == WireOf(e, x) + Wire(q, i)
      && ReportsOf(e, x + [i]) == ReportsOf(e, x) + Reported(Report(q, i))
  {
    hide Step, Wire, Report, Lasts;
    assert (x + [i])[..|x|] == x;
  }

  lemma Joins(b: Bus, x: seq<Input>, w: seq<Symbol>, c: seq<char>, q: Bus, y: seq<Input>, w': seq<Symbol>, c': seq<char>, q': Bus)
    requires AllLast(x) && AllLast(y) && Goes(b, x, w, c, q) && Goes(q, y, w', c', q')
    ensures AllLast(x + y) && Goes(b, x + y, w + w', c + c', q')
  {
    hide Good, EngineAfter, WireOf, ReportsOf, Watch, Decode;
    RunsConcat(b.e, x, y);
    WatchConcat(b.r, WireOf(b.e, x), WireOf(q.e, y));
  }

  lemma NothingGoes(b: Bus)
    requires Good(b)
    ensures Goes(b, [], [], [], b)
  {
    hide Good;
    NothingSeen(b.r);
  }

  function Reported(m: Maybe<char>): seq<char> { if m.Some? then [m.value] else [] }

  lemma OneToken(b: Bus, i: Input) returns (q: Bus)
    requires Good(b) && Lasts(i.slave) && Stable(b.e, b.v, i)
    ensures Goes(b, [i], Shown(b.e, i), Reported(Report(b.e, i)), q) && q.e == Step(b.e, i) && q.v == LevelAfter(b.e, b.v, i)
  {
    hide Watch, Decode, Step, Shown, Stable, InStep, LevelAfter, Wire, Report;
    var ins := [i];
    assert ins[..0] == [];
    TokenShown(b.e, b.v, b.r, i);
    assert EngineAfter(b.e, ins[..0]) == b.e && WireOf(b.e, ins[..0]) == [] && ReportsOf(b.e, ins[..0]) == [];
    assert WireOf(b.e, ins) == [] + Wire(b.e, i) == Wire(b.e, i);
    assert ReportsOf(b.e, ins) == [] + Reported(Report(b.e, i)) == Reported(Report(b.e, i));
    q := Bus(Step(b.e, i), LevelAfter(b.e, b.v, i), Watch(b.r, Wire(b.e, i)));
  }

  // ----- bits --------------------------------------------------------------

  lemma BitOf(b: Bus, i: Input) returns (q: Bus)
    requires Good(b) && (b.e.mode.DEVID? || b.e.mode.WRITING?) && !b.e.scl
    requires (i.token == '0' || i.token == '1') && Keeps(i.slave, true)
    ensures Goes(b, [i], [Bit(i.token == '1')], [], q) && q.e.mode == b.e.mode && q.e.rwbit == (i.token == '1') && !q.e.scl
  {
    hide Goes;
    q := OneToken(b, i);
  }

  lemma {:induction false} SentGoes(b: Bus, ins: seq<Input>) returns (q: Bus)
    requires Good(b) && (b.e.mode.DEVID? || b.e.mode.WRITING?) && !b.e.scl && Sent(ins)
    ensures AllLast(ins) && Goes(b, ins, BitsWritten(ins), [], q) && q.e.mode == b.e.mode && !q.e.scl
    decreases |ins|
  {
    hide Goes, Keeps;
    SentLasts(ins);
    if ins == [] {
      NothingGoes(b);
      assert BitsWritten(ins) == [];
      q := b;
    } else {
      var init, i := ins[..|ins| - 1], ins[|ins| - 1];
      var p := SentGoes(b, init);
      GoesGood(b, init, BitsWritten(init), [], p);
      q := BitOf(p, i);
      var c: seq<char> := [];
      Joins(b, init, BitsWritten(init), c, p, [i], [Bit(i.token == '1')], c, q);
      assert c + c == c;
      assert init + [i] == ins && BitsWritten(init) + [Bit(i.token == '1')] == BitsWritten(ins);
    }
  }

  lemma SentLasts(ins: seq<Input>)
    requires Sent(ins)
    ensures AllLast(ins)
  {
  }

  lemma GoesGood(b: Bus, ins: seq<Input>, w: seq<Symbol>, c: seq<char>, q: Bus)
    requires AllLast(ins) && Goes(b, ins, w, c, q)
    ensures Good(q)
  {
  }

  /** What the slave's answer makes of the mode. */
  lemma AnswerOf(b: Bus, i: Input, ack: bool) returns (q: Bus)
    requires Good(b) && (b.e.mode.DEVID? || b.e.mode.WRITING?) && !b.e.scl && i.token == 'Z' && Keeps(i.slave, !ack)
    ensures Goes(b, [i], [Bit(!ack)], if ack then ['A'] else ['N'], q) && !q.e.scl
    ensures q.e.mode == if !ack then IDLE else if b.e.mode.WRITING? || !b.e.rwbit then WRITING else READING
  {
    hide Goes;
    q := OneToken(b, i);
  }

  lemma {:induction false} WrittenGoes(b: Bus, ins: seq<Input>) returns (q: Bus)
    requires Good(b) && b.e.mode.WRITING? && !b.e.scl && Written(ins)
    ensures AllLast(ins) && Goes(b, ins, BitsWritten(ins), Acks(ins), q) && q.e.mode.WRITING? && !q.e.scl
    decreases |ins|
  {
    hide Goes, Keeps;
    WrittenLasts(ins);
    if ins == [] {
      NothingGoes(b);
      assert BitsWritten(ins) == [];
      q := b;
    } else {
      var init, i := ins[..|ins| - 1], ins[|ins| - 1];
      var p := WrittenGoes(b, init);
      GoesGood(b, init, BitsWritten(init), Acks(init), p);
      var c: seq<char> := [];
      if i.token == 'Z' {
        q := AnswerOf(p, i, true);
        c := ['A'];
      } else {
        q := BitOf(p, i);
      }
      Joins(b, init, BitsWritten(init), Acks(init), p, [i], [Bit(i.token == '1')], c, q);
      assert init + [i] == ins && BitsWritten(init) + [Bit(i.token == '1')] == BitsWritten(ins);
    }
  }

  lemma WrittenLasts(ins: seq<Input>)
    requires Written(ins)
    ensures AllLast(ins)
  {
  }

  function ReadSymbols(i: Input): seq<Symbol>
    requires Lasts(i.slave)
  {
    if i.token == 'Z' then [Bit(i.slave.a[|i.slave.a| - 1])] else if i.token == 'A' then [Bit(false)] else []
  }

  function ReadChars(i: Input): seq<char>
    requires Lasts(i.slave)
  {
    if i.token == 'Z' then (if i.slave.a[|i.slave.a| - 1] then ['1'] else ['0']) else []
  }

  lemma ReadOne(b: Bus, i: Input) returns (q: Bus)
    requires Good(b) && b.e.mode.READING? && !b.e.scl && Read([i])
    ensures Lasts(i.slave) && Goes(b, [i], ReadSymbols(i), ReadChars(i), q) && q.e.mode.READING? && !q.e.scl
  {
    hide Goes;
    assert [i][0] == i;
    q := OneToken(b, i);
  }

  lemma {:induction false} ReadGoes(b: Bus, ins: seq<Input>) returns (q: Bus)
    requires Good(b) && b.e.mode.READING? && !b.e.scl && Read(ins)
    ensures AllLast(ins) && Goes(b, ins, BitsRead(ins), CharsRead(ins), q) && q.e.mode.READING? && !q.e.scl
    decreases |ins|
  {
    hide Goes, Keeps, Lasts;
    if ins == [] {
      NothingGoes(b);
      q := b;
    } else {
      var init, i := ins[..|ins| - 1], ins[|ins| - 1];
      var p := ReadGoes(b, init);
      GoesGood(b, init, BitsRead(init), CharsRead(init), p);
      q := ReadOne(p, i);
      Joins(b, init, BitsRead(init), CharsRead(init), p, [i], ReadSymbols(i), ReadChars(i), q);
      assert init + [i] == ins;
    }
  }

  /** On an idle engine nothing happens, whatever the tokens. */
  lemma IdleOne(b: Bus, i: Input) returns (q: Bus)
    requires Good(b) && b.e.mode.IDLE? && i.token != 'S' && i.token != 'P' && Lasts(i.slave)
    ensures Goes(b, [i], [], [], q) && q.e == b.e
  {
    hide Goes;
    q := OneToken(b, i);
  }

  lemma {:induction false} IdleGoes(b: Bus, ins: seq<Input>) returns (q: Bus)
    requires Good(b) && b.e.mode.IDLE? && Idle(ins)
    ensures AllLast(ins) && Goes(b, ins, [], [], q) && q.e == b.e
    decreases |ins|
  {
    hide Goes, Lasts;
    if ins == [] {
      NothingGoes(b);
      q := b;
    } else {
      var init, i := ins[..|ins| - 1], ins[|ins| - 1];
      var p := IdleGoes(b, init);
      GoesGood(b, init, [], [], p);
      q := IdleOne(p, i);
      var w: seq<Symbol>, c: seq<char> := [], [];
      Joins(b, init, w, c, p, [i], w, c, q);
      assert w + w == w && c + c == c;
      assert init + [i] == ins;
    }
  }

  // ----- whole transfers ---------------------------------------------------

  /** A start, and the address with its direction. */
  predicate Opening(start: Input, addr: seq<Input>, dir: Input) {
    && start.token == 'S' && Free(start.slave)
    && Sent(addr) && (dir.token == '0' || dir.token == '1') && Keeps(dir.slave, true)
  }

  function OpeningBits(addr: seq<Input>, dir: Input): seq<Symbol> { [Start] + BitsWritten(addr) + [Bit(dir.token == '1')] }

  ghost predicate FreeBus(b: Bus) { Good(b) && b.e.mode.IDLE? && b.e.scl && b.v }

  /** A start can come at any time, also in the middle of a transfer, while the slave
      is off the line. */
  ghost predicate Ready(b: Bus) { Good(b) && b.v }

  lemma OpeningGoes(b: Bus, start: Input, addr: seq<Input>, dir: Input) returns (q: Bus)
    requires Ready(b) && Opening(start, addr, dir)
    ensures AllLast([start] + addr + [dir]) && Goes(b, [start] + addr + [dir], OpeningBits(addr, dir), [], q)
    ensures q.e.mode.DEVID? && q.e.rwbit == (dir.token == '1') && !q.e.scl
  {
    hide Goes, Good, BitsWritten;
    SentLasts(addr);
    var c: seq<char> := [];
    assert c + c == c;
    var q0 := StartOf(b, start);
    GoesGood(b, [start], [Start], c, q0);
    var q1 := SentGoes(q0, addr);
    GoesGood(q0, addr, BitsWritten(addr), c, q1);
    Joins(b, [start], [Start], c, q0, addr, BitsWritten(addr), c, q1);
    q := BitOf(q1, dir);
    Joins(b, [start] + addr, [Start] + BitsWritten(addr), c, q1, [dir], [Bit(dir.token == '1')], c, q);
  }

  lemma StartOf(b: Bus, i: Input) returns (q: Bus)
    requires Ready(b) && i.token == 'S' && Free(i.slave)
    ensures Goes(b, [i], [Start], [], q) && q.e.mode.DEVID? && !q.e.scl
  {
    hide Goes;
    q := OneToken(b, i);
  }

  lemma StopOf(b: Bus, i: Input) returns (q: Bus)
    requires Good(b) && !b.e.scl && i.token == 'P' && Free(i.slave)
    ensures Goes(b, [i], [Stop], [], q) && FreeBus(q)
  {
    hide Goes;
    q := OneToken(b, i);
    GoesGood(b, [i], Shown(b.e, i), Reported(Report(b.e, i)), q);
  }

  /** A stop behind a run that leaves SCL low. */
  lemma Closes(b: Bus, ins: seq<Input>, w: seq<Symbol>, c: seq<char>, q: Bus, stop: Input) returns (q': Bus)
    requires AllLast(ins) && Goes(b, ins, w, c, q) && !q.e.scl && stop.token == 'P' && Free(stop.slave)
    ensures AllLast(ins + [stop]) && Goes(b, ins + [stop], w + [Stop], c, q') && FreeBus(q')
  {
    hide Goes, Good;
    GoesGood(b, ins, w, c, q);
    q' := StopOf(q, stop);
    var none: seq<char> := [];
    Joins(b, ins, w, c, q, [stop], [Stop], none, q');
    assert c + none == c;
  }

  /** A write: behind an acknowledged address with direction 0 the bits go onto the
      bus as they are, byte after acknowledged byte, up to the stop. */
  lemma WriteTransfer(b: Bus, start: Input, addr: seq<Input>, dir: Input, ack: Input, data: seq<Input>, stop: Input) returns (q: Bus)
    requires Ready(b) && Opening(start, addr, dir) && dir.token == '0' && ack.token == 'Z' && Keeps(ack.slave, false)
    requires Written(data) && stop.token == 'P' && Free(stop.slave)
    ensures var ins := [start] + addr + [dir] + [ack] + data + [stop];
      && AllLast(ins) && FreeBus(q)
      && Goes(b, ins, OpeningBits(addr, dir) + [Bit(false)] + BitsWritten(data) + [Stop], ['A'] + Acks(data), q)
  {
    hide Goes, Good, BitsWritten, Opening, OpeningBits;
    WrittenLasts(data);
    var c: seq<char> := [];
    var w := OpeningBits(addr, dir);
    var q1 := OpeningGoes(b, start, addr, dir);
    GoesGood(b, [start] + addr + [dir], w, c, q1);
    var q2 := AnswerOf(q1, ack, true);
    assert c + ['A'] == ['A'];
    Joins(b, [start] + addr + [dir], w, c, q1, [ack], [Bit(false)], ['A'], q2);
    GoesGood(q1, [ack], [Bit(false)], ['A'], q2);
    var q3 := WrittenGoes(q2, data);
    Joins(b, [start] + addr + [dir] + [ack], w + [Bit(false)], ['A'], q2, data, BitsWritten(data), Acks(data), q3);
    q := Closes(b, [start] + addr + [dir] + [ack] + data, w + [Bit(false)] + BitsWritten(data), ['A'] + Acks(data), q3, stop);
  }

  /** A read: behind an acknowledged address with direction 1 the slave's bits are
      seen and reported, the master acknowledges, and its own bits do nothing; after
      its refusal nothing does, up to the stop. */
  lemma ReadTransfer(b: Bus, start: Input, addr: seq<Input>, dir: Input, ack: Input, data: seq<Input>, last: Input, idle: seq<Input>, stop: Input)
      returns (q: Bus)
    requires Ready(b) && Opening(start, addr, dir) && dir.token == '1' && ack.token == 'Z' && Keeps(ack.slave, false)
    requires Read(data) && last.token == 'N' && Keeps(last.slave, true) && Idle(idle) && stop.token == 'P' && Free(stop.slave)
    ensures AllLast(data)
    ensures var ins := [start] + addr + [dir] + [ack] + data + [last] + idle + [stop];
      && AllLast(ins) && FreeBus(q)
      && Goes(b, ins, OpeningBits(addr, dir) + [Bit(false)] + BitsRead(data) + [Bit(true)] + [Stop], ['A'] + CharsRead(data), q)
  {
    hide Goes, Good, Opening, OpeningBits, Read, Lasts, Idle;
    var c: seq<char> := [];
    var w := OpeningBits(addr, dir);
    var q1 := OpeningGoes(b, start, addr, dir);
    GoesGood(b, [start] + addr + [dir], w, c, q1);
    var q2 := AnswerOf(q1, ack, true);
    assert c + ['A'] == ['A'];
    Joins(b, [start] + addr + [dir], w, c, q1, [ack], [Bit(false)], ['A'], q2);
    GoesGood(q1, [ack], [Bit(false)], ['A'], q2);
    var q3 := ReadGoes(q2, data);
    var head := [start] + addr + [dir] + [ack] + data;
    var u, d := w + [Bit(false)] + BitsRead(data), ['A'] + CharsRead(data);
    Joins(b, [start] + addr + [dir] + [ack], w + [Bit(false)], ['A'], q2, data, BitsRead(data), CharsRead(data), q3);
    q := Refused(b, head, u, d, q3, last, idle, stop);
  }

  /** The master refuses more; what follows does nothing. */
  lemma Refused(b: Bus, head: seq<Input>, u: seq<Symbol>, d: seq<char>, q: Bus, last: Input, idle: seq<Input>, stop: Input) returns (q': Bus)
    requires AllLast(head) && Goes(b, head, u, d, q) && q.e.mode.READING? && !q.e.scl
    requires last.token == 'N' && Keeps(last.slave, true) && Idle(idle) && stop.token == 'P' && Free(stop.slave)
    ensures AllLast(head + [last] + idle + [stop]) && FreeBus(q')
    ensures Goes(b, head + [last] + idle + [stop], u + [Bit(true)] + [Stop], d, q')
  {
    hide Goes, Good;
    GoesGood(b, head, u, d, q);
    var c: seq<char>, none: seq<Symbol> := [], [];
    var q1 := LastOf(q, last);
    GoesGood(q, [last], [Bit(true)], c, q1);
    Joins(b, head, u, d, q, [last], [Bit(true)], c, q1);
    var q2 := IdleGoes(q1, idle);
    Joins(b, head + [last], u + [Bit(true)], d + c, q1, idle, none, c, q2);
    assert d + c + c == d && u + [Bit(true)] + none == u + [Bit(true)];
    q' := Closes(b, head + [last] + idle, u + [Bit(true)], d, q2, stop);
  }

  lemma LastOf(b: Bus, i: Input) returns (q: Bus)
    requires Good(b) && b.e.mode.READING? && !b.e.scl && i.token == 'N' && Keeps(i.slave, true)
    ensures Goes(b, [i], [Bit(true)], [], q) && q.e.mode.IDLE? && !q.e.scl
  {
    hide Goes;
    q := OneToken(b, i);
  }

  /** A refused address: whatever is sent up to the stop is not put on the bus. */
  lemma RefusedTransfer(b: Bus, start: Input, addr: seq<Input>, dir: Input, nak: Input, idle: seq<Input>, stop: Input) returns (q: Bus)
    requires Ready(b) && Opening(start, addr, dir) && nak.token == 'Z' && Keeps(nak.slave, true)
    requires Idle(idle) && stop.token == 'P' && Free(stop.slave)
    ensures var ins := [start] + addr + [dir] + [nak] + idle + [stop];
      AllLast(ins) && FreeBus(q) && Goes(b, ins, OpeningBits(addr, dir) + [Bit(true)] + [Stop], ['N'], q)
  {
    hide Goes, Good, Opening, OpeningBits;
    var c: seq<char>, none: seq<Symbol> := [], [];
    var w := OpeningBits(addr, dir);
    var q1 := OpeningGoes(b, start, addr, dir);
    GoesGood(b, [start] + addr + [dir], w, c, q1);
    var q2 := AnswerOf(q1, nak, false);
    GoesGood(q1, [nak], [Bit(true)], ['N'], q2);
    Joins(b, [start] + addr + [dir], w, c, q1, [nak], [Bit(true)], ['N'], q2);
    var q3 := IdleGoes(q2, idle);
    Joins(b, [start] + addr + [dir] + [nak], w + [Bit(true)], c + ['N'], q2, idle, none, c, q3);
    assert c + ['N'] + c == ['N'] && w + [Bit(true)] + none == w + [Bit(true)];
    q := Closes(b, [start] + addr + [dir] + [nak] + idle, w + [Bit(true)], ['N'], q3, stop);
  }

  /** The bus at power-up. */
  lemma PowerUp(garbage: bool)
    ensures FreeBus(Bus(Engine(IDLE, garbage, true, true), true, Receiver(true, true, None)))
  {
  }
}
