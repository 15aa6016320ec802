/** The I2C bit engine: tokens become levels on two open-drain lines, and a
    receiver that knows only the lines recovers the tokens. */
module I2c {
  import opened Basics

  datatype Mode = IDLE | DEVID | READING | WRITING

  /** The engine between tokens; a line is true when the engine lets go of it. */
  datatype Engine = Engine(mode: Mode, rwbit: bool, scl: bool, sda: bool)

  datatype Level = Level(scl: bool, sda: bool)

  /** The levels the slave puts on SDA during each of the three phases of a
      token; it may change as often as it likes while SCL is low. */
  datatype Slave = Slave(a: seq<bool>, b: seq<bool>, c: seq<bool>)

  predicate Lasts(s: Slave) { s.a != [] && s.b != [] && s.c != [] }

  datatype Input = Input(token: char, slave: Slave)

  // ----- the waveform of a token -------------------------------------------

  /** The engine drives SDA low for the bit. */
  predicate LowBit(e: Engine, p: char) {
    ((e.mode.DEVID? || e.mode.WRITING?) && p == '0') || (e.mode.READING? && p == 'A')
  }

  /** The engine leaves SDA to the pull-up or the slave for the bit. */
  predicate FreeBit(e: Engine, p: char) {
    ((e.mode.DEVID? || e.mode.WRITING?) && (p == '1' || p == 'Z')) || (e.mode.READING? && (p == 'N' || p == 'Z'))
  }

  predicate Acts(e: Engine, p: char) { p == 'S' || p == 'P' || LowBit(e, p) || FreeBit(e, p) }

  /** What the engine puts on the lines, phase by phase. */
  function Drive(e: Engine, p: char): (d: (Level, Level, Level))
    requires Acts(e, p)
  {
    if p == 'S' then (Level(true, true), Level(true, false), Level(false, false))
    else if p == 'P' then (Level(e.scl, false), Level(true, false), Level(true, true))
    else if LowBit(e, p) then (Level(e.scl, false), Level(true, false), Level(false, false))
    else (Level(e.scl, true), Level(true, true), Level(false, true))
  }

  /** The lines during a phase: SDA is low if either side pulls it. */
  function Hold(d: Level, s: seq<bool>): (w: seq<Level>)
    ensures |w| == |s|
  {
    seq(|s|, k requires 0 <= k < |s| => Level(d.scl, d.sda && s[k]))
  }

  function Phases(d: (Level, Level, Level), s: Slave): seq<Level> {
    Hold(d.0, s.a) + Hold(d.1, s.b) + Hold(d.2, s.c)
  }

  function Wire(e: Engine, i: Input): seq<Level> {
    if Acts(e, i.token) then Phases(Drive(e, i.token), i.slave) else []
  }

  /** The level the engine samples as it lets SCL go. */
  function Sample(e: Engine, i: Input): bool
    requires Lasts(i.slave)
  {
    i.slave.a[|i.slave.a| - 1]
  }

  function Step(e: Engine, i: Input): Engine
    requires Lasts(i.slave)
  {
    var p := i.token;
    if !Acts(e, p) then e
    else if p == 'S' then Engine(DEVID, e.rwbit, false, false)
    else if p == 'P' then Engine(IDLE, e.rwbit, true, true)
    else if e.mode.READING? then Engine(if p == 'N' then IDLE else READING, e.rwbit, false, p != 'A')
    else if p == 'Z' then
      Engine(if Sample(e, i) then IDLE else if (e.mode.DEVID? && !e.rwbit) || e.mode.WRITING? then WRITING else READING,
             e.rwbit, false, true)
    else Engine(e.mode, p == '1', false, p == '1')
  }

  /** What the engine reports back. */
  function Report(e: Engine, i: Input): Maybe<char>
    requires Lasts(i.slave)
  {
    if i.token != 'Z' || !FreeBit(e, 'Z') then None
    else if e.mode.READING? then Some(if Sample(e, i) then '1' else '0')
    else Some(if Sample(e, i) then 'N' else 'A')
  }

  class I2cEngine {
    var state: Mode
    var rwbit: bool
    var sdaEn: bool  // SDA is pulled low
    var sclEn: bool  // SCL is pulled low
    var lines: seq<Level>  // what was on the lines so far

    function Now(): Engine
      reads this
    {
      Engine(state, rwbit, !sclEn, !sdaEn)
    }

    /** `rwbit` starts with whatever is in its storage. */
    constructor (garbage: bool)
      ensures Now() == Engine(IDLE, garbage, true, true) && lines == []
    {
      state, rwbit, sdaEn, sclEn, lines := IDLE, garbage, false, false, [];
    }

    /** Time passes; the slave does as it pleases. */
    method Wait(slave: seq<bool>)
      modifies this`lines
      ensures lines == old(lines) + Hold(Level(!sclEn, !sdaEn), slave)
    {
      lines := lines + Hold(Level(!sclEn, !sdaEn), slave);
    }

    /** Three phases, given by the lines pulled low; what comes before the first
        change belongs to the last phase of the token before. */
    method Play(d: (Level, Level, Level), s: Slave)
      modifies this`sdaEn, this`sclEn, this`lines
      ensures Now() == old(Now()).(scl := d.2.scl, sda := d.2.sda)
      ensures lines == old(lines) + Phases(d, s)
    {
      hide Hold;
      sdaEn, sclEn := !d.0.sda, !d.0.scl;
      Wait(s.a);
      sdaEn, sclEn := !d.1.sda, !d.1.scl;
      Wait(s.b);
      sdaEn, sclEn := !d.2.sda, !d.2.scl;
      Wait(s.c);
      Regroup(old(lines), Hold(d.0, s.a), Hold(d.1, s.b), Hold(d.2, s.c));
    }

    /** Put SDA where it belongs, then tick the clock. */
    method Bit(low: bool, s: Slave)
      modifies this`sdaEn, this`sclEn, this`lines
      ensures Now() == old(Now()).(scl := false, sda := !low)
      ensures lines == old(lines) + Phases((Level(old(Now()).scl, !low), Level(true, !low), Level(false, !low)), s)
    {
      Play((Level(!sclEn, !low), Level(true, !low), Level(false, !low)), s);
    }

    /** One round of the engine's loop. */
    method Transfer(i: Input) returns (from: Maybe<char>)
      requires Lasts(i.slave)
      modifies this
      ensures Now() == Step(old(Now()), i)
      ensures lines == old(lines) + Wire(old(Now()), i)
      ensures from == Report(old(Now()), i)
    {
      var p, s := i.token, i.slave;
      from := None;
      hide Phases;
      if p == 'S' {
        Play((Level(true, true), Level(true, false), Level(false, false)), s);
        state := DEVID;
      } else if p == 'P' {
        Play((Level(!sclEn, false), Level(true, false), Level(true, true)), s);
        state := IDLE;
      } else if state == DEVID || state == WRITING {
        if p == '1' || p == '0' {
          Bit(p == '0', s);
          rwbit := p == '1';
        } else if p == 'Z' {
          Bit(false, s);
          var sda := s.a[|s.a| - 1];
          if sda {
            from, state := Some('N'), IDLE;
          } else {
            from := Some('A');
            state := if (state == DEVID && !rwbit) || state == WRITING then WRITING else READING;
          }
        }
      } else if state == READING {
        if p == 'N' {
          Bit(false, s);
          state := IDLE;
        } else if p == 'A' {
          Bit(true, s);
        } else if p == 'Z' {
          Bit(false, s);
          var sda := s.a[|s.a| - 1];
          from := Some(if sda then '1' else '0');
        }
      }
    }

    /** The engine's loop over a stream of tokens. */
    method Run(ins: seq<Input>) returns (from: seq<char>)
      requires AllLast(ins)
      modifies this
      ensures Now() == EngineAfter(old(Now()), ins)
      ensures lines == old(lines) + WireOf(old(Now()), ins)
      ensures from == ReportsOf(old(Now()), ins)
    {
      hide Step, Wire, Report;
      from := [];
      for k := 0 to |ins|
        invariant Now() == EngineAfter(old(Now()), ins[..k])
        invariant lines == old(lines) + WireOf(old(Now()), ins[..k])
        invariant from == ReportsOf(old(Now()), ins[..k])
      {
        assert ins[..k + 1][..k] == ins[..k] && ins[..k + 1][k] == ins[k];
        assert Lasts(ins[k].slave);
        var c := Transfer(ins[k]);
        if c.Some? {
          from := from + [c.value];
        }
      }
      assert ins[..|ins|] == ins;
    }
  }

  lemma Regroup(l: seq<Level>, a: seq<Level>, b: seq<Level>, c: seq<Level>)
    ensures l + a + b + c == l + (a + b + c)
  {
  }

  // ----- a receiver --------------------------------------------------------

  datatype Symbol = Start | Stop | Bit(value: bool)

  /** The lines as last seen, and the bit latched when SCL rose. */
  datatype Receiver = Receiver(scl: bool, sda: bool, latched: Maybe<bool>)

  function Look(r: Receiver, l: Level): Receiver {
    Receiver(l.scl, l.sda,
             if !r.scl && l.scl then Some(l.sda)
             else if r.scl && l.scl && r.sda == l.sda then r.latched
             else None)
  }

  function Sees(r: Receiver, l: Level): seq<Symbol> {
    if r.scl && !l.scl && r.latched.Some? then [Bit(r.latched.value)]
    else if r.scl && l.scl && r.sda && !l.sda then [Start]
    else if r.scl && l.scl && !r.sda && l.sda then [Stop]
    else []
  }

  function Watch(r: Receiver, w: seq<Level>): Receiver
    decreases |w|
  {
    if w == [] then r else Look(Watch(r, w[..|w| - 1]), w[|w| - 1])
  }

  function Decode(r: Receiver, w: seq<Level>): seq<Symbol>
    decreases |w|
  {
    if w == [] then [] else Decode(r, w[..|w| - 1]) + Sees(Watch(r, w[..|w| - 1]), w[|w| - 1])
  }

  lemma {:induction false} WatchConcat(r: Receiver, v: seq<Level>, w: seq<Level>)
    ensures Watch(r, v + w) == Watch(Watch(r, v), w)
    ensures Decode(r, v + w) == Decode(r, v) + Decode(Watch(r, v), w)
    decreases |w|
  {
    hide Look, Sees;
    if w == [] {
      assert v + w == v;
    } else {
      var n := |w| - 1;
      assert (v + w)[..|v + w| - 1] == v + w[..n];
      WatchConcat(r, v, w[..n]);
    }
  }

  /** While SCL is low the receiver only follows SDA. */
  lemma {:induction false} LowPhase(r: Receiver, d: Level, s: seq<bool>)
    requires s != [] && !d.scl
    ensures Watch(r, Hold(d, s)) == Receiver(false, d.sda && s[|s| - 1], None)
    ensures Decode(r, Hold(d, s)) == Sees(r, Level(d.scl, d.sda && s[0]))
    decreases |s|
  {
    var n := |s| - 1;
    assert Hold(d, s)[..n] == Hold(d, s[..n]);
    if n > 0 {
      LowPhase(r, d, s[..n]);
    }
  }

  /** While SCL is high and SDA rests, the receiver sees what it saw first. */
  lemma {:induction false} HighPhase(r: Receiver, d: Level, s: seq<bool>, v: bool)
    requires s != [] && d.scl && forall k :: 0 <= k < |s| ==> s[k] == v
    ensures Watch(r, Hold(d, s)) == Look(r, Level(true, d.sda && v))
    ensures Decode(r, Hold(d, s)) == Sees(r, Level(true, d.sda && v))
    decreases |s|
  {
    var n := |s| - 1;
    assert Hold(d, s)[..n] == Hold(d, s[..n]);
    if n > 0 {
      HighPhase(r, d, s[..n], v);
    }
  }

  // ----- tokens recovered --------------------------------------------------

  predicate Rests(s: seq<bool>, v: bool) { forall k :: 0 <= k < |s| ==> s[k] == v }

  /** The slave's last level in a token. */
  function LastLevel(i: Input): bool
    requires Lasts(i.slave)
  {
    i.slave.c[|i.slave.c| - 1]
  }

  /** The slave does not change its level while SCL is high, nor as it rises:
      `v` is its level before the token. */
  predicate Stable(e: Engine, v: bool, i: Input)
    requires Lasts(i.slave)
  {
    Acts(e, i.token) ==>
      var d, s := Drive(e, i.token), i.slave;
      && (d.0.scl ==> Rests(s.a, v))
      && Rests(s.b, s.a[|s.a| - 1])
      && (d.2.scl ==> Rests(s.c, s.b[|s.b| - 1]))
  }

  /** What a token says on the bus; a released bit is the slave's. */
  function Meaning(e: Engine, i: Input): seq<Symbol>
    requires Lasts(i.slave)
  {
    if i.token == 'S' then [Start]
    else if i.token == 'P' then [Stop]
    else if LowBit(e, i.token) then [Bit(false)]
    else if FreeBit(e, i.token) then [Bit(Sample(e, i))]
    else []
  }

  /** A token that the lines can show: the slave leaves SDA alone where the master
      signals, and a stop comes while the bus is held. */
  predicate Sound(e: Engine, i: Input)
    requires Lasts(i.slave)
  {
    (i.token == 'S' || i.token == 'P' ==> Sample(e, i)) && !(i.token == 'P' && e.scl)
  }

  /** What a token shows on the lines. A slave that holds SDA low turns a start into
      a low bit and hides a stop; a stop on an idle bus pulls SDA low first, which
      is a start. */
  function Shown(e: Engine, i: Input): seq<Symbol>
    requires Lasts(i.slave)
  {
    if i.token == 'S' && !Sample(e, i) then [Bit(false)]
    else if i.token == 'P' && !Sample(e, i) then []
    else if i.token == 'P' && e.scl then [Start, Stop]
    else Meaning(e, i)
  }

  /** A token shows what it means if and only if it is sound. */
  lemma ShownIff(e: Engine, i: Input)
    requires Lasts(i.slave)
    ensures Shown(e, i) == Meaning(e, i) <==> Sound(e, i)
  {
    assert [Start, Stop] != [Stop];
  }

  /** Between tokens: the receiver agrees with the lines, SCL is high only on an
      idle bus, and nothing is latched but a stop that the slave has hidden. */
  predicate InStep(e: Engine, v: bool, r: Receiver) {
    && r == Receiver(e.scl, e.sda && v, if e.scl && !v then Some(false) else None)
    && (e.scl ==> e.mode.IDLE? && e.sda)
  }

  function LevelAfter(e: Engine, v: bool, i: Input): bool
    requires Lasts(i.slave)
  {
    if Acts(e, i.token) then LastLevel(i) else v
  }

  /** The three phases of a token as three looks of the receiver. */
  lemma ThreeLooks(e: Engine, v: bool, r: Receiver, i: Input)
    requires Lasts(i.slave) && InStep(e, v, r) && Acts(e, i.token) && Stable(e, v, i)
    ensures var d, u := Drive(e, i.token), Sample(e, i);
      var r1 := if d.0.scl then Look(r, Level(true, d.0.sda && u)) else Receiver(false, d.0.sda && u, None);
      var r2 := Look(r1, Level(true, d.1.sda && u));
      var a := Sees(r, Level(d.0.scl, d.0.sda && i.slave.a[0]));
      && Watch(r, Wire(e, i)) == (if d.2.scl then Look(r2, Level(true, d.2.sda && u)) else Receiver(false, d.2.sda && LastLevel(i), None))
      && Decode(r, Wire(e, i)) == a + Sees(r1, Level(true, d.1.sda && u)) + Sees(r2, Level(d.2.scl, d.2.sda && if d.2.scl then u else i.slave.c[0]))
  {
    hide Watch, Decode, Look, Sees;
    var d, s, u := Drive(e, i.token), i.slave, Sample(e, i);
    WatchConcat(r, Hold(d.0, s.a) + Hold(d.1, s.b), Hold(d.2, s.c));
    WatchConcat(r, Hold(d.0, s.a), Hold(d.1, s.b));
    if d.0.scl {
      HighPhase(r, d.0, s.a, u);
    } else {
      LowPhase(r, d.0, s.a);
    }
    var r1 := Watch(r, Hold(d.0, s.a));
    HighPhase(r1, d.1, s.b, u);
    var r2 := Watch(r1, Hold(d.1, s.b));
    if d.2.scl {
      HighPhase(r2, d.2, s.c, u);
    } else {
      LowPhase(r2, d.2, s.c);
    }
  }

  lemma StartShown(e: Engine, v: bool, r: Receiver, i: Input)
    requires Lasts(i.slave) && InStep(e, v, r) && Stable(e, v, i) && i.token == 'S'
    ensures Decode(r, Wire(e, i)) == if Sample(e, i) then [Start] else [Bit(false)]
    ensures Watch(r, Wire(e, i)) == Receiver(false, false, None)
  {
    hide Watch, Decode, Wire;
    ThreeLooks(e, v, r, i);
  }

  lemma StopShown(e: Engine, v: bool, r: Receiver, i: Input)
    requires Lasts(i.slave) && InStep(e, v, r) && Stable(e, v, i) && i.token == 'P'
    ensures Decode(r, Wire(e, i)) == if !Sample(e, i) then [] else if e.scl then [Start, Stop] else [Stop]
    ensures Watch(r, Wire(e, i)) == if Sample(e, i) then Receiver(true, true, None) else Receiver(true, false, Some(false))
    ensures LastLevel(i) == Sample(e, i)
  {
    hide Watch, Decode, Wire;
    ThreeLooks(e, v, r, i);
  }

  lemma BitShown(e: Engine, v: bool, r: Receiver, i: Input)
    requires Lasts(i.slave) && InStep(e, v, r) && Stable(e, v, i) && (LowBit(e, i.token) || FreeBit(e, i.token))
    ensures Decode(r, Wire(e, i)) == [Bit(FreeBit(e, i.token) && Sample(e, i))]
    ensures Watch(r, Wire(e, i)) == Receiver(false, FreeBit(e, i.token) && LastLevel(i), None)
  {
    hide Watch, Decode, Wire;
    ThreeLooks(e, v, r, i);
  }

  /** One token with any stable slave: the receiver sees exactly what it shows and
      is in step again. */
  lemma TokenShown(e: Engine, v: bool, r: Receiver, i: Input)
    requires Lasts(i.slave) && InStep(e, v, r) && Stable(e, v, i)
    ensures Decode(r, Wire(e, i)) == Shown(e, i)
    ensures InStep(Step(e, i), LevelAfter(e, v, i), Watch(r, Wire(e, i)))
  {
    hide Watch, Decode, Wire, Stable;
    if i.token == 'S' {
      StartShown(e, v, r, i);
    } else if i.token == 'P' {
      StopShown(e, v, r, i);
    } else if Acts(e, i.token) {
      BitShown(e, v, r, i);
      BitSteps(e, i);
    } else {
      NothingShown(e, r, i);
    }
  }

  lemma BitSteps(e: Engine, i: Input)
    requires Lasts(i.slave) && i.token != 'S' && i.token != 'P' && Acts(e, i.token)
    ensures Step(e, i).scl == false && Step(e, i).sda == FreeBit(e, i.token)
  {
  }

  lemma NothingShown(e: Engine, r: Receiver, i: Input)
    requires Lasts(i.slave) && !Acts(e, i.token)
    ensures Decode(r, Wire(e, i)) == [] == Shown(e, i) && Watch(r, Wire(e, i)) == r && Step(e, i) == e
  {
    NothingSeen(r);
  }

  /** So with any stable slave a token is recovered if and only if the slave lets
      go of SDA at S and P and a P comes while the bus is held. */
  lemma TokenRecovered(e: Engine, v: bool, r: Receiver, i: Input)
    requires Lasts(i.slave) && InStep(e, v, r) && Stable(e, v, i)
    ensures Decode(r, Wire(e, i)) == Meaning(e, i) <==> Sound(e, i)
  {
    hide Watch, Decode, Wire, Shown, Meaning;
    TokenShown(e, v, r, i);
    ShownIff(e, i);
  }

  // ----- runs --------------------------------------------------------------

  predicate AllLast(ins: seq<Input>) { forall k :: 0 <= k < |ins| ==> Lasts(ins[k].slave) }

  function EngineAfter(e: Engine, ins: seq<Input>): Engine
    requires AllLast(ins)
    decreases |ins|
  {
    if ins == [] then e else Step(EngineAfter(e, ins[..|ins| - 1]), ins[|ins| - 1])
  }

  function WireOf(e: Engine, ins: seq<Input>): seq<Level>
    requires AllLast(ins)
    decreases |ins|
  {
    if ins == [] then [] else WireOf(e, ins[..|ins| - 1]) + Wire(EngineAfter(e, ins[..|ins| - 1]), ins[|ins| - 1])
  }

  function ReportsOf(e: Engine, ins: seq<Input>): seq<char>
    requires AllLast(ins)
    decreases |ins|
  {
    if ins == [] then [] else
      var r := Report(EngineAfter(e, ins[..|ins| - 1]), ins[|ins| - 1]);
      ReportsOf(e, ins[..|ins| - 1]) + if r.Some? then [r.value] else []
  }

  function LevelOf(e: Engine, v: bool, ins: seq<Input>): bool
    requires AllLast(ins)
    decreases |ins|
  {
    if ins == [] then v else
      var init := ins[..|ins| - 1];
      LevelAfter(EngineAfter(e, init), LevelOf(e, v, init), ins[|ins| - 1])
  }

  function MeaningOf(e: Engine, ins: seq<Input>): seq<Symbol>
    requires AllLast(ins)
    decreases |ins|
  {
    if ins == [] then [] else MeaningOf(e, ins[..|ins| - 1]) + Meaning(EngineAfter(e, ins[..|ins| - 1]), ins[|ins| - 1])
  }

  /** The slave is stable while SCL is high, all along a run. */
  predicate Orderly(e: Engine, v: bool, ins: seq<Input>)
    requires AllLast(ins)
    decreases |ins|
  {
    ins == [] ||
      var init, i := ins[..|ins| - 1], ins[|ins| - 1];
      Orderly(e, v, init) && Stable(EngineAfter(e, init), LevelOf(e, v, init), i)
  }

  function ShownOf(e: Engine, ins: seq<Input>): seq<Symbol>
    requires AllLast(ins)
    decreases |ins|
  {
    if ins == [] then [] else ShownOf(e, ins[..|ins| - 1]) + Shown(EngineAfter(e, ins[..|ins| - 1]), ins[|ins| - 1])
  }

  predicate AllSound(e: Engine, ins: seq<Input>)
    requires AllLast(ins)
    decreases |ins|
  {
    ins == [] || (AllSound(e, ins[..|ins| - 1]) && Sound(EngineAfter(e, ins[..|ins| - 1]), ins[|ins| - 1]))
  }

  /** Over every run the receiver sees what the tokens show, one by one. */
  lemma {:induction false} RunShown(e: Engine, v: bool, r: Receiver, ins: seq<Input>)
    requires AllLast(ins) && InStep(e, v, r) && Orderly(e, v, ins)
    ensures Decode(r, WireOf(e, ins)) == ShownOf(e, ins)
    ensures InStep(EngineAfter(e, ins), LevelOf(e, v, ins), Watch(r, WireOf(e, ins)))
    decreases |ins|
  {
    hide Watch, Decode, Wire, Step, Shown, Stable, InStep, LevelAfter;
    if ins == [] {
      NothingSeen(r);
    } else {
      var init, i := ins[..|ins| - 1], ins[|ins| - 1];
      RunShown(e, v, r, init);
      TokenShown(EngineAfter(e, init), LevelOf(e, v, init), Watch(r, WireOf(e, init)), i);
      WatchConcat(r, WireOf(e, init), Wire(EngineAfter(e, init), i));
    }
  }

  lemma NothingSeen(r: Receiver)
    ensures Watch(r, []) == r && Decode(r, []) == []
  {
  }

  /** Different at a position that both have. */
  predicate Apart(w: seq<Symbol>, m: seq<Symbol>) { exists k :: 0 <= k < |w| && k < |m| && w[k] != m[k] }

  lemma ApartStays(w: seq<Symbol>, m: seq<Symbol>, x: seq<Symbol>, y: seq<Symbol>)
    requires Apart(w, m)
    ensures Apart(w + x, m + y) && w != m
  {
    var k :| 0 <= k < |w| && k < |m| && w[k] != m[k];
    assert (w + x)[k] != (m + y)[k];
  }

  /** A stop is hidden and the bus rests with SDA low: what comes next on the lines
      is the low bit that it latched. */
  predicate StopHidden(e: Engine, v: bool, w: seq<Symbol>, m: seq<Symbol>) {
    e.scl && e.mode.IDLE? && !v && |w| < |m| && m[..|w|] == w && m[|w|] == Stop
  }

  /** Once the lines have shown something else, no later token makes up for it. */
  lemma StillOff(e: Engine, v: bool, i: Input, w: seq<Symbol>, m: seq<Symbol>)
    requires Lasts(i.slave) && Stable(e, v, i)
    requires Apart(w, m) || StopHidden(e, v, w, m)
    ensures Apart(w + Shown(e, i), m + Meaning(e, i)) || StopHidden(Step(e, i), LevelAfter(e, v, i), w + Shown(e, i), m + Meaning(e, i))
  {
    if Apart(w, m) {
      ApartStays(w, m, Shown(e, i), Meaning(e, i));
    } else {
      var x, y := Shown(e, i), Meaning(e, i);
      assert (m + y)[..|w|] == w && (m + y)[|w|] == Stop;
      if i.token == 'S' {
        assert (w + x)[|w|] == Bit(false);
      } else {
        assert x == [] && w + x == w;
      }
    }
  }

  lemma NowOff(e: Engine, v: bool, i: Input, w: seq<Symbol>)
    requires Lasts(i.slave) && Stable(e, v, i) && !Sound(e, i) && (e.scl ==> e.mode.IDLE? && e.sda)
    ensures Apart(w + Shown(e, i), w + Meaning(e, i)) || StopHidden(Step(e, i), LevelAfter(e, v, i), w + Shown(e, i), w + Meaning(e, i))
  {
    var x, y := Shown(e, i), Meaning(e, i);
    assert (w + y)[|w|] == y[0];
    if x != [] {
      assert (w + x)[|w|] == x[0] != y[0];
    } else {
      assert w + x == w && (w + y)[..|w|] == w;
    }
  }

  lemma {:induction false} OffStaysOff(e: Engine, v: bool, r: Receiver, ins: seq<Input>)
    requires AllLast(ins) && InStep(e, v, r) && Orderly(e, v, ins)
    ensures var w, m := ShownOf(e, ins), MeaningOf(e, ins);
      if AllSound(e, ins) then w == m else Apart(w, m) || StopHidden(EngineAfter(e, ins), LevelOf(e, v, ins), w, m)
    decreases |ins|
  {
    hide Step, Shown, Meaning, Stable, LevelAfter, Sound, Watch, Decode, Wire, Apart, StopHidden;
    if ins != [] {
      var init, i := ins[..|ins| - 1], ins[|ins| - 1];
      var now, u := EngineAfter(e, init), LevelOf(e, v, init);
      OffStaysOff(e, v, r, init);
      RunShown(e, v, r, init);
      if !AllSound(e, init) {
        StillOff(now, u, i, ShownOf(e, init), MeaningOf(e, init));
      } else if !Sound(now, i) {
        NowOff(now, u, i, ShownOf(e, init));
      } else {
        ShownIff(now, i);
      }
    }
  }

  lemma OffDiffers(e: Engine, v: bool, w: seq<Symbol>, m: seq<Symbol>)
    requires Apart(w, m) || StopHidden(e, v, w, m)
    ensures w != m
  {
    if Apart(w, m) {
      ApartStays(w, m, [], []);
    }
  }

  /** Over every run with a stable slave, the receiver recovers exactly the starts,
      stops and bits that the engine acted on if and only if the slave lets go of
      SDA at every S and P and every P comes while the bus is held. */
  lemma RunRecovered(e: Engine, v: bool, r: Receiver, ins: seq<Input>)
    requires AllLast(ins) && InStep(e, v, r) && Orderly(e, v, ins)
    ensures Decode(r, WireOf(e, ins)) == MeaningOf(e, ins) <==> AllSound(e, ins)
  {
    hide ShownOf, MeaningOf, AllSound, WireOf, Watch, Decode, Apart, StopHidden;
    RunShown(e, v, r, ins);
    OffStaysOff(e, v, r, ins);
    if !AllSound(e, ins) {
      OffDiffers(EngineAfter(e, ins), LevelOf(e, v, ins), ShownOf(e, ins), MeaningOf(e, ins));
    }
  }

  /** The same from power-up, on a free bus. */
  lemma BusRecovered(garbage: bool, ins: seq<Input>)
    requires AllLast(ins) && Orderly(Engine(IDLE, garbage, true, true), true, ins)
    ensures Decode(Receiver(true, true, None), WireOf(Engine(IDLE, garbage, true, true), ins)) ==
            MeaningOf(Engine(IDLE, garbage, true, true), ins)
            <==> AllSound(Engine(IDLE, garbage, true, true), ins)
  {
    hide ShownOf, MeaningOf, AllSound, WireOf, Watch, Decode, Orderly;
    RunRecovered(Engine(IDLE, garbage, true, true), true, Receiver(true, true, None), ins);
  }

  /** A slave that holds SDA low while the master signals: S, and then P, read as a
      low bit and nothing. */
  lemma HeldLow(garbage: bool)
    ensures var low, free := Slave([false], [false], [false]), Slave([true], [true], [false]);
      var ins := [Input('S', free), Input('S', low), Input('P', low)];
      && AllLast(ins) && Orderly(Engine(IDLE, garbage, true, true), true, ins)
      && ShownOf(Engine(IDLE, garbage, true, true), ins) == [Start, Bit(false)]
      && MeaningOf(Engine(IDLE, garbage, true, true), ins) == [Start, Start, Stop]
  {
    var low, free := Slave([false], [false], [false]), Slave([true], [true], [false]);
    var e := Engine(IDLE, garbage, true, true);
    var a, b, c := Input('S', free), Input('S', low), Input('P', low);
    var ins := [a, b, c];
    assert ins[..2] == [a, b] && [a, b][..1] == [a] && [a][..0] == [];
    var e1 := Engine(DEVID, garbage, false, false);
    assert EngineAfter(e, []) == e && EngineAfter(e, [a]) == e1 && EngineAfter(e, [a, b]) == e1;
    assert LevelOf(e, true, []) && !LevelOf(e, true, [a]) && !LevelOf(e, true, [a, b]);
    assert ShownOf(e, [a]) == [Start] && MeaningOf(e, [a]) == [Start];
    assert ShownOf(e, [a, b]) == [Start, Bit(false)] && MeaningOf(e, [a, b]) == [Start, Start];
    assert Stable(e, true, a) && Stable(e1, false, b) && Stable(e1, false, c);
    assert Orderly(e, true, []);
    assert Orderly(e, true, [a]);
    assert Orderly(e, true, [a, b]);
  }

  /** What the engine reports for a Z is the bit that the receiver sees. */
  lemma ReportIsOnTheWire(e: Engine, v: bool, r: Receiver, i: Input)
    requires Lasts(i.slave) && InStep(e, v, r) && Stable(e, v, i) && Report(e, i).Some?
    ensures Decode(r, Wire(e, i)) == [Bit(Report(e, i).value == '1' || Report(e, i).value == 'N')]
  {
    hide Watch, Decode, Wire;
    BitShown(e, v, r, i);
  }
}
