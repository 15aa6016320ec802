/** The driver's side of the flash protocol, and when the device answers it as a
    flash chip would. */
module FlashDriver {
  import opened Basics
  import opened FlashLayout
  import opened FlashChip
  import opened FlashTalk
  import Flash

  // ----- what the driver sends ---------------------------------------------

  /** The C library: "%x" and "%u" of `printf`, and `sscanf` of both. */
  datatype Libc = Libc(hex: U32 -> seq<Byte>, dec: U32 -> seq<Byte>, scan: seq<Byte> -> Numbers)

  const EOL: seq<Byte> := [CR, LF]

  function Pair(c: Libc, addr: U32, size: U32): seq<Byte> { c.hex(addr) + [SP] + c.dec(size) }

  /** Numbers are printed on one line and read back. */
  ghost predicate Faithful(c: Libc) {
    && (forall a: U32 :: LF !in c.hex(a))
    && (forall n: U32 :: LF !in c.dec(n))
    && (forall a: U32 :: c.scan(c.hex(a) + EOL).first == Some(a))
    && (forall a: U32, n: U32 :: c.scan(Pair(c, a, n) + EOL) == Numbers(Some(a), Some(n)))
  }

  function Line(tag: Byte, text: seq<Byte>): seq<Byte> { [tag, COLON] + text + EOL }

  /** Its letters. */
  lemma LineText(text: seq<Byte>)
    ensures Line(101, text) == ['e' as int, ':' as int] + text + ['\r' as int, '\n' as int]
    ensures Line(119, text) == ['w' as int, ':' as int] + text + ['\r' as int, '\n' as int]
    ensures Line(100, text) == ['d' as int, ':' as int] + text + ['\r' as int, '\n' as int]
    ensures Line(114, text) == ['r' as int, ':' as int] + text + ['\r' as int, '\n' as int]
    ensures SP == ' ' as int
  {
  }

  /** The driver sends the data line before it looks at the answer. */
  function Spoken(c: Libc, cmd: Command): seq<Byte> {
    match cmd
    case Erase(sector) => Line(101, c.hex(sector))
    case Program(addr, size, data) => Line(119, Pair(c, addr, size)) + Line(100, data)
    case Read(addr, size, _) => Line(114, Pair(c, addr, size))
  }

  function SpokenAll(c: Libc, cs: seq<Command>): seq<Byte> {
    if cs == [] then [] else Spoken(c, cs[0]) + SpokenAll(c, cs[1..])
  }

  // ----- lines -------------------------------------------------------------

  lemma {:induction false} LineEndIs(a: seq<Byte>, rest: seq<Byte>)
    requires LF !in a
    ensures LineEnd(a + ([LF] + rest)) == |a|
    decreases |a|
  {
    var s := a + ([LF] + rest);
    if a != [] {
      assert s[0] == a[0] && s[1..] == a[1..] + ([LF] + rest);
      LineEndIs(a[1..], rest);
    }
  }

  /** A line ends at its end. */
  lemma LineSplits(tag: Byte, text: seq<Byte>, rest: seq<Byte>)
    requires LF !in text && tag != LF
    ensures var s, line := Line(tag, text) + rest, Line(tag, text);
      && LineEnd(s) == |line| - 1 && s[..|line|] == line && s[|line|..] == rest
      && line[2..] == text + EOL && (forall c :: Starts(line, c) <==> c == tag)
  {
    var a := [tag, COLON] + text + [CR];
    assert Line(tag, text) + rest == a + ([LF] + rest);
    LineEndIs(a, rest);
  }

  // ----- one command -------------------------------------------------------

  function Heard(cmd: Command, noise: nat -> seq<Byte>): Command {
    if cmd.Read? then Read(cmd.addr, cmd.size, noise(cmd.size)) else cmd
  }

  /** The thread after a command that was answered. */
  function TalkAfter(l: Layout, t: Talk, cmd: Command): Talk
    requires Paired(l) && WellFormed(cmd)
  {
    match cmd
    case Erase(sector) => Talk(Next(l, t.chip, cmd), EraseAddr(sector), t.size)
    case Program(addr, size, _) => Talk(Next(l, t.chip, cmd), addr, size)
    case Read(addr, size, _) => Talk(Next(l, t.chip, cmd), addr, size)
  }

  predicate Fine(l: Layout, chip: Chip, cmd: Command)
    requires Paired(l)
  {
    cmd.Program? ==> Allowed(l, chip.known, cmd.addr, cmd.size)
  }

  lemma DataFound(data: seq<Byte>, size: U32, rest: seq<Byte>)
    requires |data| == 4 * size
    ensures FindData(Line(100, data) + rest, size) == Tagged(data, rest)
  {
    var s := Line(100, data) + rest;
    assert s[2..2 + 4 * size] == data;
    var tail := s[2 + 4 * size..];
    assert tail == [CR] + ([LF] + rest);
    LineEndIs([CR], rest);
    assert tail[2..] == rest;
  }

  /** The first line of a command is taken as it was meant. */
  lemma CommandHeard(l: Layout, c: Libc, noise: nat -> seq<Byte>, t: Talk, cmd: Command, rest: seq<Byte>)
    requires Paired(l) && Faithful(c) && WellFormed(cmd) && forall n: nat :: |noise(n)| == 4 * n
    ensures OneRound(l, c.scan, noise, t, Spoken(c, cmd) + rest) ==
      match cmd
      case Erase(sector) => Done(TalkAfter(l, t, cmd), Reply(l, t.chip, cmd).value, rest)
      case Program(addr, size, data) => OnProgram(l, Talk(t.chip, addr, size), Line(100, data) + rest)
      case Read(addr, size, _) => OnRead(l, Talk(t.chip, addr, size), noise, rest)
  {
    hide Next, Reply, LineEnd, OnProgram, OnRead, Line;
    match cmd {
      case Erase(sector) =>
        LineSplits(101, c.hex(sector), rest);
      case Program(addr, size, data) =>
        PairOnLine(c, addr, size);
        assert Spoken(c, cmd) + rest == Line(119, Pair(c, addr, size)) + (Line(100, data) + rest);
        LineSplits(119, Pair(c, addr, size), Line(100, data) + rest);
      case Read(addr, size, _) =>
        PairOnLine(c, addr, size);
        LineSplits(114, Pair(c, addr, size), rest);
    }
  }

  lemma PairOnLine(c: Libc, addr: U32, size: U32)
    requires Faithful(c)
    ensures LF !in Pair(c, addr, size)
    ensures c.scan(Pair(c, addr, size) + EOL) == Numbers(Some(addr), Some(size))
  {
  }

  /** A program command that passes its checks takes its data line with it. */
  lemma ProgramHeard(l: Layout, t: Talk, addr: U32, size: U32, data: seq<Byte>, rest: seq<Byte>)
    requires Paired(l) && |data| == 4 * size
    ensures OnProgram(l, Talk(t.chip, addr, size), Line(100, data) + rest) ==
      if Allowed(l, t.chip.known, addr, size) then Done(TalkAfter(l, t, Program(addr, size, data)), [0], rest)
      else Done(Talk(t.chip, addr, size), [1], Line(100, data) + rest)
  {
    hide Allowed, FindData, Line;
    DataFound(data, size, rest);
  }

  /** An accepted program command followed by a line that does not start with "d:" is
      answered 1, programs nothing, and takes that line with it. */
  lemma UntaggedLine(l: Layout, t: Talk, line: seq<Byte>, rest: seq<Byte>)
    requires Paired(l) && Allowed(l, t.chip.known, t.addr, t.size) && LF !in line && line != []
    requires line[0] == 'd' as int ==> |line| > 1 && line[1] != ':' as int
    ensures OnProgram(l, t, line + ([LF] + rest)) == Done(t, [1], rest)
  {
    hide Allowed;
    var s := line + ([LF] + rest);
    var n := if line[0] == 100 then 2 else 1;
    assert s[n..] == line[n..] + ([LF] + rest);
    LineEndIs(line[n..], rest);
    assert s[n..][|line[n..]| + 1..] == rest;
  }

  /** An empty line is read for the tag, and the line behind it is dropped in its place. */
  lemma EmptyLineDropsNext(l: Layout, t: Talk, line: seq<Byte>, rest: seq<Byte>)
    requires Paired(l) && Allowed(l, t.chip.known, t.addr, t.size) && LF !in line
    ensures OnProgram(l, t, [LF] + (line + ([LF] + rest))) == Done(t, [1], rest)
  {
    hide Allowed;
    var s := [LF] + (line + ([LF] + rest));
    assert s[1..] == line + ([LF] + rest);
    LineEndIs(line, rest);
    assert s[1..][|line| + 1..] == rest;
  }

  /** A number that cannot be read is the one of the message before: an erase takes the
      last address for its sector, a read the last address and size. */
  lemma UnreadNumbers(l: Layout, scan: seq<Byte> -> Numbers, noise: nat -> seq<Byte>, t: Talk, text: seq<Byte>, rest: seq<Byte>)
    requires Paired(l) && LF !in text && (forall n: nat :: |noise(n)| == 4 * n) && scan(text + EOL) == Numbers(None, None)
    ensures OneRound(l, scan, noise, t, Line(101, text) + rest) ==
            Done(Talk(Next(l, t.chip, Erase(t.addr)), EraseAddr(t.addr), t.size), Reply(l, t.chip, Erase(t.addr)).value, rest)
    ensures OneRound(l, scan, noise, t, Line(114, text) + rest) == OnRead(l, t, noise, rest)
    ensures OneRound(l, scan, noise, t, Line(119, text) + rest) == OnProgram(l, t, rest)
  {
    hide Next, Reply, LineEnd, OnProgram, OnRead, EraseAddr;
    LineSplits(101, text, rest);
    LineSplits(114, text, rest);
    LineSplits(119, text, rest);
    assert Line(101, text)[2..] == text + EOL && Line(114, text)[2..] == text + EOL && Line(119, text)[2..] == text + EOL;
  }

  /** The data line of a refused one is the next message: a read with the address
      and size of the command. */
  lemma DataHeard(l: Layout, scan: seq<Byte> -> Numbers, noise: nat -> seq<Byte>, t: Talk, data: seq<Byte>, rest: seq<Byte>)
    requires Paired(l) && LF !in data && forall n: nat :: |noise(n)| == 4 * n
    ensures OneRound(l, scan, noise, t, Line(100, data) + rest) == OnRead(l, t, noise, rest)
  {
    hide Next, Reply, LineEnd, OnProgram, OnRead, Line;
    LineSplits(100, data, rest);
  }

  // ----- runs --------------------------------------------------------------

  /** The outcome if a chip answered each command. */
  ghost function Expected(l: Layout, c: Libc, rnd: nat -> nat -> seq<Byte>, k: nat, t: Talk, cs: seq<Command>): Outcome
    requires Paired(l) && Random(rnd) && AllWellFormed(cs)
    decreases |cs|
  {
    if cs == [] then Outcome([], [], false, t) else
      match Reply(l, t.chip, Heard(cs[0], rnd(k)))
      case None => Outcome([], SpokenAll(c, cs[1..]), true, TalkAfter(l, t, cs[0]))
      case Some(b) => Prepend([b], Expected(l, c, rnd, k + 1, TalkAfter(l, t, cs[0]), cs[1..]))
  }

  /** Every program command meets its checks, up to a read that never ends. */
  ghost predicate AllFine(l: Layout, chip: Chip, cs: seq<Command>)
    requires Paired(l) && AllWellFormed(cs)
    decreases |cs|
  {
    cs == [] || (Fine(l, chip, cs[0]) && (Reply(l, chip, cs[0]).Some? ==> AllFine(l, Next(l, chip, cs[0]), cs[1..])))
  }

  /** The data of those that do not is one line. */
  ghost predicate OneLine(l: Layout, chip: Chip, cs: seq<Command>)
    requires Paired(l) && AllWellFormed(cs)
    decreases |cs|
  {
    cs == [] || ((Fine(l, chip, cs[0]) || LF !in cs[0].data) && (Reply(l, chip, cs[0]).Some? ==> OneLine(l, Next(l, chip, cs[0]), cs[1..])))
  }

  lemma AnyNoise(l: Layout, chip: Chip, cmd: Command, noise: nat -> seq<Byte>)
    requires Paired(l)
    ensures Reply(l, chip, cmd).None? <==> Reply(l, chip, Heard(cmd, noise)).None?
    ensures !cmd.Read? ==> Heard(cmd, noise) == cmd && Reply(l, chip, cmd).Some?
  {
    hide AnswerBytes, PageUsed, InChip;
  }

  /** A command that is fine is answered as the chip answers. */
  lemma FineHeard(l: Layout, c: Libc, rnd: nat -> nat -> seq<Byte>, k: nat, t: Talk, cmd: Command, rest: seq<Byte>)
    requires Paired(l) && Faithful(c) && Random(rnd) && WellFormed(cmd) && Fine(l, t.chip, cmd)
    ensures Listen(l, c.scan, rnd, k, t, Spoken(c, cmd) + rest) ==
      match Reply(l, t.chip, Heard(cmd, rnd(k)))
      case None => Outcome([], rest, true, TalkAfter(l, t, cmd))
      case Some(b) => Prepend([b], Listen(l, c.scan, rnd, k + 1, TalkAfter(l, t, cmd), rest))
  {
    hide Listen, OneRound, Spoken, OnProgram, Allowed, Faithful, Random, ReadReply, EraseDone, InChip;
    RandomAt(rnd, k);
    ListenStep(l, c.scan, rnd, k, t, Spoken(c, cmd) + rest);
    CommandHeard(l, c, rnd(k), t, cmd, rest);
    if cmd.Program? {
      ProgramHeard(l, t, cmd.addr, cmd.size, cmd.data, rest);
    }
  }

  lemma SpokenCons(c: Libc, cs: seq<Command>)
    requires cs != []
    ensures SpokenAll(c, cs) == Spoken(c, cs[0]) + SpokenAll(c, cs[1..]) && Spoken(c, cs[0]) != []
  {
  }

  /** If every program command meets its checks, whatever its data, the device
      answers every command as the chip does, byte for byte. */
  lemma {:induction false} DriverHeard(l: Layout, c: Libc, rnd: nat -> nat -> seq<Byte>, k: nat, t: Talk, cs: seq<Command>)
    requires Paired(l) && Faithful(c) && Random(rnd) && AllWellFormed(cs) && AllFine(l, t.chip, cs)
    ensures Listen(l, c.scan, rnd, k, t, SpokenAll(c, cs)) == Expected(l, c, rnd, k, t, cs)
    decreases |cs|
  {
    hide Listen, Spoken, Reply, Next, Fine, Faithful, Random, SpokenAll;
    if cs == [] {
      NothingHeard(l, c, rnd, k, t);
    } else {
      SpokenCons(c, cs);
      FineHeard(l, c, rnd, k, t, cs[0], SpokenAll(c, cs[1..]));
      AnyNoise(l, t.chip, cs[0], rnd(k));
      if Reply(l, t.chip, cs[0]).Some? {
        DriverHeard(l, c, rnd, k + 1, TalkAfter(l, t, cs[0]), cs[1..]);
      }
    }
  }

  // ----- reading back what was sent ----------------------------------------

  /** Every command of a run is answered: no read goes on for ever. */
  ghost predicate AllAnswered(l: Layout, chip: Chip, cs: seq<Command>)
    requires Paired(l) && AllWellFormed(cs)
    decreases |cs|
  {
    cs == [] || (Reply(l, chip, cs[0]).Some? && AllAnswered(l, Next(l, chip, cs[0]), cs[1..]))
  }

  lemma {:induction false} AfterCons(l: Layout, chip: Chip, cs: seq<Command>)
    requires Paired(l) && AllWellFormed(cs) && cs != []
    ensures After(l, chip, cs) == After(l, Next(l, chip, cs[0]), cs[1..])
    decreases |cs|
  {
    hide Next, WellFormed;
    var n := |cs| - 1;
    if n == 0 {
      assert cs[..0] == [] && cs[1..] == [];
    } else {
      AfterCons(l, chip, cs[..n]);
      assert cs[..n][1..] == cs[1..][..n - 1] && cs[1..][n - 1] == cs[n];
    }
  }

  /** A read behind a run is answered last, from what the run has left. */
  lemma {:induction false} ReadBehind(l: Layout, c: Libc, rnd: nat -> nat -> seq<Byte>, k: nat, t: Talk, cs: seq<Command>, rd: Command)
    requires Paired(l) && Random(rnd) && AllWellFormed(cs) && AllFine(l, t.chip, cs) && AllAnswered(l, t.chip, cs)
    requires rd.Read? && WellFormed(rd) && Reply(l, After(l, t.chip, cs), rd).Some?
    ensures AllWellFormed(cs + [rd]) && AllFine(l, t.chip, cs + [rd])
    ensures var o, b := Expected(l, c, rnd, k, t, cs + [rd]), Reply(l, After(l, t.chip, cs), Heard(rd, rnd(k + |cs|)));
      b.Some? && |o.replies| == |cs| + 1 && o.replies[|cs|] == b.value
    decreases |cs|
  {
    hide Reply, Next, Random, WellFormed, Spoken, SpokenAll, Fine, Heard, Expected, After;
    if cs == [] {
      assert cs + [rd] == [rd];
      AfterNone(l, t.chip);
      AnyNoise(l, t.chip, rd, rnd(k));
      LastExpected(l, c, rnd, k, t, rd);
    } else {
      var ds := cs + [rd];
      assert ds[0] == cs[0] && ds[1..] == cs[1..] + [rd];
      AfterCons(l, t.chip, cs);
      AnyNoise(l, t.chip, cs[0], rnd(k));
      ReadBehind(l, c, rnd, k + 1, TalkAfter(l, t, cs[0]), cs[1..], rd);
      ExpectedCons(l, c, rnd, k, t, ds);
    }
  }

  lemma AfterNone(l: Layout, chip: Chip)
    requires Paired(l)
    ensures After(l, chip, []) == chip
  {
  }

  lemma LastExpected(l: Layout, c: Libc, rnd: nat -> nat -> seq<Byte>, k: nat, t: Talk, rd: Command)
    requires Paired(l) && Random(rnd) && WellFormed(rd) && rd.Read? && Reply(l, t.chip, Heard(rd, rnd(k))).Some?
    ensures AllFine(l, t.chip, [rd])
    ensures Expected(l, c, rnd, k, t, [rd]).replies == [Reply(l, t.chip, Heard(rd, rnd(k))).value]
  {
    hide Reply, Next, Random, Spoken, Heard;
    assert [rd][1..] == [];
  }

  lemma ExpectedCons(l: Layout, c: Libc, rnd: nat -> nat -> seq<Byte>, k: nat, t: Talk, ds: seq<Command>)
    requires Paired(l) && Random(rnd) && AllWellFormed(ds) && ds != [] && Reply(l, t.chip, Heard(ds[0], rnd(k))).Some?
    ensures Expected(l, c, rnd, k, t, ds).replies ==
            [Reply(l, t.chip, Heard(ds[0], rnd(k))).value] + Expected(l, c, rnd, k + 1, TalkAfter(l, t, ds[0]), ds[1..]).replies
    ensures TalkAfter(l, t, ds[0]).chip == Next(l, t.chip, ds[0])
  {
    hide Reply, Next, Random, Spoken, Heard;
  }

  /** From power-up: after any commands that meet their checks and are answered, a
      read that stays in its page of an erased sector is answered with the words
      that the history of the commands gives, and a 0. */
  lemma DriverReadsBack(l: Layout, c: Libc, rnd: nat -> nat -> seq<Byte>, t: Talk, cs: seq<Command>, addr: U32, size: U32, noise: seq<Byte>)
    requires Paired(l) && Faithful(c) && Random(rnd) && AllWellFormed(cs) && t.chip == Start()
    requires AllFine(l, Start(), cs) && AllAnswered(l, Start(), cs) && |noise| == 4 * size
    requires InChip(l, addr) && Erased(l, cs, addr / 4096) && 1 <= size && addr % 256 / 4 + size <= 64
    ensures var o := Listen(l, c.scan, rnd, 0, t, SpokenAll(c, cs + [Read(addr, size, noise)]));
      && |o.replies| == |cs| + 1
      && IsReadBack(l, cs, addr, size, o.replies[|cs|])
  {
    hide Listen, Reply, Next, Faithful, Random, SpokenAll, AllFine, AllAnswered, Erased, HistoryWord, After, Expected, InChip;
    var rd := Read(addr, size, noise);
    ReadBack(l, cs, addr, size, noise);
    RandomAt(rnd, |cs|);
    ReadBack(l, cs, addr, size, rnd(|cs|)(size));
    ReadBehind(l, c, rnd, 0, t, cs, rd);
    DriverHeard(l, c, rnd, 0, t, cs + [rd]);
  }

  /** An erase of the sector of an address, by its number, is in the history. */
  lemma ErasedByNumber(l: Layout, cs: seq<Command>, addr: U32)
    requires Ok(l) && InChip(l, addr) && Erase(addr / 4096) in cs
    ensures Erased(l, cs, addr / 4096)
  {
    hide InChip, RangeOk;
    var i :| 0 <= i < |cs| && cs[i] == Erase(addr / 4096);
    InChipSector(l, addr, 4096 * (addr / 4096));
    assert Erases(l, cs[i], addr / 4096);
  }

  /** A command behind a run that meets its checks and is answered. */
  lemma {:induction false} FineBehind(l: Layout, chip: Chip, cs: seq<Command>, cmd: Command)
    requires Paired(l) && AllWellFormed(cs) && AllFine(l, chip, cs) && AllAnswered(l, chip, cs) && WellFormed(cmd)
    requires Fine(l, After(l, chip, cs), cmd) && Reply(l, After(l, chip, cs), cmd).Some?
    ensures AllWellFormed(cs + [cmd]) && AllFine(l, chip, cs + [cmd]) && AllAnswered(l, chip, cs + [cmd])
    decreases |cs|
  {
    hide Reply, Next, WellFormed, Fine;
    if cs == [] {
      assert cs + [cmd] == [cmd] && [cmd][1..] == [];
    } else {
      var ds := cs + [cmd];
      assert ds[0] == cs[0] && ds[1..] == cs[1..] + [cmd];
      AfterCons(l, chip, cs);
      FineBehind(l, Next(l, chip, cs[0]), cs[1..], cmd);
    }
  }

  lemma AfterSnoc(l: Layout, chip: Chip, cs: seq<Command>, cmd: Command)
    requires Paired(l) && AllWellFormed(cs) && WellFormed(cmd)
    ensures AllWellFormed(cs + [cmd]) && After(l, chip, cs + [cmd]) == Next(l, After(l, chip, cs), cmd)
  {
    hide Next, WellFormed;
    assert (cs + [cmd])[..|cs|] == cs;
  }

  /** The commands: anything, then an erase of the address's sector, then a program. */
  function EraseAndProgram(cs: seq<Command>, addr: U32, size: U32, data: seq<Byte>): seq<Command> {
    cs + [Erase(addr / 4096)] + [Program(addr, size, data)]
  }

  /** From power-up: what the driver programs into a page of a sector that it has
      erased is what it reads back, byte for byte, whatever came before. */
  lemma WhatIsWrittenIsRead(l: Layout, c: Libc, rnd: nat -> nat -> seq<Byte>, t: Talk, cs: seq<Command>, addr: U32, size: U32,
                            data: seq<Byte>, noise: seq<Byte>)
    requires Ok(l) && Faithful(c) && Random(rnd) && AllWellFormed(cs) && t.chip == Start()
    requires AllFine(l, Start(), cs) && AllAnswered(l, Start(), cs)
    requires InChip(l, addr) && 1 <= size && addr % 256 + 4 * size <= 256 && |data| == |noise| == 4 * size
    ensures var ds := EraseAndProgram(cs, addr, size, data);
      var o := Listen(l, c.scan, rnd, 0, t, SpokenAll(c, ds + [Read(addr, size, noise)]));
      |o.replies| == |cs| + 3 && o.replies[|cs| + 2] == data + [0]
  {
    hide Listen, Faithful, Random, SpokenAll, AllFine, AllAnswered, After, InChip, RangeOk, Erased, IsReadBack, Reply, Next;
    var s, erase, program := addr / 4096, Erase(addr / 4096), Program(addr, size, data);
    var chip := After(l, Start(), cs);
    InChipSector(l, addr, 4096 * s);
    EraseExact(l, chip, s);
    FineBehind(l, Start(), cs, erase);
    AfterSnoc(l, Start(), cs, erase);
    var next := Next(l, chip, erase);
    ProgramExact(l, next, addr, size, data);
    OnePageExact(addr, size);
    FineBehind(l, Start(), cs + [erase], program);
    var ds := EraseAndProgram(cs, addr, size, data);
    assert erase in ds by { assert ds[|cs|] == erase; }
    ErasedByNumber(l, ds, addr);
    InPage(addr, size);
    DriverReadsBack(l, c, rnd, t, ds, addr, size, noise);
    var o := Listen(l, c.scan, rnd, 0, t, SpokenAll(c, ds + [Read(addr, size, noise)]));
    AfterSnoc(l, Start(), cs + [erase], program);
    ReadIsData(l, ds, addr, size, data, next, o.replies[|ds|]);
  }

  lemma InPage(addr: U32, size: U32)
    requires addr % 256 + 4 * size <= 256
    ensures addr % 256 / 4 + size <= 64
  {
  }

  lemma ReadIsData(l: Layout, ds: seq<Command>, addr: U32, size: U32, data: seq<Byte>, chip: Chip, reply: seq<Byte>)
    requires Paired(l) && AllWellFormed(ds) && |data| == 4 * size && IsReadBack(l, ds, addr, size, reply)
    requires InChip(l, addr) && addr / 4096 in chip.known && 1 <= size <= 64 && addr % 256 + 4 * size <= 256
    requires After(l, Start(), ds) == Next(l, chip, Program(addr, size, data))
    ensures reply == data + [0]
  {
    hide After, InChip, HistoryWord, LittleEndian, DataWord, Next, Reply;
    ProgramExact(l, chip, addr, size, data);
    forall k | 0 <= k < size
      ensures reply[4 * k..4 * k + 4] == data[4 * k..4 * k + 4]
    {
      HistoryWordAt(l, ds, addr / 4 + k);
      WordBytes(data, k);
    }
    forall i | 0 <= i < 4 * size
      ensures reply[i] == data[i]
    {
      var k := i / 4;
      assert reply[4 * k..4 * k + 4][i - 4 * k] == data[4 * k..4 * k + 4][i - 4 * k];
    }
  }

  lemma WordBytes(data: seq<Byte>, k: nat)
    requires 4 * k + 3 < |data|
    ensures LittleEndian(DataWord(data, k)) == data[4 * k..4 * k + 4]
  {
    BytesOfWord(data[4 * k], data[4 * k + 1], data[4 * k + 2], data[4 * k + 3]);
  }

  /** The words of the history, little-endian, and a 0. */
  ghost predicate IsReadBack(l: Layout, cs: seq<Command>, addr: U32, size: U32, reply: seq<Byte>)
    requires Paired(l) && AllWellFormed(cs)
  {
    && |reply| == 4 * size + 1 && reply[4 * size] == 0
    && forall k :: 0 <= k < size ==> reply[4 * k..4 * k + 4] == LittleEndian(HistoryWord(l, cs, addr / 4 + k))
  }

  /** The same through the device itself. */
  method Session(d: Flash.FlashDevice, c: Libc, rnd: nat -> nat -> seq<Byte>, cs: seq<Command>, addr: U32, size: U32, noise: seq<Byte>)
      returns (replies: seq<seq<Byte>>)
    requires d.Models(Start()) && Faithful(c) && Random(rnd) && AllWellFormed(cs) && |noise| == 4 * size
    requires AllFine(d.Ranges(), Start(), cs) && AllAnswered(d.Ranges(), Start(), cs)
    requires InChip(d.Ranges(), addr) && Erased(d.Ranges(), cs, addr / 4096) && 1 <= size && addr % 256 / 4 + size <= 64
    modifies d`secs, d`pages
    ensures |replies| == |cs| + 1 && IsReadBack(d.Ranges(), cs, addr, size, replies[|cs|])
  {
    hide Listen, Faithful, Random, SpokenAll, AllFine, AllAnswered, Erased, IsReadBack, InChip;
    var rest, stuck;
    ghost var end;
    DriverReadsBack(d.Ranges(), c, rnd, Talk(Start(), 0, 0), cs, addr, size, noise);
    replies, rest, stuck, end := d.Serve(SpokenAll(c, cs + [Read(addr, size, noise)]), c.scan, rnd, 0, 0, Start());
  }

  lemma NothingHeard(l: Layout, c: Libc, rnd: nat -> nat -> seq<Byte>, k: nat, t: Talk)
    requires Paired(l) && Random(rnd)
    ensures Listen(l, c.scan, rnd, k, t, SpokenAll(c, [])) == Outcome([], [], false, t)
  {
    RandomAt(rnd, k);
  }

  /** A refused program command is answered twice: its refusal, and a read that
      nobody asked for. */
  lemma RefusedHeard(l: Layout, c: Libc, rnd: nat -> nat -> seq<Byte>, k: nat, t: Talk, cmd: Command, rest: seq<Byte>)
    requires Paired(l) && Faithful(c) && Random(rnd) && WellFormed(cmd) && !Fine(l, t.chip, cmd) && LF !in cmd.data
    ensures var t' := Talk(t.chip, cmd.addr, cmd.size);
      Listen(l, c.scan, rnd, k, t, Spoken(c, cmd) + rest) ==
      match Reply(l, t.chip, Read(cmd.addr, cmd.size, rnd(k + 1)(cmd.size)))
      case None => Prepend([[1]], Outcome([], rest, true, t'))
      case Some(b) => Prepend([[1]], Prepend([b], Listen(l, c.scan, rnd, k + 2, t', rest)))
  {
    hide Listen, OneRound, Spoken, OnProgram, Allowed, Faithful, Random, ReadReply, InChip, Line;
    var t' := Talk(t.chip, cmd.addr, cmd.size);
    RandomAt(rnd, k);
    RandomAt(rnd, k + 1);
    ListenStep(l, c.scan, rnd, k, t, Spoken(c, cmd) + rest);
    CommandHeard(l, c, rnd(k), t, cmd, rest);
    ProgramHeard(l, t, cmd.addr, cmd.size, cmd.data, rest);
    ListenStep(l, c.scan, rnd, k + 1, t', Line(100, cmd.data) + rest);
    DataHeard(l, c.scan, rnd(k + 1), t', cmd.data, rest);
  }

  lemma {:induction false} ExpectedRest(l: Layout, c: Libc, rnd: nat -> nat -> seq<Byte>, k: nat, t: Talk, cs: seq<Command>)
    requires Paired(l) && Random(rnd) && AllWellFormed(cs)
    ensures var o := Expected(l, c, rnd, k, t, cs); if cs == [] then o.rest == [] else |o.rest| < |SpokenAll(c, cs)|
    decreases |cs|
  {
    hide Spoken, Reply, Next, Random, SpokenAll;
    if cs != [] {
      SpokenCons(c, cs);
      if Reply(l, t.chip, Heard(cs[0], rnd(k))).Some? {
        ExpectedRest(l, c, rnd, k + 1, TalkAfter(l, t, cs[0]), cs[1..]);
      }
    }
  }

  /** The device has read less, or answered more, or hangs where the chip does not. */
  predicate Beyond(d: Outcome, e: Outcome) {
    |d.rest| > |e.rest| || (|d.rest| == |e.rest| && |d.replies| >= |e.replies| && (|d.replies| > |e.replies| || (d.stuck && !e.stuck)))
  }

  predicate NoLess(d: Outcome, e: Outcome) { |d.rest| > |e.rest| || (|d.rest| == |e.rest| && |d.replies| >= |e.replies|) }

  /** Once a program command was refused, the device never catches up. */
  lemma {:induction false} NeverCatchesUp(l: Layout, c: Libc, rnd: nat -> nat -> seq<Byte>, j: nat, k: nat, t: Talk, u: Talk, cs: seq<Command>)
    requires Paired(l) && Faithful(c) && Random(rnd) && AllWellFormed(cs) && OneLine(l, t.chip, cs) && t.chip == u.chip
    ensures var d, e := Listen(l, c.scan, rnd, j, t, SpokenAll(c, cs)), Expected(l, c, rnd, k, u, cs);
      NoLess(d, e) && (!AllFine(l, t.chip, cs) ==> Beyond(d, e))
    decreases |cs|
  {
    hide Listen, Spoken, Reply, Next, Fine, Faithful, Random, SpokenAll;
    if cs == [] {
      NothingHeard(l, c, rnd, j, t);
    } else {
      var rest, t', u' := SpokenAll(c, cs[1..]), TalkAfter(l, t, cs[0]), TalkAfter(l, u, cs[0]);
      SpokenCons(c, cs);
      AnyNoise(l, t.chip, cs[0], rnd(j));
      AnyNoise(l, t.chip, cs[0], rnd(k));
      if Fine(l, t.chip, cs[0]) {
        FineHeard(l, c, rnd, j, t, cs[0], rest);
        if Reply(l, t.chip, cs[0]).Some? {
          NeverCatchesUp(l, c, rnd, j + 1, k + 1, t', u', cs[1..]);
        }
      } else {
        RefusedKeeps(l, t.chip, cs[0]);
        RefusedHeard(l, c, rnd, j, t, cs[0], rest);
        var v := Talk(t.chip, cs[0].addr, cs[0].size);
        ExpectedRest(l, c, rnd, k + 1, u', cs[1..]);
        NeverCatchesUp(l, c, rnd, j + 2, k + 1, v, u', cs[1..]);
      }
    }
  }

  lemma RefusedKeeps(l: Layout, chip: Chip, cmd: Command)
    requires Paired(l) && WellFormed(cmd) && !Fine(l, chip, cmd)
    ensures cmd.Program? && Next(l, chip, cmd) == chip && Reply(l, chip, cmd) == Some([1])
  {
  }

  /** As long as the data of refused commands is one line: the device answers the
      driver as the chip would if and only if no program command is refused. */
  lemma AnsweredIff(l: Layout, c: Libc, rnd: nat -> nat -> seq<Byte>, t: Talk, cs: seq<Command>)
    requires Paired(l) && Faithful(c) && Random(rnd) && AllWellFormed(cs) && OneLine(l, t.chip, cs)
    ensures Listen(l, c.scan, rnd, 0, t, SpokenAll(c, cs)) == Expected(l, c, rnd, 0, t, cs) <==> AllFine(l, t.chip, cs)
  {
    hide Listen, Expected, AllFine, Faithful, Random, SpokenAll, OneLine;
    if AllFine(l, t.chip, cs) {
      DriverHeard(l, c, rnd, 0, t, cs);
    } else {
      NeverCatchesUp(l, c, rnd, 0, 0, t, t, cs);
    }
  }

  /** A program to a sector that was never erased: refused, and then the random
      words of a read. */
  lemma UnknownSector(l: Layout, c: Libc, rnd: nat -> nat -> seq<Byte>, t: Talk, addr: U32, data: seq<Byte>)
    requires Paired(l) && Faithful(c) && Random(rnd) && InChip(l, addr) && addr / 4096 !in t.chip.known
    requires |data| == 4 && LF !in data
    ensures Listen(l, c.scan, rnd, 0, t, Spoken(c, Program(addr, 1, data))).replies == [[1], rnd(1)(1) + [0]]
  {
    hide Listen, Spoken, Faithful, Random;
    var cmd := Program(addr, 1, data);
    RefusedHeard(l, c, rnd, 0, t, cmd, []);
    assert Spoken(c, cmd) + [] == Spoken(c, cmd);
    NoInput(l, c, rnd, 2, Talk(t.chip, addr, 1));
  }

  lemma NoInput(l: Layout, c: Libc, rnd: nat -> nat -> seq<Byte>, k: nat, t: Talk)
    requires Paired(l) && Random(rnd)
    ensures Listen(l, c.scan, rnd, k, t, []) == Outcome([], [], false, t)
  {
    RandomAt(rnd, k);
  }

  // ----- data with a line feed in it ---------------------------------------

  lemma ShortLine(l: Layout, scan: seq<Byte> -> Numbers, noise: nat -> seq<Byte>, t: Talk, a: seq<Byte>, rest: seq<Byte>)
    requires Paired(l) && LF !in a && !Starts(a + [LF], 101) && !Starts(a + [LF], 119) && !Starts(a + [LF], 114)
    requires forall n: nat :: |noise(n)| == 4 * n
    ensures OneRound(l, scan, noise, t, a + ([LF] + rest)) == OnRead(l, t, noise, rest)
  {
    hide OnRead, OnProgram, LineEnd, Next, Reply, Starts;
    var s := a + ([LF] + rest);
    LineEndIs(a, rest);
    assert s[..|a| + 1] == a + [LF] && s[|a| + 1..] == rest;
  }

  lemma UnknownAnswers(l: Layout, t: Talk, noise: nat -> seq<Byte>, rest: seq<Byte>)
    requires Paired(l) && InChip(l, t.addr) && t.addr / 4096 !in t.chip.known
    ensures OnRead(l, t, noise, rest) == Done(t, noise(t.size) + [0], rest)
  {
  }

  lemma ErasedAnswers(l: Layout, t: Talk, sector: U32, noise: nat -> seq<Byte>, rest: seq<Byte>)
    requires Paired(l) && EraseDone(l, sector)
    ensures var r := OnRead(l, TalkAfter(l, t, Erase(sector)), noise, rest);
      r.Done? && r.talk == TalkAfter(l, t, Erase(sector)) && r.rest == rest
  {
    hide AnswerBytes;
    var a := EraseAddr(sector);
    var words := TalkAfter(l, t, Erase(sector)).chip.words;
    forall v | v in words
      ensures v / 64 != a / 256
    {
      assert a / 256 / 16 == a / 4096;
      assert v / 1024 == v / 64 / 16;
    }
  }

  lemma SpacesNoCommand(pad: seq<Byte>)
    requires forall i :: 0 <= i < |pad| ==> pad[i] == SP
    ensures LF !in pad + [CR]
    ensures forall c :: c != SP && c != CR ==> !Starts(pad + [CR] + [LF], c)
  {
  }

  /** What follows a line feed in the data of a refused program command is taken as
      a command of its own: here it erases a sector. */
  lemma DataErases(l: Layout, c: Libc, rnd: nat -> nat -> seq<Byte>, t: Talk, addr: U32, size: U32, sector: U32, pad: seq<Byte>)
    requires Paired(l) && Faithful(c) && Random(rnd) && EraseDone(l, sector) && InChip(l, addr) && addr / 4096 !in t.chip.known
    requires (forall i :: 0 <= i < |pad| ==> pad[i] == SP) && 4 * size == |[LF] + Line(101, c.hex(sector)) + pad|
    ensures var data := [LF] + Line(101, c.hex(sector)) + pad;
      Listen(l, c.scan, rnd, 0, t, Spoken(c, Program(addr, size, data))).talk.chip == Next(l, t.chip, Erase(sector))
  {
    hide Listen, OneRound, OnProgram, OnRead, Faithful, Random, Line, LineEnd, EraseDone, InChip, Next, Reply;
    var line := Line(101, c.hex(sector));
    var data := [LF] + line + pad;
    var cmd, t0 := Program(addr, size, data), Talk(t.chip, addr, size);
    forall k: nat
      ensures forall n: nat :: |rnd(k)(n)| == 4 * n
    {
      RandomAt(rnd, k);
    }
    assert Spoken(c, cmd) + [] == Spoken(c, cmd);
    ListenStep(l, c.scan, rnd, 0, t, Spoken(c, cmd));
    CommandHeard(l, c, rnd(0), t, cmd, []);
    ProgramHeard(l, t, addr, size, data, []);
    var rest1, rest2 := line + (pad + EOL), pad + EOL;
    DataLineIs(data, line, pad);
    ShortLine(l, c.scan, rnd(1), t0, [100, COLON], rest1);
    UnknownAnswers(l, t0, rnd(1), rest1);
    ListenStep(l, c.scan, rnd, 1, t0, [100, COLON] + ([LF] + rest1));
    var t1 := TalkAfter(l, t0, Erase(sector));
    CommandHeard(l, c, rnd(2), t0, Erase(sector), rest2);
    ListenStep(l, c.scan, rnd, 2, t0, rest1);
    SpacesNoCommand(pad);
    assert rest2 == (pad + [CR]) + ([LF] + []);
    ShortLine(l, c.scan, rnd(3), t1, pad + [CR], []);
    ErasedAnswers(l, t0, sector, rnd(3), []);
    ListenStep(l, c.scan, rnd, 3, t1, rest2);
    NoInput(l, c, rnd, 4, t1);
  }

  lemma DataLineIs(data: seq<Byte>, line: seq<Byte>, pad: seq<Byte>)
    requires data == [LF] + line + pad
    ensures Line(100, data) + [] == [100, COLON] + ([LF] + (line + (pad + EOL)))
  {
  }
}
