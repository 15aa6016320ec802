/** What a flash chip promises: words that keep the last value programmed since
    their sector was erased. No vectors, no pages, no high-water marks. */
module FlashChip {
  import opened Basics
  import opened FlashLayout

  const BLANK: U32 := 0xFFFF_FFFF

  /** The sectors erased at least once, and the words programmed since their
      sector was last erased, by word address (a quarter of the byte address). */
  datatype Chip = Chip(known: set<int>, words: map<int, U32>)

  /** The bytes that an unknown sector answers with are part of the read command. */
  datatype Command =
    | Erase(sector: U32)
    | Program(addr: U32, size: U32, data: seq<Byte>)
    | Read(addr: U32, size: U32, noise: seq<Byte>)

  /** The protocol sends all bytes of a program command. */
  predicate WellFormed(c: Command) {
    match c
    case Erase(_) => true
    case Program(_, size, data) => |data| == 4 * size
    case Read(_, size, noise) => |noise| == 4 * size
  }

  // ----- bytes of words ----------------------------------------------------

  function Assemble(b0: Byte, b1: Byte, b2: Byte, b3: Byte): U32 {
    b0 + 256 * (b1 + 256 * (b2 + 256 * b3))
  }

  function LittleEndian(w: U32): (b: seq<Byte>)
    ensures |b| == 4
  {
    [w % 256, w / 256 % 256, w / 256 / 256 % 256, w / 256 / 256 / 256 % 256]
  }

  /** The bytes of a word that was put together are those it was made of. */
  lemma BytesOfWord(b0: Byte, b1: Byte, b2: Byte, b3: Byte)
    ensures LittleEndian(Assemble(b0, b1, b2, b3)) == [b0, b1, b2, b3]
  {
    var w3: int := b3;
    var w2: int := b2 + 256 * w3;
    var w1: int := b1 + 256 * w2;
    var w0: int := b0 + 256 * w1;
    assert w0 / 256 == w1 && w1 / 256 == w2 && w2 / 256 == w3;
  }

  /** Word `k` of a data line. */
  function DataWord(data: seq<Byte>, k: nat): U32
    requires 4 * k + 3 < |data|
  {
    Assemble(data[4 * k], data[4 * k + 1], data[4 * k + 2], data[4 * k + 3])
  }

  function DataAt(data: seq<Byte>, first: int, w: int): U32
    requires first <= w && 4 * (w - first) + 3 < |data|
  {
    DataWord(data, w - first)
  }

  // ----- one command -------------------------------------------------------

  function EraseAddr(sector: U32): U32 { sector * 4096 % MOD32 }

  predicate EraseDone(l: Layout, sector: U32)
    requires Paired(l)
  {
    InChip(l, EraseAddr(sector))
  }

  /** The data stays inside one page. */
  predicate OnePage(addr: U32, size: U32) { (addr + size * 4 - 1) % MOD32 / 256 == addr / 256 }

  /** Words of one page: up to 64 words that do not go past its end. */
  lemma OnePageExact(addr: U32, size: U32)
    requires 1 <= size <= 64
    ensures OnePage(addr, size) <==> addr % 256 + 4 * size <= 256
  {
    var q, r: int := addr / 256, addr % 256;
    assert addr == 256 * q + r;
    if r + 4 * size <= 256 {
      assert (addr + size * 4 - 1) / 256 == q;
    } else {
      assert (addr + size * 4 - 1) / 256 == q + 1;
    }
  }

  /** Sector numbers count modulo the 2^20 sectors of the address space. */
  lemma EraseAddrIs(sector: U32)
    ensures EraseAddr(sector) == 4096 * (sector % 0x10_0000) && EraseAddr(sector) / 4096 == sector % 0x10_0000
  {
    var q, k := sector / 0x10_0000, sector % 0x10_0000;
    assert sector * 4096 == q * MOD32 + k * 4096;
    Wraps(q, k * 4096);
  }

  lemma Wraps(q: nat, r: nat)
    requires r < MOD32
    ensures (q * MOD32 + r) % MOD32 == r
  {
  }

  /** What a program command has to meet before its data is read. */
  predicate Allowed(l: Layout, known: set<int>, addr: U32, size: U32)
    requires Paired(l)
  {
    InChip(l, addr) && addr / 4096 in known && 1 <= size <= 64 && OnePage(addr, size)
  }

  predicate ProgramDone(l: Layout, known: set<int>, c: Command)
    requires Paired(l) && c.Program?
  {
    Allowed(l, known, c.addr, c.size)
  }

  function Without(words: map<int, U32>, sector: int): map<int, U32> {
    map w | w in words && w / 1024 != sector :: words[w]
  }

  function With(words: map<int, U32>, first: int, data: seq<Byte>, n: nat): map<int, U32>
    requires 4 * n <= |data|
  {
    words + map w | first <= w < first + n :: DataAt(data, first, w)
  }

  /** A word of a known sector: its value; if it was not programmed, 0 if a later
      word of its page was, and blank otherwise. */
  ghost function WordAt(words: map<int, U32>, w: int): U32 {
    if w in words then words[w]
    else if exists v :: v in words && w < v && v / 64 == w / 64 then 0
    else BLANK
  }

  /** Word `k` of the answer to a read; a read does not leave its page. */
  ghost function AnswerWord(words: map<int, U32>, addr: U32, k: nat): U32 {
    if addr % 256 / 4 + k < 64 then WordAt(words, addr / 4 + k) else BLANK
  }

  ghost function AnswerBytes(words: map<int, U32>, addr: U32, n: nat): (b: seq<Byte>)
    ensures |b| == 4 * n
  {
    if n == 0 then [] else AnswerBytes(words, addr, n - 1) + LittleEndian(AnswerWord(words, addr, n - 1))
  }

  /** Whether the page of an address holds any programmed word. */
  ghost predicate PageUsed(words: map<int, U32>, addr: U32) { exists v :: v in words && v / 64 == addr / 256 }

  /** The bytes sent back; none if the command never ends. The end position of a
      read from a used page is a 32-bit number. */
  ghost function ReadReply(chip: Chip, addr: U32, size: U32, noise: seq<Byte>): Maybe<seq<Byte>> {
    if addr / 4096 !in chip.known then Some(noise + [0])
    else if !PageUsed(chip.words, addr) then Some(AnswerBytes(chip.words, addr, size) + [0])
    else
      var after := size + addr % 256 / 4;
      if after == 0 || after == MOD32 then None
      else if after > MOD32 then Some([0])
      else Some(AnswerBytes(chip.words, addr, size) + [0])
  }

  ghost function Reply(l: Layout, chip: Chip, c: Command): Maybe<seq<Byte>>
    requires Paired(l)
  {
    match c
    case Erase(sector) => Some(if EraseDone(l, sector) then [0] else [1])
    case Program(_, _, _) => Some(if ProgramDone(l, chip.known, c) then [0] else [1])
    case Read(addr, size, noise) => if InChip(l, addr) then ReadReply(chip, addr, size, noise) else Some([1])
  }

  function Next(l: Layout, chip: Chip, c: Command): Chip
    requires Paired(l) && WellFormed(c)
  {
    match c
    case Erase(sector) =>
      if EraseDone(l, sector) then
        Chip(chip.known + {EraseAddr(sector) / 4096}, Without(chip.words, EraseAddr(sector) / 4096))
      else chip
    case Program(addr, size, data) =>
      if ProgramDone(l, chip.known, c) then chip.(words := With(chip.words, addr / 4, data, size)) else chip
    case Read(_, _, _) => chip
  }

  /** An erase, in terms of its sector number: the answer is 0, exactly that sector
      becomes known, and exactly the words with an address in it are gone. */
  lemma EraseExact(l: Layout, chip: Chip, sector: U32)
    requires Paired(l) && sector < 0x10_0000 && InChip(l, 4096 * sector)
    ensures Reply(l, chip, Erase(sector)) == Some([0])
    ensures var next := Next(l, chip, Erase(sector));
      && next.known == chip.known + {sector}
      && (forall w :: w in next.words <==> w in chip.words && !(4096 * sector <= 4 * w <= 4096 * sector + 4095))
      && (forall w :: w in next.words ==> next.words[w] == chip.words[w])
  {
    EraseAddrIs(sector);
    forall w: int
      ensures w / 1024 == sector <==> 4096 * sector <= 4 * w <= 4096 * sector + 4095
    {
    }
  }

  /** Outside the chip the answer is 1, and nothing is erased. */
  lemma EraseRefused(l: Layout, chip: Chip, sector: U32)
    requires Paired(l) && sector < 0x10_0000 && !InChip(l, 4096 * sector)
    ensures Reply(l, chip, Erase(sector)) == Some([1]) && Next(l, chip, Erase(sector)) == chip
  {
    EraseAddrIs(sector);
  }

  /** A program command, in terms of addresses: the answer is 0 and exactly the words
      from its address on take its data if it fits a page of a known sector, else the
      answer is 1 and nothing changes. */
  lemma ProgramExact(l: Layout, chip: Chip, addr: U32, size: U32, data: seq<Byte>)
    requires Paired(l) && |data| == 4 * size
    ensures var c := Program(addr, size, data);
      var next := Next(l, chip, c);
      if InChip(l, addr) && addr / 4096 in chip.known && 1 <= size <= 64 && addr % 256 + 4 * size <= 256
      then Reply(l, chip, c) == Some([0]) && next.known == chip.known
           && (forall w :: w in next.words <==> w in chip.words || addr / 4 <= w < addr / 4 + size)
           && (forall w :: w in next.words ==>
                 next.words[w] == if addr / 4 <= w < addr / 4 + size then DataWord(data, w - addr / 4) else chip.words[w])
      else Reply(l, chip, c) == Some([1]) && next == chip
  {
    hide DataWord, InChip, OnePage;
    if 1 <= size <= 64 {
      OnePageExact(addr, size);
    }
  }

  /** A read: refused outside the chip; random words and a 0 from a sector never
      erased; blank words and a 0 from a page without a programmed word. From any
      other page it is words and a 0 too, unless its end position, counted in words,
      is 0 or 2^32, where it never ends, or beyond, where there are no words. */
  lemma ReadCases(l: Layout, chip: Chip, addr: U32, size: U32, noise: seq<Byte>)
    requires Paired(l) && |noise| == 4 * size
    ensures var r := Reply(l, chip, Read(addr, size, noise));
      && (!InChip(l, addr) ==> r == Some([1]))
      && (InChip(l, addr) && addr / 4096 !in chip.known ==> r == Some(noise + [0]))
      && (InChip(l, addr) && addr / 4096 in chip.known ==>
            if forall v :: v in chip.words ==> v / 64 != addr / 256 then
              r.Some? && |r.value| == 4 * size + 1 && r.value[4 * size] == 0 && forall i :: 0 <= i < 4 * size ==> r.value[i] == 255
            else if (size == 0 && addr % 256 < 4) || size + addr % 256 / 4 == 0x1_0000_0000 then r.None?
            else if size + addr % 256 / 4 > 0x1_0000_0000 then r == Some([0])
            else r.Some? && |r.value| == 4 * size + 1 && r.value[4 * size] == 0)
  {
    hide InChip, LittleEndian, WordAt;
    if forall v :: v in chip.words ==> v / 64 != addr / 256 {
      BlankPage(chip.words, addr, size);
    }
  }

  /** A page without a programmed word answers with blanks, also behind its end. */
  lemma {:induction false} BlankPage(words: map<int, U32>, addr: U32, n: nat)
    requires forall v :: v in words ==> v / 64 != addr / 256
    ensures forall i :: 0 <= i < 4 * n ==> AnswerBytes(words, addr, n)[i] == 255
  {
    if n > 0 {
      BlankPage(words, addr, n - 1);
      var q, r: int := addr / 256, addr % 256;
      assert addr == 256 * q + r && addr / 4 == 64 * q + r / 4;
      if r / 4 + n - 1 < 64 {
        assert (addr / 4 + (n - 1)) / 64 == q;
      }
      assert AnswerWord(words, addr, n - 1) == BLANK;
      assert LittleEndian(BLANK) == [255, 255, 255, 255];
    }
  }

  // ----- runs --------------------------------------------------------------

  predicate AllWellFormed(cs: seq<Command>) { forall i :: 0 <= i < |cs| ==> WellFormed(cs[i]) }

  function Start(): Chip { Chip({}, map[]) }

  function After(l: Layout, chip: Chip, cs: seq<Command>): Chip
    requires Paired(l) && AllWellFormed(cs)
    decreases |cs|
  {
    if cs == [] then chip else Next(l, After(l, chip, cs[..|cs| - 1]), cs[|cs| - 1])
  }

  /** A command erases a sector: that of its number, if its address is in the chip. */
  predicate Erases(l: Layout, c: Command, sector: int)
    requires Paired(l)
  {
    c.Erase? && 0 <= sector < 0x10_0000 && c.sector % 0x10_0000 == sector && InChip(l, 4096 * sector)
  }

  lemma ErasesIs(l: Layout, c: Command, sector: int)
    requires Paired(l) && c.Erase?
    ensures Erases(l, c, sector) <==> EraseDone(l, c.sector) && EraseAddr(c.sector) / 4096 == sector
  {
    EraseAddrIs(c.sector);
  }

  /** Whether a sector was erased in the history. */
  predicate Erased(l: Layout, cs: seq<Command>, sector: int)
    requires Paired(l)
  {
    exists i :: 0 <= i < |cs| && Erases(l, cs[i], sector)
  }

  /** Whether a program command of the history was accepted. */
  predicate Accepted(l: Layout, cs: seq<Command>, i: nat)
    requires Paired(l) && i < |cs| && cs[i].Program?
  {
    var c := cs[i];
    InChip(l, c.addr) && Erased(l, cs[..i], c.addr / 4096) && 1 <= c.size <= 64 && c.addr % 256 + 4 * c.size <= 256
  }

  predicate Covers(c: Command, w: int)
    requires c.Program?
  {
    c.addr / 4 <= w < c.addr / 4 + c.size
  }

  /** The last value programmed into a word since its sector was erased, read off
      the history alone. */
  function LastValue(l: Layout, cs: seq<Command>, w: int): Maybe<U32>
    requires Paired(l) && AllWellFormed(cs)
    decreases |cs|
  {
    if cs == [] then None else
      var n := |cs| - 1;
      var c := cs[n];
      if Erases(l, c, w / 1024) then None
      else if c.Program? && Accepted(l, cs, n) && Covers(c, w) then Some(DataWord(c.data, w - c.addr / 4))
      else LastValue(l, cs[..n], w)
  }

  lemma {:induction false} KnownAfter(l: Layout, cs: seq<Command>, sector: int)
    requires Paired(l) && AllWellFormed(cs)
    ensures sector in After(l, Start(), cs).known <==> Erased(l, cs, sector)
    decreases |cs|
  {
    hide EraseDone, EraseAddr, ProgramDone, Without, With, Erases;
    if cs != [] {
      var n := |cs| - 1;
      KnownAfter(l, cs[..n], sector);
      assert Erased(l, cs, sector) <==> Erased(l, cs[..n], sector) || Erases(l, cs[n], sector);
      if cs[n].Erase? {
        ErasesIs(l, cs[n], sector);
      } else {
        OnlyErases(l, cs[n], sector);
      }
    }
  }

  lemma OnlyErases(l: Layout, c: Command, sector: int)
    requires Paired(l) && !c.Erase?
    ensures !Erases(l, c, sector)
  {
  }

  /** Over every run, each word holds the last value programmed since its sector
      was erased. */
  lemma {:induction false} WordsAfter(l: Layout, cs: seq<Command>, w: int)
    requires Paired(l) && AllWellFormed(cs)
    ensures var words := After(l, Start(), cs).words;
      LastValue(l, cs, w) == if w in words then Some(words[w]) else None
    decreases |cs|
  {
    hide EraseDone, EraseAddr, DataWord, OnePage, Erased, InChip, Erases;
    if cs != [] {
      var n := |cs| - 1;
      WordsAfter(l, cs[..n], w);
      if cs[n].Erase? {
        ErasesIs(l, cs[n], w / 1024);
      } else {
        OnlyErases(l, cs[n], w / 1024);
      }
      if cs[n].Program? {
        KnownAfter(l, cs[..n], cs[n].addr / 4096);
        if 1 <= cs[n].size <= 64 {
          OnePageExact(cs[n].addr, cs[n].size);
        }
      }
    }
  }

  lemma {:induction false} AnswerAt(words: map<int, U32>, addr: U32, n: nat, k: nat)
    requires k < n
    ensures AnswerBytes(words, addr, n)[4 * k..4 * k + 4] == LittleEndian(AnswerWord(words, addr, k))
  {
    hide AnswerWord, LittleEndian;
    var b := AnswerBytes(words, addr, n - 1);
    if k < n - 1 {
      AnswerAt(words, addr, n - 1, k);
      assert AnswerBytes(words, addr, n)[4 * k..4 * k + 4] == b[4 * k..4 * k + 4];
    }
  }

  /** A word of the chip, read off the history. */
  ghost function HistoryWord(l: Layout, cs: seq<Command>, w: int): U32
    requires Paired(l) && AllWellFormed(cs)
  {
    match LastValue(l, cs, w)
    case Some(v) => v
    case None => if exists v :: LastValue(l, cs, v).Some? && w < v && v / 64 == w / 64 then 0 else BLANK
  }

  lemma HistoryWordAt(l: Layout, cs: seq<Command>, w: int)
    requires Paired(l) && AllWellFormed(cs)
    ensures WordAt(After(l, Start(), cs).words, w) == HistoryWord(l, cs, w)
  {
    hide After, LastValue;
    forall v
      ensures LastValue(l, cs, v).Some? <==> v in After(l, Start(), cs).words
    {
      WordsAfter(l, cs, v);
    }
    WordsAfter(l, cs, w);
  }

  /** After every run, a read that stays in its page of a sector that was erased
      at some time answers with four bytes per word and a final 0, and word by
      word with what the history says. */
  lemma ReadBack(l: Layout, cs: seq<Command>, addr: U32, size: U32, noise: seq<Byte>)
    requires Paired(l) && AllWellFormed(cs) && InChip(l, addr) && Erased(l, cs, addr / 4096)
    requires 1 <= size && addr % 256 / 4 + size <= 64
    ensures var r := Reply(l, After(l, Start(), cs), Read(addr, size, noise));
      && r.Some? && |r.value| == 4 * size + 1 && r.value[4 * size] == 0
      && forall k :: 0 <= k < size ==> r.value[4 * k..4 * k + 4] == LittleEndian(HistoryWord(l, cs, addr / 4 + k))
  {
    hide After, HistoryWord, WordAt, AnswerBytes, LittleEndian, PageUsed, Erased;
    KnownAfter(l, cs, addr / 4096);
    var words := After(l, Start(), cs).words;
    var b := AnswerBytes(words, addr, size);
    forall k | 0 <= k < size
      ensures (b + [0])[4 * k..4 * k + 4] == LittleEndian(HistoryWord(l, cs, addr / 4 + k))
    {
      AnswerAt(words, addr, size, k);
      HistoryWordAt(l, cs, addr / 4 + k);
      assert (b + [0])[4 * k..4 * k + 4] == b[4 * k..4 * k + 4];
    }
  }

  /** Whether a command could change a word. */
  predicate Targets(c: Command, w: int) {
    match c
    case Erase(sector) => sector % 0x10_0000 == w / 1024
    case Program(_, _, _) => Covers(c, w)
    case Read(_, _, _) => false
  }

  /** A run in which no command has a word as its target leaves it as it was. */
  lemma {:induction false} Frame(l: Layout, chip: Chip, cs: seq<Command>, w: int)
    requires Paired(l) && AllWellFormed(cs) && forall i :: 0 <= i < |cs| ==> !Targets(cs[i], w)
    ensures var next := After(l, chip, cs);
      && (w in next.words <==> w in chip.words)
      && (w in chip.words ==> next.words[w] == chip.words[w])
    decreases |cs|
  {
    hide EraseDone, ProgramDone, DataWord, EraseAddr;
    if cs != [] {
      Frame(l, chip, cs[..|cs| - 1], w);
      assert !Targets(cs[|cs| - 1], w);
      if cs[|cs| - 1].Erase? {
        EraseAddrIs(cs[|cs| - 1].sector);
      }
    }
  }
}
