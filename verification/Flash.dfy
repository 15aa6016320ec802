/** The simulated flash chip: its ranges, its sectors and pages, and the
    commands it serves. */
module Flash {
  import opened Basics
  import opened FlashLayout
  import opened FlashChip
  import opened FlashStore
  import opened FlashTalk

  class FlashDevice {
    var starts: seq<U32>
    var ends: seq<U32>
    var secstart: seq<nat>
    var ready: bool  // the sector and page arrays are allocated
    var secs: seq<Sector>
    var pages: seq<Page>

    ghost function Ranges(): Layout
      reads this
    {
      Layout(starts, ends)
    }

    ghost predicate Mapped()
      reads this
    {
      |secstart| == |starts| == |ends| && forall r :: 0 <= r < |starts| ==> secstart[r] == Sectors(Ranges(), r)
    }

    ghost predicate Valid()
      reads this
    {
      ready && Sized(Ranges(), secs, pages) && Mapped()
    }

    /** The device holds the contents `chip`. */
    ghost predicate Models(chip: Chip)
      reads this
    {
      Valid() && Holds(Ranges(), secs, pages, chip)
    }

    constructor ()
      ensures Ranges() == Layout([], []) && InOrder(Ranges()) && !ready && secstart == [] && secs == [] && pages == []
    {
      starts, ends, secstart, ready, secs, pages := [], [], [], false, [], [];
    }

    /** An overlap is reported, and the range goes in all the same. */
    method AddRange(s: U32, e: U32) returns (overlap: bool)
      requires InOrder(Ranges())
      modifies this`starts, this`ends
      ensures InOrder(Ranges())
      ensures ready || e <= s ==> Ranges() == old(Ranges()) && !overlap
      ensures !ready && s < e ==> Ranges() == Insert(old(Ranges()), s, e) && overlap == Clash(old(Ranges()), s, e)
    {
      hide InOrder, Overlap, InsertAt;
      InOrderPaired(Ranges());
      overlap := false;
      if ready || e <= s {
        return;
      }
      for r := 0 to |starts|
        invariant overlap <==> exists i :: 0 <= i < r && Overlap(s, e, starts[i], ends[i])
        invariant Ranges() == old(Ranges())
      {
        if Overlap(s, e, starts[r], ends[r]) {
          overlap := true;
        }
      }
      var r := 0;
      while r < |starts| && s > starts[r]
        invariant 0 <= r <= |starts| && Place(starts, s, r) == Place(starts, s, 0)
        invariant Ranges() == old(Ranges())
      {
        r := r + 1;
      }
      InsertInOrder(Ranges(), s, e);
      InsertIs(starts, r, s);
      InsertIs(ends, r, e);
      if r == |starts| {
        starts, ends := starts + [s], ends + [e];
      } else {
        starts, ends := starts[..r] + [s] + starts[r..], ends[..r] + [e] + ends[r..];
      }
    }

    /** Lay the sectors of all ranges out one behind the other. */
    method RangeInit() returns (failed: bool)
      requires Paired(Ranges())
      modifies this`secstart, this`ready, this`secs, this`pages
      ensures failed <==> starts == [] || Sectors(Ranges(), |starts|) == 0
      ensures Ok(Ranges()) ==> (failed <==> starts == [])
      ensures failed ==> ready == old(ready) && secs == old(secs) && pages == old(pages)
      ensures !failed && Ok(Ranges()) ==> Models(Start())
    {
      hide Ok, Holds, Sectors, Size;
      if |starts| == 0 {
        return true;
      }
      var total := 0;
      SectorsStep(Ranges(), 0);
      secstart := seq(|starts|, i => 0);
      for r := 0 to |starts|
        invariant |secstart| == |starts| && total == Sectors(Ranges(), r)
        invariant forall q :: 0 <= q < r ==> secstart[q] == Sectors(Ranges(), q)
        invariant ready == old(ready) && secs == old(secs) && pages == old(pages)
      {
        SectorsStep(Ranges(), r);
        secstart := secstart[r := total];
        total := total + Size(starts[r], ends[r]);
      }
      if total == 0 {
        NoSectors(Ranges());
        return true;
      }
      secs := seq(total, i => UNK);
      pages := seq(total * 16, i => []);
      ready := true;
      if Ok(Ranges()) {
        HoldsAtStart(Ranges(), secs, pages);
      }
      return false;
    }

    /** The scan stops at the first range that starts behind the address. */
    method GetRange(a: U32) returns (r: int)
      requires InOrder(Ranges())
      ensures r == Find(Ranges(), a, 0)
    {
      var i := 0;
      while i < |starts|
        invariant 0 <= i <= |starts| && Find(Ranges(), a, 0) == Find(Ranges(), a, i)
      {
        if a < starts[i] {
          NoneLater(Ranges(), a, i);
          return -1;
        }
        if a <= ends[i] {
          return i;
        }
        i := i + 1;
      }
      return -1;
    }

    method Erase(sector: U32, ghost chip: Chip) returns (reply: seq<Byte>)
      requires Models(chip)
      modifies this`secs, this`pages
      ensures Models(Next(Ranges(), chip, Command.Erase(sector)))
      ensures Reply(Ranges(), chip, Command.Erase(sector)) == Some(reply)
    {
      hide Holds, Ok, Sectors, Find, SlotSec, SlotPage, Without;
      var a := sector * 4096 % MOD32;
      OkInOrder(Ranges());
      var range := GetRange(a);
      if range < 0 {
        return [1];
      }
      ghost var l := Ranges();
      Locate(l, a);
      var sec := secstart[range] + (a - starts[range]) / 4096;
      var pgstart := secstart[range] * 16 + (a - starts[range]) / 256;
      EraseSlots(l, sector);
      ghost var was := pages;
      var pg := pgstart;
      while pg <= pgstart + 15
        invariant pgstart <= pg <= pgstart + 16 && |pages| == |was|
        invariant forall i :: 0 <= i < |was| ==> pages[i] == if pgstart <= i < pg then [] else was[i]
        invariant secs == old(secs)
      {
        pages := pages[pg := []];
        pg := pg + 1;
      }
      EraseKeeps(l, secs, was, pages, chip, sector);
      secs := secs[sec := ERS];
      return [0];
    }

    /** Store data words in a page, extended with zeros if it is too short. */
    static method Store(before: Page, addrinpage: nat, size: nat, data: seq<Byte>) returns (page: Page)
      requires |data| == 4 * size && 1 <= size
      ensures page == Stored(before, addrinpage, data, size)
    {
      page := before;
      if addrinpage + size > |page| {
        page := page + seq(addrinpage + size - |page|, i => 0);
      }
      var pos := 0;
      while pos < size
        invariant 0 <= pos <= size && |page| == |Stored(before, addrinpage, data, size)|
        invariant forall k :: 0 <= k < |page| ==>
          page[k] == if addrinpage <= k < addrinpage + pos then DataWord(data, k - addrinpage) else if k < |before| then before[k] else 0
      {
        var word := Assemble(data[4 * pos], data[4 * pos + 1], data[4 * pos + 2], data[4 * pos + 3]);
        page := page[addrinpage + pos := word];
        pos := pos + 1;
      }
    }

    /** The checks that a program command has to pass before its data is read. */
    method Check(addr: U32, size: U32, ghost chip: Chip) returns (ok: bool)
      requires Models(chip)
      ensures ok == Allowed(Ranges(), chip.known, addr, size)
    {
      hide Holds, Ok, Sectors, Find, SlotSec, SlotPage;
      ghost var l := Ranges();
      OkInOrder(Ranges());
      var range := GetRange(addr);
      if range < 0 {
        return false;
      }
      Locate(l, addr);
      Found(l, secs, pages, chip, addr);
      var sec := secstart[range] + (addr - starts[range]) / 4096;
      if secs[sec] == UNK {
        return false;
      }
      if size < 1 || size > 64 {
        return false;
      }
      return (addr + size * 4 - 1) % MOD32 / 256 == addr / 256;
    }

    /** Store the data of a program command that has passed the checks. */
    method Program(addr: U32, size: U32, data: seq<Byte>, ghost chip: Chip)
      requires Models(chip) && |data| == 4 * size && Allowed(Ranges(), chip.known, addr, size)
      modifies this`secs, this`pages
      ensures Models(Next(Ranges(), chip, Command.Program(addr, size, data)))
    {
      hide Holds, Ok, Sectors, Find, SlotSec, SlotPage, With, OnePage;
      ghost var l, c := Ranges(), Command.Program(addr, size, data);
      OkInOrder(Ranges());
      var range := GetRange(addr);
      Locate(l, addr);
      var sec := secstart[range] + (addr - starts[range]) / 4096;
      ProgramKeeps(l, secs, pages, chip, c);
      var pageaddr := secstart[range] * 16 + (addr - starts[range]) / 256;
      var addrinpage := (addr - starts[range]) % 256 / 4;
      secs := secs[sec := PROG];
      var page := Store(pages[pageaddr], addrinpage, size, data);
      pages := pages[pageaddr := page];
    }

    /** The words of a used page, and blanks behind its stored end. */
    static method AnswerPage(page: Page, addr: U32, size: U32, ghost words: map<int, U32>) returns (reply: Maybe<seq<Byte>>)
      requires PageHolds(page, words, addr / 256) && page != []
      ensures var after := size + FirstPos(addr);
        reply == if after == 0 || after == MOD32 then None
                 else if after > MOD32 then Some([0])
                 else Some(AnswerBytes(words, addr, size) + [0])
    {
      hide PageHolds, AnswerBytes, LittleEndian, EndPos, FirstPos;
      var pos := FirstPos(addr);
      ghost var first := pos;
      var out: seq<Byte> := [];
      NoAnswer(words, addr);
      var end := EndPos(size, pos);
      EndFacts(size, addr);
      if end == MOD32 - 1 {
        // the position never passes the end
        return None;
      }
      var endsto := |page| - 1;
      while pos <= if end > endsto then endsto else end
        invariant first <= pos && (pos == first || pos <= end + 1) && out == AnswerBytes(words, addr, pos - first)
        invariant pos == first || pos <= |page|
      {
        MoreAnswer(page, words, addr, pos - first);
        out := out + LittleEndian(page[pos]);
        pos := pos + 1;
      }
      while pos <= end
        invariant first <= pos && (pos == first || pos <= end + 1) && out == AnswerBytes(words, addr, pos - first)
        invariant pos <= end ==> pos > endsto
        decreases end - pos
      {
        MoreAnswer(page, words, addr, pos - first);
        out := out + [0xff, 0xff, 0xff, 0xff];
        pos := pos + 1;
      }
      assert size + first < MOD32 ==> pos - first == size;
      assert size + first > MOD32 ==> pos == first && out + [0] == [0];
      return Some(out + [0]);
    }

    method Read(addr: U32, size: U32, noise: seq<Byte>, ghost chip: Chip) returns (reply: Maybe<seq<Byte>>)
      requires Models(chip) && |noise| == 4 * size
      ensures reply == Reply(Ranges(), chip, Command.Read(addr, size, noise))
    {
      hide Holds, Ok, Sectors, Find, SlotSec, SlotPage, AnswerBytes, PageHolds, AnswerWord, PageUsed;
      ghost var l := Ranges();
      OkInOrder(Ranges());
      var range := GetRange(addr);
      if range < 0 {
        return Some([1]);
      }
      Locate(l, addr);
      Found(l, secs, pages, chip, addr);
      var sec := secstart[range] + (addr - starts[range]) / 4096;
      var pageaddr := secstart[range] * 16 + (addr - starts[range]) / 256;
      var page := pages[pageaddr];
      PageUse(page, chip.words, addr);
      if secs[sec] == UNK {
        return Some(noise + [0]);
      }
      var out: seq<Byte> := [];
      NoAnswer(chip.words, addr);
      if secs[sec] == ERS || |page| == 0 {
        var pos := 0;
        while pos < size
          invariant 0 <= pos <= size && out == AnswerBytes(chip.words, addr, pos)
        {
          MoreAnswer(page, chip.words, addr, pos);
          out := out + [0xff, 0xff, 0xff, 0xff];
          pos := pos + 1;
        }
        return Some(out + [0]);
      }
      FirstPosIs(addr);
      reply := AnswerPage(page, addr, size, chip.words);
    }

    /** A program command, once its line is parsed. */
    method OnProgramLine(addr: U32, size: U32, rest: seq<Byte>, ghost chip: Chip) returns (r: Heard, ghost after: Chip)
      requires Models(chip)
      modifies this`secs, this`pages
      ensures AsRound(r, after) == OnProgram(Ranges(), Talk(chip, addr, size), rest) && Models(after)
      ensures r.Nothing? ==> after == chip
    {
      hide Holds, Sized, Next, Reply, FindData, Allowed;
      after := chip;
      var ok := Check(addr, size, chip);
      if !ok {
        return Answered(addr, size, [1], rest), chip;
      }
      match FindData(rest, size) {
        case Missing =>
          return Nothing, chip;
        case Untagged(more) =>
          return Answered(addr, size, [1], more), chip;
        case Tagged(data, more) =>
          Program(addr, size, data, chip);
          return Answered(addr, size, [0], more), Next(Ranges(), chip, Command.Program(addr, size, data));
      }
    }

    method OnReadLine(addr: U32, size: U32, noise: nat -> seq<Byte>, rest: seq<Byte>, ghost chip: Chip) returns (r: Heard)
      requires Models(chip) && |noise(size)| == 4 * size
      ensures AsRound(r, chip) == OnRead(Ranges(), Talk(chip, addr, size), noise, rest)
    {
      hide Holds, Sized, Next, Reply;
      var reply := Read(addr, size, noise(size), chip);
      r := if reply.None? then Hung(addr, size, rest) else Answered(addr, size, reply.value, rest);
    }

    /** One round of the message loop. */
    method OneMessage(input: seq<Byte>, scan: seq<Byte> -> Numbers, noise: nat -> seq<Byte>, addr: U32, size: U32, ghost chip: Chip)
        returns (r: Heard, ghost after: Chip)
      requires Models(chip) && forall n: nat :: |noise(n)| == 4 * n
      modifies this`secs, this`pages
      ensures AsRound(r, after) == OneRound(Ranges(), scan, noise, Talk(chip, addr, size), input) && Models(after)
      ensures r.Nothing? ==> after == chip
    {
      hide Holds, Sized, Next, Reply, OnProgram, OnRead, LineEnd;
      after := chip;
      var e := LineEnd(input);
      LineEndFacts(input);
      if e == |input| {
        return Nothing, chip;
      }
      var msg, rest := input[..e + 1], input[e + 1..];
      if Starts(msg, 101) {
        var sector := Or(scan(msg[2..]).first, addr);
        var reply := Erase(sector, chip);
        return Answered(sector * 4096 % MOD32, size, reply, rest), Next(Ranges(), chip, Command.Erase(sector));
      } else if Starts(msg, 119) {
        var n := scan(msg[2..]);
        r, after := OnProgramLine(Or(n.first, addr), Or(n.second, size), rest, chip);
      } else {
        var n := if Starts(msg, 114) then scan(msg[2..]) else Numbers(None, None);
        r := OnReadLine(Or(n.first, addr), Or(n.second, size), noise, rest, chip);
      }
    }

    /** The message loop over the bytes that arrive. */
    method Serve(input: seq<Byte>, scan: seq<Byte> -> Numbers, rnd: nat -> nat -> seq<Byte>, addr0: U32, size0: U32, ghost chip: Chip)
        returns (replies: seq<seq<Byte>>, rest: seq<Byte>, stuck: bool, ghost end: Talk)
      requires Models(chip) && Random(rnd)
      modifies this`secs, this`pages
      ensures Outcome(replies, rest, stuck, end) == Listen(Ranges(), scan, rnd, 0, Talk(chip, addr0, size0), input)
      ensures Models(end.chip)
    {
      hide Holds, Sized, OneRound, Random;
      replies, rest, stuck := [], input, false;
      var addr, size := addr0, size0;
      end := Talk(chip, addr0, size0);
      ghost var l := Ranges();
      ghost var whole := Listen(l, scan, rnd, 0, end, input);
      Prepended([], whole);
      while true
        invariant Models(end.chip) && Ranges() == l && end.addr == addr && end.size == size && !stuck
        invariant whole == Prepend(replies, Listen(l, scan, rnd, |replies|, end, rest))
        decreases |rest|
      {
        RandomAt(rnd, |replies|);
        ghost var after;
        var r: Heard;
        ghost var t, before := end, rest;
        ListenStep(l, scan, rnd, |replies|, t, before);
        r, after := OneMessage(rest, scan, rnd(|replies|), addr, size, end.chip);
        match r {
          case Nothing =>
            assert replies + [] == replies;
            return;
          case Hung(a, n, more) =>
            assert replies + [] == replies;
            rest, stuck, end := more, true, Talk(after, a, n);
            return;
          case Answered(a, n, b, more) =>
            end, addr, size := Talk(after, a, n), a, n;
            Appended(replies, b, Listen(l, scan, rnd, |replies| + 1, end, more));
            replies, rest := replies + [b], more;
        }
      }
    }
  }

  /** What became of a message. */
  datatype Heard = Nothing | Hung(addr: U32, size: U32, rest: seq<Byte>) | Answered(addr: U32, size: U32, reply: seq<Byte>, rest: seq<Byte>)

  function AsRound(r: Heard, chip: Chip): Round {
    match r
    case Nothing => Waits
    case Hung(a, n, rest) => Sticks(Talk(chip, a, n), rest)
    case Answered(a, n, b, rest) => Done(Talk(chip, a, n), b, rest)
  }

  lemma LineEndFacts(s: seq<Byte>)
    ensures LineEnd(s) <= |s|
  {
  }

  lemma InOrderPaired(l: Layout)
    requires InOrder(l)
    ensures Paired(l)
  {
  }

  lemma InsertIs(v: seq<U32>, r: nat, x: U32)
    requires r <= |v|
    ensures InsertAt(v, r, x) == v[..r] + [x] + v[r..]
    ensures r == |v| ==> InsertAt(v, r, x) == v + [x]
  {
  }

  /** The last position of a read, in 32-bit arithmetic. */
  function EndPos(size: U32, pos: nat): nat { (size + pos - 1) % MOD32 }

  /** The word of its page that an address is in. */
  function FirstPos(addr: U32): nat { addr / 4 % 64 }

  lemma EndFacts(size: U32, addr: U32)
    ensures var pos := FirstPos(addr);
      && (EndPos(size, pos) == MOD32 - 1 <==> size + pos == 0 || size + pos == MOD32)
      && (size + pos > MOD32 ==> EndPos(size, pos) < pos)
      && (0 < size + pos < MOD32 ==> EndPos(size, pos) == size + pos - 1)
  {
  }

  lemma SectorsStep(l: Layout, r: nat)
    requires Paired(l) && r < |l.starts|
    ensures Sectors(l, 0) == 0 && Sectors(l, r + 1) == Sectors(l, r) + Size(l.starts[r], l.ends[r])
  {
  }

  lemma NoSectors(l: Layout)
    requires Paired(l) && l.starts != [] && Sectors(l, |l.starts|) == 0
    ensures !Ok(l)
  {
    if Ok(l) {
      assert Contains(l, 0, l.starts[0]) by { assert RangeOk(l.starts[0], l.ends[0]); }
      InBounds(l, 0, l.starts[0]);
    }
  }

  lemma Found(l: Layout, secs: seq<Sector>, pages: seq<Page>, chip: Chip, a: U32)
    requires Holds(l, secs, pages, chip) && InChip(l, a)
    ensures SlotSec(l, a) < |secs| && SlotPage(l, a) < |pages| && HoldsAt(secs, pages, chip, SlotSec(l, a), SlotPage(l, a), a)
  {
  }

  lemma Locate(l: Layout, a: U32)
    requires Ok(l) && InChip(l, a)
    ensures var r := Find(l, a, 0);
      && 0 <= r < |l.starts| && l.starts[r] <= a
      && Sectors(l, r) + (a - l.starts[r]) / 4096 == SlotSec(l, a) < Sectors(l, |l.starts|)
      && Sectors(l, r) * 16 + (a - l.starts[r]) / 256 == SlotPage(l, a) < Sectors(l, |l.starts|) * 16
      && (a - l.starts[r]) % 256 / 4 == a % 256 / 4
  {
    Slots(l, a);
    Maps(l, Find(l, a, 0), a);
  }

  /** An erase starts at the first page of its sector. */
  lemma EraseSlots(l: Layout, sector: U32)
    requires Ok(l) && EraseDone(l, sector)
    ensures SlotPage(l, EraseAddr(sector)) == SlotSec(l, EraseAddr(sector)) * 16
    ensures SlotSec(l, EraseAddr(sector)) < Sectors(l, |l.starts|)
  {
    hide SlotSec, SlotPage, Ok, EraseAddr;
    Slots(l, EraseAddr(sector));
    EraseAligned(sector);
  }

  lemma EraseAligned(sector: U32)
    ensures EraseAddr(sector) / 256 % 16 == 0
  {
    EraseAddrIs(sector);
    var k := sector % 0x10_0000;
    assert 4096 * k / 256 == k * 16;
  }

  lemma NoAnswer(words: map<int, U32>, a: U32)
    ensures AnswerBytes(words, a, 0) == []
  {
  }

  lemma MoreAnswer(page: Page, words: map<int, U32>, a: U32, k: nat)
    requires PageHolds(page, words, a / 256)
    ensures AnswerBytes(words, a, k + 1) == AnswerBytes(words, a, k) +
              if FirstPos(a) + k < |page| then LittleEndian(page[FirstPos(a) + k]) else [255, 255, 255, 255]
  {
    hide PageHolds, AnswerWord, FirstPos, LittleEndian;
    FirstPosIs(a);
    AnswerOffPage(page, words, a, k);
    BlankBytes();
  }

  lemma FirstPosIs(a: U32)
    ensures FirstPos(a) == a % 256 / 4
  {
    var q, r := a / 256, a % 256;
    assert a / 4 == 64 * q + r / 4;
    assert 0 <= r / 4 < 64;
  }

  lemma BlankBytes()
    ensures LittleEndian(BLANK) == [255, 255, 255, 255]
  {
  }

  /** Ranges in order: none behind one that starts too late. */
  lemma {:induction false} NoneLater(l: Layout, a: U32, i: nat)
    requires InOrder(l) && i < |l.starts| && a < l.starts[i]
    ensures Find(l, a, i) == -1
    decreases |l.starts| - i
  {
    if i + 1 < |l.starts| {
      NoneLater(l, a, i + 1);
    }
  }
}
