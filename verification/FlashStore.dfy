/** How the vectors of sectors and pages hold the contents of the chip. */
module FlashStore {
  import opened Basics
  import opened FlashLayout
  import opened FlashChip

  datatype Sector = UNK | ERS | PROG

  type Page = seq<U32>

  function WordNo(p: int, k: int): int { p * 64 + k }

  /** A page holds its words up to the last one programmed; those in between that
      were not programmed are 0. */
  ghost predicate PageHolds(page: Page, words: map<int, U32>, p: int) {
    && |page| <= 64
    && (forall k :: 0 <= k < 64 && WordNo(p, k) in words ==> k < |page|)
    && (forall k :: 0 <= k < |page| ==> page[k] == if WordNo(p, k) in words then words[WordNo(p, k)] else 0)
    && (page != [] ==> WordNo(p, |page| - 1) in words)
  }

  function SlotSec(l: Layout, a: U32): nat
    requires Paired(l) && InChip(l, a)
  {
    SecAddr(l, Find(l, a, 0), a)
  }

  function SlotPage(l: Layout, a: U32): nat
    requires Paired(l) && InChip(l, a)
  {
    PageAddr(l, Find(l, a, 0), a)
  }

  predicate Sized(l: Layout, secs: seq<Sector>, pages: seq<Page>) {
    Paired(l) && Ok(l) && |secs| == Sectors(l, |l.starts|) && |pages| == |secs| * 16
  }

  lemma Slots(l: Layout, a: U32)
    requires Ok(l) && InChip(l, a)
    ensures SlotSec(l, a) < Sectors(l, |l.starts|) && SlotPage(l, a) < Sectors(l, |l.starts|) * 16
    ensures SlotPage(l, a) == SlotSec(l, a) * 16 + a / 256 % 16
  {
    InBounds(l, Find(l, a, 0), a);
    Maps(l, Find(l, a, 0), a);
  }

  ghost predicate HoldsAt(secs: seq<Sector>, pages: seq<Page>, chip: Chip, sec: nat, pg: nat, a: U32)
    requires sec < |secs| && pg < |pages|
  {
    && (secs[sec].UNK? <==> a / 4096 !in chip.known)
    && (secs[sec].ERS? ==> pages[pg] == [])
    && PageHolds(pages[pg], chip.words, a / 256)
  }

  /** The vectors hold the contents of the chip. */
  ghost predicate Holds(l: Layout, secs: seq<Sector>, pages: seq<Page>, chip: Chip) {
    && Sized(l, secs, pages)
    && forall a: U32 :: InChip(l, a) ==>
         SlotSec(l, a) < |secs| && SlotPage(l, a) < |pages| && HoldsAt(secs, pages, chip, SlotSec(l, a), SlotPage(l, a), a)
  }

  lemma HoldsAtStart(l: Layout, secs: seq<Sector>, pages: seq<Page>)
    requires Sized(l, secs, pages)
    requires forall i :: 0 <= i < |secs| ==> secs[i].UNK?
    requires forall i :: 0 <= i < |pages| ==> pages[i] == []
    ensures Holds(l, secs, pages, Start())
  {
    hide SlotSec, SlotPage, Ok, Sectors, InChip;
    forall a: U32 | InChip(l, a)
      ensures SlotSec(l, a) < |secs| && SlotPage(l, a) < |pages| && HoldsAt(secs, pages, Start(), SlotSec(l, a), SlotPage(l, a), a)
    {
      Slots(l, a);
    }
  }

  // ----- erase -------------------------------------------------------------

  predicate Cleared(pages: seq<Page>, pages': seq<Page>, from: nat) {
    && |pages'| == |pages|
    && forall i :: 0 <= i < |pages| ==> pages'[i] == if from <= i < from + 16 then [] else pages[i]
  }

  lemma PageWithout(page: Page, words: map<int, U32>, p: int, sector: int)
    requires PageHolds(page, words, p)
    ensures PageHolds(if p / 16 == sector then [] else page, Without(words, sector), p)
  {
    forall k | 0 <= k < 64
      ensures WordNo(p, k) in Without(words, sector) <==> WordNo(p, k) in words && p / 16 != sector
    {
      assert WordNo(p, k) / 1024 == p / 16;
    }
  }

  /** Two addresses and their slots. */
  lemma SlotsApart(l: Layout, a: U32, b: U32)
    requires Ok(l) && InChip(l, a) && InChip(l, b)
    ensures SlotSec(l, a) == SlotSec(l, b) <==> a / 4096 == b / 4096
    ensures SlotPage(l, a) == SlotPage(l, b) <==> a / 256 == b / 256
    ensures a / 256 == b / 256 ==> a / 4096 == b / 4096
    ensures SlotSec(l, b) * 16 <= SlotPage(l, a) < SlotSec(l, b) * 16 + 16 <==> a / 4096 == b / 4096
  {
    hide SecAddr, PageAddr;
    Injective(l, Find(l, a, 0), a, Find(l, b, 0), b);
    Slots(l, a);
    Slots(l, b);
  }

  lemma EraseKeeps(l: Layout, secs: seq<Sector>, pages: seq<Page>, pages': seq<Page>, chip: Chip, sector: U32)
    requires Holds(l, secs, pages, chip) && EraseDone(l, sector)
    requires SlotSec(l, EraseAddr(sector)) < |secs| && Cleared(pages, pages', SlotSec(l, EraseAddr(sector)) * 16)
    ensures Holds(l, secs[SlotSec(l, EraseAddr(sector)) := ERS], pages', Next(l, chip, Erase(sector)))
  {
    hide SlotSec, SlotPage, Ok, Sectors, PageHolds, EraseAddr, InChip, Without;
    var b := EraseAddr(sector);
    var secs', chip' := secs[SlotSec(l, b) := ERS], Next(l, chip, Erase(sector));
    forall a: U32 | InChip(l, a)
      ensures SlotSec(l, a) < |secs| && SlotPage(l, a) < |pages| && HoldsAt(secs', pages', chip', SlotSec(l, a), SlotPage(l, a), a)
    {
      SlotsApart(l, a, b);
      assert HoldsAt(secs, pages, chip, SlotSec(l, a), SlotPage(l, a), a);
      PageWithout(pages[SlotPage(l, a)], chip.words, a / 256, b / 4096);
      assert a / 256 / 16 == a / 4096;
    }
  }

  // ----- program -----------------------------------------------------------

  function StoredWord(page: Page, k0: nat, data: seq<Byte>, n: nat, k: nat): U32
    requires 4 * n <= |data|
  {
    if k0 <= k < k0 + n then DataWord(data, k - k0) else if k < |page| then page[k] else 0
  }

  /** A page after `n` words of `data` were stored from word `k0` on. */
  function Stored(page: Page, k0: nat, data: seq<Byte>, n: nat): Page
    requires 4 * n <= |data|
  {
    seq(if k0 + n > |page| then k0 + n else |page|, k requires 0 <= k => StoredWord(page, k0, data, n, k))
  }

  lemma PageWith(page: Page, words: map<int, U32>, p: int, k0: nat, data: seq<Byte>, n: nat)
    requires PageHolds(page, words, p) && 1 <= n && k0 + n <= 64 && 4 * n <= |data|
    ensures PageHolds(Stored(page, k0, data, n), With(words, WordNo(p, k0), data, n), p)
  {
    hide DataWord, With, WordNo;
    var words', page' := With(words, WordNo(p, k0), data, n), Stored(page, k0, data, n);
    forall k | 0 <= k < 64
      ensures WordNo(p, k) in words' <==> WordNo(p, k) in words || k0 <= k < k0 + n
      ensures WordNo(p, k) in words' ==>
        words'[WordNo(p, k)] == if k0 <= k < k0 + n then DataWord(data, k - k0) else words[WordNo(p, k)]
    {
      WithAt(words, p, k0, data, n, k);
    }
  }

  lemma WithAt(words: map<int, U32>, p: int, k0: nat, data: seq<Byte>, n: nat, k: nat)
    requires 4 * n <= |data|
    ensures var words' := With(words, WordNo(p, k0), data, n);
      && (WordNo(p, k) in words' <==> WordNo(p, k) in words || k0 <= k < k0 + n)
      && (WordNo(p, k) in words' ==>
            words'[WordNo(p, k)] == if k0 <= k < k0 + n then DataWord(data, k - k0) else words[WordNo(p, k)])
  {
    hide DataWord;
    assert WordNo(p, k) - WordNo(p, k0) == k - k0;
  }

  lemma PageBeside(page: Page, words: map<int, U32>, p: int, q: int, k0: nat, data: seq<Byte>, n: nat)
    requires PageHolds(page, words, p) && k0 + n <= 64 && 4 * n <= |data| && p != q
    ensures PageHolds(page, With(words, WordNo(q, k0), data, n), p)
  {
    hide DataWord;
    var words' := With(words, WordNo(q, k0), data, n);
    forall k | 0 <= k < 64
      ensures WordNo(p, k) in words' <==> WordNo(p, k) in words
      ensures WordNo(p, k) in words ==> words'[WordNo(p, k)] == words[WordNo(p, k)]
    {
    }
  }

  /** Where an accepted program command writes. */
  lemma Target(l: Layout, known: set<int>, c: Command)
    requires Ok(l) && c.Program? && ProgramDone(l, known, c)
    ensures c.addr / 4 == WordNo(c.addr / 256, c.addr % 256 / 4)
    ensures c.addr % 256 / 4 + c.size <= 64
  {
    hide InChip, Ok;
    var x := c.addr + c.size * 4 - 1;
    assert x % MOD32 / 256 == c.addr / 256;
  }

  lemma ProgramKeeps(l: Layout, secs: seq<Sector>, pages: seq<Page>, chip: Chip, c: Command)
    requires Holds(l, secs, pages, chip) && c.Program? && WellFormed(c) && ProgramDone(l, chip.known, c)
    requires SlotSec(l, c.addr) < |secs| && SlotPage(l, c.addr) < |pages|
    ensures Holds(l, secs[SlotSec(l, c.addr) := PROG],
                  pages[SlotPage(l, c.addr) := Stored(pages[SlotPage(l, c.addr)], c.addr % 256 / 4, c.data, c.size)],
                  Next(l, chip, c))
  {
    hide SlotSec, SlotPage, Ok, Sectors, PageHolds, InChip, With, Stored, OnePage, WordNo;
    var b, k0 := c.addr, c.addr % 256 / 4;
    var secs', pages', chip' := secs[SlotSec(l, b) := PROG],
                                pages[SlotPage(l, b) := Stored(pages[SlotPage(l, b)], k0, c.data, c.size)], Next(l, chip, c);
    Target(l, chip.known, c);
    hide ProgramDone;
    forall a: U32 | InChip(l, a)
      ensures SlotSec(l, a) < |secs| && SlotPage(l, a) < |pages| && HoldsAt(secs', pages', chip', SlotSec(l, a), SlotPage(l, a), a)
    {
      SlotsApart(l, a, b);
      assert HoldsAt(secs, pages, chip, SlotSec(l, a), SlotPage(l, a), a);
      if a / 256 == b / 256 {
        PageWith(pages[SlotPage(l, a)], chip.words, a / 256, k0, c.data, c.size);
      } else {
        PageBeside(pages[SlotPage(l, a)], chip.words, a / 256, b / 256, k0, c.data, c.size);
      }
    }
  }

  // ----- read --------------------------------------------------------------

  /** What a page answers for its words. */
  lemma PageWord(page: Page, words: map<int, U32>, p: int, k: nat)
    requires PageHolds(page, words, p) && k < 64
    ensures WordAt(words, WordNo(p, k)) == if k < |page| then page[k] else BLANK
  {
    PageEnd(page, words, p);
    if k < |page| && WordNo(p, k) !in words {
      var v := WordNo(p, |page| - 1);
      assert v in words && WordNo(p, k) < v && v / 64 == WordNo(p, k) / 64;
    }
  }

  lemma PageEnd(page: Page, words: map<int, U32>, p: int)
    requires PageHolds(page, words, p)
    ensures forall v :: v in words && v / 64 == p ==> v < WordNo(p, |page|)
  {
    forall v | v in words && v / 64 == p
      ensures v < WordNo(p, |page|)
    {
      assert v == WordNo(p, v - p * 64);
    }
  }

  lemma PageUse(page: Page, words: map<int, U32>, a: U32)
    requires PageHolds(page, words, a / 256)
    ensures PageUsed(words, a) <==> page != []
  {
    PageEnd(page, words, a / 256);
    if page != [] {
      assert WordNo(a / 256, |page| - 1) / 64 == a / 256;
    }
  }

  /** Word `k` of the answer, off the page. */
  lemma AnswerOffPage(page: Page, words: map<int, U32>, a: U32, k: nat)
    requires PageHolds(page, words, a / 256)
    ensures var pos := a % 256 / 4 + k; AnswerWord(words, a, k) == if pos < |page| then page[pos] else BLANK
  {
    hide WordAt;
    var pos := a % 256 / 4 + k;
    if pos < 64 {
      hide PageHolds;
      PageWord(page, words, a / 256, pos);
      assert a / 4 + k == WordNo(a / 256, pos);
    }
  }
}
