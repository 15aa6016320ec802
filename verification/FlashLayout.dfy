/** The address ranges of the flash chip, and where the words of an address are
    kept. */
module FlashLayout {

  const MOD32: nat := 0x1_0000_0000

  type U32 = x: int | 0 <= x < MOD32

  /** Two vectors of the same length: first and last addresses of the ranges. */
  datatype Layout = Layout(starts: seq<U32>, ends: seq<U32>)

  /** Whole sectors, but not the whole 32-bit space, whose size wraps to 0. */
  predicate RangeOk(s: U32, e: U32) {
    s < e && s % 4096 == 0 && (e + 1) % 4096 == 0 && e - s + 1 < MOD32
  }

  predicate Paired(l: Layout) { |l.starts| == |l.ends| }

  /** Sector-aligned ranges, disjoint and in order. */
  predicate Ok(l: Layout) {
    && Paired(l)
    && (forall i :: 0 <= i < |l.starts| ==> RangeOk(l.starts[i], l.ends[i]))
    && (forall i, j :: 0 <= i < j < |l.starts| ==> l.ends[i] < l.starts[j])
  }

  /** In order of their first addresses, whether or not they overlap. */
  predicate InOrder(l: Layout) { Paired(l) && forall i, j :: 0 <= i < j < |l.starts| ==> l.starts[i] <= l.starts[j] }

  lemma OkInOrder(l: Layout)
    requires Ok(l)
    ensures InOrder(l)
  {
    forall i, j | 0 <= i < j < |l.starts|
      ensures l.starts[i] <= l.starts[j]
    {
      assert RangeOk(l.starts[i], l.ends[i]) && l.ends[i] < l.starts[j];
    }
  }

  predicate Contains(l: Layout, r: nat, a: U32)
    requires Paired(l) && r < |l.starts|
  {
    l.starts[r] <= a <= l.ends[r]
  }

  // ----- adding ranges -----------------------------------------------------

  predicate Within(a: U32, s: U32, e: U32) { s <= a <= e }

  /** Whether the ranges share an address. */
  ghost predicate Meet(s: U32, e: U32, s': U32, e': U32) { exists a: U32 :: Within(a, s, e) && Within(a, s', e') }

  /** The test in the code. */
  predicate Overlap(s: U32, e: U32, s': U32, e': U32) {
    (s >= s' && s <= e') || (e >= s' && e <= e') || (s < s' && e > e')
  }

  lemma OverlapExact(s: U32, e: U32, s': U32, e': U32)
    requires s <= e && s' <= e'
    ensures Overlap(s, e, s', e') <==> Meet(s, e, s', e')
  {
    if Overlap(s, e, s', e') {
      var a: U32 := if s >= s' then s else s';
      assert Within(a, s, e) && Within(a, s', e');
    }
  }

  /** Some range of the layout meets the new one. */
  predicate Clash(l: Layout, s: U32, e: U32)
    requires Paired(l)
  {
    exists i :: 0 <= i < |l.starts| && Overlap(s, e, l.starts[i], l.ends[i])
  }

  /** The first position from `i` on whose range does not start earlier. */
  function Place(starts: seq<U32>, s: U32, i: nat): (r: nat)
    requires i <= |starts|
    ensures i <= r <= |starts|
    decreases |starts| - i
  {
    if i < |starts| && s > starts[i] then Place(starts, s, i + 1) else i
  }

  lemma {:induction false} PlaceOf(starts: seq<U32>, s: U32, i: nat)
    requires i <= |starts|
    ensures forall k :: i <= k < Place(starts, s, i) ==> starts[k] < s
    ensures Place(starts, s, i) < |starts| ==> s <= starts[Place(starts, s, i)]
    decreases |starts| - i
  {
    if i < |starts| && s > starts[i] {
      PlaceOf(starts, s, i + 1);
    }
  }

  function InsertAt(v: seq<U32>, r: nat, x: U32): (w: seq<U32>)
    requires r <= |v|
    ensures |w| == |v| + 1
    ensures forall j :: 0 <= j < |w| ==> w[j] == if j < r then v[j] else if j == r then x else v[j - 1]
  {
    v[..r] + [x] + v[r..]
  }

  function Insert(l: Layout, s: U32, e: U32): (m: Layout)
    requires Paired(l)
    ensures Paired(m)
  {
    var r := Place(l.starts, s, 0);
    Layout(InsertAt(l.starts, r, s), InsertAt(l.ends, r, e))
  }

  /** Whatever ranges are added, they stay in order of their first addresses. */
  lemma InsertInOrder(l: Layout, s: U32, e: U32)
    requires InOrder(l)
    ensures InOrder(Insert(l, s, e))
  {
    var r, m := Place(l.starts, s, 0), Insert(l, s, e);
    PlaceOf(l.starts, s, 0);
    forall i, j | 0 <= i < j < |m.starts|
      ensures m.starts[i] <= m.starts[j]
    {
      if i >= r && j > r {
        assert r < |l.starts| ==> l.starts[r] <= l.starts[j - 1] || j - 1 == r;
      }
    }
  }

  /** Disjoint ranges of whole sectors stay so exactly if the new range is made of
      sectors and meets none of them. */
  lemma InsertOk(l: Layout, s: U32, e: U32)
    requires Ok(l) && s < e
    ensures Ok(Insert(l, s, e)) <==> RangeOk(s, e) && !Clash(l, s, e)
  {
    hide RangeOk, Insert, Overlap;
    if RangeOk(s, e) && !Clash(l, s, e) {
      InsertKeeps(l, s, e);
    }
    if Ok(Insert(l, s, e)) {
      InsertedOk(l, s, e);
      forall i | 0 <= i < |l.starts|
        ensures !Overlap(s, e, l.starts[i], l.ends[i])
      {
        InsertedApart(l, s, e, i);
      }
    }
  }

  lemma InsertedOk(l: Layout, s: U32, e: U32)
    requires Paired(l) && Ok(Insert(l, s, e))
    ensures RangeOk(s, e)
  {
    var r, m := Place(l.starts, s, 0), Insert(l, s, e);
    assert RangeOk(m.starts[r], m.ends[r]);
  }

  lemma InsertedApart(l: Layout, s: U32, e: U32, i: nat)
    requires Ok(l) && s < e && Ok(Insert(l, s, e)) && i < |l.starts|
    ensures !Overlap(s, e, l.starts[i], l.ends[i])
  {
    var r, m := Place(l.starts, s, 0), Insert(l, s, e);
    assert RangeOk(l.starts[i], l.ends[i]);
    assert if i < r then m.ends[i] < m.starts[r] else m.ends[r] < m.starts[i + 1];
  }

  lemma InsertKeeps(l: Layout, s: U32, e: U32)
    requires Ok(l) && RangeOk(s, e) && !Clash(l, s, e)
    ensures Ok(Insert(l, s, e))
  {
    hide RangeOk, Clash;
    var m := Insert(l, s, e);
    forall i, j | 0 <= i < j < |m.starts|
      ensures m.ends[i] < m.starts[j]
    {
      PairKept(l, s, e, i, j);
    }
    forall i | 0 <= i < |m.starts|
      ensures RangeOk(m.starts[i], m.ends[i])
    {
      var k := InsertedFrom(l, s, e, i);
      if !(m.starts[i] == s && m.ends[i] == e) {
        assert RangeOk(l.starts[k], l.ends[k]);
      }
    }
  }

  lemma PairKept(l: Layout, s: U32, e: U32, i: nat, j: nat)
    requires Ok(l) && RangeOk(s, e) && !Clash(l, s, e) && i < j < |Insert(l, s, e).starts|
    ensures var m := Insert(l, s, e); m.ends[i] < m.starts[j]
  {
    hide RangeOk, Clash;
    var r, m := Place(l.starts, s, 0), Insert(l, s, e);
    if i == r {
      Apart(l, s, e, j - 1);
    } else if j == r {
      Apart(l, s, e, i);
    } else {
      assert l.ends[if i < r then i else i - 1] < l.starts[if j < r then j else j - 1];
    }
  }

  lemma Apart(l: Layout, s: U32, e: U32, i: nat)
    requires Ok(l) && RangeOk(s, e) && !Clash(l, s, e) && i < |l.starts|
    ensures if i < Place(l.starts, s, 0) then l.ends[i] < s else e < l.starts[i]
  {
    PlaceOf(l.starts, s, 0);
    assert !Overlap(s, e, l.starts[i], l.ends[i]);
    var r := Place(l.starts, s, 0);
    assert r < i ==> l.ends[r] < l.starts[i];
    assert RangeOk(l.starts[i], l.ends[i]);
    assert r < |l.starts| ==> RangeOk(l.starts[r], l.ends[r]);
  }

  // ----- finding a range ---------------------------------------------------

  /** The range of an address, -1 if there is none. */
  function Find(l: Layout, a: U32, i: nat): (r: int)
    requires Paired(l) && i <= |l.starts|
    ensures -1 <= r < |l.starts|
    ensures r >= 0 ==> i <= r && Contains(l, r, a)
    ensures r < 0 ==> forall k :: i <= k < |l.starts| ==> !Contains(l, k, a)
    decreases |l.starts| - i
  {
    if i == |l.starts| then -1 else if Contains(l, i, a) then i else Find(l, a, i + 1)
  }

  predicate InChip(l: Layout, a: U32)
    requires Paired(l)
  {
    Find(l, a, 0) >= 0
  }

  /** The addresses of the chip are those of its ranges, first and last included. */
  lemma InChipIff(l: Layout, a: U32)
    requires Paired(l)
    ensures InChip(l, a) <==> exists r :: 0 <= r < |l.starts| && l.starts[r] <= a <= l.ends[r]
  {
    if InChip(l, a) {
      assert Contains(l, Find(l, a, 0), a);
    }
    forall r | 0 <= r < |l.starts| && l.starts[r] <= a <= l.ends[r]
      ensures InChip(l, a)
    {
      assert Contains(l, r, a);
    }
  }

  /** Where the ranges go when one is added, and where they come from. */
  lemma InsertedAt(l: Layout, s: U32, e: U32, k: nat) returns (j: nat)
    requires Paired(l) && k < |l.starts|
    ensures var m := Insert(l, s, e); j < |m.starts| && m.starts[j] == l.starts[k] && m.ends[j] == l.ends[k]
  {
    hide Place;
    j := if k < Place(l.starts, s, 0) then k else k + 1;
  }

  lemma InsertedFrom(l: Layout, s: U32, e: U32, j: nat) returns (k: nat)
    requires Paired(l) && j < |Insert(l, s, e).starts|
    ensures var m := Insert(l, s, e);
      (m.starts[j] == s && m.ends[j] == e) || (k < |l.starts| && m.starts[j] == l.starts[k] && m.ends[j] == l.ends[k])
  {
    hide Place;
    k := if j < Place(l.starts, s, 0) then j else if j == 0 then 0 else j - 1;
  }

  lemma InsertedNew(l: Layout, s: U32, e: U32) returns (j: nat)
    requires Paired(l)
    ensures var m := Insert(l, s, e); j < |m.starts| && m.starts[j] == s && m.ends[j] == e
  {
    hide Place;
    j := Place(l.starts, s, 0);
  }

  /** Adding a range adds its addresses to those of the chip, and no others. */
  lemma InsertAdds(l: Layout, s: U32, e: U32, a: U32)
    requires Paired(l)
    ensures InChip(Insert(l, s, e), a) <==> InChip(l, a) || s <= a <= e
  {
    hide Insert, InChip;
    var m := Insert(l, s, e);
    InChipIff(l, a);
    InChipIff(m, a);
    var r := InsertedNew(l, s, e);
    forall k | 0 <= k < |l.starts| && l.starts[k] <= a <= l.ends[k]
      ensures InChip(m, a)
    {
      var j := InsertedAt(l, s, e, k);
    }
    forall j | 0 <= j < |m.starts| && m.starts[j] <= a <= m.ends[j]
      ensures InChip(l, a) || s <= a <= e
    {
      var k := InsertedFrom(l, s, e, j);
    }
  }

  /** An overlap is reported exactly if an address of the new range is in the chip. */
  lemma ClashIff(l: Layout, s: U32, e: U32)
    requires Paired(l) && s < e && forall i :: 0 <= i < |l.starts| ==> l.starts[i] < l.ends[i]  // as `addrange` sees to
    ensures Clash(l, s, e) <==> exists a: U32 :: s <= a <= e && InChip(l, a)
  {
    hide Overlap;
    if Clash(l, s, e) {
      var i :| 0 <= i < |l.starts| && Overlap(s, e, l.starts[i], l.ends[i]);
      OverlapExact(s, e, l.starts[i], l.ends[i]);
      var a: U32 :| Within(a, s, e) && Within(a, l.starts[i], l.ends[i]);
      InChipIff(l, a);
    }
    forall a: U32 | s <= a <= e && InChip(l, a)
      ensures Clash(l, s, e)
    {
      InChipIff(l, a);
      var i :| 0 <= i < |l.starts| && l.starts[i] <= a <= l.ends[i];
      assert Within(a, s, e) && Within(a, l.starts[i], l.ends[i]);
      OverlapExact(s, e, l.starts[i], l.ends[i]);
    }
  }

  /** In ranges of whole sectors an address is in the chip with all of its sector. */
  lemma InChipSector(l: Layout, a: U32, b: U32)
    requires Ok(l) && a / 4096 == b / 4096
    ensures InChip(l, a) <==> InChip(l, b)
  {
    InChipIff(l, a);
    InChipIff(l, b);
    forall r | 0 <= r < |l.starts|
      ensures l.starts[r] <= a <= l.ends[r] <==> l.starts[r] <= b <= l.ends[r]
    {
      assert RangeOk(l.starts[r], l.ends[r]);
      SameSide(a, b, l.starts[r], l.ends[r]);
    }
  }

  lemma SameSide(a: U32, b: U32, s: U32, e: U32)
    requires a / 4096 == b / 4096 && s % 4096 == 0 && (e + 1) % 4096 == 0
    ensures s <= a <= e <==> s <= b <= e
  {
  }

  // ----- sectors and pages -------------------------------------------------

  /** The sectors of a range, in 32-bit arithmetic. */
  function Size(s: U32, e: U32): nat { (e + 1 - s) % MOD32 / 4096 }

  /** The sectors before range `r`. */
  function Sectors(l: Layout, r: nat): nat
    requires Paired(l) && r <= |l.starts|
  {
    if r == 0 then 0 else Sectors(l, r - 1) + Size(l.starts[r - 1], l.ends[r - 1])
  }

  function SecAddr(l: Layout, r: nat, a: U32): nat
    requires Paired(l) && r < |l.starts| && Contains(l, r, a)
  {
    Sectors(l, r) + (a - l.starts[r]) / 4096
  }

  function PageAddr(l: Layout, r: nat, a: U32): nat
    requires Paired(l) && r < |l.starts| && Contains(l, r, a)
  {
    Sectors(l, r) * 16 + (a - l.starts[r]) / 256
  }

  function AddrInPage(l: Layout, r: nat, a: U32): nat
    requires Paired(l) && r < |l.starts| && Contains(l, r, a)
  {
    (a - l.starts[r]) % 256 / 4
  }

  lemma {:induction false} SectorsGrow(l: Layout, q: nat, r: nat)
    requires Paired(l) && q <= r <= |l.starts|
    ensures Sectors(l, q) <= Sectors(l, r)
    decreases r - q
  {
    if q < r {
      SectorsGrow(l, q, r - 1);
    }
  }

  /** With aligned ranges the maps can be computed from the address itself. */
  lemma Maps(l: Layout, r: nat, a: U32)
    requires Ok(l) && r < |l.starts| && Contains(l, r, a)
    ensures SecAddr(l, r, a) == Sectors(l, r) + (a / 4096 - l.starts[r] / 4096) < Sectors(l, r + 1)
    ensures PageAddr(l, r, a) == SecAddr(l, r, a) * 16 + a / 256 % 16
    ensures AddrInPage(l, r, a) == a % 256 / 4
    ensures a / 4 == a / 256 * 64 + a % 256 / 4
  {
    var s: int, e: int := l.starts[r], l.ends[r];
    assert RangeOk(s, e);
    var k, n := s / 4096, (e + 1) / 4096;
    assert s == 4096 * k && e + 1 == 4096 * n;
    assert Size(s, e) == n - k;
    assert (a - s) / 4096 == a / 4096 - k;
    assert (a - s) / 256 == a / 256 - 16 * k;
    assert a / 256 == a / 4096 * 16 + a / 256 % 16;
  }

  /** Both maps stay inside the arrays that are allocated for them. */
  lemma InBounds(l: Layout, r: nat, a: U32)
    requires Ok(l) && r < |l.starts| && Contains(l, r, a)
    ensures SecAddr(l, r, a) < Sectors(l, |l.starts|)
    ensures PageAddr(l, r, a) < Sectors(l, |l.starts|) * 16
    ensures AddrInPage(l, r, a) < 64
  {
    Maps(l, r, a);
    SectorsGrow(l, r + 1, |l.starts|);
  }

  lemma SectorOrder(l: Layout, r: nat, a: U32, q: nat, b: U32)
    requires Ok(l) && r < q < |l.starts| && Contains(l, r, a) && Contains(l, q, b)
    ensures SecAddr(l, r, a) < SecAddr(l, q, b) && a / 4096 < b / 4096
  {
    hide SecAddr, RangeOk, Sectors;
    InOwnSectors(l, r, a);
    InOwnSectors(l, q, b);
    SectorsGrow(l, r + 1, q);
    RangesApart(l, r, q);
    WholeSectors(a, l.ends[r], l.starts[q], b);
  }

  lemma InOwnSectors(l: Layout, r: nat, a: U32)
    requires Ok(l) && r < |l.starts| && Contains(l, r, a)
    ensures Sectors(l, r) <= SecAddr(l, r, a) < Sectors(l, r + 1)
  {
    Maps(l, r, a);
  }

  lemma RangesApart(l: Layout, r: nat, q: nat)
    requires Ok(l) && r < q < |l.starts|
    ensures l.ends[r] < l.starts[q] && (l.ends[r] + 1) % 4096 == 0 && l.starts[q] % 4096 == 0
  {
    assert RangeOk(l.starts[r], l.ends[r]) && RangeOk(l.starts[q], l.ends[q]);
  }

  lemma WholeSectors(a: U32, e: U32, s: U32, b: U32)
    requires a <= e < s <= b && (e + 1) % 4096 == 0 && s % 4096 == 0
    ensures a / 4096 < b / 4096
  {
    assert a / 4096 < (e as int + 1) / 4096 <= s / 4096 <= b / 4096;
  }

  /** Two addresses share a sector entry exactly if they are in the same sector,
      and a page entry exactly if they are in the same page, over all ranges. */
  lemma Injective(l: Layout, r: nat, a: U32, q: nat, b: U32)
    requires Ok(l) && r < |l.starts| && q < |l.starts| && Contains(l, r, a) && Contains(l, q, b)
    ensures SecAddr(l, r, a) == SecAddr(l, q, b) <==> a / 4096 == b / 4096
    ensures PageAddr(l, r, a) == PageAddr(l, q, b) <==> a / 256 == b / 256
  {
    hide SecAddr, PageAddr;
    Maps(l, r, a);
    Maps(l, q, b);
    if r < q {
      SectorOrder(l, r, a, q, b);
    } else if q < r {
      SectorOrder(l, q, b, r, a);
    }
    Sixteen(SecAddr(l, r, a), a / 256 % 16, SecAddr(l, q, b), b / 256 % 16);
    PageDigits(a);
    PageDigits(b);
    Sixteen(a / 4096, a / 256 % 16, b / 4096, b / 256 % 16);
  }

  lemma Sixteen(x: nat, i: nat, y: nat, j: nat)
    requires i < 16 && j < 16
    ensures x * 16 + i == y * 16 + j <==> x == y && i == j
  {
  }

  lemma PageDigits(a: U32)
    ensures a / 256 == a / 4096 * 16 + a / 256 % 16
  {
  }
}
