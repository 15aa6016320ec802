/** The SPI clock: the divider register and the search for the setting that
    comes closest to a requested frequency from below. */
module SpiClock {
  import opened Division

  const MOD32: nat := 0x1_0000_0000

  type U32 = x: int | 0 <= x < MOD32

  /** The fields of the clock register, low bits first. */
  datatype Clk = Clk(l: nat, h: nat, n: nat, pre: nat, equ: nat)

  predicate Fits(c: Clk) { c.l < 64 && c.h < 64 && c.n < 64 && c.pre < 8192 && c.equ < 2 }

  function Pack(c: Clk): (v: U32)
    requires Fits(c)
  {
    c.l + 64 * (c.h + 64 * (c.n + 64 * (c.pre + 8192 * c.equ)))
  }

  function Unpack(v: U32): (c: Clk)
    ensures Fits(c)
  {
    Clk(v % 64, v / 64 % 64, v / 4096 % 64, v / 262144 % 8192, v / 0x8000_0000)
  }

  /** The places of the fields: bits 0, 6, 12, 18 and 31. */
  lemma FieldPlaces(c: Clk)
    requires Fits(c)
    ensures Pack(c) == c.l + 0x40 * c.h + 0x1000 * c.n + 0x4_0000 * c.pre + 0x8000_0000 * c.equ
  {
  }

  /** `SPI_CLK_EQU_SYSCLK` is the top bit of the register. */
  const EQU_SYSCLK: U32 := 0x8000_0000
  const SLOWEST: U32 := 0x7FFF_F000

  /** `ClkRegToFreq`. */
  function Frequency(apb: U32, c: Clk): nat { apb / ((c.pre + 1) * (c.n + 1)) }

  function ClockDivToFrequency(apb: U32, div: U32): nat { Frequency(apb, Unpack(div)) }

  /** The register holds all five fields. */
  lemma UnpackPack(c: Clk)
    requires Fits(c)
    ensures Unpack(Pack(c)) == c
  {
    var p := c.pre + 8192 * c.equ;
    var n := c.n + 64 * p;
    var h := c.h + 64 * n;
    var v := c.l + 64 * h;
    DivMod(h, c.l, 64);
    DivMod(n, c.h, 64);
    DivMod(p, c.n, 64);
    DivMod(c.equ, c.pre, 8192);
    NestedDiv(v, 64, 64);
    NestedDiv(v, 4096, 64);
    NestedDiv(v, 262144, 8192);
  }

  // ----- one row of the search ---------------------------------------------

  /** The divider `d` brought into the range of the pre-divider. */
  function Clamp(d: int): (r: nat)
    ensures 1 <= r <= 8192
  {
    if d > 8192 then 8192 else if d <= 1 then 1 else d
  }

  /** The divider `d` is no better than what the search has. */
  predicate Tried(a: nat, freq: nat, best: nat, d: nat)
    requires d > 0
  {
    a / d != freq && (a / d < freq ==> a / d <= best)
  }

  /** So is the one `v` away from the quotient. */
  predicate TriedAt(a: nat, freq: nat, best: nat, v: int)
    requires freq > 0
  {
    Tried(a, freq, best, Clamp(a / freq + v))
  }

  /** For one `a == apb / (n + 1)`, every pre-divider up to the quotient is too
      fast or exact, every one above is too slow; so the best is the quotient
      or the next one, and clamping does not lose it. */
  lemma RowBest(a: nat, freq: nat, best: nat, d: nat)
    requires freq > 0 && 1 <= d <= 8192 && a / d <= freq
    requires Tried(a, freq, best, Clamp(a / freq)) && Tried(a, freq, best, Clamp(a / freq + 1))
    ensures a / d <= best && a / d < freq
  {
    var q := a / freq;
    AroundQuotient(a, freq, d);
    if d <= q {
      var c := Clamp(q);
      AroundQuotient(a, freq, c);
      Antitone(a, d, c);
    } else {
      AroundQuotient(a, freq, q + 1);
      Antitone(a, q + 1, d);
    }
  }

  /** Dividers up to the quotient are fast enough, and the others are not. */
  lemma AroundQuotient(a: nat, freq: nat, d: nat)
    requires freq > 0 && d > 0
    ensures d <= a / freq <==> freq <= a / d
  {
    AtLeast(a, freq, d);
    AtLeast(a, d, freq);
    assert d * freq == freq * d;
  }

  // ----- the search --------------------------------------------------------

  /** A setting the search may choose. */
  predicate Setting(n: nat, pre: nat) { 1 <= n <= 63 && pre <= 8191 }

  function Rate(apb: U32, n: nat, pre: nat): nat { apb / ((pre + 1) * (n + 1)) }

  /** The duty-cycle fields the driver writes for `n`. */
  predicate Duty(c: Clk) { c.l == (c.n + 1) / 2 && c.h == 0 }

  /** `div` is a setting not above `freq`, and no setting not above it is faster. */
  ghost predicate Optimal(apb: U32, freq: nat, div: U32) {
    var c := Unpack(div);
    && Setting(c.n, c.pre) && c.equ == 0 && Duty(c)
    && ClockDivToFrequency(apb, div) <= freq
    && forall n: nat, pre: nat :: Setting(n, pre) && Rate(apb, n, pre) <= freq ==> Rate(apb, n, pre) <= ClockDivToFrequency(apb, div)
  }

  /** The rows before `n` hold nothing between `best` and `freq`. */
  ghost predicate Beaten(apb: U32, freq: nat, best: nat, n: nat) {
    forall m: nat, pre: nat :: Setting(m, pre) && m < n && Rate(apb, m, pre) <= freq ==> Rate(apb, m, pre) <= best
  }

  lemma RateNested(apb: U32, n: nat, pre: nat)
    ensures Rate(apb, n, pre) == apb / (n + 1) / (pre + 1)
  {
    NestedDiv(apb, n + 1, pre + 1);
    assert (pre + 1) * (n + 1) == (n + 1) * (pre + 1);
  }

  /** A row whose quotient and its neighbours were tried is beaten. */
  lemma RowDone(apb: U32, freq: nat, best: nat, n: nat)
    requires freq > 0 && 1 <= n <= 63 && Beaten(apb, freq, best, n)
    requires TriedAt(apb / (n + 1), freq, best, 0) && TriedAt(apb / (n + 1), freq, best, 1)
    ensures Beaten(apb, freq, best, n + 1)
  {
    hide Rate, Tried, Clamp;
    forall m: nat, pre: nat | Setting(m, pre) && m < n + 1 && Rate(apb, m, pre) <= freq
      ensures Rate(apb, m, pre) <= best
    {
      if m == n {
        RateNested(apb, n, pre);
        RowBest(apb / (n + 1), freq, best, pre + 1);
      }
    }
  }

  /** Some setting gives a frequency that is neither zero nor too high. */
  lemma SomeSetting(apb: U32, freq: nat) returns (n: nat, pre: nat)
    requires 0 < freq < apb && apb / 0x80000 <= freq
    ensures Setting(n, pre) && 0 < Rate(apb, n, pre) <= freq
  {
    if apb >= 0x80000 {
      n, pre := 63, 8191;
      assert (pre + 1) * (n + 1) == 0x80000;
    } else {
      n := if apb >= 64 then 63 else 1;
      var a := apb / (n + 1);
      pre := a - 1;
      RateNested(apb, n, pre);
      SelfDivision(a);
    }
  }

  lemma SelfDivision(a: nat)
    requires a > 0
    ensures a / a == 1
  {
  }

  /** The register a search step looks at. */
  function Candidate(n: nat, d: nat): (c: Clk)
    requires 1 <= n <= 63 && 1 <= d <= 8192
    ensures Fits(c)
  {
    Clk((n + 1) / 2, 0, n, d - 1, 0)
  }

  /** What the search has found: nothing, or a setting that gives `best`. */
  predicate Found(apb: U32, best: nat, reg: Clk) {
    && Fits(reg) && reg.equ == 0
    && (best > 0 ==> Setting(reg.n, reg.pre) && Duty(reg) && Frequency(apb, reg) == best)
  }

  lemma FoundBest(apb: U32, freq: nat, best: nat, reg: Clk)
    requires 0 < freq < apb && apb / 0x80000 <= freq && best < freq
    requires Found(apb, best, reg) && Beaten(apb, freq, best, 64)
    ensures Optimal(apb, freq, Pack(reg))
  {
    hide Rate;
    var n, pre := SomeSetting(apb, freq);
    assert best > 0;
    UnpackPack(reg);
  }

  lemma FoundExact(apb: U32, freq: nat, reg: Clk)
    requires Fits(reg) && Setting(reg.n, reg.pre) && reg.equ == 0 && Duty(reg) && Frequency(apb, reg) == freq
    ensures Optimal(apb, freq, Pack(reg))
  {
    UnpackPack(reg);
  }

  lemma CandidateRate(apb: U32, freq: nat, n: nat, v: int)
    requires freq > 0 && 1 <= n <= 63
    ensures Frequency(apb, Candidate(n, Clamp(apb / (n + 1) / freq + v))) == apb / (n + 1) / Clamp(apb / (n + 1) / freq + v)
  {
    hide Clamp;
    FrequencyNested(apb, Candidate(n, Clamp(apb / (n + 1) / freq + v)));
  }

  lemma TriedNext(a: nat, freq: nat, best: nat, best': nat, vari: int)
    requires freq > 0 && best <= best' && Tried(a, freq, best', Clamp(a / freq + vari))
    requires forall v :: -1 <= v < vari ==> TriedAt(a, freq, best, v)
    ensures forall v :: -1 <= v <= vari ==> TriedAt(a, freq, best', v)
  {
    hide Clamp, Tried;
    forall v | -1 <= v <= vari
      ensures TriedAt(a, freq, best', v)
    {
      if v < vari {
        assert TriedAt(a, freq, best, v);
        TriedMore(a, freq, best, best', Clamp(a / freq + v));
      }
    }
  }

  lemma TriedMore(a: nat, freq: nat, best: nat, best': nat, d: nat)
    requires d > 0 && Tried(a, freq, best, d) && best <= best'
    ensures Tried(a, freq, best', d)
  {
  }

  /** The inner loop: the four candidates around the quotient. `exact` tells that one of
      them is the request. */
  method Row(apb: U32, freq: U32, n: nat, best0: nat, reg0: Clk) returns (exact: bool, best: nat, reg: Clk)
    requires freq > 0 && 1 <= n <= 63 && best0 < freq && Found(apb, best0, reg0) && Beaten(apb, freq, best0, n)
    ensures Fits(reg)
    ensures exact ==> Optimal(apb, freq, Pack(reg))
    ensures !exact ==> best < freq && Found(apb, best, reg) && Beaten(apb, freq, best, n + 1)
  {
    hide Rate, Optimal, Beaten, Pack, Unpack, Frequency, RowTried, Quotients, RowOf;
    exact, best, reg := false, best0, reg0;
    NoneTried(apb, freq, n, best);
    var quotient := Quotients(apb, freq, n);
    var vari := -2;
    while vari <= 1
      invariant -2 <= vari <= 2 && best < freq && Found(apb, best, reg) && Beaten(apb, freq, best, n)
      invariant RowTried(RowOf(apb, n), freq, best, vari)
    {
      vari := vari + 1;
      var pre := quotient - 1 + vari;
      var c := Candidate(n, if pre > 8191 then 8192 else if pre <= 0 then 1 else pre + 1);
      var rate := Frequency(apb, c);
      if rate == freq {
        FoundExact(apb, freq, c);
        return true, best, c;
      }
      ghost var before := best;
      if rate < freq {
        if freq - rate < freq - best {
          Improved(apb, freq, best, rate, n);
          best, reg := rate, c;
        }
      }
      Looked(apb, freq, n, vari, c, before, best);
    }
    RowEnds(apb, freq, best, n);
  }

  /** The quotient around which a row is searched. */
  function Quotients(apb: U32, freq: nat, n: nat): int
    requires freq > 0
  {
    apb / (n + 1) / freq
  }

  /** The candidates up to `vari` of the row with `a == apb / (n + 1)`. */
  predicate RowTried(a: nat, freq: nat, best: nat, vari: int)
    requires freq > 0
  {
    forall v :: -1 <= v <= vari ==> TriedAt(a, freq, best, v)
  }

  function RowOf(apb: U32, n: nat): nat { apb / (n + 1) }

  lemma NoneTried(apb: U32, freq: nat, n: nat, best: nat)
    requires freq > 0
    ensures RowTried(RowOf(apb, n), freq, best, -2)
  {
  }

  lemma Looked(apb: U32, freq: nat, n: nat, vari: int, c: Clk, best: nat, best': nat)
    requires freq > 0 && 1 <= n <= 63 && c == Candidate(n, Clamp(Quotients(apb, freq, n) + vari)) && best < freq
    requires var rate := Frequency(apb, c); rate != freq && best' == if rate < freq && freq - rate < freq - best then rate else best
    requires RowTried(RowOf(apb, n), freq, best, vari - 1)
    ensures RowTried(RowOf(apb, n), freq, best', vari)
  {
    hide Clamp, Frequency, Candidate, TriedAt;
    CandidateRate(apb, freq, n, vari);
    TriedNext(apb / (n + 1), freq, best, best', vari);
  }

  lemma RowEnds(apb: U32, freq: nat, best: nat, n: nat)
    requires freq > 0 && 1 <= n <= 63 && Beaten(apb, freq, best, n) && RowTried(RowOf(apb, n), freq, best, 2)
    ensures Beaten(apb, freq, best, n + 1)
  {
    hide TriedAt, Beaten;
    RowDone(apb, freq, best, n);
  }

  /** `spiFrequencyToClockDiv`, for an APB clock below 2^31, so that the signed
      32-bit variables hold every value exactly. */
  method FrequencyToClockDiv(apb: U32, freq: U32) returns (div: U32)
    requires 0 < apb < 0x8000_0000
    requires apb >= 0x80000 || freq > 0
    ensures freq >= apb ==> div == 0x8000_0000
    ensures freq < apb / 0x80000 ==> div == 0x7FFF_F000
    ensures apb / 0x80000 <= freq < apb ==> Optimal(apb, freq, div) && BestRegister(apb, freq, div)
  {
    hide Rate, Optimal, Beaten, Pack, Unpack, Frequency, BestRegister, Found;
    if freq >= apb {
      return EQU_SYSCLK;
    }
    SlowestFrequency(apb);
    if freq < Frequency(apb, Unpack(SLOWEST)) {
      return SLOWEST;
    }
    var n := 1;
    var reg := Clk(0, 0, 0, 0, 0);
    var best: nat := 0;
    Nothing(apb, freq);
    while n <= 63
      invariant 1 <= n <= 64 && best < freq && Found(apb, best, reg) && Beaten(apb, freq, best, n)
    {
      var exact;
      exact, best, reg := Row(apb, freq, n, best, reg);
      if exact {
        BestBits(apb, freq, Pack(reg));
        return Pack(reg);
      }
      n := n + 1;
    }
    FoundFits(apb, best, reg);
    FoundBest(apb, freq, best, reg);
    BestBits(apb, freq, Pack(reg));
    return Pack(reg);
  }

  lemma FoundFits(apb: U32, best: nat, reg: Clk)
    requires Found(apb, best, reg)
    ensures Fits(reg)
  {
  }

  /** The same in bits: the register holds a divider n + 1 of 2 to 64 at bit 12, half of
      it at bit 0 and a pre-divider p + 1 of 1 to 8192 at bit 18, and no such pair
      gives a frequency that is higher and not above the request. */
  ghost predicate BestRegister(apb: U32, freq: nat, div: U32) {
    exists n: nat, p: nat ::
      && 1 <= n <= 63 && p <= 8191 && div == (n + 1) / 2 + 0x1000 * n + 0x4_0000 * p && Rate(apb, n, p) <= freq
      && forall m: nat, q: nat :: 1 <= m <= 63 && q <= 8191 && Rate(apb, m, q) <= freq ==> Rate(apb, m, q) <= Rate(apb, n, p)
  }

  /** The frequency of a pair. */
  lemma RateIs(apb: U32, n: nat, p: nat)
    ensures Rate(apb, n, p) == apb / ((n + 1) * (p + 1))
  {
    assert (n + 1) * (p + 1) == (p + 1) * (n + 1);
  }

  lemma BestBits(apb: U32, freq: nat, div: U32)
    requires Optimal(apb, freq, div)
    ensures BestRegister(apb, freq, div)
  {
    hide Rate;
    var c := Unpack(div);
    Repack(div);
    FieldPlaces(c);
    assert ClockDivToFrequency(apb, div) == Rate(apb, c.n, c.pre) by { FrequencyIs(apb, c); }
  }

  lemma FrequencyIs(apb: U32, c: Clk)
    ensures Frequency(apb, c) == Rate(apb, c.n, c.pre)
  {
  }

  lemma Repack(v: U32)
    ensures Pack(Unpack(v)) == v
  {
    var a, b, c := v / 64, v / 4096, v / 262144;
    NestedDiv(v, 64, 64);
    NestedDiv(v, 4096, 64);
    NestedDiv(v, 262144, 8192);
    Remainder(v, 64);
    Remainder(a, 64);
    Remainder(b, 64);
    Remainder(c, 8192);
    assert a == v / 64 % 64 + 64 * b && b == v / 4096 % 64 + 64 * c;
  }

  lemma Nothing(apb: U32, freq: nat)
    ensures Beaten(apb, freq, 0, 1) && Found(apb, 0, Clk(0, 0, 0, 0, 0))
  {
  }

  lemma Improved(apb: U32, freq: nat, best: nat, rate: nat, n: nat)
    requires Beaten(apb, freq, best, n) && best <= rate
    ensures Beaten(apb, freq, rate, n)
  {
  }

  lemma FrequencyNested(apb: U32, c: Clk)
    ensures Frequency(apb, c) == apb / (c.n + 1) / (c.pre + 1)
  {
    RateNested(apb, c.n, c.pre);
  }

  lemma SlowestFrequency(apb: U32)
    ensures Frequency(apb, Unpack(SLOWEST)) == apb / 0x80000
  {
  }

  /** The register returned for requests below every setting is the slowest. */
  lemma NothingSlower(apb: U32, n: nat, pre: nat)
    requires Setting(n, pre)
    ensures ClockDivToFrequency(apb, SLOWEST) <= Rate(apb, n, pre)
  {
    hide Unpack;
    SlowestFrequency(apb);
    MulLe(n + 1, 64, pre + 1);
    MulLe(1, n + 1, pre + 1);
    var product := (pre + 1) * (n + 1);
    assert 0 < product <= 0x80000;
    Antitone(apb, product, 0x80000);
  }
}
