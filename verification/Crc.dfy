/** The table-driven CRC-32 against division of polynomials over GF(2). */
module Crc {

  // ----- bit strings, most significant bit first ---------------------------

  type Bits = seq<bool>

  const GENERATOR: bv32 := 0x04C11DB7

  /** The terms below x^32 of the polynomial of section 3.2.9 of IEEE 802.3. */
  lemma GeneratorTerms()
    ensures var x: bv32 := 1;
      GENERATOR == (x << 26) | (x << 23) | (x << 22) | (x << 16) | (x << 12) | (x << 11) | (x << 10) | (x << 8) | (x << 7)
                   | (x << 5) | (x << 4) | (x << 2) | (x << 1) | (x << 0)
  {
  }

  predicate Top(x: bv32) { x & 0x8000_0000 != 0 }

  /** Addition of polynomials, and multiplication by x without its carry. */
  function Add(x: bv32, y: bv32): bv32 { x ^ y }

  function Double(x: bv32): bv32 { x << 1 }

  /** The `k` top bits of a word. */
  function TopBits(x: bv32, k: nat): (w: Bits)
    ensures |w| == k
    decreases k
  {
    if k == 0 then [] else [Top(x)] + TopBits(Double(x), k - 1)
  }

  /** Shift left by `k`, one bit at a time. */
  function Shl(x: bv32, k: nat): bv32
    decreases k
  {
    if k == 0 then x else Shl(Double(x), k - 1)
  }

  function Zeros(k: nat): (w: Bits)
    ensures |w| == k
  {
    seq(k, i => false)
  }

  function Xor(a: Bits, b: Bits): (c: Bits)
    requires |a| == |b|
    ensures |c| == |a|
    ensures forall i :: 0 <= i < |a| ==> (c[i] <==> a[i] != b[i])
  {
    seq(|a|, i requires 0 <= i < |a| => a[i] != b[i])
  }

  // ----- the division, bit by bit ------------------------------------------

  /** One step of the division: the top bit and the message bit decide whether
      the generator is subtracted. */
  function BitStep(r: bv32, b: bool): bv32 {
    if Top(r) != b then Add(Double(r), GENERATOR) else Double(r)
  }

  function Serial(r: bv32, w: Bits): bv32
    decreases |w|
  {
    if w == [] then r else Serial(BitStep(r, w[0]), w[1..])
  }

  lemma {:induction false} SerialConcat(r: bv32, v: Bits, w: Bits)
    ensures Serial(r, v + w) == Serial(Serial(r, v), w)
    decreases |v|
  {
    if v == [] {
      assert v + w == w;
    } else {
      assert (v + w)[0] == v[0] && (v + w)[1..] == v[1..] + w;
      SerialConcat(BitStep(r, v[0]), v[1..], w);
    }
  }

  // ----- what it computes: quotient and remainder --------------------------

  /** The generator with its leading coefficient. */
  function Divisor(): (g: Bits)
    ensures |g| == 33
  {
    [true] + TopBits(GENERATOR, 32)
  }

  /** The product of `q` and the generator. */
  function Times(q: Bits): (p: Bits)
    ensures |p| == |q| + 32
  {
    if q == [] then Zeros(32)
    else Xor((if q[0] then Divisor() else Zeros(33)) + Zeros(|q| - 1), [false] + Times(q[1..]))
  }

  /** The message with 32 zeros behind it, the seed added to its front. */
  function Dividend(seed: bv32, w: Bits): (d: Bits)
    ensures |d| == |w| + 32
  {
    Xor(TopBits(seed, 32) + Zeros(|w|), w + Zeros(32))
  }

  function QuotientOf(r: bv32, w: Bits): (q: Bits)
    ensures |q| == |w|
    decreases |w|
  {
    if w == [] then [] else [Top(r) != w[0]] + QuotientOf(BitStep(r, w[0]), w[1..])
  }

  function Remainder(n: nat, r: bv32): (d: Bits)
    ensures |d| == n + 32
  {
    Zeros(n) + TopBits(r, 32)
  }

  lemma AddRules(x: bv32, y: bv32, z: bv32)
    ensures Add(Add(x, y), z) == Add(Add(x, z), y)
    ensures Add(Add(x, y), y) == x
    ensures Add(x, 0) == x
  {
  }

  lemma AddTop(x: bv32, y: bv32)
    ensures Top(Add(x, y)) <==> Top(x) != Top(y)
  {
  }

  lemma AddDouble(x: bv32, y: bv32)
    ensures Double(Add(x, y)) == Add(Double(x), Double(y))
  {
  }

  lemma AddWords(x: bv32, y: bv32)
    ensures Top(Add(x, y)) <==> Top(x) != Top(y)
    ensures Double(Add(x, y)) == Add(Double(x), Double(y))
  {
    hide Top, Add, Double;
    AddTop(x, y);
    AddDouble(x, y);
  }

  lemma XorCons(b: bool, c: bool, v: Bits, w: Bits)
    requires |v| == |w|
    ensures Xor([b] + v, [c] + w) == [b != c] + Xor(v, w)
  {
  }

  lemma {:induction false} TopBitsAdd(x: bv32, y: bv32, k: nat)
    ensures TopBits(Add(x, y), k) == Xor(TopBits(x, k), TopBits(y, k))
    decreases k
  {
    hide Top, Add, Double;
    if k > 0 {
      AddWords(x, y);
      TopBitsAdd(Double(x), Double(y), k - 1);
      XorCons(Top(x), Top(y), TopBits(Double(x), k - 1), TopBits(Double(y), k - 1));
    }
  }

  lemma {:induction false} TopBitsLast(x: bv32, k: nat)
    ensures TopBits(x, k + 1) == TopBits(x, k) + [Top(Shl(x, k))]
    decreases k
  {
    hide Top, Double, TopBits;
    TopBitsFirst(x, k);
    NoTopBits(x);
    NoTopBits(Double(x));
    if k > 0 {
      TopBitsFirst(x, k - 1);
      TopBitsLast(Double(x), k - 1);
      assert [Top(x)] + (TopBits(Double(x), k - 1) + [Top(Shl(x, k))]) == [Top(x)] + TopBits(Double(x), k - 1) + [Top(Shl(x, k))];
    }
  }

  lemma TopBitsFirst(x: bv32, k: nat)
    ensures TopBits(x, k + 1) == [Top(x)] + TopBits(Double(x), k)
  {
  }

  lemma {:induction false} ShlAdd(x: bv32, j: nat, k: nat)
    ensures Shl(x, j + k) == Shl(Shl(x, j), k)
    decreases j
  {
    hide Double;
    if j > 0 {
      ShlAdd(Double(x), j - 1, k);
    }
  }

  lemma Shl8(x: bv32)
    ensures Shl(x, 8) == x << 8
  {
    assert Shl(x << 7, 1) == Shl((x << 7) << 1, 0);
    assert Shl(x << 6, 2) == Shl((x << 6) << 1, 1);
    assert Shl(x << 5, 3) == Shl((x << 5) << 1, 2);
    assert Shl(x << 4, 4) == Shl((x << 4) << 1, 3);
    assert Shl(x << 3, 5) == Shl((x << 3) << 1, 4);
    assert Shl(x << 2, 6) == Shl((x << 2) << 1, 5);
    assert Shl(x << 1, 7) == Shl((x << 1) << 1, 6);
  }

  lemma Shl32(x: bv32)
    ensures Shl(x, 32) == 0
  {
    hide Shl;
    ShlAdd(x, 16, 16);
    ShlAdd(x, 8, 8);
    Shl8(x);
    Shl8(x << 8);
    ShlAdd(x << 16, 8, 8);
    Shl8(x << 16);
    Shl8(x << 24);
  }

  /** A word shifted by one is its bits shifted by one. */
  lemma TopBitsShift(x: bv32)
    ensures TopBits(x, 32) == [Top(x)] + TopBits(Double(x), 31)
    ensures TopBits(Double(x), 32) == TopBits(Double(x), 31) + [false]
  {
    hide Double;
    Shl32(x);
    TopBitsLast(Double(x), 31);
  }

  /** Taking one message bit out of the dividend subtracts the generator exactly
      if the leading coefficient is set. */
  lemma DividendStep(r: bv32, w: Bits)
    requires w != []
    ensures Dividend(r, w) ==
            Xor((if Top(r) != w[0] then Divisor() else Zeros(33)) + Zeros(|w| - 1),
                [false] + Dividend(BitStep(r, w[0]), w[1..]))
  {
    hide Top, Add, Double, TopBits;
    var top, next, n := TopBits(r, 32), TopBits(BitStep(r, w[0]), 32), |w| - 1;
    var g := if Top(r) != w[0] then Divisor() else Zeros(33);
    TopBitsShift(r);
    TopBitsAdd(Double(r), GENERATOR, 32);
    forall j | 0 <= j < 33
      ensures g[j] == if j == 0 then top[0] != w[0] else next[j - 1] != (j < 32 && top[j])
    {
    }
    DividendBits(top, next, g, w);
  }

  lemma DividendBits(top: Bits, next: Bits, g: Bits, w: Bits)
    requires w != [] && |top| == |next| == 32 && |g| == 33
    requires forall j :: 0 <= j < 33 ==> g[j] == if j == 0 then top[0] != w[0] else next[j - 1] != (j < 32 && top[j])
    ensures Xor(top + Zeros(|w|), w + Zeros(32)) ==
            Xor(g + Zeros(|w| - 1), [false] + Xor(next + Zeros(|w| - 1), w[1..] + Zeros(32)))
  {
  }

  lemma XorAssoc(a: Bits, b: Bits, c: Bits)
    requires |a| == |b| == |c|
    ensures Xor(a, Xor(b, c)) == Xor(Xor(a, b), c)
  {
  }

  /** The bit-serial CRC is polynomial division: the message times x^32, with the
      seed added to its front, is quotient times generator plus the CRC. */
  lemma {:induction false} Division(seed: bv32, w: Bits)
    ensures Dividend(seed, w) == Xor(Times(QuotientOf(seed, w)), Remainder(|w|, Serial(seed, w)))
    decreases |w|
  {
    hide Top, TopBits, BitStep, Divisor, Dividend;
    if w == [] {
      DividendOfNothing(seed);
    } else {
      var r, v := BitStep(seed, w[0]), w[1..];
      Division(r, v);
      DividendStep(seed, w);
      var g := (if Top(seed) != w[0] then Divisor() else Zeros(33)) + Zeros(|v|);
      var t, d := Times(QuotientOf(r, v)), Remainder(|v|, Serial(r, v));
      assert QuotientOf(seed, w)[1..] == QuotientOf(r, v);
      XorCons(false, false, t, d);
      XorAssoc(g, [false] + t, [false] + d);
      ZerosCons(|v|, TopBits(Serial(r, v), 32));
    }
  }

  lemma DividendOfNothing(seed: bv32)
    ensures Dividend(seed, []) == Xor(Zeros(32), Remainder(0, seed))
  {
    hide TopBits;
  }

  /** Quotient and remainder are unique, so the CRC is the remainder. */
  lemma {:induction false} DivisionUnique(q: Bits, r: Bits, q': Bits, r': Bits)
    requires |q| == |q'| && |r| == |r'| == 32
    requires Xor(Times(q), Zeros(|q|) + r) == Xor(Times(q'), Zeros(|q|) + r')
    ensures q == q' && r == r'
    decreases |q|
  {
    hide Divisor;
    if q == [] {
      XorCancel(Zeros(32), Zeros(0) + r, Zeros(0) + r');
      assert Zeros(0) + r == r && Zeros(0) + r' == r';
    } else {
      TimesStep(q, r);
      TimesStep(q', r');
      Leads(q[0]);
      Leads(q'[0]);
      var n := |q| - 1;
      var g, g' := (if q[0] then Divisor() else Zeros(33)) + Zeros(n), (if q'[0] then Divisor() else Zeros(33)) + Zeros(n);
      var a, b := Xor(Times(q[1..]), Zeros(n) + r), Xor(Times(q'[1..]), Zeros(n) + r');
      assert Xor(g, [false] + a)[0] == Xor(g', [false] + b)[0];
      XorCancel(g, [false] + a, [false] + b);
      assert ([false] + a)[1..] == a && ([false] + b)[1..] == b;
      DivisionUnique(q[1..], r, q'[1..], r');
    }
  }

  lemma Leads(b: bool)
    ensures (if b then Divisor() else Zeros(33))[0] == b
  {
  }

  lemma XorCancel(a: Bits, b: Bits, c: Bits)
    requires |a| == |b| == |c| && Xor(a, b) == Xor(a, c)
    ensures b == c
  {
    forall j | 0 <= j < |a|
      ensures b[j] == c[j]
    {
      assert Xor(a, b)[j] == Xor(a, c)[j];
    }
  }

  lemma ZerosCons(n: nat, r: Bits)
    ensures [false] + (Zeros(n) + r) == Zeros(n + 1) + r
  {
  }

  /** The leading bit of the quotient taken out of a quotient and remainder. */
  lemma TimesStep(q: Bits, r: Bits)
    requires q != [] && |r| == 32
    ensures Xor(Times(q), Zeros(|q|) + r) ==
            Xor((if q[0] then Divisor() else Zeros(33)) + Zeros(|q| - 1), [false] + Xor(Times(q[1..]), Zeros(|q| - 1) + r))
  {
    hide Divisor, Xor, Zeros;
    var n := |q| - 1;
    var g := (if q[0] then Divisor() else Zeros(33)) + Zeros(n);
    XorCons(false, false, Times(q[1..]), Zeros(n) + r);
    ZerosCons(n, r);
    XorAssoc(g, [false] + Times(q[1..]), Zeros(|q|) + r);
  }

  // ----- feeding words and bytes -------------------------------------------

  /** Feeding the top bits of a word is adding the word and feeding zeros. */
  lemma {:induction false} WordIn(r: bv32, x: bv32, k: nat)
    ensures Serial(r, TopBits(x, k)) == Add(Serial(Add(r, x), Zeros(k)), Shl(x, k))
    decreases k
  {
    hide Top, BitStep, Add, Double;
    if k == 0 {
      AddRules(r, x, x);
    } else {
      BitIn(r, x);
      var y := BitStep(r, Top(x));
      WordIn(y, Double(x), k - 1);
      assert TopBits(x, k)[1..] == TopBits(Double(x), k - 1);
      assert Zeros(k)[1..] == Zeros(k - 1);
    }
  }

  lemma BitIn(r: bv32, x: bv32)
    ensures Add(BitStep(r, Top(x)), Double(x)) == BitStep(Add(r, x), false)
  {
    hide Top, Add, Double;
    AddWords(r, x);
    AddRules(Double(r), GENERATOR, Double(x));
  }

  /** A byte at the top of a word. */
  function Word(b: bv8): (x: bv32)
    ensures x & 0x00FF_FFFF == 0
  {
    (b as bv32) << 24
  }

  /** The message bits of a byte, and of a string of bytes. */
  function ByteBits(b: bv8): Bits { TopBits(Word(b), 8) }

  function MessageBits(m: seq<bv8>): Bits
  {
    if m == [] then [] else ByteBits(m[0]) + MessageBits(m[1..])
  }

  lemma {:induction false} MessageBitsConcat(a: seq<bv8>, b: seq<bv8>)
    ensures MessageBits(a + b) == MessageBits(a) + MessageBits(b)
    decreases |a|
  {
    hide ByteBits;
    if a == [] {
      assert a + b == b;
    } else {
      assert (a + b)[0] == a[0] && (a + b)[1..] == a[1..] + b;
      MessageBitsConcat(a[1..], b);
    }
  }

  /** The entry of the table for a byte: what eight steps do to it alone. */
  function Entry(d: bv8): bv32 { Serial(Word(d), Zeros(8)) }

  /** The table entry that `do1crc` looks up. */
  function Position(r: bv32, b: bv8): bv8 { (Add(r, Word(b)) >> 24) as bv8 }

  lemma TopByte(y: bv32)
    ensures (((y >> 24) as bv8) as bv32) << 24 == y & 0xFF00_0000
  {
  }

  function Low(r: bv32): bv32 { r & 0x00FF_FFFF }

  lemma LowAdd(r: bv32, x: bv32)
    ensures Low(Add(r, x)) == Add(Low(r), Low(x))
  {
  }

  lemma Halves(y: bv32)
    ensures y == Add(y & 0xFF00_0000, Low(y))
    ensures Low(y) << 8 == y << 8
  {
  }

  lemma SplitWord(r: bv32, b: bv8)
    ensures Add(r, Word(b)) == Add(Word(Position(r, b)), Low(r)) && Low(r) << 8 == r << 8
  {
    hide Add;
    var x := Word(b);
    LowAdd(r, x);
    AddRules(Low(r), 0, 0);
    Halves(r);
    Halves(Add(r, x));
    TopByte(Add(r, x));
  }

  lemma TopBits2(x: bv32, k: nat)
    ensures TopBits(x, k + 2) == [Top(x), Top(Double(x))] + TopBits(Double(Double(x)), k)
  {
    hide Top, Double;
    assert TopBits(Double(x), k + 1) == [Top(Double(x))] + TopBits(Double(Double(x)), k);
  }

  /** The top eight bits, one by one. */
  lemma TopBits8(x: bv32)
    ensures TopBits(x, 8) == [Top(x), Top(x << 1)] + [Top(x << 2), Top(x << 3)] + [Top(x << 4), Top(x << 5)] + [Top(x << 6), Top(x << 7)]
  {
    hide Top, Double, TopBits;
    Doubles(x);
    EightOf(x, x << 1, x << 2, x << 3, x << 4, x << 5, x << 6, x << 7);
  }

  lemma EightOf(a: bv32, b: bv32, c: bv32, d: bv32, e: bv32, f: bv32, g: bv32, h: bv32)
    requires b == Double(a) && c == Double(b) && d == Double(c) && e == Double(d) && f == Double(e) && g == Double(f) && h == Double(g)
    ensures TopBits(a, 8) == [Top(a), Top(b)] + [Top(c), Top(d)] + [Top(e), Top(f)] + [Top(g), Top(h)]
  {
    hide Top, Double, TopBits;
    TopBits2(a, 6);
    TopBits2(c, 4);
    TopBits2(e, 2);
    TopBits2(g, 0);
    NoTopBits(Double(h));
    InFours([Top(a), Top(b)], [Top(c), Top(d)], [Top(e), Top(f)], [Top(g), Top(h)]);
  }

  lemma NoTopBits(x: bv32)
    ensures TopBits(x, 0) == []
  {
  }

  lemma InFours(p: Bits, q: Bits, r: Bits, s: Bits)
    ensures p + (q + (r + (s + []))) == p + q + r + s
  {
  }

  lemma Doubles(x: bv32)
    ensures Double(x) == x << 1 && Double(x << 1) == x << 2 && Double(x << 2) == x << 3 && Double(x << 3) == x << 4
    ensures Double(x << 4) == x << 5 && Double(x << 5) == x << 6 && Double(x << 6) == x << 7 && Double(x << 7) == x << 8
  {
  }

  /** Words with the same top byte have the same top eight bits. */
  lemma SameTop(x: bv32, y: bv32)
    requires x & 0xFF00_0000 == y & 0xFF00_0000
    ensures TopBits(x, 8) == TopBits(y, 8)
  {
    hide TopBits;
    TopBits8(x);
    TopBits8(y);
  }

  lemma LowBits(x: bv32)
    ensures TopBits(Low(x), 8) == Zeros(8)
  {
    hide TopBits;
    SameTop(Low(x), 0);
    TopBits8(0);
  }

  /** A table look-up does the work of eight steps: the only place where the
      table, the byte order and the shifts have to agree. */
  lemma EightSteps(r: bv32, b: bv8)
    ensures Serial(r, ByteBits(b)) == Add(r << 8, Entry(Position(r, b)))
  {
    hide Top, Add, Double, Position, TopBits, Serial;
    var x, low, high := Word(b), Low(r), Word(Position(r, b));
    WordIn(r, x, 8);
    Shl8(x);
    assert x << 8 == 0;
    SplitWord(r, b);
    WordIn(high, low, 8);
    LowBits(r);
    Shl8(low);
    AddRules(Serial(Add(r, x), Zeros(8)), 0, 0);
    AddRules(Serial(Add(high, low), Zeros(8)), r << 8, r << 8);
    AddComm(Serial(Add(high, low), Zeros(8)), r << 8);
    AddComm(Entry(Position(r, b)), r << 8);
  }

  lemma AddComm(x: bv32, y: bv32)
    ensures Add(x, y) == Add(y, x)
  {
  }

  // ----- the trailer, and errors -------------------------------------------

  /** The CRC of a message: the remainder of its division. */
  function CrcOf(seed: bv32, m: seq<bv8>): bv32 { Serial(seed, MessageBits(m)) }

  lemma CrcConcat(seed: bv32, a: seq<bv8>, b: seq<bv8>)
    ensures CrcOf(seed, a + b) == CrcOf(CrcOf(seed, a), b)
  {
    hide MessageBits, Serial;
    MessageBitsConcat(a, b);
    SerialConcat(seed, MessageBits(a), MessageBits(b));
  }

  function HighByte(x: bv32): bv8 { (x >> 24) as bv8 }

  function BigEndian(x: bv32): (b: seq<bv8>)
    ensures |b| == 4
  {
    [HighByte(x), HighByte(x << 8), HighByte(x << 16), HighByte(x << 24)]
  }

  lemma {:induction false} TopBitsSplit(x: bv32, j: nat, k: nat)
    ensures TopBits(x, j + k) == TopBits(x, j) + TopBits(Shl(x, j), k)
    decreases j
  {
    hide Top, Double;
    if j > 0 {
      TopBitsSplit(Double(x), j - 1, k);
    }
  }

  lemma HighBits(x: bv32)
    ensures ByteBits(HighByte(x)) == TopBits(x, 8)
  {
    hide TopBits;
    TopByte(x);
    SameTop(Word(HighByte(x)), x);
  }

  lemma FourTops(x: bv32)
    ensures TopBits(x, 32) == TopBits(x, 8) + (TopBits(x << 8, 8) + (TopBits(x << 16, 8) + TopBits(x << 24, 8)))
  {
    hide TopBits, Shl;
    Shl8(x);
    Shl8(x << 8);
    Shl8(x << 16);
    assert (x << 8) << 8 == x << 16 && (x << 16) << 8 == x << 24;
    TopBitsSplit(x, 8, 24);
    TopBitsSplit(x << 8, 8, 16);
    TopBitsSplit(x << 16, 8, 8);
  }

  /** The four bytes of a word carry its bits in order. */
  lemma BigEndianBits(x: bv32)
    ensures MessageBits(BigEndian(x)) == TopBits(x, 32)
  {
    hide TopBits, ByteBits, MessageBits, HighByte;
    FourTops(x);
    HighBits(x);
    HighBits(x << 8);
    HighBits(x << 16);
    HighBits(x << 24);
    FourBytes(BigEndian(x));
  }

  lemma FourBytes(b: seq<bv8>)
    requires |b| == 4
    ensures MessageBits(b) == ByteBits(b[0]) + (ByteBits(b[1]) + (ByteBits(b[2]) + ByteBits(b[3])))
  {
    hide ByteBits;
    assert MessageBits(b[3..]) == ByteBits(b[3]);
    assert MessageBits(b[2..]) == ByteBits(b[2]) + MessageBits(b[2..][1..]) && b[2..][1..] == b[3..];
    assert MessageBits(b[1..]) == ByteBits(b[1]) + MessageBits(b[1..][1..]) && b[1..][1..] == b[2..];
  }

  /** A step loses nothing: the generator has a constant term. */
  lemma BitStepInjective(r: bv32, s: bv32, b: bool)
    requires BitStep(r, b) == BitStep(s, b)
    ensures r == s
  {
    hide Add, Top;
    Bottom(r);
    Bottom(s);
    AddRules(Double(r), GENERATOR, 0);
    AddRules(Double(s), GENERATOR, 0);
    if Top(r) == Top(s) {
      Undouble(r, s);
    }
  }

  lemma Bottom(r: bv32)
    ensures Double(r) & 1 == 0 && Add(Double(r), GENERATOR) & 1 == 1
  {
  }

  lemma Undouble(r: bv32, s: bv32)
    requires Top(r) == Top(s) && Double(r) == Double(s)
    ensures r == s
  {
  }

  lemma {:induction false} SerialInjective(r: bv32, s: bv32, w: Bits)
    requires Serial(r, w) == Serial(s, w)
    ensures r == s
    decreases |w|
  {
    hide BitStep;
    if w != [] {
      SerialInjective(BitStep(r, w[0]), BitStep(s, w[0]), w[1..]);
      BitStepInjective(r, s, w[0]);
    }
  }

  lemma {:induction false} NothingOfNothing(k: nat)
    ensures Serial(0, Zeros(k)) == 0
  {
    if k > 0 {
      assert Zeros(k)[1..] == Zeros(k - 1);
      NothingOfNothing(k - 1);
    }
  }

  /** A word read by the register is the word added to it. */
  lemma WordCrc(r: bv32, x: bv32)
    ensures CrcOf(r, BigEndian(x)) == Serial(Add(r, x), Zeros(32))
  {
    hide Add, TopBits, MessageBits, BigEndian, Serial;
    BigEndianBits(x);
    WordIn(r, x, 32);
    Shl32(x);
    AddRules(Serial(Add(r, x), Zeros(32)), 0, 0);
  }

  lemma AddInjective(r: bv32, x: bv32, y: bv32)
    requires Add(r, x) == Add(r, y)
    ensures x == y
  {
    hide Add;
    AddComm(r, x);
    AddComm(r, y);
    AddRules(x, r, r);
    AddRules(y, r, r);
  }

  /** Four big-endian bytes behind a message drive the remainder to zero exactly
      if they are the CRC of the message. */
  lemma TrailerCheck(seed: bv32, m: seq<bv8>, x: bv32)
    ensures CrcOf(seed, m + BigEndian(x)) == 0 <==> x == CrcOf(seed, m)
  {
    hide Add, CrcOf, Serial, BigEndian;
    var r := CrcOf(seed, m);
    CrcConcat(seed, m, BigEndian(x));
    WordCrc(r, x);
    NothingOfNothing(32);
    AddRules(0, r, r);
    AddComm(0, r);
    AddRules(r, 0, 0);
    if CrcOf(seed, m + BigEndian(x)) == 0 {
      SerialInjective(Add(r, x), 0, Zeros(32));
      AddInjective(r, x, r);
    }
  }

  /** Messages that differ within four neighbouring bytes have different CRCs. */
  lemma BurstDetected(seed: bv32, front: seq<bv8>, x: bv32, y: bv32, back: seq<bv8>)
    requires CrcOf(seed, front + BigEndian(x) + back) == CrcOf(seed, front + BigEndian(y) + back)
    ensures x == y
  {
    hide Add, MessageBits, BigEndian, Serial;
    var r := CrcOf(seed, front);
    CrcConcat(seed, front + BigEndian(x), back);
    CrcConcat(seed, front + BigEndian(y), back);
    CrcConcat(seed, front, BigEndian(x));
    CrcConcat(seed, front, BigEndian(y));
    SerialInjective(CrcOf(r, BigEndian(x)), CrcOf(r, BigEndian(y)), MessageBits(back));
    WordCrc(r, x);
    WordCrc(r, y);
    SerialInjective(Add(r, x), Add(r, y), Zeros(32));
    AddInjective(r, x, y);
  }

  // ----- the table ---------------------------------------------------------

  class CrcTable {
    const entries: array<bv32>

    ghost predicate Allocated() { entries.Length == 256 }

    ghost predicate Built()
      reads entries
    {
      Allocated() && forall i :: 0 <= i < 256 ==> entries[i] == Entry(i as bv8)
    }

    constructor ()
      ensures Allocated() && fresh(entries)
    {
      entries := new bv32[256];
    }

    /** `crctable_init`. */
    method Init()
      requires Allocated()
      modifies entries
      ensures Built()
    {
      hide Entry;
      for i := 0 to 256
        invariant forall j :: 0 <= j < i ==> entries[j] == Entry(j as bv8)
      {
        entries[i] := ShiftOut(i as bv8);
      }
    }

    /** The inner loop: eight steps on a byte at the top of a word. */
    static method ShiftOut(divident: bv8) returns (current: bv32)
      ensures current == Entry(divident)
    {
      hide Serial, Word;
      current := Word(divident);
      ghost var d := current;
      ZeroSteps(d, 0);
      for bit := 0 to 8
        invariant current == Serial(d, Zeros(bit))
      {
        ZeroSteps(d, bit);
        current := if current & 0x8000_0000 != 0 then Add(current << 1, GENERATOR) else current << 1;
      }
    }

    /** `do1crc`. */
    method Update(crc: bv32, b: bv8) returns (r: bv32)
      requires Built()
      ensures r == CrcOf(crc, [b])
    {
      hide Serial, Position, Entry, Word, CrcOf;
      var pos := Position(crc, b);
      OneByte(crc, b);
      BackAndForth(pos);
      r := (crc << 8) ^ entries[pos as int];
    }

    /** The signature of a stream of bytes, kept up to date byte by byte. */
    method Signature(seed: bv32, m: seq<bv8>) returns (r: bv32)
      requires Built()
      ensures r == CrcOf(seed, m)
    {
      hide CrcOf;
      r := seed;
      CrcOfNothing(seed);
      for i := 0 to |m|
        invariant r == CrcOf(seed, m[..i])
      {
        r := Update(r, m[i]);
        CrcConcat(seed, m[..i], [m[i]]);
        assert m[..i] + [m[i]] == m[..i + 1];
      }
      assert m[..|m|] == m;
    }
  }

  lemma ZeroSteps(r: bv32, k: nat)
    ensures Serial(r, Zeros(0)) == r
    ensures Serial(r, Zeros(k + 1)) == BitStep(Serial(r, Zeros(k)), false)
  {
    hide BitStep;
    assert Zeros(k) + [false] == Zeros(k + 1);
    SerialConcat(r, Zeros(k), [false]);
    assert Serial(Serial(r, Zeros(k)), [false]) == BitStep(Serial(r, Zeros(k)), false);
  }

  lemma OneByte(crc: bv32, b: bv8)
    ensures CrcOf(crc, [b]) == (crc << 8) ^ Entry(Position(crc, b))
  {
    hide Serial, Position, Entry, Word;
    EightSteps(crc, b);
    assert MessageBits([b]) == ByteBits(b);
  }

  lemma BackAndForth(b: bv8)
    ensures 0 <= b as int < 256 && (b as int) as bv8 == b
  {
  }

  lemma CrcOfNothing(seed: bv32)
    ensures CrcOf(seed, []) == seed
  {
  }
}
