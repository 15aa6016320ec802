/** Printing a number and parsing it back from a stream. */
module Decimal {
  import opened Basics
  import opened Division

  const MINUS: Byte := 45
  const MAX63: nat := 0x7FFF_FFFF_FFFF_FFFF
  const MOD64: nat := 0x1_0000_0000_0000_0000

  predicate IsDigit(c: int) { 48 <= c <= 57 }

  // ----- printing ----------------------------------------------------------

  /** The character of a digit; `char` is signed, and wraps. */
  function DigitChar(d: nat): Byte
    requires d < 256
  {
    var c := if d < 128 then d else d - 256;
    if c < 10 then (c + 48) % 256 else c + 55
  }

  /** The digits of a number, most significant first. */
  function Digits(n: nat, base: nat): (w: seq<Byte>)
    requires 2 <= base < 256
    ensures w != []
  {
    Halve(n, base);
    if n < base then [DigitChar(n)] else Digits(n / base, base) + [DigitChar(n % base)]
  }

  // ----- the characters of the digits --------------------------------------

  const ALPHABET: string := "0123456789ABCDEFGHIJKLMNOPQRSTUVWXYZ"

  /** The place of a character in the alphabet, from place `k` on; -1 if it has none. */
  function PlaceFrom(c: Byte, k: nat): int
    decreases |ALPHABET| - k
  {
    if k >= |ALPHABET| then -1 else if ALPHABET[k] as int == c then k else PlaceFrom(c, k + 1)
  }

  function Place(c: Byte): int { PlaceFrom(c, 0) }

  /** A number read with the alphabet alone. */
  function ReadIn(base: nat, w: seq<Byte>): int
    decreases |w|
  {
    if w == [] then 0 else ReadIn(base, w[..|w| - 1]) * base + Place(w[|w| - 1])
  }

  lemma Letters(d: nat)
    requires d < 36
    ensures ALPHABET[d] as int == if d < 10 then d + 48 else d + 55
  {
  }

  lemma {:induction false} PlaceIs(d: nat, k: nat)
    requires k <= d < 36
    ensures PlaceFrom(ALPHABET[d] as int, k) == d
    decreases d - k
  {
    Letters(d);
    Letters(k);
    if k < d {
      PlaceIs(d, k + 1);
    }
  }

  /** The digit `d` is written as the character at place `d`. */
  lemma DigitPlace(d: nat)
    requires d < 36
    ensures DigitChar(d) == ALPHABET[d] as int && Place(DigitChar(d)) == d
  {
    Letters(d);
    PlaceIs(d, 0);
  }

  /** The characters of the digits that are no letters. */
  lemma OtherDigits(d: nat)
    requires 36 <= d < 256
    ensures DigitChar(d) == if d < 128 then 'A' as int + (d - 10) else ('0' as int + d) % 256
  {
  }

  /** In any base up to 36 every character of a printed number is a digit of that base,
      there is no leading zero, and read with the alphabet it is the number. */
  lemma {:induction false} DigitsMean(n: nat, base: nat)
    requires 2 <= base <= 36
    ensures ReadIn(base, Digits(n, base)) == n
    ensures forall i :: 0 <= i < |Digits(n, base)| ==> 0 <= Place(Digits(n, base)[i]) < base
    ensures n > 0 ==> Place(Digits(n, base)[0]) > 0
    decreases n
  {
    hide DigitChar, Place, ReadIn, Digits;
    var q, d := DigitsOf(n, base);
    DigitPlace(d);
    if n < base {
      ReadSnoc(base, [], DigitChar(d));
      assert [] + [DigitChar(d)] == [DigitChar(d)];
    } else {
      DigitsMean(q, base);
      ReadSnoc(base, Digits(q, base), DigitChar(d));
    }
  }

  lemma DigitsOf(n: nat, base: nat) returns (q: nat, d: nat)
    requires 2 <= base < 256
    ensures n == q * base + d && d < base && (n >= base ==> 0 < q < n) && (n < base ==> d == n)
    ensures Digits(n, base) == if n < base then [DigitChar(d)] else Digits(q, base) + [DigitChar(d)]
    ensures n >= base ==> Digits(q, base) != []
  {
    hide DigitChar;
    q, d := n / base, n % base;
    Halve(n, base);
    Remainder(n, base);
    if n < base {
      Quotient(n, base, 0, n);
    }
  }

  lemma ReadSnoc(base: nat, w: seq<Byte>, c: Byte)
    ensures ReadIn(base, w + [c]) == ReadIn(base, w) * base + Place(c)
    ensures ReadIn(base, []) == 0
  {
    hide Place;
    assert (w + [c])[..|w|] == w;
  }

  function Power(k: nat): nat { if k == 0 then 1 else 2 * Power(k - 1) }

  /** In any base, a number of `k` bits has at most `k` digits. */
  lemma {:induction false} DigitCount(n: nat, base: nat, k: nat)
    requires 2 <= base < 256 && n < Power(k) && 1 <= k
    ensures |Digits(n, base)| <= k
  {
    if n >= base {
      assert k > 1;
      Halve(n, base);
      DigitCount(n / base, base, k - 1);
    }
  }

  lemma {:induction false} PowerAdd(j: nat, k: nat)
    ensures Power(j + k) == Power(j) * Power(k)
  {
    if j > 0 {
      PowerAdd(j - 1, k);
    }
  }

  lemma SixtyFour()
    ensures Power(64) == MOD64
  {
    PowerAdd(8, 8);
    PowerAdd(16, 16);
    PowerAdd(32, 32);
    assert Power(8) == 256;
  }

  /** A string as far as `strlen` sees it. */
  function CString(w: seq<Byte>): (s: seq<Byte>)
    ensures |s| <= |w|
  {
    if w == [] || w[0] == 0 then [] else [w[0]] + CString(w[1..])
  }

  lemma {:induction false} WholeString(w: seq<Byte>)
    ensures CString(w) == w <==> 0 !in w
  {
    if w != [] {
      WholeString(w[1..]);
      assert w == [w[0]] + w[1..];
    }
  }

  /** The number has the digit `d`. */
  predicate HasDigit(n: nat, base: nat, d: nat)
    requires 2 <= base < 256
  {
    Halve(n, base);
    n % base == d || (n >= base && HasDigit(n / base, base, d))
  }

  /** The digit 208 is written as the byte 0, and no other is. */
  lemma {:induction false} ZeroIff(n: nat, base: nat)
    requires 2 <= base < 256
    ensures 0 in Digits(n, base) <==> HasDigit(n, base, 208)
  {
    hide DigitChar;
    Halve(n, base);
    if n >= base {
      ZeroIff(n / base, base);
      ZeroDigit(n % base);
    } else {
      ZeroDigit(n);
      Quotient(n, base, 0, n);
      Remainder(n, base);
    }
  }

  lemma ZeroDigit(d: nat)
    requires d < 256
    ensures DigitChar(d) == 0 <==> d == 208
  {
  }

  /** So a number is printed whole if and only if that is not among its digits. */
  lemma PrintedWhole(n: nat, base: nat)
    requires 2 <= base < 256
    ensures CString(Digits(n, base)) == Digits(n, base) <==> !HasDigit(n, base, 208)
  {
    ZeroIff(n, base);
    WholeString(Digits(n, base));
  }

  lemma {:induction false} SmallBase(n: nat, base: nat)
    requires 2 <= base <= 208
    ensures !HasDigit(n, base, 208)
  {
    Halve(n, base);
    if n >= base {
      SmallBase(n / base, base);
    }
  }

  /** Up to base 36 the whole number is printed, and reads as itself. */
  lemma ShortBase(n: nat, base: nat)
    requires 2 <= base < 256
    ensures base <= 36 ==> CString(Digits(n, base)) == Digits(n, base) && ReadIn(base, Digits(n, base)) == n
  {
    if base <= 36 {
      SmallBase(n, base);
      PrintedWhole(n, base);
      DigitsMean(n, base);
    }
  }

  /** 208 in base 255 is not printed at all. */
  lemma NothingPrinted()
    ensures Digits(208, 255) == [0] && CString(Digits(208, 255)) == []
  {
  }

  /** `printNumber`: the digits go into the buffer from its end, its 64 cells
      before the final 0 are always enough, and what is written is the string that
      starts there. */
  method PrintNumber(n0: nat, base0: Byte) returns (str: seq<Byte>)
    requires n0 < MOD64
    ensures var base := if base0 < 2 then 10 else base0;
      str == CString(Digits(n0, base)) && (base <= 36 ==> str == Digits(n0, base) && ReadIn(base, str) == n0)
    ensures |str| <= 64
  {
    hide Digits, DigitChar, CString, ReadIn;
    var buf := new Byte[65](i => 0);
    var p := 64;
    buf[p] := 0;
    var n, base := n0, base0;
    if base < 2 {
      base := 10;
    }
    SixtyFour();
    DigitCount(n, base, 64);
    ShortBase(n, base);
    assert buf[64..64] == [];
    var more := true;
    while more
      invariant 0 <= p <= 64 && 0 <= n < MOD64 && 2 <= base < 256
      invariant more ==> Digits(n, base) + buf[p..64] == Digits(n0, base) && |Digits(n0, base)| <= 64
      invariant !more ==> buf[p..64] == Digits(n0, base) && |Digits(n0, base)| <= 64
      decreases more, n
    {
      DigitsStep(n, base);
      Halve(n, base);
      var m := n;
      n := n / base;
      var c := m - base * n;
      p := p - 1;
      buf[p] := DigitChar(c);
      more := n != 0;
    }
    return CString(buf[p..64]);
  }

  lemma DigitsStep(n: nat, base: nat)
    requires 2 <= base < 256
    ensures 0 <= n - base * (n / base) < base
    ensures Digits(n, base) == (if n / base == 0 then [] else Digits(n / base, base)) + [DigitChar(n - base * (n / base))]
  {
    hide DigitChar;
    Halve(n, base);
  }

  /** `print(long)` in base 10. */
  function Printed(n: int): seq<Byte> {
    if n < 0 then [MINUS] + Digits(-n, 10) else Digits(n, 10)
  }

  /** `print(long, base)`: signed in base 10, a raw byte in base 0, and the two's
      complement in any other base, of which 8 bits count. */
  method PrintLong(n: int, base: nat) returns (out: seq<Byte>)
    requires 0 - MAX63 - 1 <= n <= MAX63
    requires base == 10 ==> n != 0 - MAX63 - 1  // its negation is undefined
    ensures base == 10 ==> out == Printed(n)
    ensures base == 0 ==> out == [n % 256]
    ensures var b := if base % 256 < 2 then 10 else base % 256;
      base != 0 && base != 10 ==> out == CString(Digits(n % MOD64, b)) && (b <= 36 ==> ReadIn(b, out) == n % MOD64)
  {
    if base == 10 {
      SmallBase(if n < 0 then -n else n, 10);
      PrintedWhole(if n < 0 then -n else n, 10);
    }
    if base == 0 {
      return [n % 256];
    }
    if base == 10 {
      if n < 0 {
        var d := PrintNumber(-n, 10);
        return [MINUS] + d;
      }
      out := PrintNumber(n, 10);
      return;
    }
    out := PrintNumber(n % MOD64, base % 256);
  }

  // ----- parsing -----------------------------------------------------------

  predicate Numeric(c: int) { c == MINUS || IsDigit(c) }

  /** How many bytes are passed over before the number. */
  function Lead(s: seq<Byte>): (k: nat)
    ensures k <= |s|
    ensures k < |s| ==> Numeric(s[k])
  {
    if s == [] || Numeric(s[0]) then 0 else 1 + Lead(s[1..])
  }

  predicate Goes(c: int, skip: int) { IsDigit(c) || c == skip }

  /** How far the number goes on. */
  function Run(s: seq<Byte>, skip: int): (k: nat)
    ensures k <= |s|
  {
    if s == [] || !Goes(s[0], skip) then 0 else 1 + Run(s[1..], skip)
  }

  predicate Counts(c: int, skip: int) { IsDigit(c) && c != skip }

  /** The digits of `w` read on from `v`. */
  function Value(v: int, w: seq<Byte>, skip: int): int
    decreases |w|
  {
    if w == [] then v else Value(if Counts(w[0], skip) then v * 10 + w[0] - 48 else v, w[1..], skip)
  }

  /** Whether a step on the way leaves the range of a signed 64-bit number: the
      character is added before '0' is taken off. */
  predicate Overflows(v: int, w: seq<Byte>, skip: int)
    decreases |w|
  {
    w != [] &&
      if Counts(w[0], skip) then v * 10 + w[0] > MAX63 || Overflows(v * 10 + w[0] - 48, w[1..], skip)
      else Overflows(v, w[1..], skip)
  }

  datatype Parsed = Parsed(value: int, used: nat, overflow: bool)

  /** What `parseInt` makes of the bytes ahead. */
  function Parse(s: seq<Byte>, skip: int): (r: Parsed)
    ensures r.used <= |s|
  {
    var k := Lead(s);
    if k == |s| then Parsed(0, k, false)
    else
      var w := s[k..k + 1 + Run(s[k + 1..], skip)];
      var v := Value(0, w, skip);
      Parsed(if s[k] == MINUS != skip then -v else v, k + |w|, Overflows(0, w, skip))
  }

  /** The first place from `i` on with a digit or a minus sign, and the first behind the
      digits and skip characters from `i` on. */
  predicate FirstSign(s: seq<Byte>, k: nat) {
    && k <= |s| && (forall i :: 0 <= i < k ==> !('0' as int <= s[i] <= '9' as int) && s[i] != '-' as int)
    && (k < |s| ==> '0' as int <= s[k] <= '9' as int || s[k] == '-' as int)
  }

  predicate NumberEnds(s: seq<Byte>, skip: int, k: nat, m: nat) {
    && k < m <= |s| && (forall i :: k < i < m ==> '0' as int <= s[i] <= '9' as int || s[i] == skip)
    && (m < |s| ==> !('0' as int <= s[m] <= '9' as int) && s[m] != skip)
  }

  /** The digits without the skip characters. */
  function Kept(w: seq<Byte>, skip: int): seq<Byte>
    decreases |w|
  {
    if w == [] then [] else
      var c := w[|w| - 1];
      Kept(w[..|w| - 1], skip) + if '0' as int <= c <= '9' as int && c != skip then [c] else []
  }

  lemma {:induction false} LeadIsFirst(s: seq<Byte>)
    ensures FirstSign(s, Lead(s))
    decreases |s|
  {
    if s != [] && !Numeric(s[0]) {
      LeadIsFirst(s[1..]);
      var k := Lead(s[1..]);
      assert forall i :: 1 <= i < 1 + k ==> s[i] == s[1..][i - 1];
    }
  }

  lemma {:induction false} RunEnds(s: seq<Byte>, skip: int)
    ensures var m := Run(s, skip);
      && (forall i :: 0 <= i < m ==> '0' as int <= s[i] <= '9' as int || s[i] == skip)
      && (m < |s| ==> !('0' as int <= s[m] <= '9' as int) && s[m] != skip)
    decreases |s|
  {
    if s != [] && Goes(s[0], skip) {
      RunEnds(s[1..], skip);
      var m := Run(s[1..], skip);
      assert forall i :: 1 <= i < 1 + m ==> s[i] == s[1..][i - 1];
    }
  }

  lemma {:induction false} ValueKept(w: seq<Byte>, skip: int)
    ensures Value(0, w, skip) == ReadIn(10, Kept(w, skip))
    decreases |w|
  {
    hide Place;
    if w != [] {
      var init, c := w[..|w| - 1], w[|w| - 1];
      assert w == init + [c];
      ValueKept(init, skip);
      ValueConcat(0, init, [c], skip);
      ValueOne(Value(0, init, skip), c, skip);
      if '0' as int <= c <= '9' as int && c != skip {
        ReadSnoc(10, Kept(init, skip), c);
        DigitValue(c);
      } else {
        assert Kept(init, skip) + [] == Kept(init, skip);
      }
    }
  }

  lemma ValueOne(v: int, c: Byte, skip: int)
    ensures Value(v, [c], skip) == if Counts(c, skip) then v * 10 + c - 48 else v
  {
    assert [c][1..] == [];
    assert Value(v, [c], skip) == Value(if Counts(c, skip) then v * 10 + c - 48 else v, [], skip);
  }

  lemma DigitValue(c: Byte)
    requires '0' as int <= c <= '9' as int
    ensures Place(c) == c - 48
  {
    Letters(c - 48);
    PlaceIs(c - 48, 0);
  }

  /** What is parsed: from the first digit or minus sign on, the digits that are not the
      skip character, read in decimal, and negative behind a minus sign unless that is
      the skip character; what is neither a digit nor the skip character ends it. */
  lemma ParseMeans(s: seq<Byte>, skip: int) returns (k: nat, m: nat)
    ensures FirstSign(s, k)
    ensures k == |s| ==> Parse(s, skip) == Parsed(0, k, false)
    ensures k < |s| ==> NumberEnds(s, skip, k, m) && Parse(s, skip).used == m
    ensures k < |s| ==> var v := ReadIn(10, Kept(s[k..m], skip));
      Parse(s, skip).value == if s[k] == '-' as int && skip != '-' as int then -v else v
  {
    hide Value, Overflows, ReadIn, Kept;
    LeadIsFirst(s);
    k, m := Lead(s), 0;
    if k < |s| {
      RunEnds(s[k + 1..], skip);
      m := k + 1 + Run(s[k + 1..], skip);
      assert forall i :: k < i < |s| ==> s[i] == s[k + 1..][i - k - 1];
      ValueKept(s[k..m], skip);
    }
  }

  class Stream {
    var data: seq<Byte>
    var pos: nat

    ghost predicate Valid()
      reads this
    {
      pos <= |data|
    }

    ghost function Ahead(): seq<Byte>
      reads this
      requires Valid()
    {
      data[pos..]
    }

    constructor (data: seq<Byte>)
      ensures Valid() && Ahead() == data
    {
      this.data, pos := data, 0;
    }

    /** The next byte, or -1 when waiting for one times out. */
    function TimedPeek(): (c: int)
      reads this
      requires Valid()
      ensures c == if Ahead() == [] then -1 else Ahead()[0]
    {
      if pos == |data| then -1 else data[pos]
    }

    method Read()
      requires Valid()
      modifies this`pos
      ensures Valid()
      ensures Ahead() == if old(Ahead()) == [] then [] else old(Ahead())[1..]
    {
      if pos < |data| {
        pos := pos + 1;
      }
    }

    method PeekNextDigit() returns (c: int)
      requires Valid()
      modifies this`pos
      ensures Valid() && Ahead() == old(Ahead())[Lead(old(Ahead()))..]
      ensures c == if Ahead() == [] then -1 else Ahead()[0]
    {
      ghost var s := Ahead();
      ghost var k := 0;
      while true
        invariant Valid() && k <= |s| && Ahead() == s[k..] && Lead(s) == k + Lead(s[k..])
        decreases |data| - pos
      {
        c := TimedPeek();
        if c < 0 || c == MINUS || IsDigit(c) {
          return c;
        }
        Read();
        k := k + 1;
      }
    }

    /** `parseInt`. A skip character of -1 matches the end of the stream, so that a
        number which ends there is waited for for ever. */
    method ParseInt(skip: int) returns (value: int, ghost overflow: bool, endless: bool)
      requires Valid() && -128 <= skip < 128
      modifies this`pos
      ensures Valid()
      ensures var r := Parse(old(Ahead()), skip);
        && Ahead() == old(Ahead())[r.used..]
        && (endless <==> skip == -1 && Lead(old(Ahead())) < |old(Ahead())| == r.used)
        && (!endless ==> value == r.value && overflow == r.overflow)
    {
      hide Value, Overflows, Run, Lead, Parse;
      ghost var s := Ahead();
      ParseIs(s, skip);
      var negative := false;
      value, overflow, endless := 0, false, false;
      var c := PeekNextDigit();
      if c < 0 {
        return;
      }
      value, negative, overflow, endless := Accumulate(skip, c);
      if negative {
        value := -value;
      }
    }

    /** The loop of `parseInt`, from the first byte of a number on. */
    method Accumulate(skip: int, first: int) returns (value: int, negative: bool, ghost overflow: bool, endless: bool)
      requires Valid() && -128 <= skip < 128
      requires Ahead() != [] && first == Ahead()[0] && Numeric(first)
      modifies this`pos
      ensures Valid()
      ensures var t := old(Ahead());
        var n := 1 + Run(t[1..], skip);
        && Ahead() == t[n..]
        && value == Value(0, t[..n], skip)
        && overflow == Overflows(0, t[..n], skip)
        && (negative <==> t[0] == MINUS && skip != MINUS)
        && (endless <==> skip == -1 && n == |t|)
    {
      hide Value, Overflows, Run;
      ghost var t := Ahead();
      ghost var n := 1 + Run(t[1..], skip);
      ghost var w := t[..n];
      value, negative, overflow, endless := 0, false, false, false;
      var c := first;
      ghost var j := 0;
      var more := true;
      assert w[0..] == w;
      while more
        invariant Valid() && 0 <= j <= n && Ahead() == t[j..]
        invariant more <==> j < n
        invariant more ==> c == t[j]
        invariant Value(0, w, skip) == Value(value, w[j..], skip)
        invariant Overflows(0, w, skip) <==> overflow || Overflows(value, w[j..], skip)
        invariant negative <==> j > 0 && t[0] == MINUS && skip != MINUS
        invariant endless <==> !more && skip == -1 && j == |t|
        decreases n - j
      {
        RunAt(t, skip, j);
        ValueStep(value, w[j..], skip);
        assert w[j..][1..] == w[j + 1..];
        if c == skip {
        } else if c == MINUS {
          negative := true;
        } else if IsDigit(c) {
          overflow := overflow || value * 10 + c > MAX63;
          value := value * 10 + c - 48;
        }
        Read();
        j := j + 1;
        c := TimedPeek();
        if c < 0 && c == skip {
          endless, more := true, false;
        } else {
          more := IsDigit(c) || c == skip;
        }
      }
      ValueStep(value, w[j..], skip);
    }
  }

  /** The same, from the first byte of the number on. */
  lemma ParseIs(s: seq<Byte>, skip: int)
    ensures var t, r := s[Lead(s)..], Parse(s, skip);
      if t == [] then r == Parsed(0, |s|, false) && s[r.used..] == []
      else
        var n := 1 + Run(t[1..], skip);
        var v := Value(0, t[..n], skip);
        && r.value == (if t[0] == MINUS != skip then -v else v)
        && r.overflow == Overflows(0, t[..n], skip)
        && s[r.used..] == t[n..] && (r.used == |s| <==> n == |t|)
  {
    hide Value, Overflows, Run;
    var k := Lead(s);
    var t := s[k..];
    if k < |s| {
      assert t[1..] == s[k + 1..];
      var n := 1 + Run(t[1..], skip);
      assert t[..n] == s[k..k + n];
    }
  }

  /** The bytes of a number, one by one. */
  lemma RunAt(t: seq<Byte>, skip: int, j: nat)
    requires t != [] && j < 1 + Run(t[1..], skip)
    ensures j > 0 ==> Goes(t[j], skip)
    ensures (j + 1 < |t| && Goes(t[j + 1], skip)) <==> j + 1 < 1 + Run(t[1..], skip)
  {
    RunIs(t[1..], skip);
  }

  lemma {:induction false} RunIs(s: seq<Byte>, skip: int)
    ensures forall i :: 0 <= i < Run(s, skip) ==> Goes(s[i], skip)
    ensures Run(s, skip) < |s| ==> !Goes(s[Run(s, skip)], skip)
    decreases |s|
  {
    if s != [] && Goes(s[0], skip) {
      RunIs(s[1..], skip);
    }
  }

  lemma ValueStep(v: int, w: seq<Byte>, skip: int)
    ensures w == [] ==> Value(v, w, skip) == v && !Overflows(v, w, skip)
    ensures w != [] ==> Value(v, w, skip) == Value(if Counts(w[0], skip) then v * 10 + w[0] - 48 else v, w[1..], skip)
    ensures w != [] && Counts(w[0], skip) ==>
      (Overflows(v, w, skip) <==> v * 10 + w[0] > MAX63 || Overflows(v * 10 + w[0] - 48, w[1..], skip))
    ensures w != [] && !Counts(w[0], skip) ==> (Overflows(v, w, skip) <==> Overflows(v, w[1..], skip))
  {
  }

  // ----- the round trip ----------------------------------------------------

  lemma {:induction false} ValueConcat(v: int, a: seq<Byte>, b: seq<Byte>, skip: int)
    ensures Value(v, a + b, skip) == Value(Value(v, a, skip), b, skip)
    ensures Overflows(v, a + b, skip) <==> Overflows(v, a, skip) || Overflows(Value(v, a, skip), b, skip)
    decreases |a|
  {
    hide Counts;
    if a == [] {
      assert a + b == b;
    } else {
      assert (a + b)[1..] == a[1..] + b;
      ValueConcat(if Counts(a[0], skip) then v * 10 + a[0] - 48 else v, a[1..], b, skip);
    }
  }

  lemma OneDigit(v: int, d: nat, skip: int)
    requires d < 10 && !IsDigit(skip)
    ensures IsDigit(DigitChar(d))
    ensures Value(v, [DigitChar(d)], skip) == v * 10 + d
    ensures Overflows(v, [DigitChar(d)], skip) <==> v * 10 + d + 48 > MAX63
  {
    ValueStep(v, [DigitChar(d)], skip);
    ValueStep(v * 10 + d, [], skip);
  }

  /** Reading the digits of a number gives the number, and overflows exactly if
      the number is within 48 of the end of the range. */
  lemma {:induction false} DigitsValue(n: nat, skip: int)
    requires !IsDigit(skip)
    ensures forall i :: 0 <= i < |Digits(n, 10)| ==> IsDigit(Digits(n, 10)[i])
    ensures Value(0, Digits(n, 10), skip) == n
    ensures Overflows(0, Digits(n, 10), skip) <==> n + 48 > MAX63
    decreases n
  {
    hide Value, Overflows, DigitChar;
    if n < 10 {
      OneDigit(0, n, skip);
    } else {
      DigitsValue(n / 10, skip);
      OneDigit(n / 10, n % 10, skip);
      ValueConcat(0, Digits(n / 10, 10), [DigitChar(n % 10)], skip);
    }
  }

  lemma {:induction false} LeadOf(junk: seq<Byte>, s: seq<Byte>)
    requires (forall i :: 0 <= i < |junk| ==> !Numeric(junk[i])) && s != [] && Numeric(s[0])
    ensures Lead(junk + s) == |junk|
    decreases |junk|
  {
    if junk == [] {
      assert junk + s == s;
    } else {
      assert (junk + s)[0] == junk[0] && (junk + s)[1..] == junk[1..] + s;
      LeadOf(junk[1..], s);
    }
  }

  lemma {:induction false} RunOf(w: seq<Byte>, tail: seq<Byte>, skip: int)
    requires (forall i :: 0 <= i < |w| ==> IsDigit(w[i])) && (tail == [] || !Goes(tail[0], skip))
    ensures Run(w + tail, skip) == |w|
    decreases |w|
  {
    if w == [] {
      assert w + tail == tail;
    } else {
      assert (w + tail)[0] == w[0] && (w + tail)[1..] == w[1..] + tail;
      RunOf(w[1..], tail, skip);
    }
  }

  function Abs(n: int): nat { if n < 0 then -n else n }

  lemma PrintedValue(n: int, skip: int)
    requires !IsDigit(skip) && skip != MINUS
    ensures var w := Printed(n);
      && w != [] && Numeric(w[0]) && (w[0] == MINUS <==> n < 0)
      && (forall i :: 1 <= i < |w| ==> IsDigit(w[i]))
      && Value(0, w, skip) == Abs(n)
      && (Overflows(0, w, skip) <==> Abs(n) + 48 > MAX63)
  {
    hide Digits;
    DigitsValue(Abs(n), skip);
    ValueStep(0, Printed(n), skip);
    if n < 0 {
      assert Printed(n)[1..] == Digits(-n, 10);
    }
  }

  /** Whatever stands before it and behind it, a printed number is parsed back,
      nothing behind it is touched, and the signed arithmetic stays in range
      exactly up to 2^63 - 49. */
  lemma RoundTrip(junk: seq<Byte>, n: int, tail: seq<Byte>, skip: int)
    requires !IsDigit(skip) && skip != MINUS
    requires forall i :: 0 <= i < |junk| ==> !Numeric(junk[i])
    requires tail == [] || !Goes(tail[0], skip)
    ensures var r := Parse(junk + Printed(n) + tail, skip);
      && r.value == n
      && r.used == |junk| + |Printed(n)|
      && (r.overflow <==> Abs(n) > MAX63 - 48)
  {
    hide Value, Overflows, Lead, Run, Printed;
    var w := Printed(n);
    var s := junk + w + tail;
    PrintedValue(n, skip);
    assert s == junk + (w + tail);
    LeadOf(junk, w + tail);
    RunOf(w[1..], tail, skip);
    assert s[|junk| + 1..] == w[1..] + tail;
    assert s[|junk|..|junk| + |w|] == w;
  }
}
