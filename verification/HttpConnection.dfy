/** The Connection header: which elements of its list are recognised, and what they
    say about the connection. */
module HttpConnection {
  import opened Basics
  import opened HttpTypes
  import opened HttpAct
  import opened HttpRun
  import opened HttpInvariant
  import opened HttpSkip
  import opened HttpNames
  import opened HttpHeaders

  // ----- lists -------------------------------------------------------------

  /** The elements between the commas; any value is such a list. */
  function Elements(v: seq<Byte>): (es: seq<seq<Byte>>)
    ensures es != []
  {
    if v == [] then [[]] else
      var es := Elements(v[1..]);
      if v[0] == COMMA then [[]] + es else [[v[0]] + es[0]] + es[1..]
  }

  function Joined(es: seq<seq<Byte>>): seq<Byte> {
    if es == [] then [] else if |es| == 1 then es[0] else es[0] + ([COMMA] + Joined(es[1..]))
  }

  /** Bytes of an element. */
  predicate Letters(e: seq<Byte>) { forall i :: 0 <= i < |e| ==> e[i] != COMMA && e[i] != CR && e[i] != LF && IsHeaderChar(e[i]) }

  predicate AllLetters(es: seq<seq<Byte>>) { forall i :: 0 <= i < |es| ==> Letters(es[i]) }

  lemma {:induction false} JoinElements(v: seq<Byte>)
    ensures Joined(Elements(v)) == v
    decreases |v|
  {
    if v != [] {
      var es := Elements(v[1..]);
      JoinElements(v[1..]);
      if v[0] == COMMA {
        assert ([[]] + es)[1..] == es;
        assert [] + ([COMMA] + Joined(es)) == [COMMA] + v[1..] == v;
      } else {
        var fs := [[v[0]] + es[0]] + es[1..];
        assert fs[1..] == es[1..];
        if |es| > 1 {
          assert ([v[0]] + es[0]) + ([COMMA] + Joined(es[1..])) == [v[0]] + (es[0] + ([COMMA] + Joined(es[1..])));
        }
        assert Joined(fs) == [v[0]] + Joined(es);
        assert [v[0]] + v[1..] == v;
      }
    }
  }

  lemma {:induction false} ElementLetters(v: seq<Byte>)
    requires NoLineEnd(v) && Acceptable(false, v)
    ensures AllLetters(Elements(v))
    decreases |v|
  {
    hide IsHeaderChar;
    if v != [] {
      assert forall i :: 0 <= i < |v[1..]| ==> v[1..][i] == v[i + 1];
      ElementLetters(v[1..]);
    }
  }

  // ----- what the scanner makes of a list ----------------------------------

  function LowerAll(w: seq<Byte>): (t: seq<Byte>)
    ensures |t| == |w|
  {
    seq(|w|, i requires 0 <= i < |w| => Lower(w[i]))
  }

  /** Without the spaces in front. */
  function StripLead(e: seq<Byte>): (t: seq<Byte>)
    ensures t != [] ==> t[0] != SP
    ensures |t| <= |e|
  {
    if e != [] && e[0] == SP then StripLead(e[1..]) else e
  }

  /** What an element says, in lower case. */
  function Word(e: seq<Byte>): seq<Byte> { LowerAll(StripTrail(StripLead(e))) }

  /** The words of interest, by first letter. */
  function KeyWord(c: Byte): seq<Byte> {
    if c == 107 /* k */ then KEEP_ALIVE else if c == 99 /* c */ then CLOSE else if c == 117 /* u */ then UPGRADE else []
  }

  /** Letters that stop in the middle of a word of interest. */
  predicate Cut(t: seq<Byte>)
    requires t != []
  {
    var k := KeyWord(Lower(t[0]));
    IsPrefix(LowerAll(t), k) && |t| < |k|
  }

  predicate Whole(t: seq<Byte>)
    requires t != []
  {
    LowerAll(StripTrail(t)) == KeyWord(Lower(t[0]))
  }

  /** A first letter that the scanner takes for no token at all; a tab is one. */
  predicate Lost(c: Byte) { Token(Lower(c)) == 0 }

  function Recognised(f: Flags, e: seq<Byte>): Flags {
    if Word(e) == KEEP_ALIVE then f.(keepAlive := true)
    else if Word(e) == CLOSE then f.(close := true)
    else if Word(e) == UPGRADE then f.(connUpgrade := true)
    else f
  }

  /** How the scanner reaches an element: afresh; deaf to it, because the comma in
      front was taken for a letter; or not at all any more. */
  datatype Ear = Fresh | Deaf | Gone

  /** A comma is taken for a letter if it starts the value or cuts a word of
      interest; the list is given up at an element that is blank or starts with a
      letter that is no token. */
  function EarAfter(ear: Ear, first: bool, e: seq<Byte>): Ear {
    match ear
    case Gone => Gone
    case Deaf => Fresh
    case Fresh =>
      var t := StripLead(e);
      if first && e == [] then Deaf
      else if t == [] then Gone
      else if !first && Lost(t[0]) then Gone
      else if Cut(t) then Deaf
      else Fresh
  }

  function FlagsAfter(f: Flags, ear: Ear, es: seq<seq<Byte>>, first: bool): Flags
    decreases |es|
  {
    if es == [] then f
    else FlagsAfter(if ear.Fresh? then Recognised(f, es[0]) else f, EarAfter(ear, first, es[0]), es[1..], false)
  }

  /** The flags that a Connection header leaves. */
  function ConnectionFlags(f: Flags, value: seq<Byte>): Flags {
    if value == [] then f else FlagsAfter(f, Fresh, Elements(value), true)
  }

  lemma FlagsCons(f: Flags, ear: Ear, es: seq<seq<Byte>>, first: bool)
    ensures FlagsAfter(f, ear, es, first) ==
            if es == [] then f
            else FlagsAfter(if ear.Fresh? then Recognised(f, es[0]) else f, EarAfter(ear, first, es[0]), es[1..], false)
  {
    hide Recognised, EarAfter;
  }

  // ----- the scanner, letter by letter -------------------------------------

  /** The matcher for a word of interest, and the state once it is whole. */
  function Matcher(c: Byte): HeaderState { ConnectionToken(c) }

  function Done(c: Byte): HeaderState {
    if c == 107 then HKeepAlive else if c == 99 then HClose else if c == 117 then HConnUpgrade else MatchingToken
  }

  /** Where the scanner is after the letters `t` of an element it listens to. */
  predicate AtWord(v: Scan, t: seq<Byte>, f: Flags, length: nat)
    requires t != []
  {
    && v.Scan? && v.flags == f && v.length == length
    && (if Cut(t) then v.hs == Matcher(Lower(t[0])) && v.index == |t| - 1
        else if Whole(t) then v.hs == Done(Lower(t[0]))
        else v.hs == MatchingToken)
  }

  lemma MatcherByte(v: Scan, c: Byte, ch: Byte)
    requires v.Scan? && KeyWord(c) != [] && v.hs == Matcher(c) && v.index < 100
    ensures ValueNext(v, ch) == v.(index := v.index + 1, hs := Match(KeyWord(c), v.index + 1, Lower(ch), MatchingToken, Matcher(c), Done(c)))
  {
    hide Match, Lower;
  }

  lemma MatchIs(k: seq<Byte>, i: nat, c: Byte, more: HeaderState, done: HeaderState)
    requires 0 < i < |k|
    ensures Match(k, i, c, MatchingToken, more, done) ==
            if c != k[i] then MatchingToken else if i == |k| - 1 then done else more
  {
  }

  lemma OtherByte(v: Scan, ch: Byte)
    requires v.Scan? && ch != COMMA && (v.hs.MatchingToken? || (v.hs in {HKeepAlive, HClose, HConnUpgrade} && ch != SP))
    ensures ValueNext(v, ch) == v.(hs := MatchingToken)
  {
    hide Lower;
  }

  lemma DoneSpace(v: Scan)
    requires v.Scan? && v.hs in {HKeepAlive, HClose, HConnUpgrade, MatchingToken}
    ensures ValueNext(v, SP) == v
  {
    hide Lower;
  }

  lemma LetterByte(lenient: bool, v: Scan, ch: Byte)
    requires v.Scan? && IsHeaderChar(ch)
    ensures ScanByte(lenient, v, ch) == ValueNext(v, ch)
  {
  }

  lemma PrefixStep(t: seq<Byte>, c: Byte, k: seq<Byte>)
    ensures IsPrefix(t + [c], k) <==> IsPrefix(t, k) && |t| < |k| && CharAt(k, |t|) == c
    ensures t + [c] == k <==> IsPrefix(t + [c], k) && |t| + 1 == |k|
  {
    var u := t + [c];
    if IsPrefix(u, k) {
      assert forall i :: 0 <= i < |t| ==> t[i] == u[i];
      assert u[|t|] == c;
    }
  }

  /** No word of interest has a space in it, and each has at most ten letters. */
  lemma KeyLetters(c: Byte)
    ensures |KeyWord(c)| <= 10 && (KeyWord(c) != [] ==> KeyWord(c)[0] == c && Done(c) in {HKeepAlive, HClose, HConnUpgrade})
    ensures forall i :: 0 <= i < |KeyWord(c)| ==> KeyWord(c)[i] != Lower(SP) && KeyWord(c)[i] != Lower(COMMA)
  {
  }

  /** One more letter, as words. */
  lemma WordStep(t: seq<Byte>, ch: Byte)
    requires t != []
    ensures LowerAll(t + [ch]) == LowerAll(t) + [Lower(ch)]
    ensures ch == SP ==> StripTrail(t + [ch]) == StripTrail(t)
    ensures ch != SP ==> StripTrail(t + [ch]) == t + [ch]
    ensures var k := KeyWord(Lower(t[0]));
      && (Cut(t + [ch]) <==> Cut(t) && |t| + 1 < |k| && Lower(ch) == k[|t|])
      && (Whole(t + [ch]) <==> (Cut(t) && |t| + 1 == |k| && Lower(ch) == k[|t|]) || (Whole(t) && ch == SP))
  {
    hide Lower, KeyWord, StripTrail;
    var k, u, c := KeyWord(Lower(t[0])), t + [ch], Lower(ch);
    assert LowerAll(u) == LowerAll(t) + [c];
    TrailStep(t, ch);
    KeyLetters(Lower(t[0]));
    PrefixStep(LowerAll(t), c, k);
    assert u[0] == t[0];
    if ch == SP && Cut(t) {
      assert |StripTrail(t)| < |k|;
    }
  }

  lemma CutOrWhole(t: seq<Byte>)
    requires t != []
    ensures Cut(t) ==> !Whole(t) && KeyWord(Lower(t[0])) != [] && |t| <= 10
    ensures Whole(t) ==> |KeyWord(Lower(t[0]))| <= |t|
  {
    hide Lower, KeyWord;
    KeyLetters(Lower(t[0]));
    TrailStep(t, SP);
  }

  lemma WordGrows(lenient: bool, v: Scan, t: seq<Byte>, ch: Byte, f: Flags, length: nat)
    requires t != [] && t[0] != SP && AtWord(v, t, f, length) && IsHeaderChar(ch) && ch != COMMA
    ensures AtWord(ScanByte(lenient, v, ch), t + [ch], f, length)
  {
    hide ScanByte, Lower, ValueNext, Match, KeyWord, StripTrail, LowerAll, Cut, Whole, Matcher, Done;
    LetterByte(lenient, v, ch);
    WordStep(t, ch);
    CutOrWhole(t);
    var c := Lower(t[0]);
    assert (t + [ch])[0] == t[0];
    if Cut(t) {
      MatcherByte(v, c, ch);
      CutLength(t);
      MatchIs(KeyWord(c), |t|, Lower(ch), Matcher(c), Done(c));
    } else if Whole(t) {
      WholeDone(t);
      if ch == SP {
        DoneSpace(v);
      } else {
        OtherByte(v, ch);
      }
    } else {
      OtherByte(v, ch);
    }
  }

  lemma CutLength(t: seq<Byte>)
    requires t != [] && Cut(t)
    ensures |t| < |KeyWord(Lower(t[0]))|
  {
  }

  lemma WholeDone(t: seq<Byte>)
    requires t != [] && t[0] != SP && Whole(t)
    ensures Done(Lower(t[0])) in {HKeepAlive, HClose, HConnUpgrade}
  {
    hide Lower, LowerAll;
    NotBlank(t);
    KeyLetters(Lower(t[0]));
  }

  lemma {:induction false} NotBlank(t: seq<Byte>)
    requires t != [] && t[0] != SP
    ensures StripTrail(t) != [] && StripTrail(t)[0] == t[0]
    decreases |t|
  {
    if t[|t| - 1] == SP {
      NotBlank(t[..|t| - 1]);
    }
  }

  /** The first letter of an element. */
  lemma WordStarts(c: Byte, f: Flags, length: nat)
    requires c != SP
    ensures AtWord(Scan(Matcher(Lower(c)), 0, f, length), [c], f, length)
  {
    assert LowerAll([c]) == [Lower(c)] && StripTrail([c]) == [c];
  }

  lemma {:induction false} WordRuns(lenient: bool, v: Scan, t: seq<Byte>, n: nat, f: Flags, length: nat)
    requires t != [] && t[0] != SP && Letters(t) && 1 <= n <= |t| && v == Scan(Matcher(Lower(t[0])), 0, f, length)
    ensures AtWord(ValueRun(lenient, v, t[1..n]), t[..n], f, length)
    decreases n
  {
    hide ScanByte, Lower, AtWord, Matcher, IsHeaderChar;
    if n == 1 {
      assert t[1..1] == [] && t[..1] == [t[0]];
      WordStarts(t[0], f, length);
    } else {
      WordRuns(lenient, v, t, n - 1, f, length);
      var u := t[1..n];
      assert u[..|u| - 1] == t[1..n - 1] && u[|u| - 1] == t[n - 1];
      AtWordScan(ValueRun(lenient, v, t[1..n - 1]), t[..n - 1], f, length);
      WordGrows(lenient, ValueRun(lenient, v, t[1..n - 1]), t[..n - 1], t[n - 1], f, length);
      assert t[..n] == t[..n - 1] + [t[n - 1]];
    }
  }

  lemma AtWordScan(v: Scan, t: seq<Byte>, f: Flags, length: nat)
    requires t != [] && AtWord(v, t, f, length)
    ensures v.Scan? && v.flags == f && v.length == length
  {
  }

  // ----- elements ----------------------------------------------------------

  /** How the scanner stands in front of an element. */
  predicate Before(v: Scan, ear: Ear, f: Flags, length: nat) {
    && v.Scan? && v.flags == f && v.length == length
    && match ear
       case Fresh => v.hs.MatchingTokenStart? && v.index == 0
       case Deaf => v.hs.MatchingToken?
       case Gone => v.hs.General?
  }

  /** And behind it. */
  predicate Behind(v: Scan, ear: Ear, first: bool, e: seq<Byte>, f: Flags, length: nat) {
    && v.Scan? && v.flags == f && v.length == length
    && match ear
       case Gone => v.hs.General?
       case Deaf => v.hs.MatchingToken?
       case Fresh =>
         var t := StripLead(e);
         if t == [] then !(first && e == []) && v.hs.MatchingTokenStart? && v.index == 0
         else if !first && Lost(t[0]) then v.hs.General?
         else AtWord(v, t, f, length)
  }

  /** Spaces in front of an element change nothing. */
  lemma {:induction false} LeadRuns(lenient: bool, v: Scan, e: seq<Byte>, f: Flags, length: nat)
    requires Before(v, Fresh, f, length)
    ensures ValueRun(lenient, v, e) == ValueRun(lenient, v, StripLead(e))
    decreases |e|
  {
    hide ValueRun;
    if e != [] && e[0] == SP {
      SpaceStays(lenient, v, f, length);
      assert e == [SP] + e[1..];
      ValueRunConcat(lenient, v, [SP], e[1..]);
      LeadRuns(lenient, v, e[1..], f, length);
    }
  }

  lemma SpaceStays(lenient: bool, v: Scan, f: Flags, length: nat)
    requires Before(v, Fresh, f, length)
    ensures ValueRun(lenient, v, [SP]) == v
  {
    OneByte(lenient, v, SP);
  }

  lemma {:induction false} LeadLetters(e: seq<Byte>)
    requires Letters(e)
    ensures Letters(StripLead(e))
    decreases |e|
  {
    hide IsHeaderChar;
    if e != [] && e[0] == SP {
      LeadLetters(e[1..]);
    }
  }

  /** The first letter of an element that is listened to. */
  lemma FirstLetter(lenient: bool, v: Scan, ch: Byte, f: Flags, length: nat)
    requires ch != SP && IsHeaderChar(ch) && Before(v, Fresh, f, length)
    ensures ScanByte(lenient, v, ch) == Scan(if Lost(ch) then General else Matcher(Lower(ch)), 0, f, length)
  {
  }

  /** Letters that nobody listens to change nothing. */
  lemma {:induction false} Unheard(lenient: bool, v: Scan, w: seq<Byte>)
    requires v.Scan? && (v.hs.General? || v.hs.MatchingToken?) && Letters(w)
    ensures ValueRun(lenient, v, w) == v
    decreases |w|
  {
    hide IsHeaderChar, Lower;
    if w != [] {
      var n := |w| - 1;
      Unheard(lenient, v, w[..n]);
      LetterByte(lenient, v, w[n]);
    }
  }

  lemma ElementRuns(lenient: bool, v: Scan, ear: Ear, e: seq<Byte>, f: Flags, length: nat)
    requires Letters(e) && Before(v, ear, f, length)
    ensures Behind(ValueRun(lenient, v, e), ear, false, e, f, length)
  {
    hide ScanByte, AtWord, Matcher, ValueRun, Lost, Lower, IsHeaderChar;
    if ear.Fresh? {
      var t := StripLead(e);
      LeadRuns(lenient, v, e, f, length);
      LeadLetters(e);
      if t == [] {
        NoValue(lenient, v);
      } else {
        FirstLetter(lenient, v, t[0], f, length);
        OneByte(lenient, v, t[0]);
        assert t == [t[0]] + t[1..];
        ValueRunConcat(lenient, v, [t[0]], t[1..]);
        var u := ScanByte(lenient, v, t[0]);
        if Lost(t[0]) {
          Unheard(lenient, u, t[1..]);
        } else {
          WordRuns(lenient, u, t, |t|, f, length);
          assert t[..|t|] == t && t[1..|t|] == t[1..];
          AtWordScan(ValueRun(lenient, u, t[1..]), t, f, length);
        }
      }
    } else {
      Unheard(lenient, v, e);
    }
  }

  lemma CommaNext(v: Scan)
    requires v.Scan?
    ensures v.hs.General? ==> ValueNext(v, COMMA) == v
    ensures v.hs.MatchingToken? ==> ValueNext(v, COMMA) == v.(hs := MatchingTokenStart, index := 0)
    ensures v.hs.MatchingTokenStart? ==> ValueNext(v, COMMA) == v.(hs := General)
    ensures v.hs in {HKeepAlive, HClose, HConnUpgrade} ==>
      ValueNext(v, COMMA) == v.(flags := SetConnection(v.flags, v.hs), hs := MatchingTokenStart, index := 0)
  {
  }

  lemma CutComma(v: Scan, t: seq<Byte>)
    requires v.Scan? && t != [] && Cut(t) && v.hs == Matcher(Lower(t[0])) && v.index == |t| - 1
    ensures ValueNext(v, COMMA) == v.(index := |t|, hs := MatchingToken)
  {
    hide Lower, KeyWord, Matcher, Done, ValueNext, LowerAll;
    var c := Lower(t[0]);
    CutOrWhole(t);
    KeyLetters(c);
    MatcherByte(v, c, COMMA);
    MatchIs(KeyWord(c), |t|, Lower(COMMA), Matcher(c), Done(c));
  }

  lemma RecognisedIs(f: Flags, e: seq<Byte>)
    ensures Recognised(f, e) == f.(close := f.close || Word(e) == CLOSE, keepAlive := f.keepAlive || Word(e) == KEEP_ALIVE,
                                   connUpgrade := f.connUpgrade || Word(e) == UPGRADE)
  {
    hide Word;
    assert CLOSE[0] != KEEP_ALIVE[0] && CLOSE[0] != UPGRADE[0] && KEEP_ALIVE[0] != UPGRADE[0];
  }

  lemma BlankSaysNothing(f: Flags, e: seq<Byte>)
    requires StripLead(e) == []
    ensures Recognised(f, e) == f
  {
  }

  /** An element is recognised exactly if its letters are a whole word of interest. */
  lemma WhatIsWhole(f: Flags, e: seq<Byte>)
    requires StripLead(e) != []
    ensures var t := StripLead(e);
      && (Whole(t) ==> Recognised(f, e) == SetConnection(f, Done(Lower(t[0]))) && Done(Lower(t[0])) in {HKeepAlive, HClose, HConnUpgrade})
      && (!Whole(t) ==> Recognised(f, e) == f)
      && (Lost(t[0]) ==> !Whole(t)) && (Cut(t) ==> !Whole(t))
  {
    hide StripTrail, Lower;
    var t := StripLead(e);
    NotBlank(t);
    CutOrWhole(t);
    KeyToken(Lower(t[0]));
    assert Word(e)[0] == Lower(t[0]);
  }

  lemma KeyToken(c: Byte)
    ensures KeyWord(c) != [] ==> Token(c) != 0
  {
  }

  lemma BeforeNext(v: Scan, f: Flags, length: nat)
    requires v.Scan? && v.length == length
    ensures v.hs.MatchingToken? && v.flags == f ==> Before(ValueNext(v, COMMA), Fresh, f, length)
    ensures v.hs in {HKeepAlive, HClose, HConnUpgrade} ==> Before(ValueNext(v, COMMA), Fresh, SetConnection(v.flags, v.hs), length)
    ensures (v.hs.General? || v.hs.MatchingTokenStart?) && v.flags == f ==> Before(ValueNext(v, COMMA), Gone, f, length)
  {
    hide ValueNext;
    CommaNext(v);
  }

  /** The comma: a whole word of interest sets its flag. */
  lemma CommaByte(lenient: bool, v: Scan, ear: Ear, first: bool, e: seq<Byte>, f: Flags, length: nat)
    requires Behind(v, ear, first, e, f, length)
    ensures Before(ScanByte(lenient, v, COMMA), EarAfter(ear, first, e), if ear.Fresh? then Recognised(f, e) else f, length)
  {
    hide Lower, ValueNext, LowerAll, StripTrail, StripLead, Lost, Matcher, KeyWord, Cut, Whole, Recognised, Before, Done;
    assert ScanByte(lenient, v, COMMA) == ValueNext(v, COMMA);
    BeforeNext(v, f, length);
    if ear.Fresh? {
      var t := StripLead(e);
      if t == [] {
        BlankSaysNothing(f, e);
      } else {
        WhatIsWhole(f, e);
        if !(!first && Lost(t[0])) && Cut(t) {
          CutComma(v, t);
          BeforeDeaf(ValueNext(v, COMMA), f, length);
        }
      }
    }
  }

  lemma BeforeDeaf(v: Scan, f: Flags, length: nat)
    requires v.Scan? && v.flags == f && v.length == length && v.hs.MatchingToken?
    ensures Before(v, Deaf, f, length)
  {
  }

  /** The flags once the header line is over. */
  lemma LineOver(v: Scan, ear: Ear, first: bool, e: seq<Byte>, f: Flags, length: nat)
    requires Behind(v, ear, first, e, f, length)
    ensures FinishHeader(v.flags, v.hs) == if ear.Fresh? then Recognised(f, e) else f
    ensures v.Scan? && v.length == length && ValueHs(v.hs) && !Numeric(v.hs)
  {
    hide LowerAll, Lower, StripTrail, StripLead, Cut, Whole, Lost, Recognised;
    if ear.Fresh? {
      if StripLead(e) == [] {
        BlankSaysNothing(f, e);
      } else {
        WhatIsWhole(f, e);
      }
    }
  }

  /** The rest of a list, behind its first element. */
  lemma {:induction false} ListRuns(lenient: bool, v: Scan, ear: Ear, first: bool, es: seq<seq<Byte>>, f: Flags, length: nat)
    requires es != [] && AllLetters(es) && Behind(v, ear, first, es[0], f, length)
    ensures var u := ValueRun(lenient, v, if |es| == 1 then [] else [COMMA] + Joined(es[1..]));
      && u.Scan? && u.length == length && ValueHs(u.hs) && !Numeric(u.hs)
      && FinishHeader(u.flags, u.hs) == FlagsAfter(f, ear, es, first)
    decreases |es|, 0
  {
    hide ScanByte, Behind, Before, EarAfter, Recognised, ValueRun, FlagsAfter, FinishHeader, ValueHs, Letters;
    LineOver(v, ear, first, es[0], f, length);
    FlagsCons(f, ear, es, first);
    var f1, ear1 := if ear.Fresh? then Recognised(f, es[0]) else f, EarAfter(ear, first, es[0]);
    if |es| == 1 {
      NoValue(lenient, v);
      assert es[1..] == [];
      FlagsCons(f1, ear1, [], false);
    } else {
      CommaByte(lenient, v, ear, first, es[0], f, length);
      OneByte(lenient, v, COMMA);
      var v1 := ScanByte(lenient, v, COMMA);
      FromElement(lenient, v1, ear1, es[1..], f1, length);
      BeforeScan(v1, ear1, f1, length);
      ValueRunConcat(lenient, v, [COMMA], Joined(es[1..]));
    }
  }

  /** A list from the start of an element on. */
  lemma {:induction false} FromElement(lenient: bool, v: Scan, ear: Ear, es: seq<seq<Byte>>, f: Flags, length: nat)
    requires es != [] && AllLetters(es) && Before(v, ear, f, length)
    ensures var u := ValueRun(lenient, v, Joined(es));
      && u.Scan? && u.length == length && ValueHs(u.hs) && !Numeric(u.hs)
      && FinishHeader(u.flags, u.hs) == FlagsAfter(f, ear, es, false)
    decreases |es|, 1
  {
    hide ScanByte, Behind, Before, EarAfter, Recognised, ValueRun, FlagsAfter, FinishHeader, ValueHs, Letters;
    ElementRuns(lenient, v, ear, es[0], f, length);
    var v1 := ValueRun(lenient, v, es[0]);
    BehindScan(v1, ear, false, es[0], f, length);
    ListRuns(lenient, v1, ear, false, es, f, length);
    var rest := if |es| == 1 then [] else [COMMA] + Joined(es[1..]);
    assert Joined(es) == es[0] + rest;
    ValueRunConcat(lenient, v, es[0], rest);
  }

  lemma BeforeScan(v: Scan, ear: Ear, f: Flags, length: nat)
    requires Before(v, ear, f, length)
    ensures v.Scan?
  {
  }

  lemma BehindScan(v: Scan, ear: Ear, first: bool, e: seq<Byte>, f: Flags, length: nat)
    requires Behind(v, ear, first, e, f, length)
    ensures v.Scan?
  {
  }

  // ----- the header line ---------------------------------------------------

  predicate ConnectionHeader(h: Header) {
    HeaderOk(h) && (Lowered(h.name) == CONNECTION || Lowered(h.name) == PROXY_CONNECTION)
  }

  /** The first byte of a value has been taken for a letter already. */
  lemma FirstElement(lenient: bool, v: Scan, value: seq<Byte>, f: Flags, length: nat)
    requires value != [] && value[0] != SP && NoLineEnd(value) && Acceptable(false, value)
    requires v == Scan(Matcher(Lower(value[0])), 0, f, length)
    ensures var u := ValueRun(lenient, v, value[1..]);
      && u.Scan? && u.length == length && ValueHs(u.hs) && !Numeric(u.hs)
      && FinishHeader(u.flags, u.hs) == ConnectionFlags(f, value)
  {
    hide ScanByte, Matcher, ValueRun, FlagsAfter, FinishHeader, ValueHs, Letters, Lower, Elements, Recognised, NoLineEnd, Acceptable;
    var es := Elements(value);
    JoinElements(value);
    ElementLetters(value);
    ElementStarts(value);
    if value[0] == COMMA {
      LeadingComma(f, es, length);
      FromElement(lenient, v, Deaf, es[1..], f, length);
      assert Joined(es)[1..] == Joined(es[1..]);
    } else {
      var e, t := es[0], es[0];
      WordRuns(lenient, v, e, |e|, f, length);
      assert e[..|e|] == e && e[1..|e|] == e[1..];
      var u := ValueRun(lenient, v, e[1..]);
      AtWordScan(u, e, f, length);
      ListRuns(lenient, u, Fresh, true, es, f, length);
      var rest := if |es| == 1 then [] else [COMMA] + Joined(es[1..]);
      assert value[1..] == e[1..] + rest;
      ValueRunConcat(lenient, v, e[1..], rest);
    }
  }

  /** The first element is empty exactly if the value starts with a comma. */
  lemma ElementStarts(value: seq<Byte>)
    requires value != []
    ensures value[0] == COMMA ==> Elements(value)[0] == [] && |Elements(value)| > 1
    ensures value[0] != COMMA ==> Elements(value)[0] != [] && Elements(value)[0][0] == value[0]
  {
  }

  lemma LeadingComma(f: Flags, es: seq<seq<Byte>>, length: nat)
    requires |es| > 1 && es[0] == []
    ensures FlagsAfter(f, Fresh, es, true) == FlagsAfter(f, Deaf, es[1..], false)
    ensures Before(Scan(Matcher(Lower(COMMA)), 0, f, length), Deaf, f, length)
  {
    BlankSaysNothing(f, []);
  }

  lemma ConnectionValue(p: Parser, h: Header)
    requires ConnectionHeader(h) && h.value != []
    ensures OnValueStart(Named(p, h.name), h.value[0]).out.Go?
    ensures var u := ValueScan(p, h);
      && u.Scan? && u.length == p.length && ValueHs(u.hs) && !Numeric(u.hs)
      && FinishHeader(u.flags, u.hs) == ConnectionFlags(p.flags, h.value)
  {
    hide AfterNameBytes, ValueRun, Lowered, ConnectionFlags, FinishHeader, ValueHs, Lower;
    SpecialNames(h.name);
    var v := ScanOf(Valued(Named(p, h.name), h.value[0]));
    assert v == Scan(Matcher(Lower(h.value[0])), 0, p.flags, p.length);
    FirstElement(p.lenient, v, h.value, p.flags, p.length);
  }

  predicate SameFraming(f: Flags, g: Flags) {
    f.chunked == g.chunked && f.trailing == g.trailing && f.upgrade == g.upgrade && f.skipBody == g.skipBody
    && f.contentLength == g.contentLength
  }

  /** The list never touches the other flags. */
  lemma {:induction false} FlagsFrame(f: Flags, ear: Ear, es: seq<seq<Byte>>, first: bool)
    ensures SameFraming(f, FlagsAfter(f, ear, es, first))
    decreases |es|
  {
    hide LowerAll, EarAfter, FlagsAfter, Recognised, Word;
    FlagsCons(f, ear, es, first);
    if es != [] {
      RecognisedIs(f, es[0]);
      var g := if ear.Fresh? then Recognised(f, es[0]) else f;
      assert SameFraming(f, g);
      FlagsFrame(g, EarAfter(ear, first, es[0]), es[1..], false);
    }
  }

  lemma InvFlags(p: Parser, q: Parser)
    requires Inv(p) && p.state == HeaderFieldStart && SameFraming(p.flags, q.flags)
    requires q == p.(hs := q.hs, index := q.index, nread := q.nread, flags := q.flags)
    ensures Inv(q)
  {
  }

  /** A Connection header, whatever its value, sets exactly the flags of the
      elements that are heard, and changes nothing else. */
  lemma ConnectionRuns(max: nat, p: Parser, log: seq<Event>, h: Header, rest: seq<Byte>) returns (q: Parser)
    requires Inv(p) && p.state == HeaderFieldStart && ConnectionHeader(h) && LineStarts(rest) && NotField(log)
    requires p.nread + HeaderSize(h) <= max < MOD32 - 1
    ensures Run(max, p, log, HeaderBytes(h, rest)) == Run(max, q, log + HeaderEvents(h), rest)
    ensures q == p.(hs := q.hs, index := q.index, nread := p.nread + HeaderSize(h), flags := ConnectionFlags(p.flags, h.value)) && Inv(q)
  {
    hide Run, OnValueStart, ValueScan, Lowered, FlagsAfter, Elements, Inv, FinishHeader, ValueHs;
    if h.value == [] {
      ConnectionName(h);
      EmptyHeaderRuns(max, p, log, h, rest);
      q := Finished(Named(p, h.name)).(nread := p.nread + HeaderSize(h));
      NoFlags(p, h);
    } else {
      ConnectionValue(p, h);
      ValuedHeaderRuns(max, p, log, h, rest);
      q := AfterLine(p, h, ValueScan(p, h));
      FlagsFrame(p.flags, Fresh, Elements(h.value), true);
    }
    InvFlags(p, q);
  }

  lemma ConnectionName(h: Header)
    requires ConnectionHeader(h)
    ensures AfterNameBytes(h.name).hs.HConnection?
  {
    SpecialNames(h.name);
  }

  lemma NoFlags(p: Parser, h: Header)
    requires ConnectionHeader(h)
    ensures Finished(Named(p, h.name)).flags == p.flags
  {
    ConnectionName(h);
  }
}
