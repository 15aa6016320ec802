/** What the list in a Connection header says, against what is heard of it. */
module HttpList {
  import opened Basics
  import opened HttpTypes
  import opened HttpHeaders
  import opened HttpConnection

  // ----- what is heard -----------------------------------------------------

  /** How the scanner reaches element `i`. */
  function EarAt(ear: Ear, first: bool, es: seq<seq<Byte>>, i: nat): Ear
    requires i < |es|
    decreases i
  {
    if i == 0 then ear else EarAt(EarAfter(ear, first, es[0]), false, es[1..], i - 1)
  }

  /** The word is an element of the list that the scanner reaches afresh. */
  predicate Heard(ear: Ear, first: bool, es: seq<seq<Byte>>, word: seq<Byte>) {
    exists i :: 0 <= i < |es| && Word(es[i]) == word && EarAt(ear, first, es, i).Fresh?
  }

  lemma HeardCons(ear: Ear, first: bool, es: seq<seq<Byte>>, word: seq<Byte>)
    requires es != []
    ensures Heard(ear, first, es, word) <==>
      (ear.Fresh? && Word(es[0]) == word) || Heard(EarAfter(ear, first, es[0]), false, es[1..], word)
  {
    hide Word, EarAfter;
    var t, next := es[1..], EarAfter(ear, first, es[0]);
    if Heard(ear, first, es, word) {
      var i :| 0 <= i < |es| && Word(es[i]) == word && EarAt(ear, first, es, i).Fresh?;
      assert i > 0 ==> t[i - 1] == es[i] && EarAt(next, false, t, i - 1).Fresh?;
    }
    if Heard(next, false, t, word) {
      var i :| 0 <= i < |t| && Word(t[i]) == word && EarAt(next, false, t, i).Fresh?;
      assert es[i + 1] == t[i] && EarAt(ear, first, es, i + 1).Fresh?;
    }
  }

  lemma HeardNone(ear: Ear, first: bool)
    ensures forall word :: !Heard(ear, first, [], word)
  {
  }

  /** Each flag says exactly whether its word is heard in the list. */
  lemma {:induction false} ListExact(f: Flags, ear: Ear, es: seq<seq<Byte>>, first: bool)
    ensures var g := FlagsAfter(f, ear, es, first);
      && (g.close <==> f.close || Heard(ear, first, es, CLOSE))
      && (g.keepAlive <==> f.keepAlive || Heard(ear, first, es, KEEP_ALIVE))
      && (g.connUpgrade <==> f.connUpgrade || Heard(ear, first, es, UPGRADE))
    decreases |es|
  {
    hide Word, EarAfter, Heard, Recognised, FlagsAfter;
    FlagsCons(f, ear, es, first);
    if es == [] {
      HeardNone(ear, first);
    } else {
      RecognisedIs(f, es[0]);
      HeardCons(ear, first, es, CLOSE);
      HeardCons(ear, first, es, KEEP_ALIVE);
      HeardCons(ear, first, es, UPGRADE);
      ListExact(if ear.Fresh? then Recognised(f, es[0]) else f, EarAfter(ear, first, es[0]), es[1..], false);
    }
  }

  // ----- what is in the list -----------------------------------------------

  predicate IsBlank(c: Byte) { c == SP || c == HT }

  function TrimLead(e: seq<Byte>): seq<Byte> { if e != [] && IsBlank(e[0]) then TrimLead(e[1..]) else e }

  function TrimTrail(t: seq<Byte>): seq<Byte>
    decreases |t|
  {
    if t != [] && IsBlank(t[|t| - 1]) then TrimTrail(t[..|t| - 1]) else t
  }

  /** An element without the white space around it, in lower case. */
  function Member(e: seq<Byte>): seq<Byte> { LowerAll(TrimTrail(TrimLead(e))) }

  predicate Named(es: seq<seq<Byte>>, word: seq<Byte>) { exists i :: 0 <= i < |es| && Member(es[i]) == word }

  lemma {:induction false} TrimLeadIs(e: seq<Byte>)
    requires HT !in e || (StripLead(e) != [] && StripLead(e)[0] != HT)
    ensures TrimLead(e) == StripLead(e)
    decreases |e|
  {
    if e != [] && e[0] == SP {
      TrimLeadIs(e[1..]);
    }
  }

  lemma {:induction false} TrimTrailIs(t: seq<Byte>)
    requires HT !in t || (StripTrail(t) != [] && StripTrail(t)[|StripTrail(t)| - 1] != HT)
    ensures TrimTrail(t) == StripTrail(t)
    decreases |t|
  {
    if t != [] && t[|t| - 1] == SP {
      TrimTrailIs(t[..|t| - 1]);
    }
  }

  lemma {:induction false} LeadKeeps(e: seq<Byte>, c: Byte)
    requires c !in e
    ensures c !in StripLead(e)
    decreases |e|
  {
    if e != [] && e[0] == SP {
      LeadKeeps(e[1..], c);
    }
  }

  /** Without tabs, what an element says is what it is. */
  lemma NoTabs(e: seq<Byte>)
    requires HT !in e
    ensures Word(e) == Member(e)
  {
    TrimLeadIs(e);
    LeadKeeps(e, HT);
    TrimTrailIs(StripLead(e));
  }

  predicate OfInterest(word: seq<Byte>) { word == CLOSE || word == KEEP_ALIVE || word == UPGRADE }

  lemma NoTabInside(word: seq<Byte>)
    requires OfInterest(word)
    ensures word != [] && word[0] != Lower(HT) && word[|word| - 1] != Lower(HT)
  {
  }

  /** A word of interest that an element says is what it is. */
  lemma SaysWhatItIs(e: seq<Byte>)
    requires OfInterest(Word(e))
    ensures Member(e) == Word(e)
  {
    hide OfInterest, Lower;
    NoTabInside(Word(e));
    var t := StripLead(e);
    var w := StripTrail(t);
    assert Word(e)[0] == Lower(w[0]) && Word(e)[|w| - 1] == Lower(w[|w| - 1]);
    NotBlank(t);
    TrimLeadIs(e);
    TrimTrailIs(t);
  }

  /** Whatever the list: no flag is set whose word is not in it. */
  lemma HeardIsNamed(es: seq<seq<Byte>>, word: seq<Byte>)
    requires OfInterest(word) && Heard(Fresh, true, es, word)
    ensures Named(es, word)
  {
    hide Word, Member, OfInterest;
    var i :| 0 <= i < |es| && Word(es[i]) == word && EarAt(Fresh, true, es, i).Fresh?;
    SaysWhatItIs(es[i]);
  }

  /** The scanner comes away from all elements but the last as it should: the value
      does not start with a comma, no element is blank or starts with a letter that
      is no token, and none stops in the middle of a word of interest. */
  predicate AllClear(es: seq<seq<Byte>>, first: bool)
    decreases |es|
  {
    |es| <= 1 || (EarAfter(Fresh, first, es[0]) == Fresh && AllClear(es[1..], false))
  }

  predicate Reached(ear: Ear, es: seq<seq<Byte>>, first: bool) { forall i :: 0 <= i < |es| ==> EarAt(ear, first, es, i) == Fresh }

  /** Every element of a list is reached afresh if and only if that is so. */
  lemma {:induction false} AllReached(es: seq<seq<Byte>>, first: bool)
    ensures Reached(Fresh, es, first) <==> AllClear(es, first)
    decreases |es|
  {
    hide EarAfter;
    if |es| > 1 {
      var t, next := es[1..], EarAfter(Fresh, first, es[0]);
      AllReached(t, false);
      if Reached(next, t, false) {
        assert EarAt(next, false, t, 0) == Fresh;
      }
      ReachedCons(es, first);
    }
  }

  lemma ReachedCons(es: seq<seq<Byte>>, first: bool)
    requires es != []
    ensures Reached(Fresh, es, first) <==> Reached(EarAfter(Fresh, first, es[0]), es[1..], false)
  {
    hide EarAfter;
    var t, next := es[1..], EarAfter(Fresh, first, es[0]);
    assert forall i :: 1 <= i < |es| ==> EarAt(Fresh, first, es, i) == EarAt(next, false, t, i - 1);
    if Reached(Fresh, es, first) {
      forall i | 0 <= i < |t|
        ensures EarAt(next, false, t, i) == Fresh
      {
        assert EarAt(Fresh, first, es, i + 1) == Fresh;
      }
    }
  }

  /** On such lists, if there are no tabs in them either, a flag is set if and only
      if its word is in the list. */
  lemma ListMeans(es: seq<seq<Byte>>, word: seq<Byte>)
    requires (forall i :: 0 <= i < |es| ==> HT !in es[i]) && AllClear(es, true)
    ensures Heard(Fresh, true, es, word) <==> Named(es, word)
  {
    hide Word, Member, EarAt, AllClear;
    AllReached(es, true);
    forall i | 0 <= i < |es|
      ensures Word(es[i]) == Member(es[i]) && EarAt(Fresh, true, es, i) == Fresh
    {
      NoTabs(es[i]);
    }
  }

  // ----- lists that are misheard -------------------------------------------

  lemma TwoElements(f: Flags, a: seq<Byte>, b: seq<Byte>)
    ensures FlagsAfter(f, Fresh, [a, b], true) ==
            var g := Recognised(f, a); if EarAfter(Fresh, true, a) == Fresh then Recognised(g, b) else g
  {
    hide Recognised, EarAfter;
    var es := [a, b];
    assert es[1..] == [b] && [b][1..] == [];
    FlagsCons(f, Fresh, es, true);
    var g, ear := Recognised(f, a), EarAfter(Fresh, true, a);
    FlagsCons(g, ear, [b], false);
    FlagsCons(if ear.Fresh? then Recognised(g, b) else g, EarAfter(ear, false, b), [], false);
  }

  lemma SaysClose()
    ensures Word(CLOSE) == CLOSE == Member(CLOSE) && LowerAll(CLOSE) == CLOSE
    ensures forall f :: Recognised(f, CLOSE) == f.(close := true)
  {
    assert StripLead(CLOSE) == CLOSE && StripTrail(CLOSE) == CLOSE && TrimLead(CLOSE) == CLOSE && TrimTrail(CLOSE) == CLOSE;
    assert LowerAll(CLOSE) == CLOSE;
    assert CLOSE[0] != KEEP_ALIVE[0];
  }

  lemma Clo(f: Flags)
    ensures Recognised(f, [99, 108, 111]) == f && EarAfter(Fresh, true, [99, 108, 111]) == Deaf
  {
    var a := [99, 108, 111];
    assert StripLead(a) == a && StripTrail(a) == a && LowerAll(a) == a;
    assert |Word(a)| == 3;
  }

  /** "clo,close": the comma is taken for a letter of the cut word. */
  lemma SwallowedComma(f: Flags)
    ensures Named([[99, 108, 111], CLOSE], CLOSE) && FlagsAfter(f, Fresh, [[99, 108, 111], CLOSE], true) == f
  {
    hide Recognised, EarAfter, FlagsAfter, Member;
    SaysClose();
    Clo(f);
    TwoElements(f, [99, 108, 111], CLOSE);
    assert [[99, 108, 111], CLOSE][1] == CLOSE;
  }

  /** ",close": so is a comma at the very start. */
  lemma CommaFirst(f: Flags)
    ensures Named([[], CLOSE], CLOSE) && FlagsAfter(f, Fresh, [[], CLOSE], true) == f
  {
    hide Recognised, FlagsAfter, Member;
    SaysClose();
    TwoElements(f, [], CLOSE);
    assert [[], CLOSE][1] == CLOSE;
    BlankSaysNothing(f, []);
  }

  lemma CloseTab(f: Flags)
    ensures Recognised(f, CLOSE + [HT]) == f && Member(CLOSE + [HT]) == CLOSE
  {
    var a := CLOSE + [HT];
    assert a[..5] == CLOSE;
    SaysClose();
    assert StripLead(a) == a && StripTrail(a) == a && TrimLead(a) == a && TrimTrail(a) == TrimTrail(CLOSE);
    assert |Word(a)| == 6;
  }

  /** "close" and a tab: the tab is taken for one more letter. */
  lemma TabBehind(f: Flags)
    ensures Named([CLOSE + [HT]], CLOSE) && FlagsAfter(f, Fresh, [CLOSE + [HT]], true) == f
  {
    hide Recognised, EarAfter, FlagsAfter, Member;
    var es := [CLOSE + [HT]];
    CloseTab(f);
    assert es[0] == CLOSE + [HT] && es[1..] == [];
    FlagsCons(f, Fresh, es, true);
    FlagsCons(f, EarAfter(Fresh, true, es[0]), [], false);
  }

  lemma LetterA(f: Flags)
    ensures Recognised(f, [97]) == f && EarAfter(Fresh, true, [97]) == Fresh
  {
    var a := [97];
    assert StripLead(a) == a && StripTrail(a) == a && LowerAll(a) == a;
    assert |Word(a)| == 1;
  }

  lemma TabClose(f: Flags)
    ensures Recognised(f, [HT] + CLOSE) == f && EarAfter(Fresh, false, [HT] + CLOSE) == Gone
  {
    hide Recognised;
    var t := [HT] + CLOSE;
    assert StripLead(t) == t && Lost(t[0]);
    NotHeard(f, t, 41);
  }

  /** "a,", a tab and "close,close": a tab behind a comma ends the recognition. */
  lemma TabInFront(f: Flags)
    ensures Named([[97], [HT] + CLOSE, CLOSE], CLOSE) && FlagsAfter(f, Fresh, [[97], [HT] + CLOSE, CLOSE], true) == f
  {
    hide Recognised, EarAfter, FlagsAfter, Member;
    SaysClose();
    LetterA(f);
    TabClose(f);
    ThreeElements(f, [97], [HT] + CLOSE, CLOSE);
    assert [[97], [HT] + CLOSE, CLOSE][2] == CLOSE;
  }

  /** "a,,close": so does an empty element. */
  lemma EmptyElement(f: Flags)
    ensures Named([[97], [], CLOSE], CLOSE) && FlagsAfter(f, Fresh, [[97], [], CLOSE], true) == f
  {
    hide Recognised, FlagsAfter, Member;
    SaysClose();
    LetterA(f);
    BlankSaysNothing(f, []);
    ThreeElements(f, [97], [], CLOSE);
    assert [[97], [], CLOSE][2] == CLOSE;
  }

  lemma NotHeard(f: Flags, t: seq<Byte>, c: Byte)
    requires t != [] && t[0] != SP && Lower(t[0]) == c && c != 107 && c != 99 && c != 117
    ensures Recognised(f, t) == f
  {
    NotBlank(t);
    assert StripLead(t) == t;
    assert Word(t)[0] == c;
  }

  lemma ThreeElements(f: Flags, a: seq<Byte>, b: seq<Byte>, c: seq<Byte>)
    requires EarAfter(Fresh, true, a) == Fresh && EarAfter(Fresh, false, b) == Gone
    ensures FlagsAfter(f, Fresh, [a, b, c], true) == Recognised(Recognised(f, a), b)
  {
    hide Recognised, FlagsAfter;
    var es := [a, b, c];
    assert es[1..] == [b, c] && [b, c][1..] == [c] && [c][1..] == [];
    FlagsCons(f, Fresh, es, true);
    var g := Recognised(f, a);
    FlagsCons(g, Fresh, [b, c], false);
    var h := Recognised(g, b);
    FlagsCons(h, Gone, [c], false);
    FlagsCons(h, Gone, [], false);
  }
}
