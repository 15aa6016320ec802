/** A wire with many drivers: one slot per driving process, and a resolution that
    scans the slots with a table and an early exit. */
module Wire {

  /** The values of the resolution table, in its order. */
  datatype Logic = L0 | L1 | W0 | W1 | LZ | LA | LX

  datatype Level = Low | High | Float | Unknown
  datatype Drive = Strong | Weak | HighZ | Analog

  /** A driven value, without its analog level. */
  datatype Mixed = Mixed(logic: Level, param: Drive)

  function ToLevel(g: Logic): Level {
    match g
    case L0 | W0 => Low
    case L1 | W1 => High
    case LZ => Float
    case LA | LX => Unknown
  }

  function GuessParam(g: Logic): Drive {
    match g
    case W0 | W1 => Weak
    case LA => Analog
    case LZ => HighZ
    case L0 | L1 | LX => Strong
  }

  function Of(g: Logic): Mixed { Mixed(ToLevel(g), GuessParam(g)) }

  function ValueOf(m: Mixed): Logic {
    if m.param.Analog? then LA
    else match m.logic
      case Unknown => LX
      case Float => LZ
      case Low => if m.param.Weak? then W0 else L0
      case High => if m.param.Weak? then W1 else L1
  }

  /** The level and the strength of each value. */
  lemma LevelsAndStrengths()
    ensures Of(L0) == Mixed(Low, Strong) && Of(L1) == Mixed(High, Strong) && Of(W0) == Mixed(Low, Weak) && Of(W1) == Mixed(High, Weak)
    ensures Of(LZ) == Mixed(Float, HighZ) && Of(LX) == Mixed(Unknown, Strong) && Of(LA) == Mixed(Unknown, Analog)
  {
  }

  lemma ValueOfOf(g: Logic)
    ensures ValueOf(Of(g)) == g
  {
  }

  /** `gn_logic_resolution_tbl`. */
  function Table(a: Logic, b: Logic): Logic {
    match a
    case L0 => if b.L1? || b.LA? || b.LX? then LX else L0
    case L1 => if b.L0? || b.LA? || b.LX? then LX else L1
    case W0 => if b.L0? then L0 else if b.L1? then L1 else if b.W0? || b.LZ? then W0 else LX
    case W1 => if b.L0? then L0 else if b.L1? then L1 else if b.W1? || b.LZ? then W1 else LX
    case LZ => b
    case LA => if b.LZ? then LA else LX
    case LX => LX
  }

  // ----- resolution --------------------------------------------------------

  /** The values in the order in which they are scanned: the first, then the
      others from the last one down. */
  function Scan(v: seq<Mixed>): (o: seq<Logic>)
    requires v != []
    ensures |o| == |v|
  {
    seq(|v|, k requires 0 <= k < |v| => ValueOf(v[if k == 0 then 0 else |v| - k]))
  }

  /** Every value through the table, one after the other. */
  function Fold(o: seq<Logic>): Logic
    decreases |o|
  {
    if o == [] then LZ else Table(Fold(o[..|o| - 1]), o[|o| - 1])
  }

  /** The same, but an unknown or analog result is final. */
  function StopFold(o: seq<Logic>): Logic
    decreases |o|
  {
    if o == [] then LZ else
      var r := StopFold(o[..|o| - 1]);
      if r.LX? || r.LA? then r else Table(r, o[|o| - 1])
  }

  /** A value that some driver can have: made from a logic value. */
  predicate Made(m: Mixed) { m == Of(ValueOf(m)) }

  predicate AllMade(v: seq<Mixed>) { forall i :: 0 <= i < |v| ==> Made(v[i]) }

  /** A value that a digital driver can have. */
  predicate Digital(m: Mixed) { m == Of(ValueOf(m)) && ValueOf(m) != LA }

  predicate AllDigital(v: seq<Mixed>) { forall i :: 0 <= i < |v| ==> Digital(v[i]) }

  /** `gn_mixed_resolve`: the scan with its two shortcuts is the fold that stops at
      an unknown or analog result. */
  method Resolve(v: seq<Mixed>) returns (result: Mixed)
    requires v != [] && AllMade(v)
    ensures result == Of(StopFold(Scan(v)))
    ensures AllDigital(v) ==> result == Of(Fold(Scan(v)))
  {
    hide Table, Fold, StopFold, ToLevel, GuessParam, AllDigital, Scan, AllMade;
    var sz := |v|;
    ghost var o := Scan(v);
    FirstValue(v);
    if AllDigital(v) {
      ScanDigital(v);
      StopIsFold(o);
    }
    if sz == 1 {
      assert o[..1] == o;
      return v[0];
    }
    var res := v[0];
    var i := sz - 1;
    while i > 0 && res.logic != Unknown
      invariant 0 <= i < sz && res == Of(StopFold(o[..sz - i]))
    {
      ResolveStep(v, res, i);
      if ValueOf(res) == LZ {
        res := v[i];
      } else if ValueOf(v[i]) != LZ {
        res := Of(Table(ValueOf(res), ValueOf(v[i])));
      }
      i := i - 1;
    }
    if i > 0 {
      UnknownIs(StopFold(o[..sz - i]));
      StopStays(o, sz - i);
    } else {
      assert o[..sz] == o;
    }
    return res;
  }

  lemma ResolveStep(v: seq<Mixed>, res: Mixed, i: nat)
    requires 0 < i < |v| && AllMade(v) && res == Of(StopFold(Scan(v)[..|v| - i])) && res.logic != Unknown
    ensures Of(StopFold(Scan(v)[..|v| - i + 1])) ==
            if ValueOf(res) == LZ then v[i] else if ValueOf(v[i]) == LZ then res else Of(Table(ValueOf(res), ValueOf(v[i])))
  {
    hide Table, ToLevel, GuessParam;
    var o, k := Scan(v), |v| - i;
    assert o[..k + 1][..k] == o[..k];
    assert Made(v[i]) && o[k] == ValueOf(v[i]);
    var r := StopFold(o[..k]);
    ValueOfOf(r);
    TableZ(r, o[k]);
    NotUnknown(r);
  }

  lemma NotUnknown(g: Logic)
    ensures Of(g).logic == Unknown <==> g == LX || g == LA
  {
  }

  lemma UnknownIs(g: Logic)
    requires Of(g).logic == Unknown
    ensures g == LX || g == LA
  {
  }

  lemma {:induction false} StopStays(o: seq<Logic>, i: nat)
    requires i <= |o| && (StopFold(o[..i]).LX? || StopFold(o[..i]).LA?)
    ensures StopFold(o) == StopFold(o[..i])
    decreases |o| - i
  {
    if i == |o| {
      assert o[..i] == o;
    } else {
      assert o[..i + 1][..i] == o[..i];
      StopStays(o, i + 1);
    }
  }

  /** Without analog values the early exit changes nothing. */
  lemma {:induction false} StopIsFold(o: seq<Logic>)
    requires LA !in o
    ensures StopFold(o) == Fold(o) && Fold(o) != LA
    decreases |o|
  {
    if o != [] {
      StopIsFold(o[..|o| - 1]);
    }
  }

  /** The first value that is not high-impedance, if any. */
  function FirstDriven(o: seq<Logic>): Logic { if o == [] then LZ else if o[0] != LZ then o[0] else FirstDriven(o[1..]) }

  lemma {:induction false} FirstDrivenSnoc(o: seq<Logic>, g: Logic)
    ensures FirstDriven(o + [g]) == if FirstDriven(o) == LZ then g else FirstDriven(o)
    decreases |o|
  {
    if o != [] {
      assert (o + [g])[0] == o[0] && (o + [g])[1..] == o[1..] + [g];
      FirstDrivenSnoc(o[1..], g);
    }
  }

  /** An analog driver wins only against high impedance: scanned first it is the
      result, whatever follows, and met later it makes the result unknown. */
  lemma {:induction false} AnalogIs(o: seq<Logic>)
    ensures LA in o ==> StopFold(o) == if FirstDriven(o) == LA then LA else LX
    ensures StopFold(o) == LZ <==> FirstDriven(o) == LZ
    ensures StopFold(o) == LA <==> FirstDriven(o) == LA
    decreases |o|
  {
    if o != [] {
      var init, g := o[..|o| - 1], o[|o| - 1];
      AnalogIs(init);
      FirstDrivenSnoc(init, g);
      assert init + [g] == o;
    }
  }

  lemma FirstValue(v: seq<Mixed>)
    requires v != [] && AllMade(v)
    ensures v[0] == Of(StopFold(Scan(v)[..1]))
  {
    var o := Scan(v);
    assert o[..1] == [o[0]] && [o[0]][..0] == [];
    assert Made(v[0]);
  }

  lemma TableZ(a: Logic, b: Logic)
    ensures a == LZ ==> Table(a, b) == b
    ensures b == LZ ==> Table(a, b) == a
  {
  }

  lemma ScanDigital(v: seq<Mixed>)
    requires v != [] && AllDigital(v)
    ensures LA !in Scan(v)
  {
    hide ToLevel, GuessParam, ValueOf;
    var o := Scan(v);
    forall k | 0 <= k < |o|
      ensures o[k] != LA
    {
      assert Digital(v[if k == 0 then 0 else |v| - k]);
    }
  }

  // ----- what the resolution means -----------------------------------------

  /** The resolved value as a function of which values are driven: unknown if any
      is unknown or 0 meets 1, else the strong one, else the weak one. */
  function Resolution(driven: set<Logic>): Logic {
    if LX in driven || (L0 in driven && L1 in driven) then LX
    else if L0 in driven then L0
    else if L1 in driven then L1
    else if W0 in driven && W1 in driven then LX
    else if W0 in driven then W0
    else if W1 in driven then W1
    else LZ
  }

  predicate StrongFree(o: seq<Logic>) { L0 !in o && L1 !in o }

  /** Both weak values are scanned before any strong one. */
  predicate WeakClash(o: seq<Logic>) {
    exists i :: 0 <= i <= |o| && StrongFree(o[..i]) && W0 in o[..i] && W1 in o[..i]
  }

  function Driven(o: seq<Logic>): set<Logic> { set g | g in o }

  /** A weak clash is forgotten only if a strong value would have hidden it. */
  predicate Hidden(o: seq<Logic>) { LX !in o && ((L0 in o) != (L1 in o)) }

  lemma WeakClashSnoc(o: seq<Logic>, g: Logic)
    ensures WeakClash(o + [g]) <==> WeakClash(o) || (StrongFree(o + [g]) && W0 in o + [g] && W1 in o + [g])
  {
    var p := o + [g];
    if WeakClash(o) {
      var i :| 0 <= i <= |o| && StrongFree(o[..i]) && W0 in o[..i] && W1 in o[..i];
      assert p[..i] == o[..i];
    }
    if WeakClash(p) {
      var i :| 0 <= i <= |p| && StrongFree(p[..i]) && W0 in p[..i] && W1 in p[..i];
      assert i <= |o| ==> p[..i] == o[..i];
      assert i == |p| ==> p[..i] == p;
    }
    assert p[..|p|] == p;
  }

  /** The scan in closed form. */
  lemma {:induction false} FoldIs(o: seq<Logic>)
    requires LA !in o
    ensures Fold(o) == if WeakClash(o) then LX else Resolution(Driven(o))
    ensures WeakClash(o) ==> W0 in o && W1 in o
    ensures StrongFree(o) && W0 in o && W1 in o ==> WeakClash(o)
    decreases |o|
  {
    hide WeakClash, Table, Resolution, Driven;
    if o == [] {
      NoClash();
    } else {
      var init, g := o[..|o| - 1], o[|o| - 1];
      assert init + [g] == o;
      FoldIs(init);
      WeakClashSnoc(init, g);
      DrivenSnoc(init, g);
      OneMore(init, g, WeakClash(init));
    }
  }

  lemma NoClash()
    ensures !WeakClash([]) && Resolution(Driven([])) == LZ
  {
  }

  lemma DrivenSnoc(o: seq<Logic>, g: Logic)
    ensures Driven(o + [g]) == Driven(o) + {g}
  {
  }

  lemma OneMore(o: seq<Logic>, g: Logic, clash: bool)
    requires g != LA && (clash ==> W0 in o && W1 in o) && (StrongFree(o) && W0 in o && W1 in o ==> clash)
    ensures var clash' := clash || (StrongFree(o + [g]) && W0 in o + [g] && W1 in o + [g]);
      && Table(if clash then LX else Resolution(Driven(o)), g) == (if clash' then LX else Resolution(Driven(o) + {g}))
      && (clash' ==> W0 in o + [g] && W1 in o + [g])
  {
  }

  /** The scan gives the resolution of the driven values, whatever their order,
      exactly if no strong value comes too late to hide a weak clash. */
  lemma ResolvesExactly(v: seq<Mixed>)
    requires v != [] && AllDigital(v)
    ensures Fold(Scan(v)) == Resolution(Driven(Scan(v))) <==> !(Hidden(Scan(v)) && WeakClash(Scan(v)))
    ensures Driven(Scan(v)) == set m | m in v :: ValueOf(m)
  {
    hide WeakClash, Fold;
    var o := Scan(v);
    ScanDigital(v);
    FoldIs(o);
    forall g
      ensures g in Driven(o) <==> g in (set m | m in v :: ValueOf(m))
    {
      ScanHas(v, g);
    }
  }

  lemma ScanHas(v: seq<Mixed>, g: Logic)
    requires v != []
    ensures g in Scan(v) <==> exists m :: m in v && ValueOf(m) == g
  {
    var o := Scan(v);
    if m :| m in v && ValueOf(m) == g {
      var i :| 0 <= i < |v| && v[i] == m;
      assert o[if i == 0 then 0 else |v| - i] == g;
    }
  }

  /** Drivers without both weak values: only the set of values counts. */
  lemma OrderDoesNotMatter(v: seq<Mixed>, w: seq<Mixed>)
    requires v != [] && w != [] && AllDigital(v) && AllDigital(w)
    requires (set m | m in v :: ValueOf(m)) == (set m | m in w :: ValueOf(m))
    requires !(Of(W0) in v && Of(W1) in v)
    ensures Fold(Scan(v)) == Fold(Scan(w)) == Resolution(set m | m in v :: ValueOf(m))
  {
    hide Fold, Resolution, Scan, WeakClash;
    ResolvesExactly(v);
    ResolvesExactly(w);
    OneWeak(v);
    OneWeak(w);
    assert Driven(Scan(v)) == Driven(Scan(w));
  }

  lemma OneWeak(v: seq<Mixed>)
    requires v != [] && AllDigital(v)
    ensures var driven := set m | m in v :: ValueOf(m);
      && (WeakClash(Scan(v)) ==> W0 in driven && W1 in driven)
      && (W0 in driven <==> Of(W0) in v) && (W1 in driven <==> Of(W1) in v)
  {
    hide Fold, Resolution, WeakClash;
    ScanDigital(v);
    FoldIs(Scan(v));
    ScanHas(v, W0);
    ScanHas(v, W1);
    forall m | m in v
      ensures m == Of(ValueOf(m))
    {
      var i :| 0 <= i < |v| && v[i] == m;
      assert Digital(v[i]);
    }
    ValueOfOf(W0);
    ValueOfOf(W1);
  }

  /** With both weak values and one kind of strong value, the order decides. */
  lemma OrderMatters(s: Logic)
    requires s == L0 || s == L1
    ensures Fold(Scan([Of(s), Of(W0), Of(W1)])) == s
    ensures Fold(Scan([Of(W0), Of(s), Of(W1)])) == LX
  {
    FoldOf3(s, W1, W0);
    FoldOf3(W0, W1, s);
    assert Scan([Of(s), Of(W0), Of(W1)]) == [s, W1, W0];
    assert Scan([Of(W0), Of(s), Of(W1)]) == [W0, W1, s];
  }

  lemma FoldOf3(a: Logic, b: Logic, c: Logic)
    ensures Fold([a, b, c]) == Table(Table(a, b), c)
  {
    assert [a, b, c][..2] == [a, b] && [a, b][..1] == [a] && [a][..0] == [];
    assert Fold([a]) == Table(LZ, a) == a;
  }

  // ----- drivers -----------------------------------------------------------

  /** A write: the process and the value it drives. */
  datatype Write = Write(proc: nat, value: Mixed)

  /** The last value each process wrote. */
  function Last(ws: seq<Write>): map<nat, Mixed>
    decreases |ws|
  {
    if ws == [] then map[] else Last(ws[..|ws| - 1])[ws[|ws| - 1].proc := ws[|ws| - 1].value]
  }

  predicate Distinct(procs: seq<nat>) { forall i, j :: 0 <= i < j < |procs| ==> procs[i] != procs[j] }

  class Signal {
    var procs: seq<nat>
    var vals: seq<Mixed>

    /** One slot per process. */
    ghost predicate Valid()
      reads this
    {
      |procs| == |vals| && Distinct(procs)
    }

    /** The slots hold `drivers`, and nothing else. */
    ghost predicate Holds(drivers: map<nat, Mixed>)
      reads this
    {
      && Valid()
      && (forall p :: p in procs <==> p in drivers)
      && forall i :: 0 <= i < |procs| ==> drivers[procs[i]] == vals[i]
    }

    constructor ()
      ensures Holds(map[])
    {
      procs, vals := [], [];
    }

    method Write(proc: nat, value: Mixed, ghost drivers: map<nat, Mixed>) returns (changed: bool)
      requires Holds(drivers)
      modifies this
      ensures Holds(drivers[proc := value])
      ensures changed <==> proc !in drivers || drivers[proc] != value
      ensures !changed ==> procs == old(procs) && vals == old(vals)
    {
      changed := false;
      var found := false;
      var i := |procs| - 1;
      while i >= 0
        invariant -1 <= i < |procs| && procs == old(procs) && vals == old(vals)
        invariant !found && !changed && forall k :: i < k < |procs| ==> procs[k] != proc
      {
        if proc == procs[i] {
          if value != vals[i] {
            vals := vals[i := value];
            changed := true;
          }
          found := true;
          break;
        }
        i := i - 1;
      }
      if !found {
        procs := procs + [proc];
        vals := vals + [value];
        changed := true;
      }
    }

    /** Any run of writes by any processes, and the value the wire then has. */
    method Run(ws: seq<Write>) returns (result: Mixed)
      requires ws != [] && Holds(map[]) && forall k :: 0 <= k < |ws| ==> Made(ws[k].value)
      modifies this
      ensures Holds(Last(ws)) && vals != []
      ensures AllMade(vals) && result == Of(StopFold(Scan(vals)))
      ensures AllDigital(vals) && !(Of(W0) in vals && Of(W1) in vals) ==>
        result == Of(Resolution(set p | p in Last(ws) :: ValueOf(Last(ws)[p])))
    {
      hide Fold, Scan, Resolution, Of, ValueOf;
      for k := 0 to |ws|
        invariant Holds(Last(ws[..k]))
      {
        assert ws[..k + 1][..k] == ws[..k];
        var changed := Write(ws[k].proc, ws[k].value, Last(ws[..k]));
      }
      assert ws[..|ws|] == ws;
      SomeDriver(ws);
      LastMade(ws);
      assert AllMade(vals) by {
        forall i | 0 <= i < |vals|
          ensures Made(vals[i])
        {
          assert procs[i] in procs;
        }
      }
      result := Resolve(vals);
      if AllDigital(vals) && !(Of(W0) in vals && Of(W1) in vals) {
        OrderDoesNotMatter(vals, vals);
        SameValues(procs, vals, Last(ws));
      }
    }
  }

  lemma {:induction false} LastMade(ws: seq<Write>)
    requires forall k :: 0 <= k < |ws| ==> Made(ws[k].value)
    ensures forall p :: p in Last(ws) ==> Made(Last(ws)[p])
    decreases |ws|
  {
    hide Made;
    if ws != [] {
      LastMade(ws[..|ws| - 1]);
      assert Made(ws[|ws| - 1].value);
    }
  }

  lemma SameValues(procs: seq<nat>, vals: seq<Mixed>, drivers: map<nat, Mixed>)
    requires |procs| == |vals| && forall p :: p in procs <==> p in drivers
    requires forall i :: 0 <= i < |procs| ==> drivers[procs[i]] == vals[i]
    ensures (set m | m in vals :: ValueOf(m)) == (set p | p in drivers :: ValueOf(drivers[p]))
  {
    hide ValueOf;
    forall p | p in drivers
      ensures drivers[p] in vals
    {
      var i :| 0 <= i < |procs| && procs[i] == p;
    }
    forall m | m in vals
      ensures exists p :: p in drivers && drivers[p] == m
    {
      var i :| 0 <= i < |vals| && vals[i] == m;
      assert procs[i] in drivers && drivers[procs[i]] == m;
    }
  }

  lemma SomeDriver(ws: seq<Write>)
    requires ws != []
    ensures ws[|ws| - 1].proc in Last(ws)
  {
  }
}
