/** The output side of the GPIO matrix: cheap updates of the output and enable
    registers against the full update that selects every mux anew. */
module GpioMatrix {
  import opened Basics

  const PINS: nat := 40

  const DRIVE_0: int := 256
  const DRIVE_1: int := 257
  const DRIVE_Z: int := 258

  type Bits = s: seq<bool> | |s| == PINS witness seq(PINS, i => false)
  type Selections = s: seq<int> | |s| == PINS witness seq(PINS, i => 0)

  /** Pins 6 to 11, 20, 24 and 28 to 31 have no output mux. */
  predicate HasMux(pin: nat) {
    pin < PINS && !(6 <= pin <= 11) && pin != 20 && pin != 24 && !(28 <= pin <= 31)
  }

  // ----- what a mux should select ------------------------------------------

  /** Function 256 stands for the GPIO registers; any other is taken as it is. */
  function Selected(enable: bool, out: bool, sel: int): int {
    if sel != DRIVE_0 then sel else if !enable then DRIVE_Z else if out then DRIVE_1 else DRIVE_0
  }

  /** What an output update makes of a mux. */
  function OutStep(f: int, out: bool): int {
    if f == DRIVE_0 && out then DRIVE_1 else if f == DRIVE_1 && !out then DRIVE_0 else f
  }

  /** What an enable update makes of a mux. */
  function EnableStep(f: int, enable: bool, out: bool): int {
    if f == DRIVE_Z && enable then (if out then DRIVE_1 else DRIVE_0)
    else if (f == DRIVE_0 || f == DRIVE_1) && !enable then DRIVE_Z
    else f
  }

  /** Selecting 257 or 258 as a function looks like the register's own drive. */
  predicate OutKeeps(sel: int, out: bool) { sel != DRIVE_1 || out }

  predicate EnableKeeps(sel: int, enable: bool) { (sel != DRIVE_1 || enable) && (sel != DRIVE_Z || !enable) }

  /** An output update agrees with a full recompute exactly if the function is
      not 257 or the pin goes high. */
  lemma OutStepExact(enable: bool, out: bool, out': bool, sel: int)
    ensures OutStep(Selected(enable, out, sel), out') == Selected(enable, out', sel) <==> OutKeeps(sel, out')
  {
  }

  lemma EnableStepExact(enable: bool, enable': bool, out: bool, sel: int)
    ensures EnableStep(Selected(enable, out, sel), enable', out) == Selected(enable', out, sel) <==> EnableKeeps(sel, enable')
  {
  }

  // ----- registers ---------------------------------------------------------

  /** The register after its write-one-to-clear and write-one-to-set bits. */
  function ClearSet(r: Bits, clears: Bits, sets: Bits): (q: Bits)
    ensures forall i :: 0 <= i < PINS ==> (q[i] <==> (r[i] && !clears[i]) || sets[i])
  {
    seq(PINS, i requires 0 <= i < PINS => (r[i] && !clears[i]) || sets[i])
  }

  function Zero(): Bits { seq(PINS, i => false) }

  datatype Registers = Registers(out: Bits, outSet: Bits, outClear: Bits, enable: Bits, enableSet: Bits, enableClear: Bits, sel: Selections)

  /** Every mux that reaches a pad selects what a full update would. */
  predicate Tracking(r: Registers, pads: Bits, f: Selections) {
    forall i :: 0 <= i < PINS && HasMux(i) && pads[i] ==> f[i] == Selected(r.enable[i], r.out[i], r.sel[i])
  }

  // ----- the matrix --------------------------------------------------------

  class Matrix {
    const pads: Bits  // the pins that the board connects
    var reg: Registers
    var functions: Selections  // the mux signals as they read now
    var pending: Selections  // what they will read after the next delta cycle

    /** No write is waiting for a delta cycle. */
    predicate Settled()
      reads this
    {
      pending == functions
    }

    constructor (pads: Bits)
      ensures this.pads == pads && Settled()
      ensures forall i :: 0 <= i < PINS ==> functions[i] == DRIVE_Z && reg.sel[i] == DRIVE_0 && !reg.enable[i] && !reg.out[i]
    {
      this.pads := pads;
      reg := Registers(Zero(), Zero(), Zero(), Zero(), Zero(), Zero(), seq(PINS, i => DRIVE_0));
      functions := seq(PINS, i => DRIVE_Z);
      pending := seq(PINS, i => DRIVE_Z);
    }

    method ApplyCsBits()
      modifies this`reg
      ensures reg == Applied(old(reg))
    {
      reg := reg.(out := ClearSet(reg.out, reg.outClear, reg.outSet));
      reg := reg.(outSet := Zero(), outClear := Zero());
    }

    method ApplyOeCsBits()
      modifies this`reg
      ensures reg == AppliedEnable(old(reg))
    {
      reg := reg.(enable := ClearSet(reg.enable, reg.enableClear, reg.enableSet));
      reg := reg.(enableSet := Zero(), enableClear := Zero());
    }

    method SetBits()
      modifies this`pending
      ensures forall i :: 0 <= i < PINS ==>
        pending[i] == if HasMux(i) && OutStep(functions[i], reg.out[i]) != functions[i] then OutStep(functions[i], reg.out[i]) else old(pending)[i]
    {
      for bit := 0 to PINS
        invariant forall i :: bit <= i < PINS ==> pending[i] == old(pending)[i]
        invariant forall i :: 0 <= i < bit ==>
          pending[i] == if HasMux(i) && OutStep(functions[i], reg.out[i]) != functions[i] then OutStep(functions[i], reg.out[i]) else old(pending)[i]
      {
        if HasMux(bit) {
          if functions[bit] == DRIVE_0 && reg.out[bit] {
            pending := pending[bit := DRIVE_1];
          } else if functions[bit] == DRIVE_1 && !reg.out[bit] {
            pending := pending[bit := DRIVE_0];
          }
        }
      }
    }

    method SetOeBits()
      modifies this`pending
      ensures forall i :: 0 <= i < PINS ==>
        pending[i] == if HasMux(i) && EnableStep(functions[i], reg.enable[i], reg.out[i]) != functions[i]
                      then EnableStep(functions[i], reg.enable[i], reg.out[i]) else old(pending)[i]
    {
      for bit := 0 to PINS
        invariant forall i :: bit <= i < PINS ==> pending[i] == old(pending)[i]
        invariant forall i :: 0 <= i < bit ==>
          pending[i] == if HasMux(i) && EnableStep(functions[i], reg.enable[i], reg.out[i]) != functions[i]
                        then EnableStep(functions[i], reg.enable[i], reg.out[i]) else old(pending)[i]
      {
        if HasMux(bit) {
          if functions[bit] == DRIVE_Z && reg.enable[bit] {
            pending := pending[bit := if reg.out[bit] then DRIVE_1 else DRIVE_0];
          } else if (functions[bit] == DRIVE_0 || functions[bit] == DRIVE_1) && !reg.enable[bit] {
            pending := pending[bit := DRIVE_Z];
          }
        }
      }
    }

    /** The delta cycle: the signals take the values last written. */
    method Delta()
      modifies this`functions
      ensures functions == pending && Settled()
    {
      functions := pending;
    }

    /** An update of the output register alone. If the muxes agreed with the
        registers for the outputs `was`, they agree again exactly if every pin
        keeps its function. */
    method UpdateOut(ghost was: Bits)
      requires Settled()
      modifies this
      ensures Settled()
      ensures reg == old(reg).(out := reg.out, outSet := Zero(), outClear := Zero())
      ensures forall i :: 0 <= i < PINS ==> (reg.out[i] <==> (old(reg).out[i] && !old(reg).outClear[i]) || old(reg).outSet[i])
      ensures reg == Applied(old(reg)) && functions == OutMuxes(old(functions), reg)
      ensures Tracking(old(reg).(out := was), pads, old(functions)) ==>
        (Tracking(reg, pads, functions) <==> OutKept(reg, pads))
    {
      hide Selected, OutStep, OutKeeps, HasMux;
      ApplyCsBits();
      SetBits();
      Delta();
      if Tracking(old(reg).(out := was), pads, old(functions)) {
        forall i | 0 <= i < PINS && HasMux(i) && pads[i]
          ensures functions[i] == Selected(reg.enable[i], reg.out[i], reg.sel[i]) <==> OutKeeps(reg.sel[i], reg.out[i])
        {
          OutStepExact(reg.enable[i], was[i], reg.out[i], reg.sel[i]);
        }
      }
    }

    /** An update of the enable register alone. */
    method UpdateEnable(ghost was: Bits)
      requires Settled()
      modifies this
      ensures Settled()
      ensures reg == old(reg).(enable := reg.enable, enableSet := Zero(), enableClear := Zero())
      ensures forall i :: 0 <= i < PINS ==> (reg.enable[i] <==> (old(reg).enable[i] && !old(reg).enableClear[i]) || old(reg).enableSet[i])
      ensures reg == AppliedEnable(old(reg)) && functions == EnableMuxes(old(functions), reg)
      ensures Tracking(old(reg).(enable := was), pads, old(functions)) ==>
        (Tracking(reg, pads, functions) <==> EnableKept(reg, pads))
    {
      hide Selected, EnableStep, EnableKeeps, HasMux;
      ApplyOeCsBits();
      SetOeBits();
      Delta();
      if Tracking(old(reg).(enable := was), pads, old(functions)) {
        forall i | 0 <= i < PINS && HasMux(i) && pads[i]
          ensures functions[i] == Selected(reg.enable[i], reg.out[i], reg.sel[i]) <==> EnableKeeps(reg.sel[i], reg.enable[i])
        {
          EnableStepExact(was[i], reg.enable[i], reg.out[i], reg.sel[i]);
        }
      }
    }

    /** The full update: whatever was selected or written before, the last write
        to each mux selects it from the registers. */
    method UpdateAll()
      modifies this
      ensures Settled() && Tracking(reg, pads, functions)
      ensures reg.sel == old(reg).sel
      ensures forall i :: 0 <= i < PINS ==> (reg.out[i] <==> (old(reg).out[i] && !old(reg).outClear[i]) || old(reg).outSet[i])
      ensures forall i :: 0 <= i < PINS ==> (reg.enable[i] <==> (old(reg).enable[i] && !old(reg).enableClear[i]) || old(reg).enableSet[i])
      ensures reg.outSet == reg.outClear == reg.enableSet == reg.enableClear == Zero()
      ensures forall i :: 0 <= i < PINS && HasMux(i) && pads[i] && reg.sel[i] == 256 ==>
        functions[i] == if !reg.enable[i] then 258 else if reg.out[i] then 257 else 256
      ensures forall i :: 0 <= i < PINS && HasMux(i) && pads[i] && reg.sel[i] != 256 ==> functions[i] == reg.sel[i]
    {
      ApplyCsBits();
      SetBits();
      ApplyOeCsBits();
      SetOeBits();
      ghost var r := reg;
      for bit := 0 to PINS
        invariant reg == r
        invariant forall i :: 0 <= i < bit && HasMux(i) && pads[i] ==> pending[i] == Selected(reg.enable[i], reg.out[i], reg.sel[i])
      {
        if pads[bit] && HasMux(bit) {
          if reg.sel[bit] == DRIVE_0 {
            if !reg.enable[bit] {
              pending := pending[bit := DRIVE_Z];
            } else if reg.out[bit] {
              pending := pending[bit := DRIVE_1];
            } else {
              pending := pending[bit := DRIVE_0];
            }
          } else {
            pending := pending[bit := reg.sel[bit]];
          }
        }
      }
      Delta();
    }

    /** Firmware writes registers and asks for the matching update, each time
        waiting for the delta cycle. */
    method Run(ops: seq<Update>)
      requires Settled()
      modifies this
      ensures Settled() && reg == After(old(reg), ops) && functions == MuxesAfter(old(functions), old(reg), ops)
    {
      hide Tracking, ClearSet, OutKept, EnableKept, OutMuxes, EnableMuxes;
      assert ops[..0] == [];
      for k := 0 to |ops|
        invariant Settled() && reg == After(old(reg), ops[..k]) && functions == MuxesAfter(old(functions), old(reg), ops[..k])
      {
        assert ops[..k + 1][..k] == ops[..k] && ops[..k + 1][k] == ops[k];
        match ops[k] {
          case Out(out, sets, clears) =>
            if out.Some? {
              reg := reg.(out := out.value);
            }
            reg := reg.(outSet := sets, outClear := clears);
            UpdateOut(reg.out);
          case Enable(enable, sets, clears) =>
            if enable.Some? {
              reg := reg.(enable := enable.value);
            }
            reg := reg.(enableSet := sets, enableClear := clears);
            UpdateEnable(reg.enable);
        }
      }
      assert ops[..|ops|] == ops;
    }
  }

  // ----- runs --------------------------------------------------------------

  function Applied(r: Registers): Registers {
    r.(out := ClearSet(r.out, r.outClear, r.outSet), outSet := Zero(), outClear := Zero())
  }

  function AppliedEnable(r: Registers): Registers {
    r.(enable := ClearSet(r.enable, r.enableClear, r.enableSet), enableSet := Zero(), enableClear := Zero())
  }

  predicate OutKept(r: Registers, pads: Bits) {
    forall i :: 0 <= i < PINS && HasMux(i) && pads[i] ==> OutKeeps(r.sel[i], r.out[i])
  }

  predicate EnableKept(r: Registers, pads: Bits) {
    forall i :: 0 <= i < PINS && HasMux(i) && pads[i] ==> EnableKeeps(r.sel[i], r.enable[i])
  }

  /** What firmware writes before it asks for an update: the register itself or not,
      and its bits to set and to clear. */
  datatype Update =
    | Out(out: Maybe<Bits>, sets: Bits, clears: Bits)
    | Enable(enable: Maybe<Bits>, sets: Bits, clears: Bits)

  function Next(r: Registers, u: Update): Registers {
    match u
    case Out(out, sets, clears) => Applied(r.(out := if out.Some? then out.value else r.out, outSet := sets, outClear := clears))
    case Enable(enable, sets, clears) =>
      AppliedEnable(r.(enable := if enable.Some? then enable.value else r.enable, enableSet := sets, enableClear := clears))
  }

  function After(r: Registers, ops: seq<Update>): Registers
    decreases |ops|
  {
    if ops == [] then r else Next(After(r, ops[..|ops| - 1]), ops[|ops| - 1])
  }

  predicate AllKept(r: Registers, pads: Bits, ops: seq<Update>)
    decreases |ops|
  {
    ops == [] ||
      (&& AllKept(r, pads, ops[..|ops| - 1])
       && if ops[|ops| - 1].Out? then OutKept(After(r, ops), pads) else EnableKept(After(r, ops), pads))
  }

  /** The muxes after an update of one register. */
  function OutMuxes(f: Selections, r: Registers): Selections {
    seq(PINS, i requires 0 <= i < PINS => if HasMux(i) then OutStep(f[i], r.out[i]) else f[i])
  }

  function EnableMuxes(f: Selections, r: Registers): Selections {
    seq(PINS, i requires 0 <= i < PINS => if HasMux(i) then EnableStep(f[i], r.enable[i], r.out[i]) else f[i])
  }

  function MuxesAfter(f: Selections, r: Registers, ops: seq<Update>): Selections
    decreases |ops|
  {
    if ops == [] then f else
      var g := MuxesAfter(f, r, ops[..|ops| - 1]);
      if ops[|ops| - 1].Out? then OutMuxes(g, After(r, ops)) else EnableMuxes(g, After(r, ops))
  }

  predicate Kept(r: Registers, pads: Bits, u: Update) {
    if u.Out? then OutKept(Next(r, u), pads) else EnableKept(Next(r, u), pads)
  }

  /** One update keeps the muxes right if and only if it meets its condition. */
  lemma UpdateExact(r: Registers, pads: Bits, f: Selections, u: Update)
    requires Tracking(r, pads, f)
    ensures var q := Next(r, u);
      Tracking(q, pads, if u.Out? then OutMuxes(f, q) else EnableMuxes(f, q)) <==> Kept(r, pads, u)
  {
    hide Selected, OutStep, EnableStep, OutKeeps, EnableKeeps, HasMux, ClearSet;
    var q := Next(r, u);
    forall i | 0 <= i < PINS
      ensures u.Out? && HasMux(i) && pads[i] ==>
        (OutMuxes(f, q)[i] == Selected(q.enable[i], q.out[i], q.sel[i]) <==> OutKeeps(q.sel[i], q.out[i]))
      ensures u.Enable? && HasMux(i) && pads[i] ==>
        (EnableMuxes(f, q)[i] == Selected(q.enable[i], q.out[i], q.sel[i]) <==> EnableKeeps(q.sel[i], q.enable[i]))
    {
      OutStepExact(r.enable[i], r.out[i], q.out[i], r.sel[i]);
      EnableStepExact(r.enable[i], q.enable[i], r.out[i], r.sel[i]);
    }
  }

  /** The muxes are right after each update of a run. */
  predicate AlwaysTracking(r: Registers, pads: Bits, f: Selections, ops: seq<Update>)
    decreases |ops|
  {
    && Tracking(After(r, ops), pads, MuxesAfter(f, r, ops))
    && (ops == [] || AlwaysTracking(r, pads, f, ops[..|ops| - 1]))
  }

  /** Over every run the muxes stay equal to what a full update would select if and
      only if each update meets its condition. */
  lemma {:induction false} RunExact(r: Registers, pads: Bits, f: Selections, ops: seq<Update>)
    requires Tracking(r, pads, f)
    ensures AlwaysTracking(r, pads, f, ops) <==> AllKept(r, pads, ops)
    decreases |ops|
  {
    hide Tracking, OutKept, EnableKept, OutMuxes, EnableMuxes, ClearSet;
    if ops != [] {
      var init := ops[..|ops| - 1];
      RunExact(r, pads, f, init);
      if AllKept(r, pads, init) {
        assert Tracking(After(r, init), pads, MuxesAfter(f, r, init));
        UpdateExact(After(r, init), pads, MuxesAfter(f, r, init), ops[|ops| - 1]);
      }
    }
  }

  // ----- what the pins show ------------------------------------------------

  /** The last update that touches an output bit, read off the history: a bit that is
      set is set even if it is cleared too. */
  predicate LastOut(first: bool, ops: seq<Update>, i: nat)
    requires i < PINS
    decreases |ops|
  {
    if ops == [] then first else
      var u := ops[|ops| - 1];
      if u.Out? && u.sets[i] then true
      else if u.Out? && u.clears[i] then false
      else if u.Out? && u.out.Some? then u.out.value[i]
      else LastOut(first, ops[..|ops| - 1], i)
  }

  /** The same for an enable bit. */
  predicate LastEnable(first: bool, ops: seq<Update>, i: nat)
    requires i < PINS
    decreases |ops|
  {
    if ops == [] then first else
      var u := ops[|ops| - 1];
      if u.Enable? && u.sets[i] then true
      else if u.Enable? && u.clears[i] then false
      else if u.Enable? && u.enable.Some? then u.enable.value[i]
      else LastEnable(first, ops[..|ops| - 1], i)
  }

  lemma {:induction false} BitsAfter(r: Registers, ops: seq<Update>, i: nat)
    requires i < PINS
    ensures After(r, ops).out[i] <==> LastOut(r.out[i], ops, i)
    ensures After(r, ops).enable[i] <==> LastEnable(r.enable[i], ops, i)
    decreases |ops|
  {
    if ops != [] {
      BitsAfter(r, ops[..|ops| - 1], i);
    }
  }

  /** Over every run that keeps the muxes right, a connected pin with function 256
      floats unless it was last enabled, and is driven as it was last written. */
  lemma PinShows(r: Registers, pads: Bits, f: Selections, ops: seq<Update>, i: nat)
    requires Tracking(r, pads, f) && AllKept(r, pads, ops) && i < PINS && HasMux(i) && pads[i] && r.sel[i] == 256
    ensures MuxesAfter(f, r, ops)[i] ==
      if !LastEnable(r.enable[i], ops, i) then 258 else if LastOut(r.out[i], ops, i) then 257 else 256
  {
    hide After, MuxesAfter, LastOut, LastEnable, AllKept;
    RunExact(r, pads, f, ops);
    BitsAfter(r, ops, i);
    SelectionsStay(r, ops);
    assert Tracking(After(r, ops), pads, MuxesAfter(f, r, ops));
  }

  /** The pins without an output mux, one by one. */
  lemma MuxPins(pin: nat)
    requires pin < PINS
    ensures HasMux(pin) <==> pin !in {6, 7, 8, 9, 10, 11, 20, 24, 28, 29, 30, 31}
  {
  }

  /** No pad's function is 257 or 258. */
  predicate Plain(r: Registers, pads: Bits) {
    forall i :: 0 <= i < PINS && HasMux(i) && pads[i] ==> r.sel[i] != DRIVE_1 && r.sel[i] != DRIVE_Z
  }

  lemma {:induction false} SelectionsStay(r: Registers, ops: seq<Update>)
    ensures After(r, ops).sel == r.sel
    decreases |ops|
  {
    if ops != [] {
      SelectionsStay(r, ops[..|ops| - 1]);
    }
  }

  /** With such functions every run of cheap updates keeps the muxes right. */
  lemma {:induction false} PlainRunsKeep(r: Registers, pads: Bits, ops: seq<Update>)
    requires Plain(r, pads)
    ensures AllKept(r, pads, ops)
    decreases |ops|
  {
    if ops != [] {
      PlainRunsKeep(r, pads, ops[..|ops| - 1]);
      SelectionsStay(r, ops);
    }
  }

  /** And with any other choice some single update leaves a mux wrong. */
  lemma OthersBreak(r: Registers, pads: Bits, f: Selections) returns (u: Update, i: nat)
    requires !Plain(r, pads) && Tracking(r, pads, f)
    ensures i < PINS && HasMux(i) && pads[i]
    ensures var q := After(r, [u]); MuxesAfter(f, r, [u])[i] != Selected(q.enable[i], q.out[i], q.sel[i])
  {
    i :| 0 <= i < PINS && HasMux(i) && pads[i] && (r.sel[i] == DRIVE_1 || r.sel[i] == DRIVE_Z);
    u := if r.sel[i] == DRIVE_1 then Out(Some(Zero()), Zero(), Zero()) else Enable(Some(Zero()), Zero()[i := true], Zero());
    assert [u][..0] == [];
    assert After(r, [u]) == Next(After(r, []), u);
    assert MuxesAfter(f, r, []) == f;
  }
}
