/**
What the instructions of the modelled families do, from their opcodes: the
registers, memory and flags they leave, described by operands and not by the
routines of the execution core that compute them.
*/
module Manual {
  import opened Words
  import opened Memory
  import opened Operands
  import opened System
  import opened Nesting
  import opened Bits
  import opened Movem
  import opened Banking
  import opened Instructions
  import opened Addressing
  import opened LimbChains
  import opened Chains
  import Arithmetic
  import Disasm

  // ---- MOVE -------------------------------------------------------------

  /**
  MOVE through the dispatcher: the source operand arrives at the destination, N
  is its sign, Z whether it is zero, V and C are clear and X stays.
  */
  lemma MoveDoes(u: Cpu, size: nat, smode: nat, sreg: nat, dmode: nat, dreg: nat, ext: nat, other: Other)
    requires MoveOperands(size, smode, sreg, dmode, dreg)
    requires Dispatch(u, MoveOpcode(size, smode, sreg, dmode, dreg), ext, other).core.bus.fault.None?
    ensures var t := Dispatch(u, MoveOpcode(size, smode, sreg, dmode, dreg), ext, other);
            var v := OperandValue(u.core, size, smode, sreg);
            && t == u.(core := t.core, ccr := t.ccr)
            && t.ccr == Ccr(u.ccr.x, SignedBy(Pow256(size) / 2, v) < 0, v == 0, false, false)
            && Replaced(Past(u.core, size, smode, sreg), t.core, size, dmode, dreg, v)
  {
    hide Move, MoveOpcode, Past, OperandValue, Replaced, IsMove, MoveSize;
    MoveDecodes(size, smode, sreg, dmode, dreg);
    MoveMoves(u.core, size, smode, sreg, dmode, dreg);
    OperandFits(u.core, size, smode, sreg);
    EvenPower(size);
  }

  lemma OperandFits(c: Core, size: nat, mode: nat, reg: nat)
    requires reg < 8 && IsSize(size)
    ensures OperandValue(c, size, mode, reg) < Pow256(size)
  {
    hide Peek, Address;
    Pow256Values();
  }

  lemma EvenPower(size: nat)
    requires IsSize(size)
    ensures 2 * (Pow256(size) / 2) == Pow256(size)
  {
    Pow256Values();
  }

  // ---- MOVES ------------------------------------------------------------

  /** MOVES of a size: two bits for it, then mode and register. */
  function MovesOpcode(size: nat, mode: nat, reg: nat): nat {
    0x0E00 + (if size == 1 then 0 else if size == 2 then 0x40 else 0x80) + 8 * mode + reg
  }

  /** The second word and those of the address could be fetched. */
  predicate OwnWordsFetched(c: Core, size: nat, mode: nat, reg: nat)
    requires reg < 8
  {
    var c1 := Fetch(c, 2, true).0;
    c1.bus.fault.None? && CalcEa(c1, size, mode, reg, true).0.bus.fault.None?
  }

  /** Register 0-15: D0-D7, then A0-A7. */
  function Register(c: Core, r: nat): Long
    requires r < 16
  {
    if r < 8 then c.d[r] else c.a[r - 8]
  }

  /** Accesses that are missing in the address space of a function code: 4-7 is the supervisor's. */
  function MissingIn(b: Bus, code: nat): set<Access> {
    if code % 8 >= 4 then b.superFaults else b.userFaults
  }

  lemma CodeSelects(b: Bus, code: nat, acc: Access)
    ensures Faults(b.(writeView := AltView(code), readView := AltView(code)), acc) == (acc in MissingIn(b, code))
  {
    assert code == 8 * (code / 8) + code % 8 && code / 4 == 2 * (code / 8) + code % 8 / 4;
  }

  lemma TransferEaIs(c: Core, x: Transfer)
    requires IsMemoryMode(x.mode, x.reg) && IsSize(x.size) && CalcEa(c, x.size, x.mode, x.reg, true).0.bus.fault.None?
    ensures var (c2, ea) := TransferEa(c, x);
            && ea == Wrap(Address(c, x.size, x.mode, x.reg)) && QuietBus(c.bus, c2.bus) && c2.bus.fault.None?
            && c2 == (if AutoStep(x.mode) then c else Past(c, x.size, x.mode, x.reg)).(bus := c2.bus)
  {
    hide Address, Past, Peek, IndexedEa, Wrap;
    CalcEaIs(c, x.size, x.mode, x.reg);
    if AutoStep(x.mode) {
      CalcEaQuiet(c, x.size, x.mode, x.reg, false);
      CalcEaQuiet(c, x.size, x.mode, x.reg, true);
    }
  }

  lemma SteppedIs(c: Core, x: Transfer)
    requires IsMemoryMode(x.mode, x.reg) && AutoStep(x.mode) && IsSize(x.size)
    ensures Stepped(c, x) == Past(c, x.size, x.mode, x.reg)
  {
    WrapLong(c.pc);
  }

  /** The fetch of a second word that did not fault. */
  lemma SecondWord(c: Core)
    requires c.bus.fault.None? && Fetch(c, 2, true).0.bus.fault.None?
    ensures var (c1, ext) := Fetch(c, 2, true);
            && c1 == AfterWord(c).(bus := c1.bus) && QuietBus(c.bus, c1.bus)
            && ext == Word(c.bus.mem, c.pc)
  {
    hide Peek;
    WrapLong(c.pc);
    ReadIs(c.bus, c.pc, 2);
  }

  function AfterWord(c: Core): Core {
    c.(pc := Wrap(c.pc + 2))
  }

  /** The store of MOVES: the address, whether it faults, and what is stored. */
  lemma StoreDoes(u: Cpu, size: nat, mode: nat, reg: nat)
    requires IsMemoryMode(mode, reg) && IsSize(size)
    requires u.core.bus.fault.None? && OwnWordsFetched(u.core, size, mode, reg)
    ensures var t := Moves(u, Transfer(true, size, mode, reg));
            var (c, r) := (AfterWord(u.core), Word(u.core.bus.mem, u.core.pc) / 0x1000);
            var (ea, p) := (Wrap(Address(c, size, mode, reg)), Past(c, size, mode, reg));
            && (t.core.bus.fault.Some? <==> Access(ea, size, true) in MissingIn(u.core.bus, u.dfc))
            && (t.core.bus.fault.None? ==>
                  && t == u.(core := p.(bus := t.core.bus))
                  && StoredAt(u.core.bus.mem, t.core.bus.mem, ea, size, Register(p, r) % Pow256(size)))
  {
    hide Peek, Poke, Wrap, CalcEa, Address, Past, StoredAt, AltView, Stepped, SameOutside, Span, Pow256, Fetch, Word;
    var x := Transfer(true, size, mode, reg);
    SecondWord(u.core);
    var (c1, ext) := Fetch(u.core, 2, true);
    var c := AfterWord(u.core);
    IndexRegister(ext);
    SameOperand(c, c1, size, mode, reg);
    PastKeeps(c, size, mode, reg);
    TransferEaIs(c1, x);
    var (c2, ea) := TransferEa(c1, x);
    var v := TransferValue(c2, x, Bit(ext, 0x8000), ext / 0x1000 % 8);
    StoresRegister(c, c1, c2, x, ext);
    var sw := c2.bus.(writeView := AltView(u.dfc));
    CodeSelects(c2.bus, u.dfc, Access(ea, size, true));
    if !Faults(sw, Access(ea, size, true)) {
      WrapLong(ea);
      WriteStores(sw, ea, size, v);
      var c3 := c2.(bus := Write(sw, ea, size, v).(writeView := c2.bus.writeView));
      StepAfter(c1, c3, x);
    }
  }

  /** The register stored is the one the second word names, stepped if it is the stepping one. */
  lemma StoresRegister(c: Core, c1: Core, c2: Core, x: Transfer, ext: nat)
    requires IsMemoryMode(x.mode, x.reg) && IsSize(x.size) && ext < 0x1_0000 && c1 == c.(bus := c1.bus)
    requires c2 == (if AutoStep(x.mode) then c1 else Past(c1, x.size, x.mode, x.reg)).(bus := c2.bus)
    ensures TransferValue(c2, x, Bit(ext, 0x8000), ext / 0x1000 % 8)
         == Register(Past(c, x.size, x.mode, x.reg), ext / 0x1000) % Pow256(x.size)
  {
    hide Wrap, Stepped, Stride, ExtensionBytes, Pow256;
    IndexRegister(ext);
    if AutoStep(x.mode) {
      SteppedIs(c2, x);
    }
  }

  /** Committing the step after the access gives the registers and PC of `Past`. */
  lemma StepAfter(c1: Core, c3: Core, x: Transfer)
    requires IsMemoryMode(x.mode, x.reg) && IsSize(x.size)
    requires c3 == (if AutoStep(x.mode) then c1 else Past(c1, x.size, x.mode, x.reg)).(bus := c3.bus)
    ensures (if AutoStep(x.mode) then Stepped(c3, x) else c3) == Past(c1, x.size, x.mode, x.reg).(bus := c3.bus)
  {
    hide Wrap, Stepped, Stride;
    if AutoStep(x.mode) {
      SteppedIs(c3, x);
      NoExtension(c1, x.size, x.mode, x.reg);
      NoExtension(c3, x.size, x.mode, x.reg);
    }
  }

  /** A register loaded with v: the low bytes of Dn, or all of An with the sign extended. */
  predicate LoadedWith(c: Core, t: Core, r: nat, size: nat, v: nat)
    requires r < 16
  {
    if r < 8 then
      t == c.(d := t.d, bus := t.bus) && t.d == c.d[r := t.d[r]] && LowBytes(c.d[r], t.d[r], size, v)
    else
      t == c.(a := c.a[r - 8 := Wrap(SignedBy(Pow256(size) / 2, v))], bus := t.bus)
  }

  /** The load of MOVES: the address, whether it faults, and what is loaded. */
  lemma LoadDoes(u: Cpu, size: nat, mode: nat, reg: nat)
    requires IsMemoryMode(mode, reg) && IsSize(size)
    requires u.core.bus.fault.None? && OwnWordsFetched(u.core, size, mode, reg)
    ensures var t := Moves(u, Transfer(false, size, mode, reg));
            var (c, r) := (AfterWord(u.core), Word(u.core.bus.mem, u.core.pc) / 0x1000);
            var (ea, p) := (Wrap(Address(c, size, mode, reg)), Past(c, size, mode, reg));
            && (t.core.bus.fault.Some? <==> Access(ea, size, false) in MissingIn(u.core.bus, u.sfc))
            && t.core.bus.mem == u.core.bus.mem
            && (t.core.bus.fault.None? ==>
                  t == u.(core := t.core) && LoadedWith(p, t.core, r, size, Peek(u.core.bus.mem, ea, size)))
  {
    hide Peek, Wrap, CalcEa, Address, Past, LoadInto, AltView, Stepped, Span, Pow256, Fetch, Word, LoadedWith;
    var x := Transfer(false, size, mode, reg);
    SecondWord(u.core);
    var (c1, ext) := Fetch(u.core, 2, true);
    var c := AfterWord(u.core);
    IndexRegister(ext);
    SameOperand(c, c1, size, mode, reg);
    PastKeeps(c, size, mode, reg);
    TransferEaIs(c1, x);
    var (c2, ea) := TransferEa(c1, x);
    var sw := c2.bus.(readView := AltView(u.sfc));
    CodeSelects(c2.bus, u.sfc, Access(ea, size, false));
    if !Faults(sw, Access(ea, size, false)) {
      var (b0, v) := Read(sw, ea, size);
      var c3 := c2.(bus := b0.(readView := c2.bus.readView));
      StepAfter(c1, c3, x);
      var p := Past(c, size, mode, reg).(bus := c3.bus);
      LoadIntoIs(p, ext, size, v);
      var t := LoadInto(p, size, Bit(ext, 0x8000), ext / 0x1000 % 8, v);
      LoadedBus(Past(c, size, mode, reg), p, t, ext / 0x1000, size, v);
    }
  }

  lemma LoadIntoIs(c: Core, ext: nat, size: nat, v: nat)
    requires ext < 0x1_0000 && IsSize(size) && v < Pow256(size)
    ensures var t := LoadInto(c, size, Bit(ext, 0x8000), ext / 0x1000 % 8, v);
            LoadedWith(c, t, ext / 0x1000, size, v) && t.bus == c.bus
  {
    hide Wrap, Merge, LowBytes;
    Pow256Values();
    IndexRegister(ext);
    MergeIs(c.d[ext / 0x1000 % 8], size, v);
    SignedByte(v);
    if size == 2 {
      SignedWord(v);
    } else if size == 4 {
      SumWraps(0, v, Wrap(v));
      WrapSigned(v);
    }
  }

  lemma WrapSigned(v: nat)
    requires v < B32
    ensures Wrap(SignedBy(B32 / 2, v)) == Wrap(v)
  {
  }

  /** The bus is not part of what a load changes. */
  lemma LoadedBus(c: Core, c1: Core, t: Core, r: nat, size: nat, v: nat)
    requires r < 16 && c1 == c.(bus := c1.bus) && LoadedWith(c1, t, r, size, v)
    ensures LoadedWith(c, t, r, size, v)
  {
  }

  /**
  MOVES in supervisor mode, once its own words are fetched. Its data access
  goes to the address space of DFC (store) or SFC (load): it faults exactly if
  it is missing there, and otherwise moves the register named by the second
  word, already stepped if it is the one that steps, to or from the operand.
  */
  lemma MovesDoes(u: Cpu, size: nat, mode: nat, reg: nat, other: Other)
    requires u.core.model.M68030? && u.s && u.core.bus.fault.None? && IsSize(size)
    requires IsMemoryMode(mode, reg) && (mode == 7 ==> reg < 2) && OwnWordsFetched(u.core, size, mode, reg)
    ensures var (m, ext) := (u.core.bus.mem, Word(u.core.bus.mem, u.core.pc));
            var t := Dispatch(u, MovesOpcode(size, mode, reg), ext, other);
            var (c, r, store) := (AfterWord(u.core), ext / 0x1000, ext / 0x800 % 2 == 1);
            var (ea, p) := (Wrap(Address(c, size, mode, reg)), Past(c, size, mode, reg));
            && (t.core.bus.fault.Some? <==>
                  Access(ea, size, store) in MissingIn(u.core.bus, if store then u.dfc else u.sfc))
            && (t.core.bus.fault.None? ==>
                  && t == u.(core := t.core)
                  && if store then
                       t.core == p.(bus := t.core.bus)
                       && StoredAt(m, t.core.bus.mem, ea, size, Register(p, r) % Pow256(size))
                     else t.core.bus.mem == m && LoadedWith(p, t.core, r, size, Peek(m, ea, size)))
  {
    hide Peek, Wrap, Moves, Address, Past, StoredAt, LoadedWith, Word, MovesOpcode, OwnWordsFetched, Pow256, Register,
         Exception;
    var ext := Word(u.core.bus.mem, u.core.pc);
    MovesDecodes(u.core.model, size, mode, reg, ext);
    if ext / 0x800 % 2 == 1 {
      StoreDoes(u, size, mode, reg);
    } else {
      LoadDoes(u, size, mode, reg);
    }
  }

  lemma MovesDecodes(model: Model, size: nat, mode: nat, reg: nat, ext: nat)
    requires model.M68030? && IsSize(size) && IsMemoryMode(mode, reg) && (mode == 7 ==> reg < 2)
    ensures var op := MovesOpcode(size, mode, reg);
            && FamilyOf(model, op) == MovesFamily
            && MovesForm(op, ext) == Transfer(ext / 0x800 % 2 == 1, size, mode, reg)
  {
    hide FamilyOf, MovesOpcode, IsMoves;
    var (op, code) := (MovesOpcode(size, mode, reg), if size == 1 then 0 else if size == 2 then 1 else 2);
    assert op == 0x0E00 + 0x40 * code + 8 * mode + reg by {
      MovesFields(size, mode, reg);
    }
    Fields(0, 7, code, mode, reg);
    assert op / 0x40 % 4 == code;
    MovesRecognised(model, op);
  }

  lemma MovesFields(size: nat, mode: nat, reg: nat)
    requires IsSize(size)
    ensures MovesOpcode(size, mode, reg)
         == 0x0E00 + 0x40 * (if size == 1 then 0 else if size == 2 then 1 else 2) + 8 * mode + reg
  {
  }

  lemma MovesRecognised(model: Model, op: nat)
    requires model.M68030? && 0x0E00 <= op < 0x0EC0 && IsMemoryMode(op / 8 % 8, op % 8)
    requires op / 8 % 8 == 7 ==> op % 8 < 2
    ensures FamilyOf(model, op) == MovesFamily
  {
  }

  // ---- MOVEM ------------------------------------------------------------

  /** Registers numbered r to 15 in the mask of a store to -(An), whose bit 15 is D0. */
  function ListedFrom(mask: nat, r: nat): nat
    requires r <= 16
    decreases 16 - r
  {
    if r == 16 then 0 else (if BitAt(mask, 15 - r) then 1 else 0) + ListedFrom(mask, r + 1)
  }

  /** Registers numbered below r in the mask of a load, whose bit 0 is D0. */
  function ListedBelow(mask: nat, r: nat): nat {
    if r == 0 then 0 else ListedBelow(mask, r - 1) + if BitAt(mask, r - 1) then 1 else 0
  }

  lemma {:induction false} CountDown(mask: nat, r: nat)
    requires r <= 16
    ensures ListedFrom(mask, r) == Below(ListDown(mask), 16) - Below(ListDown(mask), r)
    decreases 16 - r
  {
    hide BitAt;
    if r < 16 {
      CountDown(mask, r + 1);
    }
  }

  lemma {:induction false} CountUp(mask: nat, r: nat)
    requires r <= 16
    ensures ListedBelow(mask, r) == Below(ListUp(mask), r)
  {
    hide BitAt;
    if r > 0 {
      CountUp(mask, r - 1);
    }
  }

  lemma StepsIs(step: nat, n: nat)
    requires step == 2 || step == 4
    ensures Steps(step, n) == step * n
  {
  }

  /** MOVEM.W and MOVEM.L of a list to -(An). */
  function SaveOpcode(step: nat, an: nat): nat {
    (if step == 2 then 0x48A0 else 0x48E0) + an
  }

  /** What a save of register r writes: the 68030 saves An itself as already one step lower. */
  function Saved(c: Core, r: nat, an: nat, step: nat): nat
    requires r < 16 && an < 8
  {
    (if c.model.M68030? && r == 8 + an then Wrap(c.a[an] - step) else Register(c, r)) % Pow256(step)
  }

  /**
  A MOVEM to -(An) that does not fault leaves every listed register in memory,
  the highest numbered one directly below An, moves An to the last one and
  changes nothing else.
  */
  lemma SaveDoes(u: Cpu, step: nat, an: nat, ext: nat, other: Other)
    requires (step == 2 || step == 4) && an < 8 && Dispatch(u, SaveOpcode(step, an), ext, other).core.bus.fault.None?
    ensures var t := Dispatch(u, SaveOpcode(step, an), ext, other);
            var (m, mask, top) := (u.core.bus.mem, Word(u.core.bus.mem, u.core.pc), u.core.a[an] as int);
            var n := step * ListedFrom(mask, 0);
            && t == u.(core := AfterWord(u.core).(a := u.core.a[an := Wrap(top - n)], bus := t.core.bus))
            && SameOutside(m, t.core.bus.mem, Span(top - n, n))
            && forall r :: 0 <= r < 16 && BitAt(mask, 15 - r) ==>
                 Peek(t.core.bus.mem, top - step * ListedFrom(mask, r), step) == Saved(u.core, r, an, step)
  {
    hide Peek, Wrap, Span, SameOutside, BitAt, Below, Stored, StoreDown, Fetch, Word, Dispatch, SaveOpcode, Saved,
         ListedFrom, Steps, Pow256;
    SaveDecodes(u, step, an, ext, other);
    var (mask, top) := (Word(u.core.bus.mem, u.core.pc), u.core.a[an] as int);
    FetchSticks(u.core);
    SecondWord(u.core);
    var c1 := Fetch(u.core, 2, true).0;
    var l := ListDown(mask);
    WrapLong(top);
    StoreDownFills(c1, l, step, an, 16, c1.bus, top);
    CountDown(mask, 0);
    BelowZero(l);
    StepsIs(step, ListedFrom(mask, 0));
    var t := MovemStore(u.core, an, step);
    forall r | 0 <= r < 16 && BitAt(mask, 15 - r)
      ensures Peek(t.bus.mem, top - step * ListedFrom(mask, r), step) == Saved(u.core, r, an, step)
    {
      CountDown(mask, r);
      StepsIs(step, ListedFrom(mask, r));
      SavedIs(u.core, c1, r, an, step);
      assert l[r];
    }
  }

  lemma FetchSticks(c: Core)
    ensures c.bus.fault.Some? ==> Fetch(c, 2, true).0.bus.fault.Some?
  {
  }

  lemma SavedIs(c: Core, c1: Core, r: nat, an: nat, step: nat)
    requires r < 16 && an < 8 && c1.d == c.d && c1.a == c.a && c1.model == c.model
    ensures Stored(c1, r, step, an) == Saved(c, r, an, step)
  {
  }

  lemma SaveDecodes(u: Cpu, step: nat, an: nat, ext: nat, other: Other)
    requires (step == 2 || step == 4) && an < 8
    ensures Dispatch(u, SaveOpcode(step, an), ext, other) == u.(core := MovemStore(u.core, an, step))
  {
    hide MovemStore, Move, MovemLoad, PerformExtended, Moves, Rte, MovecIn, MovecOut;
    var op := SaveOpcode(step, an);
    assert op % 8 == an && MovemStep(op) == step && !IsMove(op);
  }

  /** MOVEM.W and MOVEM.L of a list from memory. */
  function RestoreOpcode(step: nat, mode: nat, reg: nat): nat {
    (if step == 2 then 0x4C80 else 0x4CC0) + 8 * mode + reg
  }

  /**
  A MOVEM from memory that does not fault loads every listed register from
  consecutive places upwards from its operand's address, words sign-extended;
  (An)+ ends past the last one, and nothing else changes.
  */
  lemma RestoreDoes(u: Cpu, step: nat, mode: nat, reg: nat, ext: nat, other: Other)
    requires (step == 2 || step == 4) && IsMemoryMode(mode, reg) && mode != 4 && (mode == 7 ==> reg < 4)
    requires Dispatch(u, RestoreOpcode(step, mode, reg), ext, other).core.bus.fault.None?
    ensures var t := Dispatch(u, RestoreOpcode(step, mode, reg), ext, other);
            var (m, mask, c) := (u.core.bus.mem, Word(u.core.bus.mem, u.core.pc), AfterWord(u.core));
            var at := Address(c, 4, mode, reg);
            && t == u.(core := Past(c, 4, mode, reg).(d := t.core.d, a := t.core.a, bus := t.core.bus))
            && t.core.bus.mem == m
            && forall r :: 0 <= r < 16 ==>
                 Register(t.core, r) ==
                 if mode == 3 && r == 8 + reg then Wrap(at + step * ListedBelow(mask, 16))
                 else if BitAt(mask, r)
                 then Wrap(SignedBy(Pow256(step) / 2, Peek(m, at + step * ListedBelow(mask, r), step)))
                 else Register(u.core, r)
  {
    hide Peek, Wrap, Span, BitAt, Below, LoadUp, Fetch, Word, Dispatch, RestoreOpcode, ListedBelow, Steps, Pow256,
         Address, Past, CalcEa, Extend, SignedBy;
    RestoreDecodes(u, step, mode, reg, ext, other);
    var (m, mask) := (u.core.bus.mem, Word(u.core.bus.mem, u.core.pc));
    FetchSticks(u.core);
    SecondWord(u.core);
    var c1 := Fetch(u.core, 2, true).0;
    var c := AfterWord(u.core);
    var l := ListUp(mask);
    var (c2, ea) := CalcEa(c1, 4, mode, reg, true);
    if c2.bus.fault.Some? {
      LoadStops(l, step, 0, c2.bus, ea, c2.d + c2.a);
    }
    CalcEaIs(c1, 4, mode, reg);
    SameOperand(c, c1, 4, mode, reg);
    PastKeeps(c, 4, mode, reg);
    PastRegisters(c, 4, mode, reg);
    var at := Address(c, 4, mode, reg);
    BelowZero(l);
    StepsIs(step, 0);
    LoadUpReads(l, step, 0, c2.bus, at, c2.d + c2.a);
    var t := MovemLoad(u.core, mode, reg, step);
    CountUp(mask, 16);
    StepsIs(step, ListedBelow(mask, 16));
    forall r | 0 <= r < 16
      ensures Register(t, r) ==
              if mode == 3 && r == 8 + reg then Wrap(at + step * ListedBelow(mask, 16))
              else if BitAt(mask, r)
              then Wrap(SignedBy(Pow256(step) / 2, Peek(m, at + step * ListedBelow(mask, r), step)))
              else Register(u.core, r)
    {
      CountUp(mask, r);
      StepsIs(step, ListedBelow(mask, r));
      ExtendIs(step, Peek(m, at + step * ListedBelow(mask, r), step));
      assert l[r] == BitAt(mask, r);
    }
  }

  /** Only (An)+ and -(An) step a register. */
  lemma PastRegisters(c: Core, size: nat, mode: nat, reg: nat)
    requires reg < 8 && mode != 4
    ensures forall i :: 0 <= i < 8 && !(mode == 3 && i == reg) ==> Past(c, size, mode, reg).a[i] == c.a[i]
  {
  }

  lemma ExtendIs(step: nat, v: nat)
    requires (step == 2 || step == 4) && v < Pow256(step)
    ensures Extend(step, v) == Wrap(SignedBy(Pow256(step) / 2, v))
  {
    hide Wrap;
    Pow256Values();
    if step == 2 {
      SignedWord(v);
    } else {
      WrapSigned(v);
    }
  }

  lemma RestoreDecodes(u: Cpu, step: nat, mode: nat, reg: nat, ext: nat, other: Other)
    requires (step == 2 || step == 4) && IsMemoryMode(mode, reg) && mode != 4 && (mode == 7 ==> reg < 4)
    ensures Dispatch(u, RestoreOpcode(step, mode, reg), ext, other)
         == u.(core := MovemLoad(u.core, mode, reg, step))
  {
    hide MovemStore, Move, MovemLoad, PerformExtended, Moves, Rte, MovecIn, MovecOut, RestoreOpcode;
    var op := RestoreOpcode(step, mode, reg);
    var code := if step == 2 then 2 else 3;
    assert op == 0x1000 * 4 + 0x200 * 6 + 0x40 * code + 8 * mode + reg by {
      RestoreFields(step, mode, reg);
    }
    Fields(4, 6, code, mode, reg);
    assert op / 0x40 % 2 == code - 2;
  }

  lemma RestoreFields(step: nat, mode: nat, reg: nat)
    requires step == 2 || step == 4
    ensures RestoreOpcode(step, mode, reg) == 0x4C00 + 0x40 * (if step == 2 then 2 else 3) + 8 * mode + reg
  {
  }

  // ---- ADDX, SUBX, ABCD and SBCD ----------------------------------------

  /** Lines D and 9 are ADDX and SUBX, C and 8 are ABCD and SBCD. */
  function LineOf(op: Op): nat {
    match op
    case Binary(Plus) => 0xD
    case Binary(Minus) => 9
    case Decimal(Plus, _) => 0xC
    case Decimal(Minus, _) => 8
  }

  /** The -(Ay),-(Ax) form; x is the destination. */
  function ExtendedOpcode(op: Op, size: nat, x: nat, y: nat): nat {
    0x1000 * LineOf(op) + 0x200 * x + 0x108 + (if size == 1 then 0 else if size == 2 then 0x40 else 0x80) + y
  }

  /**
  One step of -(Ay),-(Ax) that does not fault: the operand below Ay is added to
  or subtracted from the one below Ax, with X, and the result replaces the
  latter. Both registers step, Ay first.
  */
  lemma ExtendedDoes(u: Cpu, op: Op, size: nat, x: nat, y: nat, ext: nat, other: Other)
    requires IsSize(size) && Suits(op, 8 * size) && x < 8 && y < 8 && (op.Decimal? ==> op.model == u.core.model)
    requires Dispatch(u, ExtendedOpcode(op, size, x, y), ext, other).core.bus.fault.None?
    ensures Pow2(8 * size) == Pow256(size)
    ensures var (t, m) := (Dispatch(u, ExtendedOpcode(op, size, x, y), ext, other), u.core.bus.mem);
            var c := Past(u.core, size, 4, y);
            var (from, at) := (Address(u.core, size, 4, y), Address(c, size, 4, x));
            var (r, g) := OneLimb(op, 8 * size, Peek(m, at, size), Peek(m, from, size), u.ccr);
            && t == u.(core := Past(c, size, 4, x).(bus := t.core.bus), ccr := g)
            && StoredAt(m, t.core.bus.mem, at, size, r)
            && (op.Binary? ==> Sums(op.kind, Pow256(size), Peek(m, at, size), Peek(m, from, size), u.ccr, r, g))
  {
    hide Peek, Wrap, OneLimb, Pow2, Pow256, StoredAt, Sums, Dispatch, ExtendedOpcode, ExtendedMem, Past, Address;
    LimbRadix(size);
    ExtendedDecodes(u, op, size, x, y, ext, other);
    MemStep(op, u.core, u.ccr, size, x, y);
    var c := Past(u.core, size, 4, y);
    if op.Binary? {
      SumsIs(op, size, Peek(u.core.bus.mem, Address(c, size, 4, x), size),
             Peek(u.core.bus.mem, Address(u.core, size, 4, y), size), u.ccr);
    }
  }

  lemma MemStep(op: Op, c: Core, f: System.Ccr, size: nat, x: nat, y: nat)
    requires IsSize(size) && Suits(op, 8 * size) && x < 8 && y < 8
    requires ExtendedMem(op, c, f, size, x, y).0.bus.fault.None?
    ensures Pow2(8 * size) == Pow256(size)
    ensures var (t, g') := ExtendedMem(op, c, f, size, x, y);
            var (m, p) := (c.bus.mem, Past(c, size, 4, y));
            var (from, at) := (Address(c, size, 4, y), Address(p, size, 4, x));
            var (r, g) := OneLimb(op, 8 * size, Peek(m, at, size), Peek(m, from, size), f);
            t == Past(p, size, 4, x).(bus := t.bus) && g' == g && StoredAt(m, t.bus.mem, at, size, r)
  {
    hide Peek, Poke, Wrap, OneLimb, Span, Pow2, Pow256, StoredAt, Stride, Read, Write;
    LimbRadix(size);
    var p := Past(c, size, 4, y);
    WrapLong(c.pc);
    StrideIs(size, x);
    StrideIs(size, y);
    var (from, at) := (Address(c, size, 4, y), Address(p, size, 4, x));
    var (b1, src) := Read(c.bus, Wrap(from), size);
    var (b2, dst) := Read(b1, Wrap(at), size);
    ReadQuiet(c.bus, Wrap(from), size);
    ReadQuiet(b1, Wrap(at), size);
    var r := OneLimb(op, 8 * size, dst, src, f).0;
    WriteKeepsFault(b2, Wrap(at), size, r);
    ReadIs(c.bus, from, size);
    ReadIs(b1, at, size);
    WriteStores(b2, at, size, r);
  }

  /** r is the sum or difference with X, and g the flags: C and X the carry, V and N by two's complement, Z sticky. */
  predicate Sums(k: Arithmetic.Kind, radix: nat, d: nat, s: nat, f: System.Ccr, r: nat, g: System.Ccr) {
    var (x, half) := (if f.x then 1 else 0, radix / 2);
    && (if k.Plus? then r + (if g.c then radix else 0) == d + s + x else r == d - s - x + if g.c then radix else 0)
    && g.x == g.c && g.z == (f.z && r == 0) && g.n == (SignedBy(half, r) < 0)
    && g.v == (SignedBy(half, r) != if k.Plus? then SignedBy(half, d) + SignedBy(half, s) + x
                                     else SignedBy(half, d) - SignedBy(half, s) - x)
  }

  lemma SumsIs(op: Op, size: nat, d: nat, s: nat, f: System.Ccr)
    requires IsSize(size) && op.Binary? && d < Pow256(size) && s < Pow256(size)
    ensures Pow2(8 * size) == Pow256(size)
    ensures var (r, g) := OneLimb(op, 8 * size, d, s, f);
            Sums(op.kind, Pow256(size), d, s, f, r, g)
  {
    hide Arithmetic.Extended;
    LimbRadix(size);
    EvenPower(size);
    Arithmetic.ExtendedStep(op.kind, 8 * size, d, s, f);
    SignedIs(size, d);
    SignedIs(size, s);
    SignedIs(size, OneLimb(op, 8 * size, d, s, f).0);
  }

  lemma SignedIs(size: nat, v: nat)
    requires IsSize(size) && v < Pow256(size)
    ensures Arithmetic.Signed(8 * size, v) == SignedBy(Pow256(size) / 2, v)
  {
    LimbRadix(size);
    assert Pow2(8 * size) == 2 * Pow2(8 * size - 1);
  }

  lemma WriteKeepsFault(b: Bus, a: Long, n: nat, v: nat)
    ensures b.fault.Some? ==> Write(b, a, n, v).fault.Some?
  {
    hide Poke;
  }

  lemma StrideIs(size: nat, reg: nat)
    ensures Step(size, reg) == Stride(size, reg)
  {
  }

  lemma ExtendedDecodes(u: Cpu, op: Op, size: nat, x: nat, y: nat, ext: nat, other: Other)
    requires IsSize(size) && Suits(op, 8 * size) && x < 8 && y < 8 && (op.Decimal? ==> op.model == u.core.model)
    ensures var (c, f) := ExtendedMem(op, u.core, u.ccr, size, x, y);
            Dispatch(u, ExtendedOpcode(op, size, x, y), ext, other) == u.(core := c, ccr := f)
  {
    hide Move, MovemStore, MovemLoad, Moves, Rte, MovecIn, MovecOut, ExtendedMem, ExtendedOpcode, IsMove, IsMovemLoad,
         ExtendedForm, LineOf;
    var o := ExtendedOpcode(op, size, x, y);
    ExtendedFields(op, size, x, y);
    FormOf(u.core.model, op, size, o);
    LineBounds(op);
    NotMove(o);
  }

  lemma LineBounds(op: Op)
    ensures 8 <= LineOf(op)
  {
  }

  lemma FormOf(model: Model, op: Op, size: nat, o: nat)
    requires IsSize(size) && Suits(op, 8 * size) && (op.Decimal? ==> op.model == model)
    requires o / 0x1000 == LineOf(op) && o / 8 % 64 == 8 * (if size == 1 then 4 else if size == 2 then 5 else 6) + 1
    ensures ExtendedForm(model, o) == Some((op, size))
  {
  }

  lemma ExtendedFields(op: Op, size: nat, x: nat, y: nat)
    requires IsSize(size) && x < 8 && y < 8
    ensures var o := ExtendedOpcode(op, size, x, y);
            && o / 0x1000 == LineOf(op) && o / 0x200 % 8 == x && o % 8 == y
            && o / 8 % 64 == 8 * (if size == 1 then 4 else if size == 2 then 5 else 6) + 1
            && 0x1000 * LineOf(op) <= o
  {
    hide LineOf, ExtendedOpcode;
    var (line, code) := (LineOf(op), if size == 1 then 4 else if size == 2 then 5 else 6);
    ExtendedSum(op, size, x, y);
    Fields(line, x, code, 1, y);
    MiddleField(8 * line + x, code, y);
  }

  lemma ExtendedSum(op: Op, size: nat, x: nat, y: nat)
    requires IsSize(size)
    ensures ExtendedOpcode(op, size, x, y)
         == 0x1000 * LineOf(op) + 0x200 * x + 0x40 * (if size == 1 then 4 else if size == 2 then 5 else 6) + 8 + y
  {
    hide LineOf;
  }

  lemma MiddleField(q: nat, code: nat, y: nat)
    requires code < 8 && y < 8
    ensures (0x200 * q + 0x40 * code + 8 + y) / 8 % 64 == 8 * code + 1
  {
    assert (0x200 * q + 0x40 * code + 8 + y) / 8 == 64 * q + (8 * code + 1);
  }

  lemma NotMove(op: nat)
    requires op >= 0x8000
    ensures !IsMove(op) && !IsMovemLoad(op)
  {
  }

  // ---- MOVEC ------------------------------------------------------------

  /** The control registers as a program in supervisor mode sees them. */
  function ControlRegister(u: Cpu, rc: nat): int {
    match rc
    case 0x000 => u.sfc
    case 0x001 => u.dfc
    case 0x002 => u.cacr
    case 0x800 => Usp(u)
    case 0x801 => u.vbr
    case 0x802 => u.caar
    case 0x803 => Msp(u)
    case 0x804 => Isp(u)
    case _ => 0
  }

  predicate IsControl(rc: nat) {
    rc <= 2 || 0x800 <= rc <= 0x804
  }

  function WithRegister(c: Core, r: nat, v: Long): Core
    requires r < 16
  {
    if r < 8 then c.(d := c.d[r := v]) else c.(a := c.a[r - 8 := v])
  }

  /** Both MOVEC forms want the second word fetched. */
  predicate ControlReady(u: Cpu) {
    u.core.model.M68030? && u.s && u.core.bus.fault.None? && Fetch(u.core, 2, true).0.bus.fault.None?
  }

  /** MOVEC Rc,Rn puts the control register named by the low twelve bits into the register named by the top four. */
  lemma ReadControlDoes(u: Cpu, ext: nat, other: Other)
    requires ControlReady(u)
    ensures var (t, word) := (Dispatch(u, 0x4E7A, ext, other), Word(u.core.bus.mem, u.core.pc));
            IsControl(word % 0x1000) ==>
              && t.core.bus.mem == u.core.bus.mem && t.core.bus.fault.None?
              && t == u.(core := WithRegister(AfterWord(u.core), word / 0x1000,
                                              Wrap(ControlRegister(u, word % 0x1000))).(bus := t.core.bus))
  {
    hide Wrap, Exception, Peek, Fetch, Dispatch;
    ControlDecodes(u, ext, other);
    SecondWord(u.core);
    IndexRegister(Word(u.core.bus.mem, u.core.pc));
  }

  /** What a control register keeps of a value: three bits of a function code, the cache bits of CACR, else all. */
  predicate Keeps(rc: nat, v: Long, kept: int) {
    if rc < 2 then kept == v % 8
    else if rc == 2 then
      0 <= kept < 0x4000 && forall i :: 0 <= i < 14 ==>
        (BitAt(kept, i) <==> BitAt(v, i) && (i == 0 || i == 1 || i == 4 || i == 8 || i == 9 || i == 12 || i == 13))
    else kept == v
  }

  /** MOVEC Rn,Rc changes that one control register: seven others, D0-A6, SR and memory stay. */
  lemma WriteControlDoes(u: Cpu, ext: nat, other: Other)
    requires ControlReady(u)
    ensures var (t, word) := (Dispatch(u, 0x4E7B, ext, other), Word(u.core.bus.mem, u.core.pc));
            IsControl(word % 0x1000) ==>
              && Keeps(word % 0x1000, Register(u.core, word / 0x1000), ControlRegister(t, word % 0x1000))
              && (forall rc :: rc != word % 0x1000 ==> ControlRegister(t, rc) == ControlRegister(u, rc))
              && t.core.bus.mem == u.core.bus.mem && t.core.bus.fault.None? && t.core.pc == Wrap(u.core.pc + 2)
              && t.core.d == u.core.d && t.core.a[..7] == u.core.a[..7] && GetSr(t) == GetSr(u) && t.ipc == u.ipc
  {
    hide Wrap, Exception, Peek, MovecIn, Fetch, Keeps, CacheBits, Dispatch, ControlRegister, GetSr;
    SecondWord(u.core);
    var (c, word) := Fetch(u.core, 2, true);
    ControlDecodes(u, ext, other);
    if IsControl(word % 0x1000) {
      MovecInIs(u);
      var (u1, v) := (u.(core := c), Register(u.core, word / 0x1000));
      SetControlIs(u1, word % 0x1000, v);
      BusInvisible(u, u1);
    }
  }

  lemma ControlDecodes(u: Cpu, ext: nat, other: Other)
    requires u.core.model.M68030? && u.s
    ensures Dispatch(u, 0x4E7A, ext, other) == MovecOut(u) && Dispatch(u, 0x4E7B, ext, other) == MovecIn(u)
  {
    hide MovecIn, MovecOut, Move, MovemStore, MovemLoad, Moves, Exception;
    assert !IsMove(0x4E7A) && !IsMove(0x4E7B);
  }

  lemma MovecInIs(u: Cpu)
    requires ControlReady(u) && IsControl(Fetch(u.core, 2, true).1 % 0x1000) && Fetch(u.core, 2, true).1 < 0x1_0000
    ensures var (c, word) := Fetch(u.core, 2, true);
            && c.d == u.core.d && c.a == u.core.a
            && SetControl(u.(core := c), word % 0x1000, Register(u.core, word / 0x1000)) == Some(MovecIn(u))
  {
    hide Read, Wrap, Exception, CacheBits;
    IndexRegister(Fetch(u.core, 2, true).1);
  }

  lemma SetControlIs(u: Cpu, rc: nat, v: Long)
    requires u.s && u.core.model.M68030? && IsControl(rc)
    ensures SetControl(u, rc, v).Some?
    ensures var t := SetControl(u, rc, v).value;
            && Keeps(rc, v, ControlRegister(t, rc))
            && (forall other :: other != rc ==> ControlRegister(t, other) == ControlRegister(u, other))
            && t.core == u.core.(a := t.core.a) && t.core.a[..7] == u.core.a[..7]
            && GetSr(t) == GetSr(u) && t.ipc == u.ipc
  {
    hide Keeps, CacheBits;
    KeepsIs(rc, v);
  }

  lemma BusInvisible(u: Cpu, t: Cpu)
    requires t == u.(core := t.core) && t.core == u.core.(bus := t.core.bus, pc := t.core.pc)
    ensures forall rc :: ControlRegister(t, rc) == ControlRegister(u, rc)
    ensures GetSr(t) == GetSr(u)
  {
  }

  lemma KeepsIs(rc: nat, v: Long)
    ensures Keeps(rc, v, if rc < 2 then v % 8 else if rc == 2 then CacheBits(v) else v)
  {
    hide BitAt;
    if rc == 2 {
      forall i | 0 <= i < 14
        ensures BitAt(CacheBits(v), i)
           <==> BitAt(v, i) && (i == 0 || i == 1 || i == 4 || i == 8 || i == 9 || i == 12 || i == 13)
      {
        CacheBit(v, i);
      }
    }
  }

  lemma CacheBit(v: nat, i: nat)
    requires i < 14
    ensures BitAt(CacheBits(v), i)
       <==> BitAt(v, i) && (i == 0 || i == 1 || i == 4 || i == 8 || i == 9 || i == 12 || i == 13)
  {
    hide BitAt, CacheBits;
    var (q2, q1, q0) := (v / 0x1000 % 4, v / 0x100 % 4, v / 0x10 % 2);
    CacheSum(v);
    NibbleBit((q2 * 0x10 + q1) * 0x10 + q0, v % 4, i);
    CacheField(v, i);
    if i >= 4 {
      NibbleBit(q2 * 0x10 + q1, q0, i - 4);
      CacheField(v, i - 4);
    }
    if i >= 8 {
      NibbleBit(q2, q1, i - 8);
      CacheField(v, i - 8);
    }
    if i >= 12 {
      CacheField(v, i - 12);
    }
  }

  lemma CacheSum(v: nat)
    ensures CacheBits(v) == ((v / 0x1000 % 4 * 0x10 + v / 0x100 % 4) * 0x10 + v / 0x10 % 2) * 0x10 + v % 4
  {
  }

  lemma NibbleBit(hi: nat, lo: nat, i: nat)
    requires lo < 0x10
    ensures BitAt(hi * 0x10 + lo, i) == if i < 4 then BitAt(lo, i) else BitAt(hi, i - 4)
  {
    hide BitAt;
    assert Pow2(4) == 0x10;
    JoinBit(hi, 4, lo, i);
  }

  lemma CacheField(v: nat, i: nat)
    ensures BitAt(v % 4, i) == (i < 2 && BitAt(v, i)) && BitAt(v / 0x10 % 2, i) == (i < 1 && BitAt(v, i + 4))
    ensures BitAt(v / 0x100 % 4, i) == (i < 2 && BitAt(v, i + 8))
    ensures BitAt(v / 0x1000 % 4, i) == (i < 2 && BitAt(v, i + 12))
  {
    hide BitAt, Pow2;
    assert Pow2(1) == 2 && Pow2(2) == 4 && Pow2(4) == 0x10 && Pow2(8) == 0x100 && Pow2(12) == 0x1000 by {
      CachePowers();
    }
    LowBit(v, 2, i);
    FieldBit(v, 4, 1, i);
    FieldBit(v, 8, 2, i);
    FieldBit(v, 12, 2, i);
  }

  lemma CachePowers()
    ensures Pow2(1) == 2 && Pow2(2) == 4 && Pow2(4) == 0x10 && Pow2(8) == 0x100 && Pow2(12) == 0x1000
  {
    assert Pow2(4) == 0x10;
    assert Pow2(8) == 0x100;
  }

  /** Bits of an n-bit field of v that starts at bit k. */
  lemma FieldBit(v: nat, k: nat, n: nat, i: nat)
    ensures BitAt(v / Pow2(k) % Pow2(n), i) == (i < n && BitAt(v, i + k))
  {
    hide BitAt, Pow2;
    DivMod(v, Pow2(k));
    LowBit(v / Pow2(k), n, i);
    ShrBit(v, k, i);
    assert Shr(v, k) == v / Pow2(k);
  }

  // ---- RTE and refusals -------------------------------------------------

  /** Bytes of a stack frame by the format in its fourth word. */
  predicate FrameBytes(format: nat, n: nat) {
    || (format == 0 && n == 8) || (format == 2 && n == 12) || (format == 9 && n == 20)
    || (format == 0xA && n == 32) || (format == 0xB && n == 92)
  }

  predicate KnownFormat(format: nat) {
    format == 0 || format == 2 || format == 9 || format == 0xA || format == 0xB
  }

  /**
  RTE takes status word and PC from the frame and drops exactly the frame; no
  other register and no byte of memory changes.
  */
  lemma RteDoes(u: Cpu, b: int, n: nat, sr: nat, pc: Long, format: nat, ext: nat, other: Other)
    requires Settled(u) && u.s && !u.m && u.core.a[7] == Wrap(b) && Mapped(u.core.bus, Span(b, n))
    requires Holds(u.core.bus.mem, b, sr, pc, u.core.model, format)
    requires if u.core.model.M68030? then FrameBytes(format, n) else n == 6
    ensures var t := Dispatch(u, 0x4E73, ext, other);
            && GetSr(t) == Implemented(u.core.model, sr) && t.core.pc == pc
            && t.core.d == u.core.d && t.core.a[..7] == u.core.a[..7] && t.core.bus.mem == u.core.bus.mem
            && Usp(t) == Usp(u) && Isp(t) == Wrap(b + n) && Msp(t) == Msp(u)
  {
    hide Rte, Settled, Holds, Mapped, Span, GetSr, Implemented, Wrap, Dispatch;
    RteDecodes(u, ext, other);
    RteReturns(u, b, n, sr, pc, format);
  }

  lemma RteDecodes(u: Cpu, ext: nat, other: Other)
    requires u.s
    ensures Dispatch(u, 0x4E73, ext, other) == Rte(u)
  {
    hide Rte, MovecIn, MovecOut, Move, MovemStore, MovemLoad, Moves, Exception;
    assert !IsMove(0x4E73);
  }

  /** An RTE from a frame of any other format is refused through vector 14, at its own address and untraced. */
  lemma FormatErrorDoes(u: Cpu, ext: nat, other: Other)
    requires Valid(u) && ViewsAgree(u) && u.s && u.core.model.M68030? && CanEnter(u, Trap(0x38, u.ipc))
    requires Mapped(u.core.bus, Span(u.core.a[7], 8))
    requires !KnownFormat(Peek(u.core.bus.mem, u.core.a[7] as int + 6, 2) / 0x1000)
    ensures var (u1, t) := (u.(trace := 0), Dispatch(u, 0x4E73, ext, other));
            Entered(u1, t, 8, 0, GetSr(u1), u.ipc) && Vectored(u1, t, 8, 0, 0x38)
  {
    hide Span, Mapped, Peek, Read, Wrap, Dispatch, Exception, GetSr, Implemented, LoadSr, CheckInterrupt;
    RteDecodes(u, ext, other);
    var sp: int := u.core.a[7];
    WrapLong(sp);
    var region := Span(sp, 8);
    SpanMember(sp, 8, 0);
    SpanMember(sp, 8, 2);
    SpanMember(sp, 8, 6);
    ReadReady(u.core.bus, region, sp, 2);
    var b1 := Read(u.core.bus, Wrap(sp), 2).0;
    ReadReady(b1, region, sp + 2, 4);
    var b2 := Read(b1, Wrap(sp + 2), 4).0;
    ReadReady(b2, region, sp + 6, 2);
    var b3 := Read(b2, Wrap(sp + 6), 2).0;
    NoSize(Peek(u.core.bus.mem, sp + 6, 2) / 0x1000);
    var v := u.(core := u.core.(bus := b3), trace := 0);
    SrRange(v);
    RefusalEnters(u.(trace := 0), v, 0x38);
  }

  lemma NoSize(format: nat)
    ensures FrameSize(format).Some? == KnownFormat(format)
  {
  }

  /** A short exception at the instruction's own address; the bytes seen on the way there do not matter. */
  lemma RefusalEnters(u: Cpu, v: Cpu, vector: nat)
    requires Valid(u) && ViewsAgree(u) && CanEnter(u, Trap(vector, u.ipc))
    requires !LongFormat(vector) && u.core.model.M68030?
    requires v == u.(core := u.core.(bus := v.core.bus)) && v.core.bus == u.core.bus.(seen := v.core.bus.seen)
    ensures var t := Exception(v, vector, v.ipc, GetSr(v));
            Entered(u, t, 8, 0, GetSr(u), u.ipc) && Vectored(u, t, 8, 0, vector)
  {
    hide Span, Mapped, Peek, Wrap, Exception, GetSr, Implemented, SameOutside, Holds, ToSupervisor, LongFormat;
    SeenInvisible(u, v);
    SrRange(v);
    ExceptionEnters(v, vector, v.ipc, GetSr(v));
  }

  lemma SeenInvisible(u: Cpu, v: Cpu)
    requires v == u.(core := u.core.(bus := v.core.bus)) && v.core.bus == u.core.bus.(seen := v.core.bus.seen)
    ensures GetSr(v) == GetSr(u)
    ensures var (t, s) := (ToSupervisor(v), ToSupervisor(u));
            t == s.(core := s.core.(bus := s.core.bus.(seen := v.core.bus.seen)))
    ensures forall region :: Mapped(u.core.bus, region) ==> Mapped(v.core.bus, region)
    ensures ToSupervisor(u).core.model == u.core.model
  {
  }

  /** MOVEC with a control register that does not exist is refused through vector 4, at its own address. */
  lemma IllegalControlDoes(u: Cpu, op: nat, ext: nat, other: Other)
    requires Valid(u) && ViewsAgree(u) && ControlReady(u) && (op == 0x4E7A || op == 0x4E7B)
    requires !IsControl(Word(u.core.bus.mem, u.core.pc) % 0x1000)
    requires CanEnter(u.(core := AfterWord(u.core)), Trap(0x10, u.ipc))
    ensures var (u1, t) := (u.(core := AfterWord(u.core)), Dispatch(u, op, ext, other));
            Entered(u1, t, 8, 0, GetSr(u), u.ipc) && Vectored(u1, t, 8, 0, 0x10)
  {
    hide Span, Mapped, Peek, Wrap, Dispatch, Exception, GetSr, Fetch, CanEnter, Entered, Vectored;
    ControlDecodes(u, ext, other);
    SecondWord(u.core);
    var (u1, v) := (u.(core := AfterWord(u.core)), u.(core := Fetch(u.core, 2, true).0));
    BusInvisible(u, u1);
    RefusalEnters(u1, v, 0x10);
  }

  /** In user mode RTE, MOVEC and MOVES are refused through vector 8, at their own address. */
  lemma PrivilegeDoes(u: Cpu, op: nat, ext: nat, other: Other)
    requires Valid(u) && ViewsAgree(u) && !u.s
    requires op == 0x4E73 || (u.core.model.M68030? && (op == 0x4E7A || op == 0x4E7B || IsMoves(u.core.model, op)))
    requires CanEnter(u, Trap(0x20, Wrap(u.core.pc - 2)))
    ensures var (t, n) := (Dispatch(u, op, ext, other), if u.core.model.M68030? then 8 else 6);
            Entered(u, t, n, 0, GetSr(u), Wrap(u.core.pc - 2)) && Vectored(u, t, n, 0, 0x20) && t.s
  {
    hide Span, Mapped, Peek, Wrap, Exception, GetSr, Dispatch, Holds, SameOutside, IsMoves;
    PrivilegeDecodes(u, op, ext, other);
    SrRange(u);
    ExceptionEnters(u, 0x20, Wrap(u.core.pc - 2), GetSr(u));
  }

  lemma PrivilegeDecodes(u: Cpu, op: nat, ext: nat, other: Other)
    requires !u.s
    requires op == 0x4E73 || (u.core.model.M68030? && (op == 0x4E7A || op == 0x4E7B || IsMoves(u.core.model, op)))
    ensures Dispatch(u, op, ext, other) == Exception(u, 0x20, Wrap(u.core.pc - 2), GetSr(u))
  {
    hide Wrap, Exception, GetSr, Rte, MovecIn, MovecOut, Moves, Move, MovemStore, MovemLoad, IsMoves;
    assert op != 0x4E73 && op != 0x4E7A && op != 0x4E7B ==> 0x0E00 <= op < 0x0EC0 by {
      MovesRange(u.core.model, op);
    }
    assert !IsMove(op);
  }

  lemma MovesRange(model: Model, op: nat)
    ensures IsMoves(model, op) ==> 0x0E00 <= op < 0x0EC0
  {
  }

  // ---- ORI, ANDI, SUBI, ADDI, EORI and CMPI -----------------------------

  /** The immediate group by line: 0 ORI, 1 ANDI, 2 SUBI, 3 ADDI, 5 EORI, 6 CMPI. */
  function ImmediateOpcode(line: nat, size: nat, mode: nat, reg: nat): nat {
    0x200 * line + 0x40 * (if size == 1 then 0 else if size == 2 then 1 else 2) + 8 * mode + reg
  }

  /** Dn and alterable memory; CMPI also compares PC-relative operands. */
  predicate ImmediateOperand(line: nat, mode: nat, reg: nat) {
    && line < 7 && line != 4 && reg < 8
    && (mode == 0 || (IsMemoryMode(mode, reg) && (mode == 7 ==> reg < if line == 6 then 4 else 2)))
  }

  /** What each operation makes of its operand and the immediate value. */
  predicate ImmediateMakes(line: nat, size: nat, v: nat, imm: nat, r: nat) {
    match line
    case 2 => r == (v - imm) % Pow256(size)
    case 3 => r == (v + imm) % Pow256(size)
    case _ => forall i :: 0 <= i < 8 * size ==>
      (BitAt(r, i) <==> if line == 0 then BitAt(v, i) || BitAt(imm, i)
                        else if line == 1 then BitAt(v, i) && BitAt(imm, i)
                        else BitAt(v, i) != BitAt(imm, i))
  }

  /**
  An immediate instruction that does not fault, from just past its opcode: the
  result replaces the operand, which is stepped past once though it is
  addressed twice; CMPI stores nothing.
  */
  lemma ImmediateDoes(c: Core, line: nat, size: nat, mode: nat, reg: nat)
    requires IsSize(size) && ImmediateOperand(line, mode, reg)
    requires Disasm.Immediate(c, ImmediateOpcode(line, size, mode, reg)).bus.fault.None?
    ensures var (t, m) := (Disasm.Immediate(c, ImmediateOpcode(line, size, mode, reg)), c.bus.mem);
            var k := if size == 4 then 4 else 2;
            var (c1, imm) := (c.(pc := Wrap(c.pc + k)), Peek(m, c.pc, k) % Pow256(size));
            var v := OperandValue(c1, size, mode, reg);
            if line == 6 then t == Past(c1, size, mode, reg).(bus := t.bus) && t.bus.mem == m
            else exists r :: ImmediateMakes(line, size, v, imm, r) && Replaced(c1, t, size, mode, reg, r)
  {
    hide Read, Peek, Wrap, ReadEa, WriteEa, Past, Address, OperandValue, Disasm.ImmediateResult, ImmediateMakes,
         LowBytes, StoredAt, Merge, ImmediateOpcode, SrcMode, SrcReg, Disasm.ImmediateSize, Pow256;
    var op := ImmediateOpcode(line, size, mode, reg);
    ImmediateDecodes(line, size, mode, reg);
    var k := if size == 4 then 4 else 2;
    var (c1, imm) := (c.(pc := Wrap(c.pc + k)), Peek(c.bus.mem, c.pc, k) % Pow256(size));
    var (f, word) := Fetch(c, k, true);
    ReadQuiet(c.bus, c.pc, k);
    WrapLong(c.pc);
    SameOperand(c1, f, size, mode, reg);
    SameValue(c1, f, size, mode, reg);
    PastKeeps(c1, size, mode, reg);
    if line == 6 {
      ReadEaQuiet(f, size, mode, reg, true);
      ReadIs(c.bus, c.pc, k);
      ReadEaIs(f, size, mode, reg);
    } else {
      var (g, v) := ReadEa(f, size, mode, reg, false);
      ReadEaQuiet(f, size, mode, reg, false);
      var r := Disasm.ImmediateResult(line, size, v, word % Pow256(size));
      Disasm.FaultPersists(g, size, mode, reg, r);
      ReadIs(c.bus, c.pc, k);
      ReadEaPeeks(f, size, mode, reg);
      PeekBound(f, size, mode, reg);
      MakesIs(line, size, v, word % Pow256(size));
      SameOperand(c1, g, size, mode, reg);
      if mode == 0 {
        RegisterStore(g, size, reg, r);
        MergeIs(c.d[reg], size, r);
      } else {
        WriteEaIs(g, size, mode, reg, r);
      }
      assert ImmediateMakes(line, size, v, imm, r) && Replaced(c1, WriteEa(g, size, mode, reg, r), size, mode, reg, r);
    }
  }

  lemma PeekBound(c: Core, size: nat, mode: nat, reg: nat)
    requires reg < 8 && IsSize(size)
    ensures ReadEa(c, size, mode, reg, false).1 < Pow256(size)
  {
    hide CalcEa, Peek;
  }

  lemma SameValue(c: Core, c1: Core, size: nat, mode: nat, reg: nat)
    requires reg < 8 && c1 == c.(bus := c1.bus) && c1.bus.mem == c.bus.mem
    ensures OperandValue(c1, size, mode, reg) == OperandValue(c, size, mode, reg)
  {
    hide Peek, Address;
    SameOperand(c, c1, size, mode, reg);
  }

  lemma MakesIs(line: nat, size: nat, v: nat, imm: nat)
    requires IsSize(size) && line < 6 && line != 4 && v < Pow256(size) && imm < Pow256(size)
    ensures var r := Disasm.ImmediateResult(line, size, v, imm);
            ImmediateMakes(line, size, v, imm, r) && r < Pow256(size)
  {
    hide BitAt, Pow256, Arithmetic.And, Arithmetic.Or, Arithmetic.Xor;
    LimbRadix(size);
    RangesOf(8 * size, v, imm);
    forall i | 0 <= i < 8 * size
      ensures BitAt(Arithmetic.Or(8 * size, v, imm), i) == (BitAt(v, i) || BitAt(imm, i))
      ensures BitAt(Arithmetic.And(8 * size, v, imm), i) == (BitAt(v, i) && BitAt(imm, i))
      ensures BitAt(Arithmetic.Xor(8 * size, v, imm), i) == (BitAt(v, i) != BitAt(imm, i))
    {
      BitsOf(8 * size, v, imm, i);
    }
  }

  lemma ImmediateDecodes(line: nat, size: nat, mode: nat, reg: nat)
    requires IsSize(size) && ImmediateOperand(line, mode, reg)
    ensures var op := ImmediateOpcode(line, size, mode, reg);
            && op / 0x200 == line && SrcMode(op) == mode && SrcReg(op) == reg && Disasm.ImmediateSize(op) == size
            && Disasm.ImmediateWords(op) == (if size == 4 then 2 else 1) && Disasm.IsImmediate(op)
  {
    var code := if size == 1 then 0 else if size == 2 then 1 else 2;
    Fields(0, line, code, mode, reg);
    assert ImmediateOpcode(line, size, mode, reg) == 0x1000 * 0 + 0x200 * line + 0x40 * code + 8 * mode + reg;
  }

  // ---- which opcodes these are ------------------------------------------

  ghost predicate IsMoveWord(op: nat) {
    exists size: nat :: MoveOperands(size, op / 8 % 8, op % 8, op / 0x40 % 8, op / 0x200 % 8)
                        && op == MoveOpcode(size, op / 8 % 8, op % 8, op / 0x40 % 8, op / 0x200 % 8)
  }

  predicate IsRestoreWord(op: nat) {
    var (mode, reg) := (op / 8 % 8, op % 8);
    && (op == RestoreOpcode(2, mode, reg) || op == RestoreOpcode(4, mode, reg))
    && IsMemoryMode(mode, reg) && mode != 4 && (mode == 7 ==> reg < 4)
  }

  ghost predicate IsExtendedWord(op: nat) {
    exists form: Op, size: nat :: IsSize(size) && Suits(form, 8 * size)
                                  && op == ExtendedOpcode(form, size, op / 0x200 % 8, op % 8)
  }

  predicate IsMovesWord(op: nat) {
    var (mode, reg) := (op / 8 % 8, op % 8);
    && (op == MovesOpcode(1, mode, reg) || op == MovesOpcode(2, mode, reg) || op == MovesOpcode(4, mode, reg))
    && IsMemoryMode(mode, reg) && (mode == 7 ==> reg < 2)
  }

  /** Only the opcodes above are taken for instructions of these families. */
  lemma FamilyOpcodes(model: Model, op: nat)
    requires op < 0x1_0000
    ensures match FamilyOf(model, op)
            case MoveFamily => IsMoveWord(op)
            case MovemStoreFamily => op == SaveOpcode(2, op % 8) || op == SaveOpcode(4, op % 8)
            case MovemLoadFamily => IsRestoreWord(op)
            case ExtendedFamily => IsExtendedWord(op)
            case RteFamily => op == 0x4E73
            case MovecOutFamily => op == 0x4E7A && model.M68030?
            case MovecInFamily => op == 0x4E7B && model.M68030?
            case MovesFamily => IsMovesWord(op) && model.M68030?
            case OtherFamily => true
  {
    hide MoveOpcode, SaveOpcode, RestoreOpcode, ExtendedOpcode, MovesOpcode, IsMove, IsMovemLoad, IsMovemStore, IsMoves,
         ExtendedForm;
    var (mode, reg) := (op / 8 % 8, op % 8);
    if IsMove(op) {
      MoveEncodes(op);
    }
    if IsMovemStore(op) || IsMovemLoad(op) {
      MovemEncodes(op);
    }
    if ExtendedForm(model, op).Some? {
      ExtendedEncodes(model, op);
      var (form, size) := ExtendedForm(model, op).value;
      assert op == ExtendedOpcode(form, size, op / 0x200 % 8, reg);
    }
    if IsMoves(model, op) {
      MovesEncodes(model, op);
    }
  }

  /** An opcode is the sum of its fields. */
  lemma FieldSum(op: nat)
    ensures op == 0x1000 * (op / 0x1000) + 0x200 * (op / 0x200 % 8) + 0x40 * (op / 0x40 % 8) + 8 * (op / 8 % 8) + op % 8
  {
    assert op / 0x40 == op / 8 / 8 && op / 0x200 == op / 0x40 / 8 && op / 0x1000 == op / 0x200 / 8;
  }

  lemma MoveEncodes(op: nat)
    requires IsMove(op)
    ensures var (size, dmode, dreg) := (MoveSize(op), op / 0x40 % 8, op / 0x200 % 8);
            && MoveOperands(size, op / 8 % 8, op % 8, dmode, dreg)
            && op == MoveOpcode(size, op / 8 % 8, op % 8, dmode, dreg)
  {
    FieldSum(op);
    assert op / 0x1000 == 1 || op / 0x1000 == 2 || op / 0x1000 == 3;
  }

  lemma MovemEncodes(op: nat)
    ensures IsMovemStore(op) ==> op == SaveOpcode(2, op % 8) || op == SaveOpcode(4, op % 8)
    ensures IsMovemLoad(op) ==>
              && (op == RestoreOpcode(2, op / 8 % 8, op % 8) || op == RestoreOpcode(4, op / 8 % 8, op % 8))
              && IsMemoryMode(op / 8 % 8, op % 8) && op / 8 % 8 != 4 && (op / 8 % 8 == 7 ==> op % 8 < 4)
  {
    FieldSum(op);
    if 0x4C80 <= op < 0x4D00 {
      assert op / 0x1000 == 4 && op / 0x200 == 38 && (op / 0x40 == 306 || op / 0x40 == 307);
    }
  }

  lemma ExtendedEncodes(model: Model, op: nat)
    requires ExtendedForm(model, op).Some? && op < 0x1_0000
    ensures var (form, size) := ExtendedForm(model, op).value;
            IsSize(size) && Suits(form, 8 * size) && op == ExtendedOpcode(form, size, op / 0x200 % 8, op % 8)
  {
    FieldSum(op);
    MiddleParts(op);
  }

  lemma MiddleParts(op: nat)
    ensures op / 8 % 64 == 8 * (op / 0x40 % 8) + op / 8 % 8
  {
    assert op / 0x40 == op / 8 / 8;
    assert op / 8 == 64 * (op / 8 / 64) + op / 8 % 64;
  }

  lemma MovesEncodes(model: Model, op: nat)
    requires IsMoves(model, op)
    ensures var (mode, reg) := (op / 8 % 8, op % 8);
            && (op == MovesOpcode(1, mode, reg) || op == MovesOpcode(2, mode, reg) || op == MovesOpcode(4, mode, reg))
            && model.M68030? && IsMemoryMode(mode, reg) && (mode == 7 ==> reg < 2)
  {
    FieldSum(op);
    assert op / 0x1000 == 0 && op / 0x200 == 7 && 56 <= op / 0x40 < 59;
  }
}
