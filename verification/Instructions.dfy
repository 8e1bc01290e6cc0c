/**
One instruction of either decoder: the head of the sprint loop
(src/core/cpu/cpu_68000.c, src/core/cpu/cpu_68030.c) and the dispatch to the
instruction families modelled here (src/core/cpu/cpu_decode.h). Any other
opcode is an arbitrary sequence of register updates, memory accesses, exception
entries and status loads.
*/
module Instructions {
  import opened Words
  import opened Memory
  import opened Operands
  import opened System
  import opened Movem
  import opened Banking
  import opened Arithmetic
  import opened LimbChains
  import opened Chains

  // ---- the head of an instruction ---------------------------------------

  /** The 68000 drives 24 address bits. */
  function Narrow(u: Cpu): Cpu {
    if u.core.model.M68000? then u.(core := u.core.(pc := u.core.pc % 0x100_0000)) else u
  }

  /** Fetch, instruction address, and forgetting a remembered fault once user code has moved on. */
  function Head(u: Cpu): (Cpu, nat) {
    var (c, word) := FetchOpcode(u.core);
    var at := u.core.pc;
    (u.(ipc := at,
        lastFault := if u.lastFault != 0 && !u.s && u.lastFault != at then 0 else u.lastFault,
        core := c),
     word)
  }

  // ---- families ---------------------------------------------------------

  /** N and Z from the value moved, V and C clear, X kept. */
  function MoveCcr(f: System.Ccr, size: nat, v: nat): System.Ccr {
    f.(n := 2 * v >= Pow256(size), z := v == 0, v := false, c := false)
  }

  /** MOVEM.W or MOVEM.L of a register list to -(An). */
  predicate IsMovemStore(op: nat) {
    0x48A0 <= op < 0x48A8 || 0x48E0 <= op < 0x48E8
  }

  /** MOVEM.W or MOVEM.L from a control address or (An)+. */
  predicate IsMovemLoad(op: nat) {
    0x4C80 <= op < 0x4D00 && (var i := ModeIndex(SrcMode(op), SrcReg(op)); i == 2 || i == 3 || 5 <= i < 11)
  }

  function MovemStep(op: nat): nat {
    if op / 0x40 % 2 == 0 then 2 else 4
  }

  /** ADDX, SUBX, ABCD and SBCD -(Ay),-(Ax) with their operand size. */
  function ExtendedForm(model: Model, op: nat): Option<(Op, nat)> {
    var low := op / 8 % 64;
    var top := op / 0x1000;
    if top == 0xC && low == 0x21 then Some((Decimal(Plus, model), 1))
    else if top == 0x8 && low == 0x21 then Some((Decimal(Minus, model), 1))
    else if top != 0xD && top != 0x9 then None
    else
      var kind := if top == 0xD then Plus else Minus;
      if low == 0x21 then Some((Binary(kind), 1))
      else if low == 0x29 then Some((Binary(kind), 2))
      else if low == 0x31 then Some((Binary(kind), 4))
      else None
  }

  lemma ExtendedFits(model: Model, op: nat)
    ensures var e := ExtendedForm(model, op);
            e.Some? ==> OperandSize(e.value.1) && Suits(e.value.0, 8 * e.value.1)
  {
  }

  /** MOVES to or from memory, by the direction bit of its second word. */
  predicate IsMoves(model: Model, op: nat) {
    model.M68030? && 0x0E00 <= op < 0x0EC0 && 2 <= ModeIndex(SrcMode(op), SrcReg(op)) < 9
  }

  function MovesForm(op: nat, ext: nat): Transfer {
    Transfer(Bit(ext, 0x800), if op / 0x40 % 4 == 0 then 1 else if op / 0x40 % 4 == 1 then 2 else 4,
             SrcMode(op), SrcReg(op))
  }

  datatype Family = MoveFamily | MovemStoreFamily | MovemLoadFamily | ExtendedFamily
                  | RteFamily | MovecOutFamily | MovecInFamily | MovesFamily | OtherFamily

  function FamilyOf(model: Model, op: nat): Family {
    if IsMove(op) then MoveFamily
    else if IsMovemStore(op) then MovemStoreFamily
    else if IsMovemLoad(op) then MovemLoadFamily
    else if ExtendedForm(model, op).Some? then ExtendedFamily
    else if op == 0x4E73 then RteFamily
    else if op == 0x4E7A && model.M68030? then MovecOutFamily
    else if op == 0x4E7B && model.M68030? then MovecInFamily
    else if IsMoves(model, op) then MovesFamily
    else OtherFamily
  }

  function PerformMove(u: Cpu, op: nat): Cpu {
    var (c, v) := Move(u.core, op);
    u.(core := c, ccr := MoveCcr(u.ccr, MoveSize(op), v))
  }

  function PerformMovemStore(u: Cpu, op: nat): Cpu {
    u.(core := MovemStore(u.core, op % 8, MovemStep(op)))
  }

  function PerformMovemLoad(u: Cpu, op: nat): Cpu {
    u.(core := MovemLoad(u.core, SrcMode(op), SrcReg(op), MovemStep(op)))
  }

  function PerformExtended(u: Cpu, op: nat): Cpu
    requires ExtendedForm(u.core.model, op).Some?
  {
    ExtendedFits(u.core.model, op);
    var (form, size) := ExtendedForm(u.core.model, op).value;
    var (c, f) := ExtendedMem(form, u.core, u.ccr, size, op / 0x200 % 8, op % 8);
    u.(core := c, ccr := f)
  }

  // ---- any other instruction --------------------------------------------

  datatype Act =
    | Local(d: Regs, a: Regs, pc: Long, ccr: System.Ccr, usp: Long)
    | Load(addr: Long, size: nat, accept: nat -> (Regs, Regs))
    | Put(addr: Long, size: nat, value: nat)
    | Raise(vector: nat, pc: Long)
    | SetStatus(sr: nat)

  /** A step decides what to do from the state it finds. */
  type Micro = Cpu -> Act

  /** The instruction an opcode and the word after it stand for. */
  type Other = (Cpu, nat, nat) -> seq<Micro>

  function Do(u: Cpu, act: Act): Cpu {
    match act
    case Local(d, a, pc, ccr, usp) => u.(ccr := ccr, usp := usp, core := u.core.(d := d, a := a, pc := pc))
    case Load(addr, size, accept) =>
      var (b, v) := Read(u.core.bus, addr, size);
      var (d, a) := accept(v);
      u.(core := u.core.(bus := b, d := d, a := a))
    case Put(addr, size, v) => u.(core := u.core.(bus := Write(u.core.bus, addr, size, v)))
    case Raise(vector, pc) => Exception(u, vector, pc, GetSr(u))
    case SetStatus(sr) => WriteSr(u, sr)
  }

  function DoAll(u: Cpu, ms: seq<Micro>): Cpu
    decreases |ms|
  {
    if ms == [] then u else DoAll(Do(u, ms[0](u)), ms[1..])
  }

  // ---- dispatch ---------------------------------------------------------

  function Dispatch(u: Cpu, op: nat, ext: nat, other: Other): Cpu {
    match FamilyOf(u.core.model, op)
    case MoveFamily => PerformMove(u, op)
    case MovemStoreFamily => PerformMovemStore(u, op)
    case MovemLoadFamily => PerformMovemLoad(u, op)
    case ExtendedFamily => PerformExtended(u, op)
    case RteFamily => Privileged(u, Rte(u))
    case MovecOutFamily => Privileged(u, MovecOut(u))
    case MovecInFamily => Privileged(u, MovecIn(u))
    case MovesFamily => Privileged(u, Moves(u, MovesForm(op, ext)))
    case OtherFamily => DoAll(u, other(u, op, ext))
  }

  // ---- what every instruction keeps -------------------------------------

  lemma WriteEaViews(c: Core, size: nat, mode: nat, reg: nat, v: nat)
    requires reg < 8
    ensures var t := WriteEa(c, size, mode, reg, v); SameViews(c.bus, t.bus) && t.model == c.model
  {
    hide CalcEa, Write, Merge;
    if mode >= 2 {
      CalcEaQuiet(c, size, mode, reg, true);
      var (c1, ea) := CalcEa(c, size, mode, reg, true);
      WriteViews(c1.bus, ea, size, v);
    }
  }

  lemma MoveViews(c: Core, op: nat)
    ensures var t := Move(c, op).0; SameViews(c.bus, t.bus) && t.model == c.model
  {
    hide ReadEa, WriteEa, MoveSize, SrcMode, SrcReg, DstMode, DstReg;
    ReadEaQuiet(c, MoveSize(op), SrcMode(op), SrcReg(op), true);
    var (c1, v) := ReadEa(c, MoveSize(op), SrcMode(op), SrcReg(op), true);
    WriteEaViews(c1, MoveSize(op), DstMode(op), DstReg(op), v);
  }

  lemma {:induction false} StoreDownViews(c: Core, l: RegList, step: nat, an: nat, k: nat, b: Bus, at: Long)
    requires k <= 16 && an < 8
    ensures SameViews(b, StoreDown(c, l, step, an, k, b, at).0)
    decreases k
  {
    hide Write, Wrap, Stored;
    if k > 0 && b.fault.None? {
      var next, v := Wrap(at as int - step), Stored(c, k - 1, step, an);
      WriteViews(b, next, step, v);
      StoreDownViews(c, l, step, an, k - 1, b, at);
      StoreDownViews(c, l, step, an, k - 1, Write(b, next, step, v), next);
    }
  }

  lemma {:induction false} LoadUpViews(l: RegList, step: nat, k: nat, b: Bus, ea: Long, vals: seq<Long>)
    requires k <= 16 && |vals| == 16
    ensures SameViews(b, LoadUp(l, step, k, b, ea, vals).0)
    decreases 16 - k
  {
    hide Read, Wrap, Extend;
    if k < 16 && b.fault.None? {
      ReadViews(b, ea, step);
      LoadUpViews(l, step, k + 1, b, ea, vals);
      var (b', v) := Read(b, ea, step);
      LoadUpViews(l, step, k + 1, b', Wrap(ea + step), vals[k := Extend(step, v)]);
    }
  }

  lemma MovemViews(c: Core, mode: nat, reg: nat, step: nat)
    requires reg < 8
    ensures var t := MovemStore(c, reg, step); SameViews(c.bus, t.bus) && t.model == c.model
    ensures var t := MovemLoad(c, mode, reg, step); SameViews(c.bus, t.bus) && t.model == c.model
  {
    hide Fetch, CalcEa, StoreDown, LoadUp, ListUp, ListDown;
    FetchViews(c);
    var (c1, mask) := Fetch(c, 2, true);
    StoreDownViews(c1, ListDown(mask), step, reg, 16, c1.bus, c1.a[reg]);
    CalcEaQuiet(c1, 4, mode, reg, true);
    var (c2, ea) := CalcEa(c1, 4, mode, reg, true);
    LoadUpViews(ListUp(mask), step, 0, c2.bus, ea, c2.d + c2.a);
  }

  lemma ExtendedViews(op: Op, c: Core, f: System.Ccr, size: nat, x: nat, y: nat)
    requires Suits(op, 8 * size) && x < 8 && y < 8 && OperandSize(size)
    ensures var t := ExtendedMem(op, c, f, size, x, y).0; SameViews(c.bus, t.bus) && t.model == c.model
  {
    hide Read, Write, Wrap, OneLimb, Pow2, Pow256;
    LimbRadix(size);
    var c1 := c.(a := c.a[y := Wrap(c.a[y] as int - Step(size, y))]);
    ReadViews(c1.bus, c1.a[y], size);
    var (b1, src) := Read(c1.bus, c1.a[y], size);
    var c2 := c1.(bus := b1, a := c1.a[x := Wrap(c1.a[x] as int - Step(size, x))]);
    ReadViews(b1, c2.a[x], size);
    var (b2, dst) := Read(b1, c2.a[x], size);
    WriteViews(b2, c2.a[x], size, OneLimb(op, 8 * size, dst, src, f).0);
  }

  lemma DoSteady(u: Cpu, act: Act)
    ensures Steady(u, Do(u, act))
  {
    hide Exception, WriteSr, Read, Write, GetSr;
    match act
    case Local(_, _, _, _, _) =>
    case Load(addr, size, _) => ReadViews(u.core.bus, addr, size);
    case Put(addr, size, v) => WriteViews(u.core.bus, addr, size, v);
    case Raise(vector, pc) => ExceptionSteady(u, vector, pc, GetSr(u));
    case SetStatus(sr) => WriteSrSteady(u, sr);
  }

  lemma {:induction false} DoAllSteady(u: Cpu, ms: seq<Micro>)
    ensures Steady(u, DoAll(u, ms))
    decreases |ms|
  {
    hide Do;
    if ms != [] {
      var v := Do(u, ms[0](u));
      DoSteady(u, ms[0](u));
      DoAllSteady(v, ms[1..]);
    }
  }

  /** Every instruction keeps fields in range, tables in step with privilege, and its own address. */
  lemma DispatchSteady(u: Cpu, op: nat, ext: nat, other: Other)
    ensures Steady(u, Dispatch(u, op, ext, other))
  {
    hide Steady, FamilyOf, Move, MovemStore, MovemLoad, ExtendedMem, Rte, MovecOut, MovecIn, Moves, DoAll, Privileged;
    FamilyExtended(u.core.model, op);
    match FamilyOf(u.core.model, op)
    case MoveFamily =>
      MoveViews(u.core, op);
      var (c, v) := Move(u.core, op);
      CoreSteady(u, c, MoveCcr(u.ccr, MoveSize(op), v));
    case MovemStoreFamily =>
      MovemViews(u.core, 0, op % 8, MovemStep(op));
      CoreSteady(u, MovemStore(u.core, op % 8, MovemStep(op)), u.ccr);
    case MovemLoadFamily =>
      MovemViews(u.core, SrcMode(op), SrcReg(op), MovemStep(op));
      CoreSteady(u, MovemLoad(u.core, SrcMode(op), SrcReg(op), MovemStep(op)), u.ccr);
    case ExtendedFamily => PerformExtendedSteady(u, op);
    case RteFamily => RteSteady(u); PrivilegedSteady(u, Rte(u));
    case MovecOutFamily => MovecSteady(u); PrivilegedSteady(u, MovecOut(u));
    case MovecInFamily => MovecSteady(u); PrivilegedSteady(u, MovecIn(u));
    case MovesFamily =>
      MovesSteady(u, MovesForm(op, ext));
      PrivilegedSteady(u, Moves(u, MovesForm(op, ext)));
    case OtherFamily => DoAllSteady(u, other(u, op, ext));
  }

  lemma FamilyExtended(model: Model, op: nat)
    ensures FamilyOf(model, op).ExtendedFamily? ==> ExtendedForm(model, op).Some?
  {
  }

  lemma PerformExtendedSteady(u: Cpu, op: nat)
    requires ExtendedForm(u.core.model, op).Some?
    ensures Steady(u, PerformExtended(u, op))
  {
    hide Steady, ExtendedForm, ExtendedMem;
    ExtendedFits(u.core.model, op);
    var (form, size) := ExtendedForm(u.core.model, op).value;
    ExtendedViews(form, u.core, u.ccr, size, op / 0x200 % 8, op % 8);
    var (c, f) := ExtendedMem(form, u.core, u.ccr, size, op / 0x200 % 8, op % 8);
    CoreSteady(u, c, f);
  }
}
