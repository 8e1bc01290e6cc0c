/**
Control-register access and privileged instructions: MOVEC sees exactly the
three stack pointers a program sees, and the active translation tables follow
the supervisor bit across every sequence of status-register loads, exceptions,
returns and MOVES accesses (src/core/cpu/cpu_68030.c, src/core/cpu/cpu_ops.h).
*/
module Banking {
  import opened Words
  import opened Memory
  import opened Operands
  import opened System
  import opened Nesting

  // ---- MOVEC ------------------------------------------------------------

  /** Value of a control register in supervisor mode (`cpu_movec_rc_rn`). */
  function ControlValue(u: Cpu, rc: nat): Option<int> {
    match rc
    case 0x000 => Some(u.sfc)
    case 0x001 => Some(u.dfc)
    case 0x002 => Some(u.cacr)
    case 0x800 => Some(u.usp)
    case 0x801 => Some(u.vbr)
    case 0x802 => Some(u.caar)
    case 0x803 => Some(if u.m then u.core.a[7] else u.msp)
    case 0x804 => Some(if u.m then u.ssp else u.core.a[7])
    case _ => None
  }

  /** Bits of CACR the 68030 implements: mask 0x3313. */
  function CacheBits(v: nat): nat {
    v % 4 + v / 0x10 % 2 * 0x10 + v / 0x100 % 4 * 0x100 + v / 0x1000 % 4 * 0x1000
  }

  /** Loading a control register in supervisor mode (`cpu_movec_rn_rc`). */
  function SetControl(u: Cpu, rc: nat, v: Long): Option<Cpu> {
    match rc
    case 0x000 => Some(u.(sfc := v % 8))
    case 0x001 => Some(u.(dfc := v % 8))
    case 0x002 => Some(u.(cacr := CacheBits(v)))
    case 0x800 => Some(u.(usp := v))
    case 0x801 => Some(u.(vbr := v))
    case 0x802 => Some(u.(caar := v))
    case 0x803 => Some(if u.m then SetA7(u, v) else u.(msp := v))
    case 0x804 => Some(if u.m then u.(ssp := v) else SetA7(u, v))
    case _ => None
  }

  function SetReg(u: Cpu, da: bool, rn: nat, v: int): Cpu
    requires rn < 8
  {
    if da then u.(core := u.core.(a := u.core.a[rn := Wrap(v)]))
    else u.(core := u.core.(d := u.core.d[rn := Wrap(v)]))
  }

  /** Illegal instruction on the 68030 stacks the instruction's own address. */
  function Illegal(u: Cpu): Cpu {
    Exception(u, 0x10, u.ipc, GetSr(u))
  }

  /** MOVEC Rc,Rn and MOVEC Rn,Rc after the privilege check. */
  function MovecOut(u: Cpu): Cpu {
    var (c, ext) := Fetch(u.core, 2, true);
    var t := u.(core := c);
    match ControlValue(t, ext % 0x1000)
    case None => Illegal(t)
    case Some(v) => SetReg(t, Bit(ext, 0x8000), ext / 0x1000 % 8, v)
  }

  function MovecIn(u: Cpu): Cpu {
    var (c, ext) := Fetch(u.core, 2, true);
    var rn := ext / 0x1000 % 8;
    var t := u.(core := c);
    match SetControl(t, ext % 0x1000, if Bit(ext, 0x8000) then c.a[rn] else c.d[rn])
    case None => Illegal(t)
    case Some(r) => r
  }

  /** In supervisor mode MOVEC reads USP, MSP and ISP as the program sees them. */
  lemma ControlReadsPointers(u: Cpu)
    requires u.s && (u.core.model.M68030? || !u.m)
    ensures ControlValue(u, 0x800) == Some(Usp(u))
    ensures ControlValue(u, 0x803) == Some(Msp(u))
    ensures ControlValue(u, 0x804) == Some(Isp(u))
  {
  }

  /** A load of one stack pointer sets that one and leaves the other two alone. */
  lemma ControlWritesPointers(u: Cpu, rc: nat, v: Long)
    requires u.s && SetControl(u, rc, v).Some?
    ensures var t := SetControl(u, rc, v).value;
            && Usp(t) == (if rc == 0x800 then v else Usp(u))
            && Msp(t) == (if rc == 0x803 then v else Msp(u))
            && Isp(t) == (if rc == 0x804 then v else Isp(u))
            && ControlValue(t, rc) == Some(if rc < 2 then v % 8 else if rc == 2 then CacheBits(v) else v)
            && GetSr(t) == GetSr(u) && t.core.d == u.core.d && t.core.a[..7] == u.core.a[..7]
            && forall other :: other != rc && ControlValue(u, other).Some? ==>
                 ControlValue(t, other) == ControlValue(u, other)
  {
  }

  // ---- MOVES ------------------------------------------------------------

  datatype Transfer = Transfer(store: bool, size: nat, mode: nat, reg: nat)

  /** View selected by a function code. */
  function AltView(fc: nat): View {
    if Bit(fc, 4) then Supervisor else User
  }

  /** Address of the operand; (An)+ and -(An) are stepped only when the access succeeds. */
  function TransferEa(c: Core, x: Transfer): (Core, Long)
    requires x.reg < 8
  {
    CalcEa(c, x.size, x.mode, x.reg, !AutoStep(x.mode))
  }

  function Stepped(c: Core, x: Transfer): Core
    requires x.reg < 8
  {
    CalcEa(c, x.size, x.mode, x.reg, AutoStep(x.mode)).0
  }

  /** Source of a store: an address register that also steps is stored stepped. */
  function TransferValue(c: Core, x: Transfer, da: bool, rn: nat): nat
    requires x.reg < 8 && rn < 8
  {
    (if !da then c.d[rn] else if rn == x.reg && AutoStep(x.mode) then Stepped(c, x).a[rn] else c.a[rn])
    % Pow256(x.size)
  }

  /** A loaded value is sign-extended into An and merged into Dn. */
  function LoadInto(c: Core, size: nat, da: bool, rn: nat, v: nat): Core
    requires rn < 8
  {
    if da then c.(a := c.a[rn := Wrap(if size == 1 then S8(v) else if size == 2 then S16(v) else v)])
    else c.(d := c.d[rn := Merge(c.d[rn], size, v)])
  }

  /** MOVES after the privilege check: the data access alone goes through the other view. */
  function Moves(u: Cpu, x: Transfer): Cpu
    requires x.reg < 8
  {
    var (c1, ext) := Fetch(u.core, 2, true);
    var da, rn := Bit(ext, 0x8000), ext / 0x1000 % 8;
    var (c2, ea) := TransferEa(c1, x);
    if x.store then
      var swapped := c2.bus.(writeView := AltView(u.dfc));
      var b := Write(swapped, ea, x.size, TransferValue(c2, x, da, rn)).(writeView := c2.bus.writeView);
      var c3 := c2.(bus := b);
      u.(core := if b.fault.Some? || !AutoStep(x.mode) then c3 else Stepped(c3, x))
    else
      var swapped := c2.bus.(readView := AltView(u.sfc));
      var (b0, v) := Read(swapped, ea, x.size);
      var b := b0.(readView := c2.bus.readView);
      var c3 := c2.(bus := b);
      if b.fault.Some? then u.(core := c3)
      else u.(core := LoadInto(if AutoStep(x.mode) then Stepped(c3, x) else c3, x.size, da, rn, v))
  }

  /** The store of a faulting MOVES goes ahead: a word of the instruction, not the store itself, faulted. */
  predicate StoresAnyway(u: Cpu, x: Transfer, c2: Core, ea: Long) {
    x.store && c2.bus.fault.Some? && !Faults(c2.bus.(writeView := AltView(u.dfc)), Access(ea, x.size, true))
  }

  /**
  MOVES that faults changes no register, and memory exactly when a word of the
  instruction itself could not be fetched and the store is mapped: it then goes
  ahead, with the register and to the address the all-ones word stands for.
  */
  lemma MovesRollback(u: Cpu, x: Transfer)
    requires x.reg < 8 && u.core.bus.fault.None?
    ensures var t := Moves(u, x);
            var (c1, ext) := Fetch(u.core, 2, true);
            var (c2, ea) := TransferEa(c1, x);
            t.core.bus.fault.Some? ==>
              && t.core.d == u.core.d && t.core.a == u.core.a
              && t.core.bus.mem ==
                 if StoresAnyway(u, x, c2, ea)
                 then Poke(u.core.bus.mem, ea, x.size, TransferValue(c2, x, Bit(ext, 0x8000), ext / 0x1000 % 8))
                 else u.core.bus.mem
  {
    hide CalcEa, Peek, Poke, Wrap, Span;
    var (c1, ext) := Fetch(u.core, 2, true);
    CalcEaQuiet(c1, x.size, x.mode, x.reg, !AutoStep(x.mode));
    var (c2, ea) := TransferEa(c1, x);
    var sb := Write(c2.bus.(writeView := AltView(u.dfc)), ea, x.size,
                    TransferValue(c2, x, Bit(ext, 0x8000), ext / 0x1000 % 8)).(writeView := c2.bus.writeView);
    CalcEaQuiet(c2.(bus := sb), x.size, x.mode, x.reg, AutoStep(x.mode));
    var lb := Read(c2.bus.(readView := AltView(u.sfc)), ea, x.size).0.(readView := c2.bus.readView);
    CalcEaQuiet(c2.(bus := lb), x.size, x.mode, x.reg, AutoStep(x.mode));
  }

  /** MOVES.B Rn,(An) whose second word faults stores the low byte of A7, which all ones name, at (An). */
  lemma MovesStoresAnyway(u: Cpu, reg: nat)
    requires reg < 8 && u.core.bus.fault.None? && Faults(u.core.bus, Access(u.core.pc, 2, false))
    requires !Faults(u.core.bus.(writeView := AltView(u.dfc)), Access(u.core.a[reg], 1, true))
    ensures var t := Moves(u, Transfer(true, 1, 2, reg));
            && t.core.bus.fault == Some(Access(u.core.pc, 2, false))
            && t.core.bus.mem == u.core.bus.mem[u.core.a[reg] := u.core.a[7] % 0x100]
  {
    hide Peek, Span;
    Pow256Values();
    var (c1, ext) := Fetch(u.core, 2, true);
    assert ext == 0xFFFF;
    assert Bit(ext, 0x8000) && ext / 0x1000 % 8 == 7;
    var (m, a) := (u.core.bus.mem, u.core.a[reg]);
    assert Poke(m, a, 0, u.core.a[7] % 0x100 / 256) == m;
    assert Wrap(a) == a;
  }

  /** A machine on which that changes a byte. */
  function MovesMachine(): Cpu {
    var missing := {Access(0x1000, 2, false)};
    var core := Core([0, 0, 0, 0, 0, 0, 0, 0], [0x2000, 0, 0, 0, 0, 0, 0, 0x3001], 0x1000,
                     Bus(map[], missing, missing, Supervisor, Supervisor, None, {}), M68030);
    Cpu(core, Ccr(false, false, false, false, false), true, false, 0, 0, 0, 0, 0, 0, 0, 5, 5, 0, 0, 0, 0, false)
  }

  lemma FaultingMovesWrites()
    ensures var (u, t) := (MovesMachine(), Moves(MovesMachine(), Transfer(true, 1, 2, 0)));
            && u.core.bus.fault.None? && t.core.bus.fault.Some?
            && Get(u.core.bus.mem, 0x2000) == 0 && Get(t.core.bus.mem, 0x2000) == 1
  {
    hide Moves;
    MovesStoresAnyway(MovesMachine(), 0);
  }

  // ---- runs -------------------------------------------------------------

  datatype Action =
    | LoadStatus(sr: nat)           // MOVE/ANDI/ORI/EORI to SR
    | Take(entry: Entry)            // exception or interrupt entry
    | Return                        // RTE
    | ReadControl                   // MOVEC Rc,Rn
    | WriteControl                  // MOVEC Rn,Rc
    | AltAccess(transfer: Transfer) // MOVES
    | Poll(ipl: nat)                // a device changes its request and the CPU looks

  /** Privileged steps trap in user mode. */
  function Privileged(u: Cpu, t: Cpu): Cpu {
    if u.s then t else Exception(u, 0x20, Wrap(u.core.pc - 2), GetSr(u))
  }

  function Apply(u: Cpu, s: Action): Cpu {
    match s
    case LoadStatus(sr) => Privileged(u, WriteSr(u, sr))
    case Take(e) => Enter(u, e)
    case Return => Privileged(u, Rte(u))
    case ReadControl => Privileged(u, MovecOut(u))
    case WriteControl => Privileged(u, MovecIn(u))
    case AltAccess(x) => if x.reg < 8 then Privileged(u, Moves(u, x)) else u
    case Poll(ipl) => CheckInterrupt(u.(ipl := ipl))
  }

  function ApplyAll(u: Cpu, ss: seq<Action>): Cpu
    decreases |ss|
  {
    if ss == [] then u else ApplyAll(Apply(u, ss[0]), ss[1..])
  }

  // ---- what every step keeps --------------------------------------------

  predicate SameViews(b: Bus, b': Bus) {
    b'.readView == b.readView && b'.writeView == b.writeView
  }

  /** Field ranges and the agreement of tables and privilege survive; ipc and model do not change. */
  predicate Steady(u: Cpu, t: Cpu) {
    && (Valid(u) ==> Valid(t)) && (ViewsAgree(u) ==> ViewsAgree(t))
    && t.ipc == u.ipc && t.core.model == u.core.model
  }

  lemma SteadyChain(u: Cpu, v: Cpu, t: Cpu)
    requires Steady(u, v) && Steady(v, t)
    ensures Steady(u, t)
  {
  }

  /** A step on the registers and memory alone. */
  lemma CoreSteady(u: Cpu, c: Core, f: Ccr)
    requires SameViews(u.core.bus, c.bus) && c.model == u.core.model
    ensures Steady(u, u.(core := c, ccr := f))
  {
  }

  lemma WriteViews(b: Bus, a: Long, n: nat, v: nat)
    ensures SameViews(b, Write(b, a, n, v))
  {
  }

  lemma ReadViews(b: Bus, a: Long, n: nat)
    ensures SameViews(b, Read(b, a, n).0)
  {
  }

  lemma PushViews(c: Core, n: nat, v: nat)
    ensures SameViews(c.bus, Push(c, n, v).bus) && Push(c, n, v).model == c.model
  {
  }

  lemma ToSupervisorSteady(u: Cpu)
    ensures Steady(u, ToSupervisor(u)) && ToSupervisor(u).s
  {
  }

  /** The end of every entry: new registers, the vector as PC and tracing off. */
  lemma EntrySteady(u: Cpu, t: Cpu)
    requires t.core.model == u.core.model && SameViews(ToSupervisor(u).core.bus, t.core.bus) && t.trace == 0
    requires t == ToSupervisor(u).(core := t.core, trace := t.trace, lastFault := t.lastFault, halted := t.halted)
    ensures Steady(u, t)
  {
    hide ToSupervisor;
    ToSupervisorSteady(u);
  }

  lemma ExceptionSteady(u: Cpu, vector: nat, pc: Long, sr: nat)
    ensures Steady(u, Exception(u, vector, pc, sr))
  {
    hide Push, Peek, Wrap, Span, LongFormat, ToSupervisor, Steady, Read;
    ToSupervisorModel(u);
    var c := ToSupervisor(u).core;
    var word := (if LongFormat(vector) then 0x2000 else 0) + vector % 0x1000;
    var c1 := if u.core.model.M68030? && LongFormat(vector) then Push(c, 4, u.ipc) else c;
    var c2 := if u.core.model.M68030? then Push(c1, 2, word) else c1;
    PushViews(c, 4, u.ipc);
    PushViews(c1, 2, word);
    PushViews(c2, 4, pc);
    PushViews(Push(c2, 4, pc), 2, sr);
    var c3 := Push(Push(c2, 4, pc), 2, sr);
    ReadViews(c3.bus, if u.core.model.M68030? then Wrap(u.vbr + vector) else Wrap(vector), 4);
    EntrySteady(u, Exception(u, vector, pc, sr));
  }

  lemma ToSupervisorModel(u: Cpu)
    ensures ToSupervisor(u).core.model == u.core.model
  {
  }

  lemma {:induction false} ZeroFillViews(b: Bus, frame: Long, i: nat)
    ensures SameViews(b, ZeroFill(b, frame, i))
    decreases BUS_FRAME - i
  {
    hide Poke, Wrap;
    if i < BUS_FRAME {
      WriteViews(b, Wrap(frame + i), 4, 0);
      ZeroFillViews(Write(b, Wrap(frame + i), 4, 0), frame, i + 4);
    }
  }

  lemma BusFrameViews(c: Core, sr: nat, pc: Long, ssw: nat, addr: Long)
    ensures var t := PushBusFrame(c, sr, pc, ssw, addr); SameViews(c.bus, t.bus) && t.model == c.model
  {
    hide Write, Wrap, ZeroFill;
    var frame := Wrap(c.a[7] as int - BUS_FRAME);
    ZeroFillViews(c.bus, frame, 0);
    var b0 := ZeroFill(c.bus, frame, 0);
    WriteViews(b0, frame, 2, sr);
    var b1 := Write(b0, frame, 2, sr);
    WriteViews(b1, Wrap(frame as int + 2), 4, pc);
    var b2 := Write(b1, Wrap(frame as int + 2), 4, pc);
    WriteViews(b2, Wrap(frame as int + 6), 2, 0xB008);
    var b3 := Write(b2, Wrap(frame as int + 6), 2, 0xB008);
    WriteViews(b3, Wrap(frame as int + 0xA), 2, ssw);
    WriteViews(Write(b3, Wrap(frame as int + 0xA), 2, ssw), Wrap(frame as int + 0x10), 4, addr);
  }

  /** A machine halted on a double fault keeps its fields in range too. */
  lemma HaltSteady(u: Cpu, t: Cpu)
    requires t.core.model == u.core.model && SameViews(ToSupervisor(u).core.bus, t.core.bus)
    requires t == ToSupervisor(u).(core := t.core, lastFault := t.lastFault, halted := t.halted)
    ensures Steady(u, t)
  {
    hide ToSupervisor;
    ToSupervisorSteady(u);
  }

  lemma RetrySteady(u: Cpu, addr: Long, read: bool, fc: nat)
    ensures Steady(u, BusErrorRetry(u, addr, read, fc))
  {
    hide ToSupervisor, PushBusFrame, Read, Wrap, GetSr, StatusWord, Steady;
    ToSupervisorModel(u);
    var c := ToSupervisor(u).core;
    BusFrameViews(c, GetSr(u), u.ipc, StatusWord(read, fc), addr);
    var c' := PushBusFrame(c, GetSr(u), u.ipc, StatusWord(read, fc), addr);
    ReadViews(c'.bus, Wrap(u.vbr + 8), 4);
    var t := BusErrorRetry(u, addr, read, fc);
    if c'.bus.fault.Some? || Read(c'.bus, Wrap(u.vbr + 8), 4).0.fault.Some? {
      HaltSteady(u, t);
    } else {
      EntrySteady(u, t);
    }
  }

  lemma SkipSteady(u: Cpu, addr: Long, read: bool, fc: nat)
    ensures Steady(u, BusErrorSkip(u, addr, read, fc))
  {
    hide ToSupervisor, PushBusFrame, Read, Wrap, GetSr, StatusWord;
    ToSupervisorModel(u);
    var c := ToSupervisor(u).core;
    BusFrameViews(c, GetSr(u), u.core.pc, StatusWord(read, fc), addr);
    var c' := PushBusFrame(c, GetSr(u), u.core.pc, StatusWord(read, fc), addr);
    ReadViews(c'.bus, Wrap(u.vbr + 8), 4);
    if !Repeated(u) {
      EntrySteady(u, BusErrorSkip(u, addr, read, fc));
    }
  }

  lemma PollSteady(u: Cpu)
    ensures Steady(u, CheckInterrupt(u))
  {
    hide Exception, GetSr;
    ExceptionSteady(u.(mask := u.ipl), 0x60 + 4 * u.ipl, u.core.pc, GetSr(u));
  }

  lemma EnterSteady(u: Cpu, e: Entry)
    ensures Valid(u) && (e.Interrupt? ==> e.level < 8) ==> Valid(Enter(u, e))
    ensures ViewsAgree(u) ==> ViewsAgree(Enter(u, e))
  {
    hide GetSr, Exception, BusErrorRetry, BusErrorSkip, CheckInterrupt;
    match e
    case Trap(v, pc) => ExceptionSteady(u, v, pc, GetSr(u));
    case Interrupt(level) => PollSteady(u.(ipl := level));
    case Retry(addr, read, fc) => RetrySteady(u, addr, read, fc);
    case Skip(addr, read, fc) => SkipSteady(u, addr, read, fc);
  }

  lemma LoadSrSteady(u: Cpu, sr: nat)
    ensures Steady(u, LoadSr(u, sr))
  {
    hide WriteCcr, Bit;
  }

  lemma WriteSrSteady(u: Cpu, sr: nat)
    ensures Steady(u, WriteSr(u, sr))
  {
    hide CheckInterrupt, LoadSr, Steady;
    LoadSrSteady(u, sr);
    PollSteady(LoadSr(u, sr));
    SteadyChain(u, LoadSr(u, sr), WriteSr(u, sr));
  }

  lemma RteSteady(u: Cpu)
    ensures Steady(u, Rte(u))
  {
    hide Exception, WriteSr, GetSr, Read, Wrap, Steady;
    var sp := u.core.a[7];
    var (b1, sr) := Read(u.core.bus, sp, 2);
    var (b2, pc) := Read(b1, Wrap(sp + 2), 4);
    var (b3, word) := Read(b2, Wrap(sp + 6), 2);
    ReadViews(u.core.bus, sp, 2);
    ReadViews(b1, Wrap(sp + 2), 4);
    ReadViews(b2, Wrap(sp + 6), 2);
    if u.core.model.M68030? {
      match FrameSize(word / 0x1000)
      case None => FormatErrorSteady(u, b3);
      case Some(n) => ReturnSteady(u, b3, Wrap(sp + n), Wrap(pc), sr);
    } else {
      ReturnSteady(u, b2, Wrap(sp + 6), Wrap(pc), sr);
    }
  }

  lemma FormatErrorSteady(u: Cpu, b: Bus)
    requires SameViews(u.core.bus, b)
    ensures var t := u.(core := u.core.(bus := b), trace := 0); Steady(u, Exception(t, 0x38, u.ipc, GetSr(t)))
  {
    hide Exception, GetSr;
    var t := u.(core := u.core.(bus := b), trace := 0);
    ExceptionSteady(t, 0x38, u.ipc, GetSr(t));
  }

  lemma ReturnSteady(u: Cpu, b: Bus, sp: Long, pc: Long, sr: nat)
    requires SameViews(u.core.bus, b)
    ensures Steady(u, WriteSr(u.(core := u.core.(bus := b, a := u.core.a[7 := sp], pc := pc)), sr))
  {
    hide WriteSr;
    WriteSrSteady(u.(core := u.core.(bus := b, a := u.core.a[7 := sp], pc := pc)), sr);
  }

  lemma MovesSteady(u: Cpu, x: Transfer)
    requires x.reg < 8
    ensures Steady(u, Moves(u, x))
  {
    hide Moves, Steady;
    MovesViews(u, x);
    CoreSteady(u, Moves(u, x).core, u.ccr);
  }

  /** MOVES puts the table it swapped back, and changes registers and memory only. */
  lemma MovesViews(u: Cpu, x: Transfer)
    requires x.reg < 8
    ensures var t := Moves(u, x);
            SameViews(u.core.bus, t.core.bus) && t.core.model == u.core.model && t == u.(core := t.core)
  {
    hide CalcEa, Read, Write, Bit, TransferValue, LoadInto;
    var (c1, ext) := Fetch(u.core, 2, true);
    ReadViews(u.core.bus, u.core.pc, 2);
    CalcEaQuiet(c1, x.size, x.mode, x.reg, !AutoStep(x.mode));
    var (c2, ea) := TransferEa(c1, x);
    var da, rn := Bit(ext, 0x8000), ext / 0x1000 % 8;
    if x.store {
      var swapped := c2.bus.(writeView := AltView(u.dfc));
      var v := TransferValue(c2, x, da, rn);
      WriteViews(swapped, ea, x.size, v);
      var b := Write(swapped, ea, x.size, v).(writeView := c2.bus.writeView);
      CalcEaQuiet(c2.(bus := b), x.size, x.mode, x.reg, AutoStep(x.mode));
    } else {
      var swapped := c2.bus.(readView := AltView(u.sfc));
      ReadViews(swapped, ea, x.size);
      var (b0, v) := Read(swapped, ea, x.size);
      var c3 := c2.(bus := b0.(readView := c2.bus.readView));
      CalcEaQuiet(c3, x.size, x.mode, x.reg, AutoStep(x.mode));
      LoadIntoKeeps(if AutoStep(x.mode) then Stepped(c3, x) else c3, x.size, da, rn, v);
    }
  }

  lemma LoadIntoKeeps(c: Core, size: nat, da: bool, rn: nat, v: nat)
    requires rn < 8
    ensures var t := LoadInto(c, size, da, rn, v); t.bus == c.bus && t.model == c.model
  {
    hide Merge;
  }

  lemma PrivilegedSteady(u: Cpu, t: Cpu)
    requires u.s ==> Steady(u, t)
    ensures Steady(u, Privileged(u, t))
  {
    hide Exception, GetSr, Wrap;
    ExceptionSteady(u, 0x20, Wrap(u.core.pc - 2), GetSr(u));
  }

  lemma MovecSteady(u: Cpu)
    ensures Steady(u, MovecOut(u)) && Steady(u, MovecIn(u))
  {
    hide Exception, GetSr, Fetch, Wrap, Bit, CacheBits, Steady, SetControl, SetReg, ControlValue;
    FetchViews(u.core);
    var (c, ext) := Fetch(u.core, 2, true);
    var t := u.(core := c);
    CoreSteady(u, c, u.ccr);
    ExceptionSteady(t, 0x10, t.ipc, GetSr(t));
    SteadyChain(u, t, Illegal(t));
    var rn := ext / 0x1000 % 8;
    if ControlValue(t, ext % 0x1000).Some? {
      SetRegSteady(t, Bit(ext, 0x8000), rn, ControlValue(t, ext % 0x1000).value);
      SteadyChain(u, t, MovecOut(u));
    }
    var v := if Bit(ext, 0x8000) then c.a[rn] else c.d[rn];
    if SetControl(t, ext % 0x1000, v).Some? {
      SetControlSteady(t, ext % 0x1000, v);
      SteadyChain(u, t, MovecIn(u));
    }
  }

  lemma FetchViews(c: Core)
    ensures var t := Fetch(c, 2, true).0; SameViews(c.bus, t.bus) && t.model == c.model
  {
  }

  lemma SetRegSteady(u: Cpu, da: bool, rn: nat, v: int)
    requires rn < 8
    ensures Steady(u, SetReg(u, da, rn, v))
  {
  }

  lemma SetControlSteady(u: Cpu, rc: nat, v: Long)
    requires SetControl(u, rc, v).Some?
    ensures Steady(u, SetControl(u, rc, v).value)
  {
  }

  /** Interrupt levels are three bits. */
  predicate Ranged(s: Action) {
    && (s.Take? && s.entry.Interrupt? ==> s.entry.level < 8)
    && (s.Poll? ==> s.ipl < 8)
  }

  lemma ApplyKeeps(u: Cpu, s: Action)
    ensures Valid(u) && Ranged(s) ==> Valid(Apply(u, s))
    ensures ViewsAgree(u) ==> ViewsAgree(Apply(u, s))
  {
    hide WriteSr, Rte, Enter, Moves, CheckInterrupt, MovecOut, MovecIn, Privileged;
    match s
    case LoadStatus(sr) => WriteSrSteady(u, sr); PrivilegedSteady(u, WriteSr(u, sr));
    case Take(e) => EnterSteady(u, e);
    case Return => RteSteady(u); PrivilegedSteady(u, Rte(u));
    case ReadControl => MovecSteady(u); PrivilegedSteady(u, MovecOut(u));
    case WriteControl => MovecSteady(u); PrivilegedSteady(u, MovecIn(u));
    case AltAccess(x) => if x.reg < 8 { MovesSteady(u, x); PrivilegedSteady(u, Moves(u, x)); }
    case Poll(ipl) => PollSteady(u.(ipl := ipl));
  }

  /** Over any run the active tables are those of the current privilege level, and fields stay in range. */
  lemma {:induction false} ViewsFollowPrivilege(u: Cpu, ss: seq<Action>)
    requires ViewsAgree(u)
    ensures ViewsAgree(ApplyAll(u, ss))
    ensures Valid(u) && (forall i :: 0 <= i < |ss| ==> Ranged(ss[i])) ==> Valid(ApplyAll(u, ss))
    decreases |ss|
  {
    hide Apply, ViewsAgree, Valid, Ranged;
    if ss != [] {
      ApplyKeeps(u, ss[0]);
      ViewsFollowPrivilege(Apply(u, ss[0]), ss[1..]);
    }
  }
}
