/**
What happens between instructions: polls for interrupts, trace exceptions, the
reset after a halt, the fetch of an opcode, and a fetch that faults
(src/core/cpu/cpu_internal.h, src/core/cpu/cpu_68000.c,
src/core/cpu/cpu_68030.c).
*/
module Boundary {
  import opened Words
  import opened Memory
  import opened Operands
  import opened System
  import opened Nesting
  import opened Instructions
  import opened Sprint
  import Chains

  // ---- interrupts -------------------------------------------------------

  /** The stack and the vector of an exception with this vector offset are mapped. */
  predicate EntryMapped(u: Cpu, vector: nat) {
    && Valid(u) && ViewsAgree(u) && u.core.bus.fault.None?
    && Mapped(u.core.bus, Frame(u, Trap(vector, 0)) + Span(VectorAddress(u, Trap(vector, 0)), 4))
  }

  /**
  A poll takes a request above the mask, or of level 7: through autovector
  24 + level, with the old status word stacked and the mask at its level.
  Otherwise it does nothing.
  */
  lemma PollDoes(u: Cpu)
    requires EntryMapped(u, 4 * (24 + u.ipl))
    ensures var (t, n) := (CheckInterrupt(u), if u.core.model.M68030? then 8 else 6);
            if u.ipl == 7 || u.mask < u.ipl then
              && Entered(u, t.(mask := u.mask), n, 0, GetSr(u), u.core.pc)
              && Vectored(u, t, n, 0, 4 * (24 + u.ipl)) && t.mask == u.ipl
            else t == u
  {
    hide Span, Wrap, Mapped, Holds, SameOutside, Exception, GetSr, ToSupervisor, Peek, Implemented;
    if InterruptDue(u.ipl, u.mask) {
      SrRange(u);
      MaskInvisible(u);
      ExceptionEnters(u.(mask := u.ipl), 0x60 + 4 * u.ipl, u.core.pc, GetSr(u));
    }
  }

  lemma MaskInvisible(u: Cpu)
    ensures ToSupervisor(u.(mask := u.ipl)) == ToSupervisor(u).(mask := u.ipl)
    ensures ToSupervisor(u).mask == u.mask && ToSupervisor(u).core.model == u.core.model
  {
  }

  /** A second poll does nothing more, unless the request is of level 7, which is taken every time. */
  lemma PollTwice(u: Cpu)
    requires EntryMapped(u, 4 * (24 + u.ipl))
    ensures CheckInterrupt(CheckInterrupt(u)) == CheckInterrupt(u) <==> u.ipl != 7
  {
    hide Span, Wrap, Mapped, Holds, SameOutside, Exception, GetSr, Peek, EntryMapped;
    PollDoes(u);
    var t := CheckInterrupt(u);
    PollLevel(u);
    if u.ipl == 7 {
      MasterLeft(u);
      NextFrame(t);
    }
  }

  lemma PollLevel(u: Cpu)
    ensures CheckInterrupt(u).ipl == u.ipl
    ensures InterruptDue(u.ipl, u.mask) ==> CheckInterrupt(u).mask == u.ipl
  {
    hide Framed, Read, GetSr, Wrap;
  }

  lemma MasterLeft(u: Cpu)
    requires EntryMapped(u, 4 * (24 + u.ipl))
    ensures ToSupervisor(u).s && !ToSupervisor(u).m
  {
  }

  /** An exception moves the supervisor stack, mapped or not. */
  lemma NextFrame(u: Cpu)
    requires InterruptDue(u.ipl, u.mask) && u.s && !u.m
    ensures CheckInterrupt(u).core.a[7] != u.core.a[7]
  {
    hide Write, Read, GetSr;
  }

  // ---- trace ------------------------------------------------------------

  /**
  At the end of a sprint without a fault or interrupt: the trace exception is
  taken exactly if T1, bit 15 of the status word, was set before and is still
  set. Its long frame goes through vector 9.
  */
  lemma TraceDoes(before: Cpu, u: Cpu, paged: bool, fc: nat)
    requires EntryMapped(u, 0x24) && u.core.model.M68030? && !(u.ipl == 7 || u.mask < u.ipl)
    requires Valid(before) && before.core.model.M68030?
    ensures var t := Epilogue030(u, before.trace, paged, fc);
            if Bit(GetSr(before), 0x8000) && Bit(GetSr(u), 0x8000)
            then Entered(u, t, 12, 2, GetSr(u), u.core.pc) && Vectored(u, t, 12, 2, 0x24)
            else t == u
  {
    hide Span, Wrap, Mapped, Holds, SameOutside, Exception, GetSr, ToSupervisor, Peek, Implemented, Bit;
    TraceBit(before);
    TraceBit(u);
    if Traced(before.trace) && Traced(u.trace) {
      SrRange(u);
      ExceptionEnters(u, 0x24, u.core.pc, GetSr(u));
      ToSupervisorMask(u);
    }
  }

  lemma TraceBit(u: Cpu)
    requires Valid(u) && u.core.model.M68030?
    ensures Bit(GetSr(u), 0x8000) == Traced(u.trace)
  {
    hide ReadCcr, Status;
    StatusFields(ReadCcr(u.ccr), u.mask, Flag(u.m, 1), Flag(u.s, 1), u.trace % 2, u.trace / 2 % 2);
  }

  // ---- reset ------------------------------------------------------------

  /** The two reset vectors can be read. */
  predicate ResetReadable(u: Cpu) {
    !Faults(u.core.bus, Access(0, 4, false)) && !Faults(u.core.bus, Access(4, 4, false))
  }

  /**
  A halted processor starts over: stack pointer and PC from the first two
  longs, supervisor mode, mask 7, no tracing, vectors at 0 and nothing pending.
  */
  lemma ResetDoes(u: Cpu)
    requires Valid(u) && u.core.model.M68030? && u.halted && ResetReadable(u)
    ensures var (t, m) := (Prologue030(u), u.core.bus.mem);
            && !t.halted && t.core.bus.fault.None? && t.core.bus.mem == m
            && t.core.a[7] == Peek(m, 0, 4) && t.ssp == Peek(m, 0, 4) && t.core.pc == Peek(m, 4, 4)
            && t.s && t.mask == 7 && t.trace == 0 && t.vbr == 0 && t.lastFault == 0 && ViewsAgree(t)
            && t.core.d == u.core.d && t.core.a[..7] == u.core.a[..7]
  {
    hide Peek, Span, Exception, GetSr;
    Pow256Values();
    assert !InterruptDue(0, 7);
  }

  /** The status word is $2700 after it only if M and all five flags were clear before: the reset leaves those. */
  lemma ResetStatus(u: Cpu)
    requires Valid(u) && u.core.model.M68030? && u.halted
    ensures GetSr(Prologue030(u)) == 0x2700 <==> !u.m && ReadCcr(u.ccr) == 0
  {
    hide Read, Wrap, Exception;
    assert !InterruptDue(0, 7);
  }

  /** A machine that halts in user mode with M set and comes back on the master stack. */
  function HaltedWithMaster(): Cpu {
    var core := Core([0, 0, 0, 0, 0, 0, 0, 0], [0, 0, 0, 0, 0, 0, 0, 0x3000], 0x1000,
                     Bus(map[], {}, {}, User, User, None, {}), M68030);
    Cpu(core, Ccr(false, false, false, false, false), false, true, 0, 0, 0, 0x4000, 0x3000, 0x5000, 0, 5, 5, 0, 0,
        0x1000, 0x1000, false)
  }

  lemma ResetKeepsMaster()
    ensures var u := HaltedWithMaster();
            var h := BusErrorSkip(u, 0x1000, true, 2);
            h.halted && GetSr(Prologue030(h)) == 0x3700
  {
    hide Read, Wrap, Exception;
    assert !InterruptDue(0, 7);
  }

  // ---- the opcode -------------------------------------------------------

  /** Where the next instruction is: the 68000 has 24 address lines. */
  function NextPc(u: Cpu): Long {
    if u.core.model.M68000? then u.core.pc % 0x100_0000 else u.core.pc
  }

  /**
  The state an instruction begins in: its own address remembered, PC two on,
  its first long seen, and a remembered fault forgotten once user code has
  moved on.
  */
  function Started(u: Cpu): Cpu {
    var at := NextPc(u);
    u.(ipc := at, lastFault := if !u.s && u.lastFault != at then 0 else u.lastFault,
       core := u.core.(pc := Wrap(at as int + 2), bus := u.core.bus.(seen := u.core.bus.seen + Span(at, 4))))
  }

  /** An instruction whose first long can be fetched: the word at PC is dispatched with the word after it. */
  lemma InstructionDoes(m: Machine, env: Env)
    requires m.cpu.core.bus.fault.None? && !Faults(m.cpu.core.bus, Access(NextPc(m.cpu), 4, false))
    ensures var (u, at) := (m.cpu, NextPc(m.cpu) as int);
            var (op, ext) := (Peek(u.core.bus.mem, at, 2), Peek(u.core.bus.mem, at + 2, 2));
            Instruction(m, env) == Machine(Dispatch(Started(u), op, ext, env.other), op, at)
  {
    hide Peek, Span, Dispatch, Wrap, Pow256;
    Pow256Values();
    var at: int := NextPc(m.cpu);
    Chains.PeekJoin(m.cpu.core.bus.mem, at, 2, 2);
    WordsOfLong(Peek(m.cpu.core.bus.mem, at, 2), Peek(m.cpu.core.bus.mem, at + 2, 2));
  }

  lemma WordsOfLong(hi: nat, lo: nat)
    requires lo < 0x1_0000
    ensures (hi * 0x1_0000 + lo) / 0x1_0000 == hi && (hi * 0x1_0000 + lo) % 0x1_0000 == lo
  {
  }

  // ---- a fetch that faults ----------------------------------------------

  /** How far past the target of a transfer the 68000 stacks PC, by the transfer. */
  function Prefetched(ir: nat): nat {
    if 0x4EA8 <= ir < 0x4EB0 then 4      // JSR (d16,An)
    else if ir == 0x4EB9 then 6          // JSR.L
    else if ir == 0x4E73 then 0          // RTE
    else 2
  }

  lemma FetchAdvanceIs(ir: nat)
    ensures FetchAdvance(ir) == Prefetched(ir)
  {
    assert ir == 0x100 * (ir / 0x100) + ir % 0x100 && ir / 8 == 32 * (ir / 0x100) + ir % 0x100 / 8;
  }

  /** The state a faulting fetch of the instruction at ipc left. */
  predicate FetchFaulted(u: Cpu) {
    Valid(u) && ViewsAgree(u) && u.core.bus.fault == Some(Access(u.ipc, 4, false))
  }

  /**
  A faulting fetch on the 68000: an RTS is stacked as to be run again, any
  other transfer as having prefetched past its target; a repeat halts.
  */
  lemma FetchTrap68000(m: Machine, paged: bool, fc: nat)
    requires m.cpu.core.model.M68000? && FetchFaulted(m.cpu) && m.ir < 0x1_0000 && StackMapped(m.cpu, GROUP0_FRAME)
    ensures var (u, t) := (m.cpu, FetchTrap(m, paged, fc));
            if Repeated(u) then t.halted && t.core.bus.fault.None?
            else GroupZeroStacked(u, t, fc, m.ir,
                                  if m.ir == 0x4E75 then Wrap(m.irPc + 2) else Wrap(u.ipc + Prefetched(m.ir)))
  {
    hide GetSr, Span, Wrap, Mapped, SameOutside, HoldsGroupZero, GroupZero, ToSupervisor, ShowsCycle, Peek,
         FetchAdvance, Prefetched;
    var u := m.cpu;
    FetchAdvanceIs(m.ir);
    var pc := if m.ir == 0x4E75 then Wrap(m.irPc + 2) else Wrap(u.ipc + FetchAdvance(m.ir));
    var u1 := u.(core := u.core.(bus := u.core.bus.(fault := None), pc := pc));
    SameEntry(u, u1, Span(Top(u) as int - GROUP0_FRAME, GROUP0_FRAME) + Span(Wrap(u.vbr + 8), 4));
    if Repeated(u) {
      RepeatHalts(u1, u.ipc, true, fc, m.ir);
    } else {
      GroupZeroTaken(u1, u.ipc, true, fc, m.ir);
    }
  }

  /**
  A faulting fetch on the 68030: the frame sends the handler back to the
  instruction. When the bus refused it the fault is remembered, so that the
  next one at the same instruction halts.
  */
  lemma FetchTrap68030(m: Machine, paged: bool, fc: nat)
    requires m.cpu.core.model.M68030? && FetchFaulted(m.cpu) && StackMapped(m.cpu, BUS_FRAME)
    ensures var (u, t) := (m.cpu, FetchTrap(m, paged, fc));
            if !paged && Repeated(u) then t.halted && t.core.bus.fault.None?
            else BusFrameStacked(u, t, fc, u.ipc) && (!paged ==> t.lastFault == u.ipc)
  {
    hide GetSr, Span, Wrap, Mapped, SameOutside, Peek, AtHandler, ShowsFault, BusErrorRetry, BusErrorSkip, Holds, Top;
    var u := m.cpu;
    var u1 := u.(core := u.core.(bus := u.core.bus.(fault := None), pc := u.ipc));
    var t := FetchTrap(m, paged, fc);
    SameEntry(u, u1, Span(Top(u) as int - BUS_FRAME, BUS_FRAME) + Span(Wrap(u.vbr + 8), 4));
    RetryTaken(u1, u.ipc, true, fc);
    SkipTaken(u1, u.ipc, true, fc);
    if paged || !Repeated(u) {
      ArrivesAtHandler(u, t, Span(Top(u) as int - BUS_FRAME, BUS_FRAME));
    }
  }
}
