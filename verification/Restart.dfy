/**
Restart of MOVE and of MOVEM to -(An) on the 68030: an attempt that faults is
undone, stacked, handled and re-executed, and however many attempts fault
first, the one that succeeds ends as if it had been the only one.
*/
module Restart {
  import opened Words
  import opened Memory
  import opened Operands
  import opened System
  import opened Nesting
  import opened Movem
  import opened Instructions
  import opened Sprint

  function Opcode(m: Bytes, pc: Long): nat {
    Peek(m, pc, 4) / 0x1_0000
  }

  /** The word after the opcode. */
  function NextWord(m: Bytes, pc: Long): nat {
    Peek(m, Wrap(pc + 2), 2)
  }

  /** The two instruction families this theory covers. */
  predicate Covered(op: nat) {
    IsMove(op) || IsMovemStore(op)
  }

  lemma Exclusive(op: nat)
    ensures !(IsMove(op) && IsMovemStore(op))
  {
  }

  /** MOVE from memory into a data register, which is not undone. */
  predicate LoadsRegister(op: nat) {
    IsMove(op) && DstMode(op) == 0 && SrcMode(op) >= 2
  }

  /** MOVE whose source address is indexed by the register it loads. */
  predicate SelfIndexed(op: nat, ext: nat) {
    LoadsRegister(op) && IsIndexed(SrcMode(op), SrcReg(op)) && IndexedBy(ext, DstReg(op))
  }

  function Perform(u: Cpu, op: nat): Cpu {
    if IsMove(op) then PerformMove(u, op) else PerformMovemStore(u, op)
  }

  /** One attempt; a fault, of the opcode fetch or of the instruction, is left pending. */
  function Execute(u: Cpu): Cpu {
    var (t, word) := Head(u.(core := u.core.(bus := u.core.bus.(seen := {}))));
    if t.core.bus.fault.Some? then t else Perform(t, word / 0x1_0000)
  }

  /** For covered opcodes that are fetched, an attempt is the instruction of the sprint loop. */
  lemma ExecuteIsInstruction(u: Cpu, ir: nat, irPc: Long, env: Env)
    requires u.core.model.M68030? && u.core.bus.seen == {}
    requires var (t, word) := Head(u); t.core.bus.fault.None? && Covered(word / 0x1_0000)
    ensures Instruction(Machine(u, ir, irPc), env).cpu == Execute(u)
  {
    hide Head, IsMove, IsMovemStore, Move, MovemStore;
    assert u.(core := u.core.(bus := u.core.bus.(seen := {}))) == u;
  }

  /** The sets of accesses that fault, as page tables change between attempts. */
  datatype Pages = Pages(user: set<Access>, super: set<Access>)

  function Remap(u: Cpu, p: Pages): Cpu {
    u.(core := u.core.(bus := u.core.bus.(userFaults := p.user, superFaults := p.super)))
  }

  function ClearFault(u: Cpu): Cpu {
    u.(core := u.core.(bus := u.core.bus.(fault := None)))
  }

  /** One attempt's page tables and what the handler does before it returns. */
  datatype Round = Round(pages: Pages, handler: Run)

  /** Delivery of the pending fault through a retry frame, the handler, and its RTE. */
  function DeliverAndReturn(u: Cpu, fc: nat, handler: Run): Cpu {
    Rte(Exec(Deliver030(u, true, fc), handler))
  }

  /** A covered instruction at PC, on a machine between instructions. */
  predicate Poised(u: Cpu) {
    && Settled(u) && u.core.model.M68030? && !UserWithMaster(u)
    && Covered(Opcode(u.core.bus.mem, u.core.pc))
    && !SelfIndexed(Opcode(u.core.bus.mem, u.core.pc), NextWord(u.core.bus.mem, u.core.pc))
  }

  /** Where the retry frame goes. */
  function RetryFrame(u: Cpu): set<Long> {
    Span(Isp(u) as int - BUS_FRAME, BUS_FRAME)
  }

  /** Bytes a faulting attempt may already have written: none for MOVE. */
  function Partial(u: Cpu): set<Long> {
    var op := Opcode(u.core.bus.mem, u.core.pc);
    if IsMovemStore(op)
    then StoreRegion(u.core, op % 8, MovemStep(op), NextWord(u.core.bus.mem, u.core.pc))
    else {}
  }

  /** Everything that may differ when the instruction is attempted again. */
  function Disturbed(u: Cpu, scratch: set<Long>): set<Long> {
    RetryFrame(u) + scratch + Partial(u)
  }

  /** Neither the frame, the handlers nor the instruction's own stores touch the instruction. */
  predicate CodeSafe(u: Cpu, scratch: set<Long>) {
    Span(u.core.pc, 4) !! Disturbed(u, scratch)
  }

  /**
  Under these pages the attempt faults, the frame and the vector are mapped,
  and the handler keeps the frame, gives D0-A7 back and writes in `scratch` only.
  */
  predicate FaultsUnder(u: Cpu, r: Round, fc: nat, scratch: set<Long>) {
    var t := Execute(Remap(u, r.pages));
    var h := Deliver030(t, true, fc);
    && t.core.bus.fault.Some?
    && Mapped(Remap(u, r.pages).core.bus, RetryFrame(u) + Span(Wrap(u.vbr + 8), 4))
    && Proper(h, r.handler, RetryFrame(u)) && Confined(h, r.handler, scratch)
    && GivesBack(h, Exec(h, r.handler))
  }

  // ---- what an attempt may leave ----------------------------------------

  /** All data registers, but for the low bytes of one that is being loaded. */
  predicate RegistersKept(d: Regs, d': Regs, op: nat) {
    if LoadsRegister(op) then
      var r := DstReg(op);
      d' == d[r := d'[r]] && d'[r] / Pow256(MoveSize(op)) == d[r] / Pow256(MoveSize(op))
    else d' == d
  }

  lemma RegistersChain(d: Regs, d1: Regs, d2: Regs, op: nat)
    requires RegistersKept(d, d1, op) && RegistersKept(d1, d2, op)
    ensures RegistersKept(d, d2, op)
  {
    hide LoadsRegister, DstReg, MoveSize;
  }

  lemma RegistersSelf(d: Regs, op: nat)
    ensures RegistersKept(d, d, op)
  {
    hide LoadsRegister, DstReg, MoveSize;
    assert d[DstReg(op) := d[DstReg(op)]] == d;
  }

  /** Merging keeps the bytes above the operand. */
  lemma MergeTop(old_: Long, size: nat, v: nat)
    requires size == 1 || size == 2 || size == 4
    ensures Merge(old_, size, v) / Pow256(size) == old_ / Pow256(size)
  {
    Pow256Values();
    if size == 4 {
      assert old_ / 0x1_0000_0000 == 0;
    } else {
      JoinedQuotient(old_ / Pow256(size), Pow256(size), v % Pow256(size), old_);
    }
  }

  lemma JoinedQuotient(q: nat, p: nat, r: nat, v: Long)
    requires (p == 0x100 || p == 0x1_0000) && r < p && q == v / p
    ensures 0 <= q * p + r < B32 && (q * p + r) / p == q
  {
  }

  lemma MoveSizes(op: nat)
    ensures var z := MoveSize(op); z == 1 || z == 2 || z == 4
  {
  }

  /** Back at the same instruction: only flags, the loaded bytes and these regions may differ. */
  predicate Resumed(u: Cpu, t: Cpu, region: set<Long>) {
    && Settled(t) && RegistersKept(u.core.d, t.core.d, Opcode(u.core.bus.mem, u.core.pc))
    && t.core.a == u.core.a && t.core.pc == u.core.pc
    && t.core.model == u.core.model && t.vbr == u.vbr
    && t.s == u.s && t.m == u.m && t.trace == u.trace && t.mask == u.mask
    && Usp(t) == Usp(u) && Isp(t) == Isp(u) && Msp(t) == Msp(u)
    && SameOutside(u.core.bus.mem, t.core.bus.mem, region)
  }

  /** MOVE may leave N, Z, V and C of garbage behind; MOVEM touches no flag. */
  predicate FlagsKept(u: Cpu, t: Cpu) {
    && t.ccr.x == u.ccr.x
    && (IsMovemStore(Opcode(u.core.bus.mem, u.core.pc)) ==> t.ccr == u.ccr)
  }

  // ---- one attempt ------------------------------------------------------

  /** t is u after an attempt that faulted and was rolled back. */
  predicate RolledBack(u: Cpu, p: Pages, t: Cpu) {
    && RegistersKept(u.core.d, t.core.d, Opcode(u.core.bus.mem, u.core.pc)) && t.core.a == u.core.a
    && t.core == u.core.(d := t.core.d, bus := t.core.bus, pc := t.core.pc)
    && t.core.bus == Remap(u, p).core.bus.(mem := t.core.bus.mem, fault := t.core.bus.fault, seen := t.core.bus.seen)
    && t == u.(core := t.core, ccr := t.ccr, ipc := u.core.pc, lastFault := t.lastFault) && FlagsKept(u, t)
    && SameOutside(u.core.bus.mem, t.core.bus.mem, Partial(u))
  }

  /** The faulting attempt itself: registers, X and the system byte are untouched. */
  lemma AttemptUndone(u: Cpu, p: Pages)
    requires Poised(u) && Execute(Remap(u, p)).core.bus.fault.Some?
    ensures RolledBack(u, p, Execute(Remap(u, p)))
  {
    hide Move, MovemStore, Peek, IsMove, DstMode, Wrap, Span, SameOutside, StoreRegion, RegistersKept, SelfIndexed;
    var b := u.core.bus.(userFaults := p.user, superFaults := p.super, seen := {});
    ReadQuiet(b, u.core.pc, 4);
    var (b', w) := Read(b, u.core.pc, 4);
    var c := u.core.(bus := b', pc := Wrap(u.core.pc + 2));
    SameOutsideSelf(u.core.bus.mem, Partial(u));
    var op := w / 0x1_0000;
    RegistersSelf(u.core.d, Opcode(u.core.bus.mem, u.core.pc));
    if b'.fault.None? {
      Exclusive(op);
      if IsMove(op) {
        MoveUndone(c, op);
      } else {
        StoreRegionSame(u.core, c);
        StoreFault(c, op % 8, MovemStep(op));
      }
    }
  }

  /** MOVE that faults, to memory or to a register. */
  lemma MoveUndone(c: Core, op: nat)
    requires IsMove(op) && c.bus.fault.None?
    ensures var c' := Move(c, op).0;
            c'.bus.fault.Some? ==>
              RegistersKept(c.d, c'.d, op) && c'.a == c.a && c'.model == c.model && QuietBus(c.bus, c'.bus)
  {
    hide Move, MoveSize, DstReg, SrcReg, Merge;
    if DstMode(op) >= 2 {
      MoveRollback(c, op);
      if Move(c, op).0.bus.fault.Some? {
        RegistersSelf(c.d, op);
      }
    } else {
      MoveLoadUndone(c, op);
      MoveSizes(op);
      MergeTop(c.d[DstReg(op)], MoveSize(op), Move(c, op).1);
    }
  }

  /** Delivery is the retry entry of the exception model. */
  lemma DeliverIsEntry(u: Cpu, fc: nat)
    requires u.core.bus.fault.Some? && Valid(u) && ViewsAgree(u)
    requires var acc := u.core.bus.fault.value; CanEnter(ClearFault(u), Retry(acc.addr, !acc.write, fc))
    ensures var acc := u.core.bus.fault.value;
            Deliver030(u, true, fc) == Enter(ClearFault(u), Retry(acc.addr, !acc.write, fc))
  {
    hide BusErrorRetry, GetSr, Span, Wrap, Mapped, Holds, SameOutside, ToSupervisor;
    var acc := u.core.bus.fault.value;
    var e := Retry(acc.addr, !acc.write, fc);
    BusErrorEnters(ClearFault(u), e);
    EntryViews(ClearFault(u));
  }

  lemma EntryViews(u: Cpu)
    requires ViewsAgree(u)
    ensures var s := ToSupervisor(u); s.s && s.core.bus.readView.Supervisor? && s.core.bus.writeView.Supervisor?
  {
  }

  /** The inline delivery of a faulting opcode fetch is the same entry. */
  lemma FetchTrapIsDelivery(u: Cpu, ir: nat, irPc: Long, fc: nat)
    requires u.core.bus.fault == Some(Access(u.ipc, 4, false)) && Valid(u) && ViewsAgree(u) && u.core.model.M68030?
    requires CanEnter(ClearFault(u), Retry(u.ipc, true, fc))
    ensures FetchTrap(Machine(u, ir, irPc), true, fc) == Deliver030(u, true, fc)
  {
    hide PushBusFrame, GetSr, Span, Wrap, Mapped, Holds, SameOutside, ToSupervisor, BusErrorRetry;
    DeliverIsEntry(u, fc);
    RetryIgnoresPc(ClearFault(u), u.ipc, u.ipc, true, fc);
    BusErrorEnters(ClearFault(u), Retry(u.ipc, true, fc));
    EntryViews(ClearFault(u));
  }

  /** The retry path stacks the instruction address, so PC does not matter. */
  lemma RetryIgnoresPc(u: Cpu, pc: Long, addr: Long, read: bool, fc: nat)
    requires CanEnter(u, Retry(addr, read, fc)) && Valid(u) && ViewsAgree(u)
    ensures BusErrorRetry(u.(core := u.core.(pc := pc)), addr, read, fc) == BusErrorRetry(u, addr, read, fc)
  {
    hide *;
    var v := u.(core := u.core.(pc := pc));
    EntryPc(u, pc);
    FramePc(ToSupervisor(u).core, pc, GetSr(u), u.ipc, StatusWord(read, fc), addr);
    RetryRuns(u, addr, read, fc);
    RetryParts(u, addr, read, fc);
    RetryParts(v, addr, read, fc);
  }

  lemma EntryPc(u: Cpu, pc: Long)
    ensures var v := u.(core := u.core.(pc := pc));
            GetSr(v) == GetSr(u) && ToSupervisor(v) == ToSupervisor(u).(core := ToSupervisor(u).core.(pc := pc))
  {
  }

  lemma FramePc(c: Core, pc: Long, sr: nat, at: Long, ssw: nat, addr: Long)
    ensures PushBusFrame(c.(pc := pc), sr, at, ssw, addr) == PushBusFrame(c, sr, at, ssw, addr).(pc := pc)
  {
    hide Write, ZeroFill, Wrap;
  }

  /** A mapped frame and vector: no double fault. */
  lemma RetryRuns(u: Cpu, addr: Long, read: bool, fc: nat)
    requires CanEnter(u, Retry(addr, read, fc)) && Valid(u) && ViewsAgree(u)
    ensures var c := PushBusFrame(ToSupervisor(u).core, GetSr(u), u.ipc, StatusWord(read, fc), addr);
            c.bus.fault.None? && Read(c.bus, Wrap(u.vbr + 8), 4).0.fault.None?
  {
    hide Peek, Poke, Ready, Span, Wrap, SameOutside, ToSupervisor, Read, Mapped, PushBusFrame, GetSr, Holds;
    var e := Retry(addr, read, fc);
    var extra := Span(VectorAddress(u, e), 4);
    ToSupervisorReady(u, Frame(u, e) + extra);
    SrRange(u);
    var c := ToSupervisor(u).core;
    BusFramePushed(c, GetSr(u), u.ipc, StatusWord(read, fc), addr, extra);
    var c' := PushBusFrame(c, GetSr(u), u.ipc, StatusWord(read, fc), addr);
    ReadyNoFault(c'.bus, Span(c.a[7] as int - BUS_FRAME, BUS_FRAME) + extra);
    VectorReady(c'.bus, Span(c.a[7] as int - BUS_FRAME, BUS_FRAME) + extra, VectorAddress(u, e));
  }

  lemma RetryParts(u: Cpu, addr: Long, read: bool, fc: nat)
    ensures var t := ToSupervisor(u);
            var c := PushBusFrame(t.core, GetSr(u), u.ipc, StatusWord(read, fc), addr);
            var (b, handler) := Read(c.bus, Wrap(u.vbr + 8), 4);
            c.bus.fault.None? && b.fault.None? ==>
              BusErrorRetry(u, addr, read, fc) == t.(core := c.(bus := b, pc := Wrap(handler)), trace := 0)
  {
    hide PushBusFrame, ToSupervisor, GetSr, StatusWord, Read, Wrap;
  }

  /** A retry entry, the handler and its return keep everything the frame and the handler do not hold. */
  lemma DeliverKeeps(v: Cpu, e: Entry, handler: Run, scratch: set<Long>)
    requires Settled(v) && CanEnter(v, e) && e.Retry? && !UserWithMaster(v)
    requires Proper(Enter(v, e), handler, Frame(v, e)) && Confined(Enter(v, e), handler, scratch)
    requires GivesBack(Enter(v, e), Exec(Enter(v, e), handler))
    ensures var r := Rte(Exec(Enter(v, e), handler));
            && Settled(r) && r.core.d == v.core.d && r.core.a == v.core.a && r.core.pc == v.ipc
            && r.core.model == v.core.model && r.vbr == v.vbr
            && r.s == v.s && r.m == v.m && r.trace == v.trace && r.mask == v.mask && r.ccr == v.ccr
            && Usp(r) == Usp(v) && Isp(r) == Isp(v) && Msp(r) == Msp(v)
            && SameOutside(v.core.bus.mem, r.core.bus.mem, Frame(v, e) + scratch)
  {
    hide GetSr, Rte, Enter, Span, Mapped, CanEnter, Frame, SameOutside, Exec, Proper, Confined, GivesBack, Alike;
    var h := Enter(v, e);
    EnterSettled(v, e, {});
    NestingRestores(h, handler, Frame(v, e));
    assert {} + Frame(v, e) == Frame(v, e);
    HandlerReturns(v, e, handler, {});
    var (t, r) := (Exec(h, handler), Rte(Exec(h, handler)));
    SrInjective(v, r);
    EnterWrites(v, e);
    ConfinedWrites(h, handler, Frame(v, e), scratch);
    SameOutsideBoth(v.core.bus.mem, h.core.bus.mem, t.core.bus.mem, Frame(v, e), scratch);
    assert r.core.a == r.core.a[..7] + [r.core.a[7]] && v.core.a == v.core.a[..7] + [v.core.a[7]];
  }

  lemma SameOutsideBoth(m0: Bytes, m1: Bytes, m2: Bytes, r: set<Long>, s: set<Long>)
    requires SameOutside(m0, m1, r) && SameOutside(m1, m2, s)
    ensures SameOutside(m0, m2, r + s)
  {
  }

  /** One faulting attempt, its delivery, its handler and its return. */
  lemma RoundResumes(u: Cpu, r: Round, fc: nat, scratch: set<Long>)
    requires Poised(u) && FaultsUnder(u, r, fc, scratch)
    ensures var t := DeliverAndReturn(Execute(Remap(u, r.pages)), fc, r.handler);
            Resumed(u, t, Disturbed(u, scratch)) && FlagsKept(u, t)
  {
    hide Execute, GetSr, Rte, Enter, Exec, Span, Mapped, Peek, Covered, Repeated, InterruptDue, Partial, SameOutside,
         Deliver030, Proper, Confined, RegistersKept, SelfIndexed, GivesBack;
    AttemptUndone(u, r.pages);
    var t := Execute(Remap(u, r.pages));
    var v := ClearFault(t);
    var acc := t.core.bus.fault.value;
    var e := Retry(acc.addr, !acc.write, fc);
    var region := RetryFrame(u) + Span(Wrap(u.vbr + 8), 4);
    assert region + {} == region;
    MappedPart(Remap(u, r.pages).core.bus, v.core.bus, region, {});
    DeliverIsEntry(t, fc);
    DeliverKeeps(v, e, r.handler, scratch);
    var back := DeliverAndReturn(t, fc, r.handler);
    SameOutsideBoth(u.core.bus.mem, v.core.bus.mem, back.core.bus.mem, Partial(u), RetryFrame(u) + scratch);
    assert Partial(u) + (RetryFrame(u) + scratch) == Disturbed(u, scratch);
  }

  // ---- any number of attempts -------------------------------------------

  function Retries(u: Cpu, rs: seq<Round>, fc: nat): Cpu
    decreases |rs|
  {
    if rs == [] then u
    else Retries(DeliverAndReturn(Execute(Remap(u, rs[0].pages)), fc, rs[0].handler), rs[1..], fc)
  }

  predicate AllFault(u: Cpu, rs: seq<Round>, fc: nat, scratch: set<Long>)
    decreases |rs|
  {
    rs != [] ==>
      && FaultsUnder(u, rs[0], fc, scratch)
      && AllFault(DeliverAndReturn(Execute(Remap(u, rs[0].pages)), fc, rs[0].handler), rs[1..], fc, scratch)
  }

  lemma ResumedPoised(u: Cpu, t: Cpu, scratch: set<Long>)
    requires Poised(u) && CodeSafe(u, scratch) && Resumed(u, t, Disturbed(u, scratch))
    ensures Poised(t) && CodeSafe(t, scratch)
    ensures RetryFrame(t) == RetryFrame(u) && Disturbed(t, scratch) == Disturbed(u, scratch)
    ensures Opcode(t.core.bus.mem, t.core.pc) == Opcode(u.core.bus.mem, u.core.pc)
  {
    hide Peek, Covered, Wrap, Within, StoreRegion, SelfIndexed, RegistersKept;
    PeekSame(u.core.bus.mem, t.core.bus.mem, u.core.pc, 4);
    SecondWord(u.core.pc);
    PeekSame(u.core.bus.mem, t.core.bus.mem, Wrap(u.core.pc + 2), 2);
    StoreRegionSame(u.core, t.core);
  }

  lemma SecondWord(pc: Long)
    ensures Span(Wrap(pc + 2), 2) <= Span(pc, 4)
  {
    SpanWrap(pc + 2, 2);
    SpanInside(pc, 4, pc + 2, 2);
  }

  lemma StoreRegionSame(c: Core, c': Core)
    requires c.a == c'.a
    ensures forall an: nat, step: nat, mask: nat :: an < 8 ==>
              StoreRegion(c, an, step, mask) == StoreRegion(c', an, step, mask)
  {
  }

  lemma ResumedChain(u: Cpu, v: Cpu, t: Cpu, region: set<Long>)
    requires Resumed(u, v, region) && Resumed(v, t, region)
    requires Opcode(v.core.bus.mem, v.core.pc) == Opcode(u.core.bus.mem, u.core.pc)
    ensures Resumed(u, t, region)
  {
    hide RegistersKept, Opcode, Settled;
    RegistersChain(u.core.d, v.core.d, t.core.d, Opcode(u.core.bus.mem, u.core.pc));
  }

  lemma {:induction false} RetriesResume(u: Cpu, rs: seq<Round>, fc: nat, scratch: set<Long>)
    requires Poised(u) && CodeSafe(u, scratch) && AllFault(u, rs, fc, scratch)
    ensures Resumed(u, Retries(u, rs, fc), Disturbed(u, scratch))
    ensures FlagsKept(u, Retries(u, rs, fc))
    decreases |rs|
  {
    hide Execute, Rte, FaultsUnder, Disturbed, Span, Poised, CodeSafe, IsMovemStore, Opcode, DeliverAndReturn, Resumed;
    if rs == [] {
      ResumedSelf(u, Disturbed(u, scratch));
    } else {
      var v := DeliverAndReturn(Execute(Remap(u, rs[0].pages)), fc, rs[0].handler);
      RoundResumes(u, rs[0], fc, scratch);
      ResumedPoised(u, v, scratch);
      RetriesResume(v, rs[1..], fc, scratch);
      ResumedChain(u, v, Retries(v, rs[1..], fc), Disturbed(u, scratch));
    }
  }

  lemma ResumedSelf(u: Cpu, region: set<Long>)
    requires Poised(u)
    ensures Resumed(u, u, region)
  {
    hide RegistersKept, Opcode;
    RegistersSelf(u.core.d, Opcode(u.core.bus.mem, u.core.pc));
  }

  // ---- the attempt that succeeds ----------------------------------------

  lemma PerformSeen(u: Cpu, op: nat)
    requires Covered(op)
    ensures u.core.bus.seen <= Perform(u, op).core.bus.seen
  {
    hide ReadEa, WriteEa, MoveSize, SrcMode, SrcReg, DstMode, DstReg, StoreDown, Peek, Span, Wrap;
    if IsMove(op) {
      var size := MoveSize(op);
      ReadEaQuiet(u.core, size, SrcMode(op), SrcReg(op), true);
      var (c1, v) := ReadEa(u.core, size, SrcMode(op), SrcReg(op), true);
      WriteEaSeen(c1, size, DstMode(op), DstReg(op), v);
    } else {
      MovemSeen(u.core, op % 8, MovemStep(op));
    }
  }

  lemma MovemSeen(c: Core, an: nat, step: nat)
    requires an < 8 && (step == 2 || step == 4)
    ensures c.bus.seen <= MovemStore(c, an, step).bus.seen
  {
    hide StoreDown, Wrap, Peek, Below, ListDown, Span, SameOutside;
    var (c1, mask) := Fetch(c, 2, true);
    if c1.bus.fault.None? {
      WrapLong(c.a[an]);
      StoreDownFills(c1, ListDown(mask), step, an, 16, c1.bus, c.a[an]);
    }
  }

  lemma FetchSeen(u: Cpu, q: Pages)
    requires Poised(u) && Execute(Remap(u, q)).core.bus.fault.None?
    ensures Span(u.core.pc, 4) <= Execute(Remap(u, q)).core.bus.seen
  {
    hide Perform, Peek, Wrap, Within, Covered, SelfIndexed;
    var v := Remap(u, q);
    var (t, word) := Head(v.(core := v.core.(bus := v.core.bus.(seen := {}))));
    PerformSeen(t, word / 0x1_0000);
  }

  /** The bytes an instruction stores. */
  function Stores(c: Core, op: nat): set<Long> {
    if IsMovemStore(op) then StoreRegion(c, op % 8, MovemStep(op), Peek(c.bus.mem, c.pc, 2)) else MoveStores(c, op)
  }

  /** The bytes a whole attempt stores. */
  function Written(u: Cpu): set<Long> {
    var (t, word) := Head(u.(core := u.core.(bus := u.core.bus.(seen := {}))));
    Stores(t.core, word / 0x1_0000)
  }

  /** A load into a register, with garbage already in the bytes it will load. */
  lemma LoadSame(c: Core, c': Core, op: nat, region: set<Long>)
    requires LoadsRegister(op) && c.model.M68030? && c.bus.fault.None?
    requires c' == c.(d := c'.d, bus := c.bus.(mem := c'.bus.mem)) && RegistersKept(c.d, c'.d, op)
    requires SameOutside(c.bus.mem, c'.bus.mem, region)
    requires Move(c, op).0.bus.fault.None? && Move(c, op).0.bus.seen !! region
    requires !SelfIndexed(op, Peek(c.bus.mem, c.pc, 2))
    ensures SameCore(Move(c, op).0, Move(c', op).0, region) && Move(c, op).1 == Move(c', op).1
  {
    hide ReadEa, Get, Peek, MoveSize, SrcMode, SrcReg, DstReg, IndexedBy, Read, Wrap, IsMove, IsIndexed;
    var (size, mode, reg, r) := (MoveSize(op), SrcMode(op), SrcReg(op), DstReg(op));
    var c0 := c'.(d := c.d);
    assert c' == WithDn(c0, r, c'.d[r]);
    MoveSame(c, c0, region, op);
    ReadEaQuiet(c, size, mode, reg, true);
    ReadEaSame(c, c0, region, size, mode, reg, true);
    var (c1, v) := ReadEa(c, size, mode, reg, true);
    ReadEaQuiet(c0, size, mode, reg, true);
    if IsIndexed(mode, reg) {
      IndexWord(c, size, mode, reg);
      IndexWordSame(c, c0, region, size, mode, reg);
    }
    ReadEaIgnores(c0, r, c'.d[r], size, mode, reg, true);
    MergeSame(c.d[r], c'.d[r], size, v);
  }

  lemma MergeSame(x: Long, y: Long, size: nat, v: nat)
    requires x / Pow256(size) == y / Pow256(size)
    ensures Merge(x, size, v) == Merge(y, size, v)
  {
  }

  /** Without a fault the extension word is the one in memory. */
  lemma IndexWord(c: Core, size: nat, mode: nat, reg: nat)
    requires reg < 8 && IsIndexed(mode, reg) && ReadEa(c, size, mode, reg, true).0.bus.fault.None?
    ensures Fetch(c, 2, true).1 == Peek(c.bus.mem, c.pc, 2)
    ensures Fetch(c, 2, true).0.bus.seen <= ReadEa(c, size, mode, reg, true).0.bus.seen
  {
    hide Peek, FullEa, IndexValue, Wrap, Bit, S8, Span;
    var (c1, ext) := Fetch(c, 2, true);
    FullEaQuiet(c1, ext, if mode == 6 then c.a[reg] else c.pc, Wrap(c.pc + 2));
    var (c2, ea) := CalcEa(c, size, mode, reg, true);
    ReadQuiet(c2.bus, ea, size);
  }

  lemma IndexWordSame(c: Core, c': Core, region: set<Long>, size: nat, mode: nat, reg: nat)
    requires reg < 8 && IsIndexed(mode, reg) && SameCore(c, c', region)
    requires Fetch(c, 2, true).0.bus.seen !! region
    ensures Fetch(c', 2, true).1 == Fetch(c, 2, true).1
  {
    FetchSame(c, c', region, 2, true);
  }

  /** The instruction itself, from memories that differ where it was disturbed. */
  lemma PerformSame(u: Cpu, t: Cpu, op: nat, region: set<Long>, partial: set<Long>)
    requires Covered(op) && u.core.bus.fault.None? && u.core.model.M68030?
    requires t.core == u.core.(d := t.core.d, bus := u.core.bus.(mem := t.core.bus.mem))
    requires RegistersKept(u.core.d, t.core.d, op) && !SelfIndexed(op, Peek(u.core.bus.mem, u.core.pc, 2))
    requires SameOutside(u.core.bus.mem, t.core.bus.mem, region + partial)
    requires Perform(u, op).core.bus.fault.None? && Perform(u, op).core.bus.seen !! region
    requires partial == if IsMovemStore(op) then Stores(u.core, op) else {}
    requires IsMovemStore(op) ==> Span(u.core.pc, 2) !! region + partial
    requires t.ccr.x == u.ccr.x && (IsMovemStore(op) ==> t.ccr == u.ccr)
    ensures SameCore(Perform(u, op).core, Perform(t, op).core, region - Stores(u.core, op))
    ensures Perform(t, op).ccr == Perform(u, op).ccr
  {
    hide Move, MovemStore, Get, Peek, Wrap, MoveSize, StoreRegion, IsMove, IsMovemStore, Span, SelfIndexed, MoveStores;
    Exclusive(op);
    if IsMove(op) {
      assert region + partial == region;
      if LoadsRegister(op) {
        LoadSame(u.core, t.core, op, region);
        LoadStoresNothing(u.core, op);
        assert region - {} == region;
      } else {
        MoveSettles(u.core, t.core, region, op);
      }
    } else {
      MovemSettles(u.core, t.core, op, region);
    }
  }

  lemma LoadStoresNothing(c: Core, op: nat)
    requires LoadsRegister(op)
    ensures MoveStores(c, op) == {}
  {
  }

  lemma MovemSettles(c: Core, c': Core, op: nat, region: set<Long>)
    requires IsMovemStore(op) && c.bus.fault.None? && c' == c.(bus := c.bus.(mem := c'.bus.mem))
    requires SameOutside(c.bus.mem, c'.bus.mem, region + Stores(c, op))
    requires Span(c.pc, 2) !! region + Stores(c, op)
    requires MovemStore(c, op % 8, MovemStep(op)).bus.fault.None?
    ensures var (t, t') := (MovemStore(c, op % 8, MovemStep(op)), MovemStore(c', op % 8, MovemStep(op)));
            SameCore(t, t', region - Stores(c, op))
  {
    hide MovemStore, Get, Peek, StoreRegion, Span;
    var rest := region - Stores(c, op);
    assert rest + Stores(c, op) == region + Stores(c, op);
    MovemStoreCovers(c, c', op % 8, MovemStep(op), rest);
  }

  /** A successful attempt from a resumed state ends as it would have at first. */
  lemma SuccessSame(u: Cpu, t: Cpu, q: Pages, scratch: set<Long>)
    requires Poised(u) && CodeSafe(u, scratch) && Resumed(u, t, Disturbed(u, scratch)) && FlagsKept(u, t)
    requires Execute(Remap(u, q)).core.bus.fault.None?
    requires Execute(Remap(u, q)).core.bus.seen !! RetryFrame(u) + scratch
    ensures var (w, w') := (Execute(Remap(u, q)), Execute(Remap(t, q)));
            && SameCore(w.core, w'.core, RetryFrame(u) + scratch - Written(Remap(u, q))) && w'.ccr == w.ccr
            && w == u.(core := w.core, ccr := w.ccr, ipc := w.ipc, lastFault := w.lastFault)
            && w' == t.(core := w'.core, ccr := w'.ccr, ipc := w'.ipc, lastFault := w'.lastFault)
  {
    hide Move, MovemStore, Get, Peek, Wrap, MoveSize, StoreRegion, IsMove, IsMovemStore, Span, RetryFrame,
         RegistersKept, SelfIndexed, MoveStores;
    var b := u.core.bus.(userFaults := q.user, superFaults := q.super, seen := {});
    var b' := t.core.bus.(userFaults := q.user, superFaults := q.super, seen := {});
    PeekSame(u.core.bus.mem, t.core.bus.mem, u.core.pc, 4);
    var (r, w) := Read(b, u.core.pc, 4);
    var r' := Read(b', u.core.pc, 4).0;
    var op := w / 0x1_0000;
    var v := Head(Remap(u, q).(core := Remap(u, q).core.(bus := b))).0;
    var v' := Head(Remap(t, q).(core := Remap(t, q).core.(bus := b'))).0;
    SecondWord(u.core.pc);
    Exclusive(op);
    StoreRegionSame(u.core, v.core);
    PerformSame(v, v', op, RetryFrame(u) + scratch, Partial(u));
  }

  /**
  Restart transparency: whatever pages are missing at each attempt, whatever
  the handlers run, store and interrupt as long as they give D0-A7 back, and
  however many attempts fault, the first that completes
  leaves the registers, program counter, status register, stack pointers and
  memory exactly as a single undisturbed execution would, but for bytes of the
  dead frame and of the handlers that the instruction itself did not store.
  */
  lemma RestartTransparent(u: Cpu, rs: seq<Round>, q: Pages, fc: nat, scratch: set<Long>)
    requires Poised(u) && CodeSafe(u, scratch) && AllFault(u, rs, fc, scratch)
    requires Execute(Remap(u, q)).core.bus.fault.None?
    requires Execute(Remap(u, q)).core.bus.seen !! RetryFrame(u) + scratch
    ensures var (w, t) := (Execute(Remap(u, q)), Execute(Remap(Retries(u, rs, fc), q)));
            && t.core.bus.fault.None? && t.core.pc == w.core.pc
            && t.core.d == w.core.d && t.core.a == w.core.a
            && GetSr(t) == GetSr(w)
            && Usp(t) == Usp(w) && Isp(t) == Isp(w) && Msp(t) == Msp(w)
            && SameOutside(w.core.bus.mem, t.core.bus.mem, RetryFrame(u) + scratch - Written(Remap(u, q)))
  {
    hide Execute, Retries, AllFault, Span, Covered, CodeSafe, Disturbed, ReadCcr, Status, Get, FlagsKept,
         SelfIndexed, RegistersKept, Written;
    RetriesResume(u, rs, fc, scratch);
    SuccessSame(u, Retries(u, rs, fc), q, scratch);
  }

  /** For MOVE the code cannot be in the way: it reads its own words, which are not disturbed. */
  lemma MoveIsCodeSafe(u: Cpu, q: Pages, scratch: set<Long>)
    requires Poised(u) && !IsMovemStore(Opcode(u.core.bus.mem, u.core.pc))
    requires Execute(Remap(u, q)).core.bus.fault.None?
    requires Execute(Remap(u, q)).core.bus.seen !! RetryFrame(u) + scratch
    ensures CodeSafe(u, scratch)
  {
    hide Execute, Span, Covered, Peek, SelfIndexed;
    FetchSeen(u, q);
  }
}
