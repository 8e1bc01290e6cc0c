/**
The execution core as the object it is in the source: registers, banked stack
pointers, status fields and the pending fault updated step by step
(src/core/cpu/cpu_internal.h, src/core/cpu/cpu_ops.h). Every method is tied to
the function on values that the theorems of the other modules are about.
*/
module Processor {
  import opened Words
  import opened Memory
  import opened Operands
  import opened System
  import opened Movem
  import opened Bits
  import opened Instructions
  import opened Sprint
  import opened Banking
  import opened LimbChains
  import opened Chains

  function WithCore(u: Cpu, c: Core): Cpu { u.(core := c) }
  function WithBus(u: Cpu, b: Bus): Cpu { u.(core := u.core.(bus := b)) }
  function WithPc(u: Cpu, pc: Long): Cpu { u.(core := u.core.(pc := pc)) }

  function WithD(u: Cpu, r: nat, v: Long): Cpu
    requires r < 8
  {
    u.(core := u.core.(d := u.core.d[r := v]))
  }

  function WithA(u: Cpu, r: nat, v: Long): Cpu
    requires r < 8
  {
    u.(core := u.core.(a := u.core.a[r := v]))
  }

  class Processor {
    /** Instructions an access to slow I/O space burns. */
    const penalty: Long -> nat

    /** The processor's registers and status, updated field by field. */
    var cpu: Cpu
    /** Instructions left in the current sprint. */
    var left: nat
    /** The last opcode fetched without a fault, and where. */
    var ir: nat
    var irPc: Long

    function Here(): Machine reads this { Machine(cpu, ir, irPc) }

    /** A pending fault has ended the sprint. */
    predicate Ok() reads this { cpu.core.bus.fault.Some? ==> left == 0 }

    /** No access costs anything. */
    ghost predicate NoCost() { forall a: Long :: penalty(a) == 0 }

    /**
    What every routine that does not deliver a fault keeps: the counter does not
    rise, a fault stays pending and leaves nothing of it, and without slow
    accesses or faults it does not move.
    */
    twostate predicate Later() reads this {
      && Ok() && left <= old(left)
      && (old(cpu.core.bus.fault.Some?) ==> cpu.core.bus.fault.Some?)
      && (NoCost() && cpu.core.bus.fault.None? ==> left == old(left))
    }

    constructor (u: Cpu, budget: nat, cost: Long -> nat)
      ensures cpu == u && penalty == cost && Ok()
      ensures left == if u.core.bus.fault.Some? then 0 else budget
    {
      cpu, penalty, ir, irPc := u, cost, 0, 0;
      left := if u.core.bus.fault.Some? then 0 else budget;
    }

    // ---- memory ---------------------------------------------------------

    /** After an access: a pending fault ends the sprint, slow I/O burns some of it. */
    method Charge(addr: Long)
      modifies this`left
      ensures left <= old(left) && Ok()
      ensures NoCost() && cpu.core.bus.fault.None? ==> left == old(left)
    {
      left := if cpu.core.bus.fault.Some? || left < penalty(addr) then 0 else left - penalty(addr);
    }

    method ReadMem(addr: Long, n: nat) returns (v: nat)
      requires Ok()
      modifies this`cpu, this`left
      ensures var (b, w) := Read(old(cpu.core.bus), addr, n); cpu == WithBus(old(cpu), b) && v == w
      ensures Later()
    {
      hide NoCost;
      var (b, w) := Read(cpu.core.bus, addr, n);
      cpu, v := WithBus(cpu, b), w;
      Charge(addr);
    }

    method WriteMem(addr: Long, n: nat, v: nat)
      requires Ok()
      modifies this`cpu, this`left
      ensures cpu == WithBus(old(cpu), Write(old(cpu.core.bus), addr, n, v))
      ensures Later()
    {
      hide NoCost;
      cpu := WithBus(cpu, Write(cpu.core.bus, addr, n, v));
      Charge(addr);
    }

    method FetchWord(n: nat, inc: bool) returns (v: nat)
      requires Ok()
      modifies this`cpu, this`left
      ensures var (c, r) := Fetch(old(cpu.core), n, inc); cpu == WithCore(old(cpu), c) && v == r
      ensures Later()
    {
      hide NoCost;
      v := ReadMem(cpu.core.pc, n);
      if inc {
        cpu := WithPc(cpu, Wrap(cpu.core.pc + n));
      }
    }

    // ---- effective addresses --------------------------------------------

    method ReadDisplacement(pos: Long, sel: nat) returns (v: int, next: Long)
      requires Ok()
      modifies this`cpu, this`left
      ensures var (b, w, p) := Displacement(old(cpu.core.bus), pos, sel);
              cpu == WithBus(old(cpu), b) && v == w && next == p
      ensures Later()
    {
      hide NoCost;
      v, next := 0, pos;
      if sel == 2 {
        var w := ReadMem(pos, 2);
        v, next := S16(w), Wrap(pos + 2);
      } else if sel == 3 {
        v := ReadMem(pos, 4);
        next := Wrap(pos + 4);
      }
    }

    /** A pointer from memory, then the outer displacement. */
    method ReadPointer(at: Long, pos: Long, sel: nat) returns (ptr: nat, od: int, next: Long)
      requires Ok()
      modifies this`cpu, this`left
      ensures var (b1, v) := Read(old(cpu.core.bus), at, 4);
              var (b2, w, p) := Displacement(b1, pos, sel);
              cpu == WithBus(old(cpu), b2) && ptr == v && od == w && next == p
      ensures Later()
    {
      hide NoCost, Read, Displacement;
      ptr := ReadMem(at, 4);
      od, next := ReadDisplacement(pos, sel);
    }

    /** The address of a full extension word and the position after its displacements. */
    method ResolveFull(ext: nat, reg: Long, start: Long) returns (ea: Long, pos: Long)
      requires Ok()
      modifies this`cpu, this`left
      ensures var (b, e, p) := FullEa(old(cpu.core), ext, reg, start);
              cpu == WithBus(old(cpu), b) && ea == e && pos == p
      ensures Later()
    {
      hide NoCost, Read, Displacement, Wrap, IndexValue, Bit;
      var base := if Bit(ext, 0x80) then 0 else reg;
      var index := if Bit(ext, 0x40) then 0 else IndexValue(cpu.core, ext);
      var bd, p1 := ReadDisplacement(start, ext / 0x10 % 4);
      pos := p1;
      var iis := ext % 8;
      if 1 <= iis <= 3 {
        var ptr, od, p2 := ReadPointer(Wrap(base + bd + index), pos, iis);
        ea, pos := Wrap(ptr + od), p2;
      } else if 5 <= iis && !Bit(ext, 0x40) {
        var ptr, od, p2 := ReadPointer(Wrap(base + bd), pos, iis - 4);
        ea, pos := Wrap(ptr + od + index), p2;
      } else {
        ea := Wrap(base + index + bd);
      }
    }

    /** `calculate_ea_full`; PC is just past the extension word if inc, at it if not. */
    method CalculateEaFull(ext: nat, reg: Long, inc: bool) returns (ea: Long)
      requires Ok()
      modifies this`cpu, this`left
      ensures var c := old(cpu.core);
              var (b, e, pos) := FullEa(c, ext, reg, if inc then c.pc else Wrap(c.pc + 2));
              cpu == WithCore(old(cpu), c.(bus := b, pc := if inc then pos else c.pc)) && ea == e
      ensures Later()
    {
      hide NoCost, FullEa, Wrap;
      var start := if inc then cpu.core.pc else Wrap(cpu.core.pc + 2);
      var pos: Long;
      ea, pos := ResolveFull(ext, reg, start);
      if inc {
        cpu := WithPc(cpu, pos);
      }
    }

    method CalculateIndexed(base: Long, inc: bool) returns (ea: Long)
      requires Ok()
      modifies this`cpu, this`left
      ensures var (c, r) := IndexedEa(old(cpu.core), base, inc); cpu == WithCore(old(cpu), c) && ea == r
      ensures Later()
    {
      hide NoCost, Read, FullEa, Wrap, IndexValue;
      var ext := FetchWord(2, inc);
      if Bit(ext, 0x100) && cpu.core.model.M68030? {
        ea := CalculateEaFull(ext, base, inc);
      } else {
        ea := Wrap(base + S8(ext) + IndexValue(cpu.core, ext));
      }
    }

    /** `calculate_ea` and `calculate_ea_slow`. */
    method CalculateEa(size: nat, mode: nat, reg: nat, inc: bool) returns (ea: Long)
      requires Ok() && reg < 8
      modifies this`cpu, this`left
      ensures var (c, r) := CalcEa(old(cpu.core), size, mode, reg, inc); cpu == WithCore(old(cpu), c) && ea == r
      ensures Later()
    {
      hide NoCost, Read, IndexedEa, Wrap, S16;
      if mode == 2 {
        ea := cpu.core.a[reg];
      } else if mode == 3 {
        ea := cpu.core.a[reg];
        if inc {
          cpu := WithA(cpu, reg, Wrap(cpu.core.a[reg] + Step(size, reg)));
        }
      } else if mode == 4 {
        ea := Wrap(cpu.core.a[reg] - Step(size, reg));
        if inc {
          cpu := WithA(cpu, reg, ea);
        }
      } else if mode == 5 {
        var v := FetchWord(2, inc);
        ea := Wrap(cpu.core.a[reg] + S16(v));
      } else if mode == 6 {
        ea := CalculateIndexed(cpu.core.a[reg], inc);
      } else if mode == 7 {
        ea := CalculateSpecial(size, reg, inc);
      } else {
        ea := B32 - 1;
      }
    }

    method CalculateSpecial(size: nat, reg: nat, inc: bool) returns (ea: Long)
      requires Ok() && reg < 8
      modifies this`cpu, this`left
      ensures var (c, r) := SpecialEa(old(cpu.core), size, reg, inc); cpu == WithCore(old(cpu), c) && ea == r
      ensures Later()
    {
      hide NoCost, Read, IndexedEa, Wrap, S16;
      var at := cpu.core.pc;
      if reg == 0 {
        var v := FetchWord(2, inc);
        ea := Wrap(S16(v));
      } else if reg == 1 {
        var v := FetchWord(4, inc);
        ea := Wrap(v);
      } else if reg == 2 {
        var v := FetchWord(2, inc);
        ea := Wrap(at + S16(v));
      } else if reg == 3 {
        ea := CalculateIndexed(at, inc);
      } else if reg == 4 {
        ea := if size == 1 then Wrap(cpu.core.pc + 1) else cpu.core.pc;
        if inc {
          cpu := WithPc(cpu, Wrap(cpu.core.pc + if size == 1 then 2 else size));
        }
      } else {
        ea := 0;
      }
    }

    // ---- operands and MOVE ----------------------------------------------

    /** `read_ea_8/16/32`. */
    method ReadOperand(size: nat, mode: nat, reg: nat, inc: bool) returns (v: nat)
      requires Ok() && reg < 8
      modifies this`cpu, this`left
      ensures var (c, r) := ReadEa(old(cpu.core), size, mode, reg, inc); cpu == WithCore(old(cpu), c) && v == r
      ensures Later()
    {
      hide NoCost, Read, CalcEa;
      if mode == 0 {
        v := cpu.core.d[reg] % Pow256(size);
      } else if mode == 1 {
        v := cpu.core.a[reg] % Pow256(size);
      } else {
        var ea := CalculateEa(size, mode, reg, inc);
        v := ReadMem(ea, size);
      }
    }

    /** `write_ea_8/16/32`. */
    method WriteOperand(size: nat, mode: nat, reg: nat, v: nat)
      requires Ok() && reg < 8
      modifies this`cpu, this`left
      ensures cpu == WithCore(old(cpu), WriteEa(old(cpu.core), size, mode, reg, v))
      ensures Later()
    {
      hide NoCost, Write, CalcEa, Merge;
      if mode == 0 {
        cpu := WithD(cpu, reg, Merge(cpu.core.d[reg], size, v));
      } else if mode == 1 {
        cpu := WithA(cpu, reg, Merge(cpu.core.a[reg], size, v));
      } else {
        var saved := cpu.core.a[reg];
        var ea := CalculateEa(size, mode, reg, true);
        if cpu.core.bus.fault.Some? {
          if AutoStep(mode) {
            cpu := WithA(cpu, reg, saved);
          }
          return;
        }
        WriteMem(ea, size, v);
        if cpu.core.bus.fault.Some? && AutoStep(mode) {
          cpu := WithA(cpu, reg, saved);
        }
      }
    }

    /**
    MOVE: the source register is put back when anything faulted, so a fault
    leaves memory, the address registers and, with a memory destination, the
    data registers.
    */
    method ExecuteMove(op: nat) returns (v: nat)
      requires Ok()
      modifies this`cpu, this`left
      ensures old(cpu.core.bus.fault.None?) && cpu.core.bus.fault.Some? && DstMode(op) != 1 ==>
                && cpu.core.a == old(cpu.core.a) && cpu.core.bus.mem == old(cpu.core.bus.mem)
                && (DstMode(op) >= 2 ==> cpu.core.d == old(cpu.core.d))
      ensures var (c, r) := Move(old(cpu.core), op); cpu == WithCore(old(cpu), c) && v == r
      ensures Later()
    {
      hide NoCost, ReadEa, WriteEa, MoveSize, SrcMode, SrcReg, DstMode, DstReg;
      var saved := cpu.core.a[SrcReg(op)];
      v := ReadOperand(MoveSize(op), SrcMode(op), SrcReg(op), true);
      WriteOperand(MoveSize(op), DstMode(op), DstReg(op), v);
      if cpu.core.bus.fault.Some? && AutoStep(SrcMode(op)) {
        cpu := WithA(cpu, SrcReg(op), saved);
      }
      if old(cpu.core.bus.fault.None?) {
        MoveFault(old(cpu.core), op);
      }
    }

    // ---- MOVEM ----------------------------------------------------------

    /** `movem_from_register` to -(An): A7 down to A0, then D7 down to D0. */
    method StoreRegisters(an: nat, step: nat)
      requires Ok() && an < 8
      modifies this`cpu, this`left
      ensures cpu == WithCore(old(cpu), MovemStore(old(cpu.core), an, step))
      ensures Later()
    {
      hide NoCost, Write, Read, Wrap, StoreDown, BitAt, Pow256;
      var word := FetchWord(2, true);
      if cpu.core.bus.fault.Some? {
        return;
      }
      ghost var c := cpu.core;
      ghost var l := ListDown(word);
      var addr := cpu.core.a[an];
      var i := 0;
      while i < 8
        invariant i <= 8 && cpu.core.bus.fault.None? && Later()
        invariant cpu == WithCore(old(cpu), c.(bus := cpu.core.bus))
        invariant StoreDown(c, l, step, an, 16, c.bus, c.a[an]) == StoreDown(c, l, step, an, 16 - i, cpu.core.bus, addr)
      {
        StoreDownStep(c, l, step, an, 16 - i, cpu.core.bus, addr);
        if BitAt(word, i) {
          addr := Wrap(addr as int - step);
          var val := cpu.core.a[7 - i];
          if cpu.core.model.M68030? && 7 - i == an {
            val := Wrap(val as int - step);
          }
          WriteMem(addr, step, val % Pow256(step));
          if cpu.core.bus.fault.Some? {
            StoreDownEnd(c, l, step, an, 15 - i, cpu.core.bus, addr);
            return;
          }
        }
        i := i + 1;
      }
      i := 0;
      while i < 8
        invariant i <= 8 && cpu.core.bus.fault.None? && Later()
        invariant cpu == WithCore(old(cpu), c.(bus := cpu.core.bus))
        invariant StoreDown(c, l, step, an, 16, c.bus, c.a[an]) == StoreDown(c, l, step, an, 8 - i, cpu.core.bus, addr)
      {
        StoreDownStep(c, l, step, an, 8 - i, cpu.core.bus, addr);
        if BitAt(word, 8 + i) {
          addr := Wrap(addr as int - step);
          WriteMem(addr, step, cpu.core.d[7 - i] % Pow256(step));
          if cpu.core.bus.fault.Some? {
            StoreDownEnd(c, l, step, an, 7 - i, cpu.core.bus, addr);
            return;
          }
        }
        i := i + 1;
      }
      StoreDownEnd(c, l, step, an, 0, cpu.core.bus, addr);
      cpu := WithA(cpu, an, addr);
    }

    /** A store that faults leaves every register, so it can be restarted. */
    method ExecuteMovemStore(an: nat, step: nat)
      requires Ok() && an < 8 && (step == 2 || step == 4)
      modifies this`cpu, this`left
      ensures cpu == WithCore(old(cpu), MovemStore(old(cpu.core), an, step)) && Later()
      ensures old(cpu.core.bus.fault.None?) && cpu.core.bus.fault.Some? ==>
                cpu.core.d == old(cpu.core.d) && cpu.core.a == old(cpu.core.a)
    {
      hide NoCost, MovemStore;
      StoreRegisters(an, step);
      if old(cpu.core.bus.fault.None?) {
        StoreFault(old(cpu.core), an, step);
      }
    }

    /** `movem_to_register`: values are staged, and committed only when no load faulted. */
    method ExecuteMovemLoad(mode: nat, reg: nat, step: nat)
      requires Ok() && reg < 8
      modifies this`cpu, this`left
      ensures cpu == WithCore(old(cpu), MovemLoad(old(cpu.core), mode, reg, step))
      ensures Later()
    {
      hide NoCost, Read, Wrap, LoadUp, BitAt, CalcEa, Extend;
      var word := FetchWord(2, true);
      if cpu.core.bus.fault.Some? {
        return;
      }
      var ea: Long := CalculateEa(4, mode, reg, true);
      ghost var c := cpu.core;
      ghost var l := ListUp(word);
      ghost var ea0 := ea;
      var newD: Regs, newA: Regs := cpu.core.d, cpu.core.a;
      if cpu.core.bus.fault.Some? {
        LoadUpEnd(l, step, 0, cpu.core.bus, ea, newD + newA);
        return;
      }
      var i := 0;
      while i < 8
        invariant i <= 8 && cpu.core.bus.fault.None? && Later()
        invariant cpu == WithCore(old(cpu), c.(bus := cpu.core.bus))
        invariant LoadUp(l, step, 0, c.bus, ea0, c.d + c.a) == LoadUp(l, step, i, cpu.core.bus, ea, newD + newA)
      {
        LoadUpStep(l, step, i, cpu.core.bus, ea, newD + newA);
        if BitAt(word, i) {
          var v := ReadMem(ea, step);
          ea := Wrap(ea + step);
          StageLow(newD, newA, i, Extend(step, v));
          if cpu.core.bus.fault.Some? {
            LoadUpEnd(l, step, i + 1, cpu.core.bus, ea, newD[i := Extend(step, v)] + newA);
            return;
          }
          newD := newD[i := Extend(step, v)];
        }
        i := i + 1;
      }
      i := 0;
      while i < 8
        invariant i <= 8 && cpu.core.bus.fault.None? && Later()
        invariant cpu == WithCore(old(cpu), c.(bus := cpu.core.bus))
        invariant LoadUp(l, step, 0, c.bus, ea0, c.d + c.a) == LoadUp(l, step, 8 + i, cpu.core.bus, ea, newD + newA)
      {
        LoadUpStep(l, step, 8 + i, cpu.core.bus, ea, newD + newA);
        if BitAt(word, 8 + i) {
          var v := ReadMem(ea, step);
          ea := Wrap(ea + step);
          StageHigh(newD, newA, i, Extend(step, v));
          if cpu.core.bus.fault.Some? {
            LoadUpEnd(l, step, 8 + i + 1, cpu.core.bus, ea, newD + newA[i := Extend(step, v)]);
            return;
          }
          newA := newA[i := Extend(step, v)];
        }
        i := i + 1;
      }
      LoadUpEnd(l, step, 16, cpu.core.bus, ea, newD + newA);
      assert (newD + newA)[..8] == newD && (newD + newA)[8..] == newA;
      cpu := cpu.(core := cpu.core.(d := newD, a := newA));
      if mode == 3 {
        cpu := WithA(cpu, reg, ea);
      }
    }

    // ---- status register and stacks -------------------------------------

    /** The switch every exception entry performs. */
    method EnterSupervisor()
      modifies this`cpu
      ensures cpu == ToSupervisor(old(cpu)) && cpu.core.bus.fault == old(cpu.core.bus.fault)
    {
      hide NoCost;
      var master := cpu.m && cpu.core.model.M68030?;
      if !cpu.s {
        cpu := cpu.(usp := cpu.core.a[7]);
        cpu := WithA(cpu, 7, if master then cpu.msp else cpu.ssp);
        cpu := cpu.(s := true);
        cpu := cpu.(m := false);
        cpu := WithBus(cpu, cpu.core.bus.(readView := Supervisor, writeView := Supervisor));
      } else if master {
        cpu := cpu.(msp := cpu.core.a[7]);
        cpu := WithA(cpu, 7, cpu.ssp);
        cpu := cpu.(m := false);
      }
    }

    method PushValue(n: nat, v: nat)
      requires Ok()
      modifies this`cpu, this`left
      ensures cpu == WithCore(old(cpu), Push(old(cpu.core), n, v)) && Later()
    {
      hide NoCost;
      cpu := WithA(cpu, 7, Wrap(cpu.core.a[7] - n));
      WriteMem(cpu.core.a[7], n, v);
    }

    /** The frame of `exception`. */
    method PushFrame(vector: nat, at: Long, sr: nat)
      requires Ok()
      modifies this`cpu, this`left
      ensures cpu == WithCore(old(cpu), Framed(old(cpu.core), vector, old(cpu.ipc), at, sr)) && Later()
    {
      hide NoCost, Push, LongFormat;
      if cpu.core.model.M68030? {
        if LongFormat(vector) {
          PushValue(4, cpu.ipc);
        }
        PushValue(2, (if LongFormat(vector) then 0x2000 else 0) + vector % 0x1000);
      }
      PushValue(4, at);
      PushValue(2, sr);
    }

    /** `exception`. */
    method RaiseException(vector: nat, at: Long, sr: nat)
      requires Ok()
      modifies this`cpu, this`left
      ensures cpu == Exception(old(cpu), vector, at, sr) && Later() && Steady(old(cpu), cpu)
    {
      hide NoCost, Steady, Framed, ToSupervisor, Read, Wrap;
      SupervisorKeeps(cpu);
      var slot := if cpu.core.model.M68030? then Wrap(cpu.vbr + vector) else Wrap(vector);
      EnterSupervisor();
      PushFrame(vector, at, sr);
      var handler := ReadMem(slot, 4);
      cpu := WithPc(cpu, Wrap(handler));
      cpu := cpu.(trace := 0);
      ExceptionSteady(old(cpu), vector, at, sr);
    }

    /** `cpu_check_interrupt`. */
    method PollInterrupt()
      requires Ok()
      modifies this`cpu, this`left
      ensures cpu == CheckInterrupt(old(cpu)) && Later()
    {
      hide NoCost, Exception, GetSr;
      if cpu.ipl > cpu.mask || cpu.ipl == 7 {
        var sr := GetSr(cpu);
        cpu := cpu.(mask := cpu.ipl);
        RaiseException(0x60 + 4 * cpu.ipl, cpu.core.pc, sr);
      }
    }

    /** `write_sr`. */
    method WriteStatus(sr: nat)
      requires Ok()
      modifies this`cpu, this`left
      ensures cpu == WriteSr(old(cpu), sr) && Later()
      ensures Valid(old(cpu)) && !InterruptDue(old(cpu.ipl), sr / 0x100 % 8) ==>
                && Usp(cpu) == Usp(old(cpu)) && Isp(cpu) == Isp(old(cpu)) && Msp(cpu) == Msp(old(cpu))
                && GetSr(cpu) == Implemented(old(cpu.core.model), sr)
    {
      SwitchStatus(sr);
      hide NoCost, LoadSr, Exception, GetSr, Implemented;
      if Valid(old(cpu)) {
        LoadSrRefines(old(cpu), sr);
        LoadSrLevels(old(cpu), sr);
      }
      PollInterrupt();
    }

    /** `write_sr` up to its interrupt check. */
    method SwitchStatus(sr: nat)
      requires Ok()
      modifies this`cpu
      ensures cpu == LoadSr(old(cpu), sr) && cpu.core.bus.fault == old(cpu.core.bus.fault)
    {
      hide NoCost, CheckInterrupt, WriteCcr, Bit;
      var newS, oldS := Bit(sr, 0x2000), cpu.s;
      if cpu.core.model.M68030? {
        var newM := Bit(sr, 0x1000);
        if cpu.s {
          cpu := if cpu.m then cpu.(msp := cpu.core.a[7]) else cpu.(ssp := cpu.core.a[7]);
          cpu := WithA(cpu, 7, if !newS then cpu.usp else if newM then cpu.msp else cpu.ssp);
        } else if newS {
          cpu := cpu.(usp := cpu.core.a[7]);
          cpu := WithA(cpu, 7, if newM then cpu.msp else cpu.ssp);
        }
        cpu := cpu.(m := newM);
        cpu := cpu.(trace := sr / 0x4000 % 4);
      } else {
        if newS && !cpu.s {
          cpu := cpu.(usp := cpu.core.a[7]);
          cpu := WithA(cpu, 7, cpu.ssp);
        } else if !newS && cpu.s {
          cpu := cpu.(ssp := cpu.core.a[7]);
          cpu := WithA(cpu, 7, cpu.usp);
        }
        cpu := cpu.(trace := sr / 0x8000 % 2);
      }
      if newS != oldS {
        cpu := WithBus(cpu, cpu.core.bus.(readView := ViewOf(newS), writeView := ViewOf(newS)));
      }
      cpu := cpu.(s := newS);
      cpu := cpu.(mask := sr / 0x100 % 8);
      cpu := cpu.(ccr := WriteCcr(sr));
    }

    // ---- bus errors and RTE ---------------------------------------------

    method PushFaultFrame(sr: nat, at: Long, ssw: nat, addr: Long)
      requires Ok()
      modifies this`cpu, this`left
      ensures cpu == WithCore(old(cpu), PushBusFrame(old(cpu.core), sr, at, ssw, addr)) && Later()
    {
      hide NoCost, Write, Wrap, ZeroFill;
      cpu := WithA(cpu, 7, Wrap(cpu.core.a[7] - BUS_FRAME));
      var frame := cpu.core.a[7];
      ghost var u := cpu;
      var i := 0;
      while i < BUS_FRAME
        invariant i <= BUS_FRAME && i % 4 == 0 && Later()
        invariant cpu == WithBus(u, cpu.core.bus)
        invariant ZeroFill(u.core.bus, frame, 0) == ZeroFill(cpu.core.bus, frame, i)
      {
        ZeroFillStep(cpu.core.bus, frame, i);
        WriteMem(Wrap(frame + i), 4, 0);
        i := i + 4;
      }
      ZeroFillStep(cpu.core.bus, frame, i);
      WriteMem(frame, 2, sr);
      WriteMem(Wrap(frame + 2), 4, at);
      WriteMem(Wrap(frame + 6), 2, 0xB008);
      WriteMem(Wrap(frame + 0xA), 2, ssw);
      WriteMem(Wrap(frame + 0x10), 4, addr);
    }

    method Halt()
      modifies this`cpu, this`left
      ensures cpu == WithBus(old(cpu), old(cpu.core.bus).(fault := None)).(halted := true) && left == 0
    {
      hide NoCost;
      cpu := cpu.(halted := true);
      cpu := WithBus(cpu, cpu.core.bus.(fault := None));
      left := 0;
    }

    /** The jump through the bus-error vector; a fault while stacking or here is a double fault. */
    method VectorOrHalt() returns (ok: bool)
      requires Ok()
      modifies this`cpu, this`left
      ensures var c := old(cpu.core);
              var (b, handler) := Read(c.bus, Wrap(old(cpu.vbr) + 8), 4);
              ok == (c.bus.fault.None? && b.fault.None?)
              && cpu == if c.bus.fault.Some? then WithBus(old(cpu), c.bus.(fault := None)).(halted := true)
                        else WithCore(old(cpu), c.(bus := b.(fault := None), pc := Wrap(handler)))
                               .(halted := old(cpu.halted) || b.fault.Some?)
      ensures Ok() && left <= old(left)
    {
      hide NoCost, Read, Wrap;
      ok := false;
      if cpu.core.bus.fault.Some? {
        Halt();
        return;
      }
      var handler := ReadMem(Wrap(cpu.vbr + 8), 4);
      cpu := WithPc(cpu, Wrap(handler));
      ok := cpu.core.bus.fault.None?;
      if !ok {
        Halt();
      }
    }

    /** `exception_bus_error_retry` on the 68030. */
    method RaiseRetry(addr: Long, read: bool, fc: nat)
      requires Ok()
      modifies this`cpu, this`left
      ensures cpu == BusErrorRetry(old(cpu), addr, read, fc) && Ok() && left <= old(left)
    {
      hide NoCost, PushBusFrame, ToSupervisor, Read, Wrap, GetSr;
      SupervisorKeeps(cpu);
      var sr := GetSr(cpu);
      EnterSupervisor();
      PushFaultFrame(sr, cpu.ipc, StatusWord(read, fc), addr);
      var ok := VectorOrHalt();
      if ok {
        cpu := cpu.(trace := 0);
      }
    }

    /** `exception_bus_error` on the 68030. */
    method RaiseSkip(addr: Long, read: bool, fc: nat)
      requires Ok()
      modifies this`cpu, this`left
      ensures cpu == BusErrorSkip(old(cpu), addr, read, fc) && Ok() && left <= old(left)
    {
      hide NoCost, PushBusFrame, ToSupervisor, Read, Wrap, GetSr;
      SupervisorKeeps(cpu);
      if cpu.lastFault != 0 && cpu.lastFault == cpu.ipc {
        cpu := cpu.(lastFault := 0);
        Halt();
        return;
      }
      var sr, at := GetSr(cpu), cpu.core.pc;
      SupervisorLast(cpu, cpu.ipc);
      cpu := cpu.(lastFault := cpu.ipc);
      EnterSupervisor();
      PushFaultFrame(sr, at, StatusWord(read, fc), addr);
      var handler := ReadMem(Wrap(cpu.vbr + 8), 4);
      cpu := WithPc(cpu, Wrap(handler));
      cpu := cpu.(trace := 0);
      if at != cpu.ipc {
        cpu := cpu.(lastFault := 0);
      }
    }

    /** RTE in supervisor mode. */
    method ReturnFromException()
      requires Ok()
      modifies this`cpu, this`left
      ensures cpu == Rte(old(cpu)) && Later()
    {
      hide NoCost, Exception, WriteSr, Read, Wrap, GetSr;
      var sp: int := cpu.core.a[7];
      var sr := ReadMem(cpu.core.a[7], 2);
      var at := ReadMem(Wrap(sp + 2), 4);
      if cpu.core.model.M68030? {
        var word := ReadMem(Wrap(sp + 6), 2);
        var size := FrameSize(word / 0x1000);
        if size.None? {
          RaiseFormatError();
        } else {
          ResumeAt(Wrap(sp + size.value), Wrap(at), sr);
        }
      } else {
        ResumeAt(Wrap(sp + 6), Wrap(at), sr);
      }
    }

    method RaiseFormatError()
      requires Ok()
      modifies this`cpu, this`left
      ensures var t := old(cpu).(trace := 0); cpu == Exception(t, 0x38, t.ipc, GetSr(t)) && Later()
    {
      hide NoCost, Exception, GetSr;
      cpu := cpu.(trace := 0);
      RaiseException(0x38, cpu.ipc, GetSr(cpu));
    }

    /** Stack pointer, program counter and status word of a frame that is being left. */
    method ResumeAt(sp: Long, at: Long, sr: nat)
      requires Ok()
      modifies this`cpu, this`left
      ensures cpu == WriteSr(WithPc(WithA(old(cpu), 7, sp), at), sr) && Later()
    {
      hide NoCost, WriteSr;
      cpu := WithA(cpu, 7, sp);
      cpu := WithPc(cpu, at);
      WriteStatus(sr);
    }

    /** `exception_bus_error` on the 68000. */
    method RaiseGroupZero(addr: Long, read: bool, fc: nat)
      requires Ok()
      modifies this`cpu, this`left
      ensures cpu == GroupZero(old(cpu), addr, read, fc, ir) && Ok() && left <= old(left)
    {
      hide NoCost, TakeGroupZero;
      if cpu.lastFault != 0 && cpu.lastFault == cpu.ipc {
        cpu := cpu.(lastFault := 0);
        Halt();
      } else {
        EnterGroupZero(addr, read, fc);
      }
    }

    method EnterGroupZero(addr: Long, read: bool, fc: nat)
      requires Ok()
      modifies this`cpu, this`left
      ensures cpu == TakeGroupZero(old(cpu), addr, read, fc, ir) && Ok() && left <= old(left)
    {
      hide NoCost, PushGroupZero, ToSupervisor, Read, Wrap, GetSr, Flag;
      SupervisorKeeps(cpu);
      var sr, at := GetSr(cpu), cpu.core.pc;
      SupervisorLast(cpu, cpu.ipc);
      cpu := cpu.(lastFault := cpu.ipc);
      EnterSupervisor();
      PushGroupZeroFrame(Flag(read, 0x10) + 8 + fc % 8, addr, sr, at);
      var ok := VectorOrHalt();
      if ok {
        cpu := cpu.(trace := 0, lastFault := if at != cpu.ipc then 0 else cpu.lastFault);
      }
    }

    method PushGroupZeroFrame(ssw: nat, addr: Long, sr: nat, at: Long)
      requires Ok()
      modifies this`cpu, this`left
      ensures cpu == WithCore(old(cpu), PushGroupZero(old(cpu.core), ssw, addr, ir, sr, at)) && Later()
    {
      hide NoCost, Write, Wrap;
      cpu := WithA(cpu, 7, Wrap(cpu.core.a[7] - GROUP0_FRAME));
      var f: int := cpu.core.a[7];
      WriteMem(cpu.core.a[7], 2, ssw);
      WriteMem(Wrap(f + 2), 4, addr);
      WriteMem(Wrap(f + 6), 2, ir);
      WriteMem(Wrap(f + 8), 2, sr);
      WriteMem(Wrap(f + 0xA), 4, at);
    }

    // ---- MOVEC and MOVES ------------------------------------------------

    /** MOVEC Rc,Rn (`cpu_movec_rc_rn`). */
    method ReadControlRegister()
      requires Ok()
      modifies this`cpu, this`left
      ensures cpu == MovecOut(old(cpu)) && Later()
    {
      hide NoCost, Exception, Read, Wrap, GetSr, Bit;
      var ext := FetchWord(2, true);
      var value := ControlValue(cpu, ext % 0x1000);
      if value.None? {
        RaiseException(0x10, cpu.ipc, GetSr(cpu));
      } else if Bit(ext, 0x8000) {
        cpu := WithA(cpu, ext / 0x1000 % 8, Wrap(value.value));
      } else {
        cpu := WithD(cpu, ext / 0x1000 % 8, Wrap(value.value));
      }
    }

    /** MOVEC Rn,Rc (`cpu_movec_rn_rc`). */
    method WriteControlRegister()
      requires Ok()
      modifies this`cpu, this`left
      ensures cpu == MovecIn(old(cpu)) && Later()
    {
      hide NoCost, Exception, Read, Wrap, GetSr, Bit, SetControl;
      var ext := FetchWord(2, true);
      var rc, rn := ext % 0x1000, ext / 0x1000 % 8;
      var known := StoreControl(rc, if Bit(ext, 0x8000) then cpu.core.a[rn] else cpu.core.d[rn]);
      if !known {
        RaiseException(0x10, cpu.ipc, GetSr(cpu));
      }
    }

    method StoreControl(rc: nat, v: Long) returns (known: bool)
      modifies this`cpu
      ensures SetControl(old(cpu), rc, v) == if known then Some(cpu) else None
      ensures !known ==> cpu == old(cpu)
      ensures cpu.core.bus == old(cpu.core.bus)
    {
      hide NoCost, CacheBits;
      known := true;
      if rc == 0x000 {
        cpu := cpu.(sfc := v % 8);
      } else if rc == 0x001 {
        cpu := cpu.(dfc := v % 8);
      } else if rc == 0x002 {
        cpu := cpu.(cacr := CacheBits(v));
      } else if rc == 0x800 {
        cpu := cpu.(usp := v);
      } else if rc == 0x801 {
        cpu := cpu.(vbr := v);
      } else if rc == 0x802 {
        cpu := cpu.(caar := v);
      } else if (rc == 0x803 && cpu.m) || (rc == 0x804 && !cpu.m) {
        cpu := WithA(cpu, 7, v);
      } else if rc == 0x803 {
        cpu := cpu.(msp := v);
      } else if rc == 0x804 {
        cpu := cpu.(ssp := v);
      } else {
        known := false;
      }
    }

    /** MOVES: one table is swapped for the access and put back whatever happens. */
    method MoveAlternate(x: Transfer)
      requires Ok() && x.reg < 8
      modifies this`cpu, this`left
      ensures cpu == Moves(old(cpu), x) && Later() && SameViews(old(cpu.core.bus), cpu.core.bus)
      ensures old(cpu.core.bus.fault.None?) && cpu.core.bus.fault.Some? ==>
                cpu.core.d == old(cpu.core.d) && cpu.core.a == old(cpu.core.a)
    {
      hide NoCost, CalcEa, Read, Write, Merge, Bit, TransferValue, LoadInto;
      var ext := FetchWord(2, true);
      var da, rn := Bit(ext, 0x8000), ext / 0x1000 % 8;
      var ea := CalculateEa(x.size, x.mode, x.reg, !AutoStep(x.mode));
      if x.store {
        var saved := cpu.core.bus.writeView;
        var v := TransferValue(cpu.core, x, da, rn);
        cpu := WithBus(cpu, cpu.core.bus.(writeView := AltView(cpu.dfc)));
        WriteMem(ea, x.size, v);
        cpu := WithBus(cpu, cpu.core.bus.(writeView := saved));
        if cpu.core.bus.fault.None? && AutoStep(x.mode) {
          var _ := CalculateEa(x.size, x.mode, x.reg, true);
        }
      } else {
        var saved := cpu.core.bus.readView;
        cpu := WithBus(cpu, cpu.core.bus.(readView := AltView(cpu.sfc)));
        var v := ReadMem(ea, x.size);
        cpu := WithBus(cpu, cpu.core.bus.(readView := saved));
        if cpu.core.bus.fault.None? {
          if AutoStep(x.mode) {
            var _ := CalculateEa(x.size, x.mode, x.reg, true);
          }
          LoadIntoBus(cpu.core, x.size, da, rn, v);
          cpu := WithCore(cpu, LoadInto(cpu.core, x.size, da, rn, v));
        }
      }
      MovesViews(old(cpu), x);
      if old(cpu.core.bus.fault.None?) {
        MovesRollback(old(cpu), x);
      }
    }

    // ---- ADDX, SUBX, ABCD, SBCD -(Ay),-(Ax) -----------------------------

    method ExecuteExtended(op: Op, size: nat, x: nat, y: nat)
      requires Ok() && x < 8 && y < 8 && OperandSize(size) && Suits(op, 8 * size)
      modifies this`cpu, this`left
      ensures var (c, f) := ExtendedMem(op, old(cpu.core), old(cpu.ccr), size, x, y);
              cpu == WithCore(old(cpu), c).(ccr := f)
      ensures cpu.core.bus.fault.Some? ==> cpu.core.a == old(cpu.core.a)
      ensures Later()
    {
      hide NoCost, Read, Write, Wrap, OneLimb, Pow2, Pow256;
      LimbRadix(size);
      var savedY, savedX := cpu.core.a[y], cpu.core.a[x];
      cpu := WithA(cpu, y, Wrap(cpu.core.a[y] as int - Step(size, y)));
      var src := ReadMem(cpu.core.a[y], size);
      cpu := WithA(cpu, x, Wrap(cpu.core.a[x] as int - Step(size, x)));
      var dst := ReadMem(cpu.core.a[x], size);
      var (r, f) := OneLimb(op, 8 * size, dst, src, cpu.ccr);
      cpu := cpu.(ccr := f);
      WriteMem(cpu.core.a[x], size, r);
      if cpu.core.bus.fault.Some? {
        cpu := WithA(cpu, y, savedY);
        cpu := WithA(cpu, x, savedX);
      }
      ExtendedRollback(op, old(cpu.core), old(cpu.ccr), size, x, y);
    }

    // ---- sprints --------------------------------------------------------

    /** Opcode fetch and bookkeeping at the head of both loops. */
    method Begin() returns (word: nat)
      requires Ok() && left > 0
      modifies this`cpu, this`left
      ensures (cpu, word) == Head(old(cpu)) && Ok() && left < old(left)
      ensures NoCost() && cpu.core.bus.fault.None? ==> left == old(left) - 1
    {
      hide Read, Wrap, NoCost;
      var at: Long := cpu.core.pc;
      word := ReadMem(at, 4);
      cpu := cpu.(ipc := at);
      if cpu.lastFault != 0 && !cpu.s && cpu.lastFault != at {
        cpu := cpu.(lastFault := 0);
      }
      cpu := WithPc(cpu, Wrap(at as int + 2));
      if left > 0 {
        left := left - 1;
      }
    }

    // ---- one instruction ------------------------------------------------

    /** MOVE with its flags. */
    method MoveInstruction(op: nat)
      requires Ok()
      modifies this`cpu, this`left
      ensures cpu == PerformMove(old(cpu), op) && Later()
    {
      hide Move, MoveSize, NoCost, MoveCcr;
      var v := ExecuteMove(op);
      cpu := cpu.(ccr := MoveCcr(cpu.ccr, MoveSize(op), v));
    }

    method ExtendedInstruction(op: nat)
      requires Ok() && ExtendedForm(cpu.core.model, op).Some?
      modifies this`cpu, this`left
      ensures cpu == PerformExtended(old(cpu), op) && Later()
    {
      hide ExtendedForm, ExtendedMem, NoCost;
      ExtendedFits(cpu.core.model, op);
      var (form, size) := ExtendedForm(cpu.core.model, op).value;
      ExecuteExtended(form, size, op / 0x200 % 8, op % 8);
    }

    /** A privileged instruction in user mode. */
    method RefusePrivilege()
      requires Ok() && !cpu.s
      modifies this`cpu, this`left
      ensures (forall t: Cpu :: cpu == Privileged(old(cpu), t)) && Later()
    {
      hide Exception, GetSr, Wrap, NoCost;
      RaiseException(0x20, Wrap(cpu.core.pc - 2), GetSr(cpu));
    }

    /** One step of an instruction outside the families. */
    method Perform(act: Act)
      requires Ok()
      modifies this`cpu, this`left
      ensures cpu == Do(old(cpu), act) && Later()
    {
      hide Read, Write, Exception, WriteSr, GetSr, NoCost;
      match act
      case Local(d, a, pc, ccr, usp) =>
        cpu := cpu.(ccr := ccr, usp := usp, core := cpu.core.(d := d, a := a, pc := pc));
      case Load(addr, size, accept) =>
        var v := ReadMem(addr, size);
        var (d, a) := accept(v);
        cpu := cpu.(core := cpu.core.(d := d, a := a));
      case Put(addr, size, v) => WriteMem(addr, size, v);
      case Raise(vector, at) => RaiseException(vector, at, GetSr(cpu));
      case SetStatus(sr) => WriteStatus(sr);
    }

    method RunSteps(ms: seq<Micro>)
      requires Ok()
      modifies this`cpu, this`left
      ensures cpu == DoAll(old(cpu), ms) && Later()
    {
      hide Do, NoCost;
      var i := 0;
      while i < |ms|
        invariant i <= |ms| && Later()
        invariant DoAll(cpu, ms[i..]) == DoAll(old(cpu), ms)
      {
        assert ms[i..][0] == ms[i] && ms[i..][1..] == ms[i + 1..];
        Perform(ms[i](cpu));
        i := i + 1;
      }
    }

    /** The dispatch: every family through its own routine. */
    method Execute(op: nat, ext: nat, other: Other)
      requires Ok()
      modifies this`cpu, this`left
      ensures cpu == Dispatch(old(cpu), op, ext, other) && Later()
    {
      hide FamilyOf, PerformMove, PerformExtended, MovemStore, MovemLoad, Rte, MovecOut, MovecIn, Moves, DoAll,
           Exception, NoCost, SrcMode, SrcReg, MovemStep, MovesForm, GetSr;
      FamilyExtended(cpu.core.model, op);
      MovesRegister(op, ext);
      var family := FamilyOf(cpu.core.model, op);
      match family
      case MoveFamily => MoveInstruction(op);
      case MovemStoreFamily => MovemSteps(op); ExecuteMovemStore(op % 8, MovemStep(op));
      case MovemLoadFamily => ExecuteMovemLoad(SrcMode(op), SrcReg(op), MovemStep(op));
      case ExtendedFamily => ExtendedInstruction(op);
      case OtherFamily => RunSteps(other(cpu, op, ext));
      case _ => ExecutePrivileged(family, op, ext);
    }

    /** RTE, MOVEC and MOVES behind the privilege check. */
    method ExecutePrivileged(family: Family, op: nat, ext: nat)
      requires Ok() && (family.RteFamily? || family.MovecOutFamily? || family.MovecInFamily? || family.MovesFamily?)
      requires MovesForm(op, ext).reg < 8
      modifies this`cpu, this`left
      ensures cpu == Privileged(old(cpu), PrivilegedEffect(old(cpu), family, op, ext)) && Later()
    {
      hide Rte, MovecOut, MovecIn, Moves, Exception, NoCost, MovesForm, GetSr;
      if !cpu.s {
        RefusePrivilege();
      } else {
        if family.RteFamily? {
          ReturnFromException();
        } else if family.MovecOutFamily? {
          ReadControlRegister();
        } else if family.MovecInFamily? {
          WriteControlRegister();
        } else {
          MoveAlternate(MovesForm(op, ext));
        }
      }
    }

    // ---- the loop -------------------------------------------------------

    /** `f_trap` for a faulting opcode fetch. */
    method TrapFetch(paged: bool, fc: nat)
      requires Ok() && cpu.core.bus.fault.Some?
      modifies this`cpu, this`left
      ensures cpu == FetchTrap(old(Here()), paged, fc) && Ok() && left == 0
    {
      hide NoCost, GroupZero, BusErrorRetry, BusErrorSkip, Wrap;
      cpu := WithBus(cpu, cpu.core.bus.(fault := None));
      cpu := WithPc(cpu, cpu.ipc);
      if cpu.core.model.M68000? {
        cpu := WithPc(cpu, if ir == 0x4E75 then Wrap(irPc + 2) else Wrap(cpu.ipc + FetchAdvance(ir)));
        RaiseGroupZero(cpu.ipc, true, fc);
      } else if paged {
        RaiseRetry(cpu.ipc, true, fc);
      } else {
        RaiseSkip(cpu.ipc, true, fc);
      }
    }

    /** One pass of the loop: the counter falls, and a fault it leaves has spent the rest. */
    method Pass(env: Env)
      requires Ok() && left > 0
      modifies this`cpu, this`left, this`ir, this`irPc
      ensures Here() == Instruction(old(Here()), env) && Ok() && left < old(left)
      ensures NoCost() && Undisturbed(old(Here()), env) ==> left == old(left) - 1
    {
      hide Head, Narrow, Dispatch, FetchTrap, NoCost;
      NarrowKeeps(cpu);
      cpu := Narrow(cpu);
      var word := Begin();
      if cpu.core.bus.fault.Some? {
        TrapFetch(env.paged, env.fc);
      } else {
        ir, irPc := word / 0x1_0000, cpu.ipc;
        Execute(word / 0x1_0000, word % 0x1_0000, env.other);
      }
    }

    /**
    Both sprint loops. The starts recorded are those of the instructions run;
    the counter falls at every start, none starts with a fault waiting, nothing
    is left at the end, and without slow accesses or faults exactly the budget
    of instructions runs.
    */
    method RunLoop(env: Env) returns (ghost log: seq<Start>)
      requires Ok()
      modifies this`cpu, this`left, this`ir, this`irPc
      ensures left == 0 && Ok() && Orderly(log, old(left))
      ensures Recorded(log, old(Here()), env) && Here() == After(old(Here()), |log|, env)
      ensures NoCost() && (forall i :: 0 <= i < |log| ==> Undisturbed(After(old(Here()), i, env), env))
              ==> |log| == old(left)
    {
      hide Instruction, Narrow, NoCost, Undisturbed, Orderly, Recorded, After;
      log := [];
      NoStarts(Here(), env, left);
      ghost var m := Here();
      while left > 0
        invariant Ok() && left <= old(left) && Orderly(log, old(left)) && Recorded(log, m, env)
        invariant Here() == After(m, |log|, env)
        invariant log != [] ==> left < log[|log| - 1].left
        invariant NoCost() && (forall i :: 0 <= i < |log| ==> Undisturbed(After(m, i, env), env))
                  ==> |log| + left == old(left)
        decreases left
      {
        ghost var start := Start(Narrow(cpu).core.pc, cpu.core.bus.fault.Some?, left);
        OneMore(log, start, m, env, old(left));
        Pass(env);
        log := log + [start];
      }
    }

    method ResetHardware()
      modifies this`cpu, this`left
      requires Ok()
      ensures cpu == HardwareReset(old(cpu)) && Ok() && left <= old(left)
      ensures NoCost() && cpu.core.bus.fault.None? ==> left == old(left)
    {
      hide NoCost, Read, Wrap;
      cpu := cpu.(s := true, mask := 7, trace := 0, vbr := 0, cacr := 0, ipl := 0, lastFault := 0);
      cpu := WithBus(cpu, cpu.core.bus.(fault := None));
      var sp := ReadMem(0, 4);
      cpu := cpu.(ssp := Wrap(sp));
      cpu := WithA(cpu, 7, cpu.ssp);
      var start := ReadMem(4, 4);
      cpu := WithPc(cpu, Wrap(start));
    }

    method StartSprint030()
      requires Ok()
      modifies this`cpu, this`left
      ensures cpu == Prologue030(old(cpu)) && Ok() && left <= old(left)
      ensures NoCost() && cpu.core.bus.fault.None? ==> left == old(left)
    {
      hide NoCost, HardwareReset, CheckInterrupt;
      if cpu.halted {
        cpu := cpu.(halted := false);
        ResetHardware();
      }
      cpu := RefreshViews(cpu);
      PollInterrupt();
    }

    method DeliverPending030(paged: bool, fc: nat)
      requires Ok() && cpu.core.bus.fault.Some?
      modifies this`cpu, this`left
      ensures cpu == Deliver030(old(cpu), paged, fc) && Ok() && left <= old(left)
    {
      hide NoCost, BusErrorRetry, BusErrorSkip;
      var acc := cpu.core.bus.fault.value;
      cpu := WithBus(cpu, cpu.core.bus.(fault := None));
      if paged {
        RaiseRetry(acc.addr, !acc.write, fc);
      } else {
        RaiseSkip(acc.addr, !acc.write, fc);
      }
      cpu := RefreshViews(cpu);
    }

    method DeliverPending000(fc: nat)
      requires Ok() && cpu.core.bus.fault.Some?
      modifies this`cpu, this`left
      ensures cpu == Deliver000(old(cpu), fc, ir) && Ok() && left <= old(left)
    {
      hide NoCost, GroupZero;
      var acc := cpu.core.bus.fault.value;
      cpu := WithBus(cpu, cpu.core.bus.(fault := None));
      cpu := WithPc(cpu, Wrap(cpu.ipc + 2));
      RaiseGroupZero(acc.addr, !acc.write, fc);
      cpu := RefreshViews(cpu);
    }

    /**
    `cpu_run_68030`: the prologue, the loop on what it leaves of the budget (one
    instruction when tracing), and the epilogue. A data fault is delivered
    through a frame that holds the address of the last instruction started.
    */
    method RunSprint030(env: Env) returns (ghost granted: nat, ghost log: seq<Start>)
      requires Ok() && Prologue030(cpu).core.bus.fault.None?
      modifies this`cpu, this`left, this`ir, this`irPc
      ensures left == 0 && granted <= old(left) && Orderly(log, granted)
      ensures var m := Machine(Prologue030(old(cpu)), old(ir), old(irPc));
              var exit := After(m, |log|, env).cpu;
              && Recorded(log, m, env) && (Traced(m.cpu.trace) ==> granted <= 1)
              && (NoCost() ==> granted == if Traced(m.cpu.trace) && old(left) > 1 then 1 else old(left))
              && (NoCost() && (forall i :: 0 <= i < |log| ==> Undisturbed(After(m, i, env), env)) ==> |log| == granted)
              && cpu == Epilogue030(exit, m.cpu.trace, env.paged, env.fc)
              && (exit.core.bus.fault.Some? ==> log != [])
              && (exit.core.bus.fault.Some? && DeliversRetry(m, exit, env)
                  ==> BusFrameStacked(exit, cpu, env.fc, log[|log| - 1].pc))
    {
      hide Prologue030, CheckInterrupt, Deliver030, Exception, GetSr, After, Recorded, Orderly, NoCost, BusFrameStacked,
           Undisturbed, DeliversRetry;
      StartSprint030();
      var traceBefore := cpu.trace;
      if Traced(traceBefore) && left > 1 {
        left := 1;
      }
      granted := left;
      ghost var m := Here();
      log := RunLoop(env);
      NoneBegun(m, env);
      ghost var exit := cpu;
      if cpu.core.bus.fault.Some? {
        DeliverPending030(env.paged, env.fc);
      } else if Traced(traceBefore) && Traced(cpu.trace) {
        RaiseException(0x24, cpu.core.pc, GetSr(cpu));
      }
      if exit.core.bus.fault.Some? && DeliversRetry(m, exit, env) {
        FaultStacked030(m, env, log);
      }
      PollInterrupt();
    }

    /** `cpu_run_68000`: a data fault is delivered as a group-0 exception. */
    method RunSprint000(env: Env) returns (ghost granted: nat, ghost log: seq<Start>)
      requires Ok() && CheckInterrupt(cpu).core.bus.fault.None?
      modifies this`cpu, this`left, this`ir, this`irPc
      ensures left == 0 && granted <= old(left) && Orderly(log, granted)
      ensures var m := Machine(CheckInterrupt(old(cpu)), old(ir), old(irPc));
              var exit := After(m, |log|, env).cpu;
              && Recorded(log, m, env) && cpu == Epilogue000(exit, env.fc, ir) && (NoCost() ==> granted == old(left))
              && (NoCost() && (forall i :: 0 <= i < |log| ==> Undisturbed(After(m, i, env), env)) ==> |log| == granted)
              && (exit.core.bus.fault.Some? ==> log != [])
              && (exit.core.bus.fault.Some? && DeliversGroupZero(m, exit)
                  ==> GroupZeroStacked(exit, cpu, env.fc, ir, Wrap(log[|log| - 1].pc + 2)))
    {
      hide CheckInterrupt, Deliver000, GetSr, After, Recorded, Orderly, NoCost, GroupZeroStacked, Undisturbed, Wrap,
           DeliversGroupZero;
      PollInterrupt();
      granted := left;
      ghost var m := Here();
      log := RunLoop(env);
      NoneBegun(m, env);
      ghost var exit := cpu;
      if cpu.core.bus.fault.Some? {
        DeliverPending000(env.fc);
        if DeliversGroupZero(m, exit) {
          FaultStacked000(m, env, log);
        }
      } else {
        NothingToDeliver(cpu, env.fc, ir);
      }
      PollInterrupt();
    }
  }

  lemma NothingToDeliver(u: Cpu, fc: nat, ir: nat)
    requires u.core.bus.fault.None?
    ensures Deliver000(u, fc, ir) == u
  {
  }

  lemma NoneBegun(m: Machine, env: Env)
    ensures After(m, 0, env) == m
  {
  }

  lemma MovemSteps(op: nat)
    ensures MovemStep(op) == 2 || MovemStep(op) == 4
  {
  }

  lemma LoadSrLevels(u: Cpu, sr: nat)
    ensures LoadSr(u, sr).ipl == u.ipl && LoadSr(u, sr).mask == sr / 0x100 % 8
  {
    hide WriteCcr, Bit;
  }

  /** A fault in MOVE leaves memory and the address registers. */
  lemma MoveFault(c: Core, op: nat)
    requires c.bus.fault.None?
    ensures var t := Move(c, op).0;
            t.bus.fault.Some? && DstMode(op) != 1 ==>
              t.a == c.a && t.bus.mem == c.bus.mem && (DstMode(op) >= 2 ==> t.d == c.d)
  {
    hide Move;
    if DstMode(op) >= 2 {
      MoveRollback(c, op);
    } else if DstMode(op) == 0 {
      MoveLoadUndone(c, op);
    }
  }

  lemma MovesRegister(op: nat, ext: nat)
    ensures MovesForm(op, ext).reg < 8
  {
  }

  /** What the privileged families do in supervisor mode. */
  function PrivilegedEffect(u: Cpu, family: Family, op: nat, ext: nat): Cpu {
    match family
    case RteFamily => Rte(u)
    case MovecOutFamily => MovecOut(u)
    case MovecInFamily => MovecIn(u)
    case _ => MovesRegister(op, ext); Moves(u, MovesForm(op, ext))
  }

  /** Entry changes neither the model nor the registers that describe the exception. */
  lemma SupervisorKeeps(u: Cpu)
    ensures var t := ToSupervisor(u); t.core.model == u.core.model && t.vbr == u.vbr && t.ipc == u.ipc
  {
  }

  lemma LoadIntoBus(c: Core, size: nat, da: bool, rn: nat, v: nat)
    requires rn < 8
    ensures LoadInto(c, size, da, rn, v).bus == c.bus
  {
  }

  lemma SupervisorLast(u: Cpu, at: Long)
    ensures ToSupervisor(u.(lastFault := at)) == ToSupervisor(u).(lastFault := at)
  {
  }

  lemma ZeroFillStep(b: Bus, frame: Long, i: nat)
    ensures ZeroFill(b, frame, i)
         == if i >= BUS_FRAME then b else ZeroFill(Write(b, Wrap(frame + i), 4, 0), frame, i + 4)
  {
  }

  lemma StoreDownStep(c: Core, l: RegList, step: nat, an: nat, k: nat, b: Bus, at: Long)
    requires 0 < k <= 16 && an < 8 && b.fault.None?
    ensures StoreDown(c, l, step, an, k, b, at)
         == if !l[k - 1] then StoreDown(c, l, step, an, k - 1, b, at)
            else var next := Wrap(at as int - step);
                 StoreDown(c, l, step, an, k - 1, Write(b, next, step, Stored(c, k - 1, step, an)), next)
  {
  }

  lemma StoreDownEnd(c: Core, l: RegList, step: nat, an: nat, k: nat, b: Bus, at: Long)
    requires k <= 16 && an < 8 && (k == 0 || b.fault.Some?)
    ensures StoreDown(c, l, step, an, k, b, at) == (b, at)
  {
  }

  lemma LoadUpStep(l: RegList, step: nat, k: nat, b: Bus, ea: Long, vals: seq<Long>)
    requires k < 16 && |vals| == 16 && b.fault.None?
    ensures LoadUp(l, step, k, b, ea, vals)
         == if !l[k] then LoadUp(l, step, k + 1, b, ea, vals)
            else var (b', v) := Read(b, ea, step);
                 LoadUp(l, step, k + 1, b', Wrap(ea + step), vals[k := Extend(step, v)])
  {
  }

  lemma LoadUpEnd(l: RegList, step: nat, k: nat, b: Bus, ea: Long, vals: seq<Long>)
    requires k <= 16 && |vals| == 16 && (k == 16 || b.fault.Some?)
    ensures LoadUp(l, step, k, b, ea, vals) == (b, vals, ea)
  {
  }

  lemma StageLow(newD: Regs, newA: Regs, i: nat, v: Long)
    requires i < 8
    ensures (newD + newA)[i := v] == newD[i := v] + newA
  {
  }

  lemma StageHigh(newD: Regs, newA: Regs, i: nat, v: Long)
    requires i < 8
    ensures (newD + newA)[8 + i := v] == newD + newA[i := v]
  {
  }
}
