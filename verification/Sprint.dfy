/**
The sprint loops of the two decoders (src/core/cpu/cpu_68000.c,
src/core/cpu/cpu_68030.c): what happens before the first and after the last
instruction of a sprint, how a deferred data fault is delivered, and what an
orderly record of instruction starts is.
*/
module Sprint {
  import opened Words
  import opened Memory
  import opened Operands
  import opened System
  import opened Nesting
  import opened Banking
  import opened Instructions

  // ---- the record of a sprint -------------------------------------------

  /** An instruction begins: where, whether a fault was waiting, and the counter. */
  datatype Start = Start(pc: Long, pending: bool, left: nat)

  /** No start with a fault waiting; the counter is within budget and falls at every start. */
  predicate Orderly(log: seq<Start>, budget: nat) {
    && (forall i :: 0 <= i < |log| ==> !log[i].pending && 0 < log[i].left <= budget)
    && (forall i, j :: 0 <= i < j < |log| ==> log[j].left < log[i].left)
  }

  /** So at most `budget` instructions begin. */
  lemma OrderlyBound(log: seq<Start>, budget: nat)
    requires Orderly(log, budget)
    ensures |log| <= budget
  {
    if log != [] {
      LastCounter(log, budget);
    }
  }

  /** The counter of the last start leaves room for all the starts before it. */
  lemma {:induction false} LastCounter(log: seq<Start>, budget: nat)
    requires Orderly(log, budget) && log != []
    ensures log[|log| - 1].left + |log| - 1 <= budget
    decreases |log|
  {
    if |log| > 1 {
      var shorter := log[..|log| - 1];
      LastCounter(shorter, budget);
      assert log[|log| - 1].left < log[|log| - 2].left;
    }
  }

  // ---- 68030 ------------------------------------------------------------

  /** `cpu_hardware_reset`, without the reset of the peripherals. */
  function HardwareReset(u: Cpu): Cpu {
    var b0 := u.core.bus.(fault := None);
    var (b1, sp) := Read(b0, 0, 4);
    var (b2, pc) := Read(b1, 4, 4);
    u.(s := true, mask := 7, trace := 0, vbr := 0, cacr := 0, ipl := 0, lastFault := 0, ssp := Wrap(sp),
       core := u.core.(bus := b2, a := u.core.a[7 := Wrap(sp)], pc := Wrap(pc)))
  }

  function RefreshViews(u: Cpu): Cpu {
    SetView(u, ViewOf(u.s))
  }

  function Prologue030(u: Cpu): Cpu {
    var t := if u.halted then HardwareReset(u.(halted := false)) else u;
    CheckInterrupt(RefreshViews(t))
  }

  predicate Traced(trace: nat) { trace / 2 % 2 == 1 }

  /** Delivery of a pending fault; `paged` when the table walk, not the bus, refused the access. */
  function Deliver030(u: Cpu, paged: bool, fc: nat): Cpu {
    match u.core.bus.fault
    case None => u
    case Some(acc) =>
      var t := u.(core := u.core.(bus := u.core.bus.(fault := None)));
      RefreshViews(if paged then BusErrorRetry(t, acc.addr, !acc.write, fc)
                   else BusErrorSkip(t, acc.addr, !acc.write, fc))
  }

  /** Fault before trace before interrupt. */
  function Epilogue030(u: Cpu, traceBefore: nat, paged: bool, fc: nat): Cpu {
    CheckInterrupt(if u.core.bus.fault.Some? then Deliver030(u, paged, fc)
                   else if Traced(traceBefore) && Traced(u.trace) then Exception(u, 0x24, u.core.pc, GetSr(u))
                   else u)
  }

  /** t is about to run the bus-error handler; a vector outside the frame is the one u had. */
  predicate AtHandler(u: Cpu, t: Cpu, frame: set<Long>) {
    && t.core.pc == Peek(t.core.bus.mem, u.vbr + 8, 4)
    && (Span(u.vbr + 8, 4) !! frame ==> t.core.pc == Peek(u.core.bus.mem, u.vbr + 8, 4))
  }

  lemma ArrivesAtHandler(u: Cpu, t: Cpu, frame: set<Long>)
    requires SameOutside(u.core.bus.mem, t.core.bus.mem, frame) && t.core.pc == Peek(t.core.bus.mem, u.vbr + 8, 4)
    ensures AtHandler(u, t, frame)
  {
    hide Peek, Span;
    if Span(u.vbr + 8, 4) !! frame {
      PeekSame(u.core.bus.mem, t.core.bus.mem, u.vbr + 8, 4);
    }
  }

  /**
  t is u after its fault was delivered: a format $B frame with u's status word,
  this PC, the address, direction and function code of the access, and PC at
  the handler.
  */
  predicate BusFrameStacked(u: Cpu, t: Cpu, fc: nat, pc: Long)
    requires u.core.bus.fault.Some?
  {
    var (sp, acc) := (Top(u) as int - BUS_FRAME, u.core.bus.fault.value);
    && t.core.bus.fault.None? && t.s && !t.m && t.halted == u.halted && t.core.a[7] == Wrap(sp)
    && Holds(t.core.bus.mem, sp, GetSr(u), pc, M68030, 0xB)
    && ShowsFault(t.core.bus.mem, sp, acc.addr, !acc.write, fc)
    && SameOutside(u.core.bus.mem, t.core.bus.mem, Span(sp, BUS_FRAME))
    && AtHandler(u, t, Span(sp, BUS_FRAME))
  }

  /** The stack the bus-error frame of a state goes on, and its vector, are mapped. */
  predicate StackMapped(u: Cpu, size: nat) {
    Mapped(u.core.bus, Span(Top(u) as int - size, size) + Span(Wrap(u.vbr + 8), 4))
  }

  /**
  A data fault on the retry path stacks the address of the instruction that was
  running, with its status word and the access that faulted, goes to the handler
  and leaves nothing pending.
  */
  lemma DeliveredRetry(u: Cpu, fc: nat)
    requires Valid(u) && ViewsAgree(u) && u.core.model.M68030? && u.core.bus.fault.Some?
    requires StackMapped(u, BUS_FRAME)
    ensures BusFrameStacked(u, Deliver030(u, true, fc), fc, u.ipc)
  {
    hide GetSr, Span, Wrap, Mapped, SameOutside, Peek, AtHandler, ShowsFault, BusErrorRetry, Holds, Top;
    var acc := u.core.bus.fault.value;
    var t := u.(core := u.core.(bus := u.core.bus.(fault := None)));
    SameEntry(u, t, Span(Top(u) as int - BUS_FRAME, BUS_FRAME) + Span(Wrap(u.vbr + 8), 4));
    RetryTaken(t, acc.addr, !acc.write, fc);
    ArrivesAtHandler(u, Deliver030(u, true, fc), Span(Top(u) as int - BUS_FRAME, BUS_FRAME));
  }

  /** The retry entry itself, with nothing pending. */
  lemma RetryTaken(u: Cpu, addr: Long, read: bool, fc: nat)
    requires Valid(u) && ViewsAgree(u) && u.core.model.M68030? && u.core.bus.fault.None? && StackMapped(u, BUS_FRAME)
    ensures var (t, sp) := (BusErrorRetry(u, addr, read, fc), Top(u) as int - BUS_FRAME);
            && t.core.bus.fault.None? && t.s && !t.m && t.halted == u.halted && t.core.a[7] == Wrap(sp)
            && Holds(t.core.bus.mem, sp, GetSr(u), u.ipc, M68030, 0xB)
            && ShowsFault(t.core.bus.mem, sp, addr, read, fc)
            && SameOutside(u.core.bus.mem, t.core.bus.mem, Span(sp, BUS_FRAME))
            && t.core.pc == Peek(t.core.bus.mem, u.vbr + 8, 4)
  {
    hide GetSr, Span, Wrap, Mapped, SameOutside, Peek, ShowsFault, BusErrorRetry, Holds;
    BusErrorEnters(u, Retry(addr, read, fc));
  }

  /**
  A data fault on the other path resumes after the instruction, with the same
  frame; a second one at an instruction that was remembered halts.
  */
  lemma DeliveredSkip(u: Cpu, fc: nat)
    requires Valid(u) && ViewsAgree(u) && u.core.model.M68030? && u.core.bus.fault.Some?
    requires StackMapped(u, BUS_FRAME)
    ensures var t := Deliver030(u, false, fc);
            if Repeated(u) then t.halted && t.core.bus.fault.None? && t.lastFault == 0
            else BusFrameStacked(u, t, fc, u.core.pc) && t.lastFault == if u.core.pc == u.ipc then u.ipc else 0
  {
    hide GetSr, Span, Wrap, Mapped, SameOutside, Peek, AtHandler, ShowsFault, BusErrorSkip, Holds, Top;
    var acc := u.core.bus.fault.value;
    var t := u.(core := u.core.(bus := u.core.bus.(fault := None)));
    SameEntry(u, t, Span(Top(u) as int - BUS_FRAME, BUS_FRAME) + Span(Wrap(u.vbr + 8), 4));
    SkipTaken(t, acc.addr, !acc.write, fc);
    if !Repeated(u) {
      ArrivesAtHandler(u, Deliver030(u, false, fc), Span(Top(u) as int - BUS_FRAME, BUS_FRAME));
    }
  }

  /** The skipping entry itself, with nothing pending. */
  lemma SkipTaken(u: Cpu, addr: Long, read: bool, fc: nat)
    requires Valid(u) && ViewsAgree(u) && u.core.model.M68030? && u.core.bus.fault.None? && StackMapped(u, BUS_FRAME)
    ensures var (t, sp) := (BusErrorSkip(u, addr, read, fc), Top(u) as int - BUS_FRAME);
            if Repeated(u) then t.halted && t.core.bus.fault.None? && t.lastFault == 0
            else
              && t.core.bus.fault.None? && t.s && !t.m && t.halted == u.halted && t.core.a[7] == Wrap(sp)
              && Holds(t.core.bus.mem, sp, GetSr(u), u.core.pc, M68030, 0xB)
              && ShowsFault(t.core.bus.mem, sp, addr, read, fc)
              && SameOutside(u.core.bus.mem, t.core.bus.mem, Span(sp, BUS_FRAME))
              && t.core.pc == Peek(t.core.bus.mem, u.vbr + 8, 4)
              && t.lastFault == if u.core.pc == u.ipc then u.ipc else 0
  {
    hide GetSr, Span, Wrap, Mapped, SameOutside, Peek, ShowsFault, BusErrorSkip, Holds;
    SkipRemembers(u, addr, read, fc);
    if !Repeated(u) {
      BusErrorEnters(u, Skip(addr, read, fc));
    }
  }

  lemma SkipRemembers(u: Cpu, addr: Long, read: bool, fc: nat)
    ensures var t := BusErrorSkip(u, addr, read, fc);
            if Repeated(u) then t.halted && t.core.bus.fault.None? && t.lastFault == 0
            else t.lastFault == if u.core.pc == u.ipc then u.ipc else 0
  {
    hide ToSupervisor, PushBusFrame, GetSr, Read, Wrap, StatusWord;
  }

  /** One of the stores of a bus-fault frame at f faults: the 23 longs of its zero-fill, then its five fields. */
  predicate StoreFaults(b: Bus, f: int) {
    || (exists i :: 0 <= i < 23 && Access(Wrap(f + 4 * i), 4, true) in b.superFaults)
    || Access(Wrap(f), 2, true) in b.superFaults || Access(Wrap(f + 2), 4, true) in b.superFaults
    || Access(Wrap(f + 6), 2, true) in b.superFaults || Access(Wrap(f + 0xA), 2, true) in b.superFaults
    || Access(Wrap(f + 0x10), 4, true) in b.superFaults
  }

  predicate DoubleFault(b: Bus, f: int, vector: int) {
    StoreFaults(b, f) || Access(Wrap(vector), 4, false) in b.superFaults
  }

  /** Faults of a store follow the table of its view and stay. */
  lemma WriteFault(b: Bus, a: Long, n: nat, v: nat)
    requires b.writeView.Supervisor?
    ensures var b' := Write(b, a, n, v);
            && b' == b.(mem := b'.mem, fault := b'.fault)
            && (b'.fault.Some? <==> b.fault.Some? || Access(a, n, true) in b.superFaults)
  {
    hide Poke;
  }

  lemma {:induction false} ZeroFillFault(b: Bus, f: int, i: nat)
    requires b.writeView.Supervisor? && i <= 23
    ensures var b' := ZeroFill(b, Wrap(f), 4 * i);
            && b' == b.(mem := b'.mem, fault := b'.fault)
            && (b'.fault.Some? <==>
                  (b.fault.Some? || exists j :: i <= j < 23 && Access(Wrap(f + 4 * j), 4, true) in b.superFaults))
    decreases 23 - i
  {
    hide Wrap, Write;
    if i < 23 {
      WrapTwice(f, 4 * i);
      WriteFault(b, Wrap(f + 4 * i), 4, 0);
      ZeroFillFault(Write(b, Wrap(f + 4 * i), 4, 0), f, i + 1);
    }
  }

  /** A retry entry halts exactly when its own stores or the read of its vector fault; nothing stays pending. */
  lemma RetryHalts(u: Cpu, addr: Long, read: bool, fc: nat)
    requires ViewsAgree(u) && u.core.bus.fault.None? && !u.halted
    ensures var t := BusErrorRetry(u, addr, read, fc);
            && (t.halted <==> DoubleFault(u.core.bus, Top(u) as int - BUS_FRAME, u.vbr + 8))
            && t.core.bus.fault.None?
  {
    hide Wrap, PushBusFrame, ToSupervisor, GetSr, Peek, Span, StatusWord, StoreFaults;
    ToSupervisorFacts(u);
    ToSupervisorTables(u);
    BusFrameFault(ToSupervisor(u).core, GetSr(u), u.ipc, StatusWord(read, fc), addr);
    StoreFaultsIs(u.core.bus, ToSupervisor(u).core.bus, Top(u) as int - BUS_FRAME, u.vbr + 8);
  }

  lemma ToSupervisorTables(u: Cpu)
    requires ViewsAgree(u)
    ensures var b := ToSupervisor(u).core.bus;
            b == u.core.bus.(readView := Supervisor, writeView := Supervisor)
  {
  }

  lemma StoreFaultsIs(b: Bus, b': Bus, f: int, vector: int)
    requires b'.superFaults == b.superFaults
    ensures DoubleFault(b, f, vector) == (StoreFaults(b', f) || Access(Wrap(vector), 4, false) in b.superFaults)
  {
    hide Wrap;
  }

  lemma BusFrameFault(c: Core, sr: nat, pc: Long, ssw: nat, addr: Long)
    requires c.bus.writeView.Supervisor?
    ensures var b' := PushBusFrame(c, sr, pc, ssw, addr).bus;
            && b' == c.bus.(mem := b'.mem, fault := b'.fault)
            && (b'.fault.Some? <==> (c.bus.fault.Some? || StoreFaults(c.bus, c.a[7] as int - BUS_FRAME)))
  {
    hide Wrap, Write, ZeroFill;
    var (b, f) := (c.bus, c.a[7] as int - BUS_FRAME);
    ZeroFillFault(b, f, 0);
    WrapTwice(f, 2);
    WrapTwice(f, 6);
    WrapTwice(f, 0xA);
    WrapTwice(f, 0x10);
    var b0 := ZeroFill(b, Wrap(f), 0);
    WriteFault(b0, Wrap(f), 2, sr);
    var b1 := Write(b0, Wrap(f), 2, sr);
    WriteFault(b1, Wrap(f + 2), 4, pc);
    var b2 := Write(b1, Wrap(f + 2), 4, pc);
    WriteFault(b2, Wrap(f + 6), 2, 0xB008);
    var b3 := Write(b2, Wrap(f + 6), 2, 0xB008);
    WriteFault(b3, Wrap(f + 0xA), 2, ssw);
    WriteFault(Write(b3, Wrap(f + 0xA), 2, ssw), Wrap(f + 0x10), 4, addr);
  }

  // ---- 68000 ------------------------------------------------------------

  const GROUP0_FRAME: nat := 14

  /** The seven-word group-0 frame: status, access address, instruction register, SR, PC. */
  function PushGroupZero(c: Core, ssw: nat, addr: Long, ir: nat, sr: nat, pc: Long): Core {
    var f := Wrap(c.a[7] - GROUP0_FRAME);
    var b1 := Write(c.bus, f, 2, ssw);
    var b2 := Write(b1, Wrap(f + 2), 4, addr);
    var b3 := Write(b2, Wrap(f + 6), 2, ir);
    var b4 := Write(b3, Wrap(f + 8), 2, sr);
    c.(a := c.a[7 := f], bus := Write(b4, Wrap(f + 0xA), 4, pc))
  }

  /** `exception_bus_error` on the 68000. */
  function GroupZero(u: Cpu, addr: Long, read: bool, fc: nat, ir: nat): Cpu {
    if Repeated(u) then
      u.(halted := true, lastFault := 0, core := u.core.(bus := u.core.bus.(fault := None)))
    else TakeGroupZero(u, addr, read, fc, ir)
  }

  function TakeGroupZero(u: Cpu, addr: Long, read: bool, fc: nat, ir: nat): Cpu {
    var t := ToSupervisor(u).(lastFault := u.ipc);
    var c := PushGroupZero(t.core, Flag(read, 0x10) + 8 + fc % 8, addr, ir, GetSr(u), u.core.pc);
    if c.bus.fault.Some? then t.(core := c.(bus := c.bus.(fault := None)), halted := true)
    else
      var (b, handler) := Read(c.bus, Wrap(u.vbr + 8), 4);
      var done := c.(bus := b, pc := Wrap(handler));
      if b.fault.Some? then t.(core := done.(bus := b.(fault := None)), halted := true)
      else t.(core := done, trace := 0, lastFault := if u.core.pc != u.ipc then 0 else u.ipc)
  }

  /** Delivery stacks the word after the opcode of the instruction that was running. */
  function Deliver000(u: Cpu, fc: nat, ir: nat): Cpu {
    match u.core.bus.fault
    case None => u
    case Some(acc) =>
      var t := u.(core := u.core.(bus := u.core.bus.(fault := None), pc := Wrap(u.ipc + 2)));
      RefreshViews(GroupZero(t, acc.addr, !acc.write, fc, ir))
  }

  function Epilogue000(u: Cpu, fc: nat, ir: nat): Cpu {
    CheckInterrupt(Deliver000(u, fc, ir))
  }

  /** The first word of a group-0 frame: read or write (bit 4), bit 3 set, and the function code. */
  predicate ShowsCycle(m: Bytes, f: int, read: bool, fc: nat) {
    var word := Peek(m, f, 2);
    word < 0x20 && Bit(word, 0x10) == read && Bit(word, 8) && word % 8 == fc % 8
  }

  lemma CycleBits(read: bool, fc: nat)
    ensures var word := Flag(read, 0x10) + 8 + fc % 8;
            word < 0x20 && Bit(word, 0x10) == read && Bit(word, 8) && word % 8 == fc % 8
  {
  }

  /** The fields of a group-0 frame at f. */
  predicate HoldsGroupZero(m: Bytes, f: int, addr: Long, ir: nat, sr: nat, pc: Long) {
    && Peek(m, f + 2, 4) == addr && Peek(m, f + 6, 2) == ir
    && Peek(m, f + 8, 2) == sr && Peek(m, f + 0xA, 4) == pc
  }

  /** The five stores of a group-0 frame. */
  function GroupZeroBytes(m: Bytes, f: int, ssw: nat, addr: Long, ir: nat, sr: nat, pc: Long): Bytes {
    var m1 := Poke(Poke(m, f, 2, ssw), f + 2, 4, addr);
    Poke(Poke(Poke(m1, f + 6, 2, ir), f + 8, 2, sr), f + 0xA, 4, pc)
  }

  lemma GroupZeroStores(m: Bytes, f: int, ssw: nat, addr: Long, ir: nat, sr: nat, pc: Long)
    requires ssw < 0x1_0000 && ir < 0x1_0000 && sr < 0x1_0000
    ensures var m' := GroupZeroBytes(m, f, ssw, addr, ir, sr, pc);
            && Peek(m', f, 2) == ssw && HoldsGroupZero(m', f, addr, ir, sr, pc)
            && SameOutside(m, m', Span(f, GROUP0_FRAME))
  {
    hide Peek, Poke;
    Pow256Values();
    var m1 := Poke(m, f, 2, ssw);
    var m2 := Poke(m1, f + 2, 4, addr);
    var m3 := Poke(m2, f + 6, 2, ir);
    var m4 := Poke(m3, f + 8, 2, sr);
    Field(m, f, GROUP0_FRAME, 0, 2, ssw);
    Field(m1, f, GROUP0_FRAME, 2, 4, addr);
    Field(m2, f, GROUP0_FRAME, 6, 2, ir);
    Field(m3, f, GROUP0_FRAME, 8, 2, sr);
    Field(m4, f, GROUP0_FRAME, 0xA, 4, pc);
    KeepField(m1, f, GROUP0_FRAME, 0, 2, 2, 4, addr);
    KeepField(m2, f, GROUP0_FRAME, 0, 2, 6, 2, ir);
    KeepField(m3, f, GROUP0_FRAME, 0, 2, 8, 2, sr);
    KeepField(m4, f, GROUP0_FRAME, 0, 2, 0xA, 4, pc);
    KeepField(m2, f, GROUP0_FRAME, 2, 4, 6, 2, ir);
    KeepField(m3, f, GROUP0_FRAME, 2, 4, 8, 2, sr);
    KeepField(m4, f, GROUP0_FRAME, 2, 4, 0xA, 4, pc);
    KeepField(m3, f, GROUP0_FRAME, 6, 2, 8, 2, sr);
    KeepField(m4, f, GROUP0_FRAME, 6, 2, 0xA, 4, pc);
    KeepField(m4, f, GROUP0_FRAME, 8, 2, 0xA, 4, pc);
  }

  /** A frame pushed on a mapped supervisor stack. */
  lemma GroupZeroPushed(c: Core, ssw: nat, addr: Long, ir: nat, sr: nat, pc: Long, extra: set<Long>)
    requires Ready(c.bus, Span(c.a[7] as int - GROUP0_FRAME, GROUP0_FRAME) + extra)
    ensures var c' := PushGroupZero(c, ssw, addr, ir, sr, pc);
            var f := c.a[7] as int - GROUP0_FRAME;
            var m := c.bus.mem;
            && Ready(c'.bus, Span(f, GROUP0_FRAME) + extra)
            && c' == c.(a := c.a[7 := Wrap(f)],
                        bus := c.bus.(mem := GroupZeroBytes(m, f, ssw, addr, ir, sr, pc)))
  {
    hide Poke, Ready, Span, Wrap, Write;
    var f: int := c.a[7] - GROUP0_FRAME;
    var region := Span(f, GROUP0_FRAME) + extra;
    FrameOffset(f, GROUP0_FRAME, 0, extra);
    FrameOffset(f, GROUP0_FRAME, 2, extra);
    FrameOffset(f, GROUP0_FRAME, 6, extra);
    FrameOffset(f, GROUP0_FRAME, 8, extra);
    FrameOffset(f, GROUP0_FRAME, 0xA, extra);
    WriteReady(c.bus, region, f, 2, ssw);
    var b1 := Write(c.bus, Wrap(f), 2, ssw);
    WriteReady(b1, region, f + 2, 4, addr);
    var b2 := Write(b1, Wrap(f + 2), 4, addr);
    WriteReady(b2, region, f + 6, 2, ir);
    var b3 := Write(b2, Wrap(f + 6), 2, ir);
    WriteReady(b3, region, f + 8, 2, sr);
    WriteReady(Write(b3, Wrap(f + 8), 2, sr), region, f + 0xA, 4, pc);
  }

  /**
  t is u after its fault was delivered: a group-0 frame with this PC, the
  access that faulted and the instruction register, and PC at the handler. The
  instruction is remembered if the handler returns to it.
  */
  predicate GroupZeroStacked(u: Cpu, t: Cpu, fc: nat, ir: nat, pc: Long)
    requires u.core.bus.fault.Some?
  {
    var (sp, acc) := (Top(u) as int - GROUP0_FRAME, u.core.bus.fault.value);
    && t.core.bus.fault.None? && t.s && t.halted == u.halted && t.core.a[7] == Wrap(sp)
    && HoldsGroupZero(t.core.bus.mem, sp, acc.addr, ir, GetSr(u), pc)
    && ShowsCycle(t.core.bus.mem, sp, !acc.write, fc)
    && SameOutside(u.core.bus.mem, t.core.bus.mem, Span(sp, GROUP0_FRAME))
    && AtHandler(u, t, Span(sp, GROUP0_FRAME))
    && t.lastFault == if pc == u.ipc then u.ipc else 0
  }

  /** The part of a delivery after the stack switch. */
  lemma GroupZeroTaken(u: Cpu, addr: Long, read: bool, fc: nat, ir: nat)
    requires Valid(u) && ViewsAgree(u) && u.core.bus.fault.None? && ir < 0x1_0000 && !Repeated(u)
    requires Mapped(u.core.bus, Span(Top(u) as int - GROUP0_FRAME, GROUP0_FRAME) + Span(Wrap(u.vbr + 8), 4))
    ensures var t := GroupZero(u, addr, read, fc, ir);
            var sp := Top(u) as int - GROUP0_FRAME;
            && t.core.bus.fault.None? && t.s && t.halted == u.halted && t.core.a[7] == Wrap(sp)
            && HoldsGroupZero(t.core.bus.mem, sp, addr, ir, GetSr(u), u.core.pc)
            && ShowsCycle(t.core.bus.mem, sp, read, fc)
            && SameOutside(u.core.bus.mem, t.core.bus.mem, Span(sp, GROUP0_FRAME))
            && AtHandler(u, t, Span(sp, GROUP0_FRAME))
            && t.lastFault == if u.core.pc == u.ipc then u.ipc else 0
  {
    hide *;
    TopIs(u);
    var extra := Span(Wrap(u.vbr + 8), 4);
    var f: int := Top(u) - GROUP0_FRAME;
    var region := Span(f, GROUP0_FRAME) + extra;
    ToSupervisorReady(u, region);
    ToSupervisorFacts(u);
    SrRange(u);
    var c := ToSupervisor(u).core;
    var ssw := Flag(read, 0x10) + 8 + fc % 8;
    CycleBits(read, fc);
    GroupZeroPushed(c, ssw, addr, ir, GetSr(u), u.core.pc, extra);
    GroupZeroStores(c.bus.mem, f, ssw, addr, ir, GetSr(u), u.core.pc);
    var c' := PushGroupZero(c, ssw, addr, ir, GetSr(u), u.core.pc);
    ReadyNoFault(c'.bus, region);
    VectorReady(c'.bus, region, Wrap(u.vbr + 8));
    GroupZeroIs(u, addr, read, fc, ir);
    CycleShown(GroupZero(u, addr, read, fc, ir).core.bus.mem, f, ssw, read, fc);
    PeekWrap(c'.bus.mem, u.vbr + 8, 4);
    ArrivesAtHandler(u, GroupZero(u, addr, read, fc, ir), Span(f, GROUP0_FRAME));
  }

  lemma CycleShown(m: Bytes, f: int, ssw: nat, read: bool, fc: nat)
    requires Peek(m, f, 2) == ssw && ssw == Flag(read, 0x10) + 8 + fc % 8
    ensures ShowsCycle(m, f, read, fc)
  {
    hide Peek;
    CycleBits(read, fc);
  }

  lemma TopIs(u: Cpu)
    ensures Top(u) == ToSupervisor(u).core.a[7]
  {
  }

  /** Without faults the delivery runs to its end. */
  lemma GroupZeroIs(u: Cpu, addr: Long, read: bool, fc: nat, ir: nat)
    requires !Repeated(u)
    ensures var c := PushGroupZero(ToSupervisor(u).core, Flag(read, 0x10) + 8 + fc % 8, addr, ir, GetSr(u), u.core.pc);
            var (b, handler) := Read(c.bus, Wrap(u.vbr + 8), 4);
            var t := GroupZero(u, addr, read, fc, ir);
            c.bus.fault.None? && b.fault.None? ==>
              && t.core == c.(bus := b, pc := Wrap(handler))
              && t.s == ToSupervisor(u).s && t.halted == ToSupervisor(u).halted
              && t.lastFault == if u.core.pc == u.ipc then u.ipc else 0
  {
    hide PushGroupZero, ToSupervisor, GetSr, Read, Wrap;
  }

  /**
  A data fault on the 68000 stacks the address of the running instruction plus
  two, its status word, the access that faulted and the instruction register,
  goes to the handler and leaves nothing pending; a second one at the same
  instruction halts.
  */
  lemma DeliveredGroupZero(u: Cpu, fc: nat, ir: nat)
    requires Valid(u) && ViewsAgree(u) && u.core.bus.fault.Some? && ir < 0x1_0000
    requires StackMapped(u, GROUP0_FRAME)
    ensures var t := Deliver000(u, fc, ir);
            if Repeated(u) then t.halted && t.core.bus.fault.None?
            else GroupZeroStacked(u, t, fc, ir, Wrap(u.ipc + 2))
  {
    hide GetSr, Span, Wrap, Mapped, SameOutside, HoldsGroupZero, GroupZero, ToSupervisor, ShowsCycle, Peek;
    var acc := u.core.bus.fault.value;
    var u1 := u.(core := u.core.(bus := u.core.bus.(fault := None), pc := Wrap(u.ipc + 2)));
    SameEntry(u, u1, Span(Top(u) as int - GROUP0_FRAME, GROUP0_FRAME) + Span(Wrap(u.vbr + 8), 4));
    if Repeated(u) {
      RepeatHalts(u1, acc.addr, !acc.write, fc, ir);
    } else {
      GroupZeroTaken(u1, acc.addr, !acc.write, fc, ir);
    }
  }

  lemma RepeatHalts(u: Cpu, addr: Long, read: bool, fc: nat, ir: nat)
    requires Repeated(u)
    ensures var t := GroupZero(u, addr, read, fc, ir); t.halted && t.core.bus.fault.None?
  {
  }

  lemma SameEntry(u: Cpu, t: Cpu, region: set<Long>)
    requires t == u.(core := u.core.(bus := u.core.bus.(fault := None), pc := t.core.pc))
    requires Mapped(u.core.bus, region)
    ensures Mapped(t.core.bus, region) && Top(t) == Top(u) && GetSr(t) == GetSr(u)
    ensures ViewsAgree(t) == ViewsAgree(u) && Repeated(t) == Repeated(u)
  {
  }

  lemma ToSupervisorFacts(u: Cpu)
    ensures var t := ToSupervisor(u); t.s && t.halted == u.halted && t.ipc == u.ipc && t.vbr == u.vbr
  {
  }

  // ---- instructions in sequence -----------------------------------------

  /** The processor with the last opcode it fetched and where. */
  datatype Machine = Machine(cpu: Cpu, ir: nat, irPc: Long)

  /** What the model leaves open: other opcodes, and how the memory layer classifies a fault. */
  datatype Env = Env(other: Other, paged: bool, fc: nat)

  /** `m68k_fetch_fault_pc_advance`. */
  function FetchAdvance(ir: nat): nat {
    if ir / 0x100 == 0x4E then
      if ir / 8 % 32 == 0x15 then 4
      else if ir % 0x100 == 0x73 then 0
      else if ir % 0x100 == 0xB9 then 6
      else 2
    else 2
  }

  /** `f_trap` after a faulting opcode fetch, which decodes as line F and is delivered at once. */
  function FetchTrap(m: Machine, paged: bool, fc: nat): Cpu {
    var u := m.cpu;
    var t := u.(core := u.core.(bus := u.core.bus.(fault := None), pc := u.ipc));
    if u.core.model.M68000? then
      var pc := if m.ir == 0x4E75 then Wrap(m.irPc + 2) else Wrap(u.ipc + FetchAdvance(m.ir));
      GroupZero(t.(core := t.core.(pc := pc)), u.ipc, true, fc, m.ir)
    else if paged then BusErrorRetry(t, u.ipc, true, fc)
    else BusErrorSkip(t, u.ipc, true, fc)
  }

  /** One pass of the loop body; the instruction register is latched unless the fetch faulted. */
  function Instruction(m: Machine, env: Env): Machine {
    var (t, word) := Head(Narrow(m.cpu));
    if t.core.bus.fault.Some? then m.(cpu := FetchTrap(m.(cpu := t), env.paged, env.fc))
    else Machine(Dispatch(t, word / 0x1_0000, word % 0x1_0000, env.other), word / 0x1_0000, t.ipc)
  }

  /** k instructions. */
  function After(m: Machine, k: nat, env: Env): Machine
    decreases k
  {
    if k == 0 then m else Instruction(After(m, k - 1, env), env)
  }

  /** The log records the starts of that run: where each instruction began and whether a fault waited. */
  predicate Recorded(log: seq<Start>, m: Machine, env: Env) {
    forall i :: 0 <= i < |log| ==>
      var u := After(m, i, env).cpu;
      log[i].pc == Narrow(u).core.pc && log[i].pending == u.core.bus.fault.Some?
  }

  predicate Sound(u: Cpu) { Valid(u) && ViewsAgree(u) }

  lemma NarrowKeeps(u: Cpu)
    ensures Narrow(u).core.bus == u.core.bus && Narrow(u).core.model == u.core.model
    ensures Sound(u) ==> Sound(Narrow(u))
  {
  }

  lemma HeadKeeps(u: Cpu)
    ensures var t := Head(u).0; t.ipc == u.core.pc && t.core.model == u.core.model && (Sound(u) ==> Sound(t))
    ensures Head(u).1 / 0x1_0000 < 0x1_0000
  {
    hide Peek, Wrap;
    Pow256Values();
  }

  lemma GroupZeroSteady(u: Cpu, addr: Long, read: bool, fc: nat, ir: nat)
    ensures Steady(u, GroupZero(u, addr, read, fc, ir))
  {
    hide Steady, TakeGroupZero;
    TakeGroupZeroSteady(u, addr, read, fc, ir);
    RepeatSteady(u);
  }

  lemma RepeatSteady(u: Cpu)
    ensures Steady(u, u.(halted := true, lastFault := 0, core := u.core.(bus := u.core.bus.(fault := None))))
  {
  }

  lemma TakeGroupZeroSteady(u: Cpu, addr: Long, read: bool, fc: nat, ir: nat)
    ensures Steady(u, TakeGroupZero(u, addr, read, fc, ir))
  {
    hide ToSupervisor, PushGroupZero, Read, Wrap, GetSr, Steady, Flag;
    ToSupervisorModel(u);
    var c := ToSupervisor(u).core;
    var ssw := Flag(read, 0x10) + 8 + fc % 8;
    GroupZeroViews(c, ssw, addr, ir, GetSr(u), u.core.pc);
    var c' := PushGroupZero(c, ssw, addr, ir, GetSr(u), u.core.pc);
    ReadViews(c'.bus, Wrap(u.vbr + 8), 4);
    var t := TakeGroupZero(u, addr, read, fc, ir);
    if c'.bus.fault.Some? || Read(c'.bus, Wrap(u.vbr + 8), 4).0.fault.Some? {
      HaltSteady(u, t);
    } else {
      EntrySteady(u, t);
    }
  }

  lemma GroupZeroViews(c: Core, ssw: nat, addr: Long, ir: nat, sr: nat, pc: Long)
    ensures var t := PushGroupZero(c, ssw, addr, ir, sr, pc); SameViews(c.bus, t.bus) && t.model == c.model
  {
    hide Write, Wrap;
    var f := Wrap(c.a[7] as int - GROUP0_FRAME);
    WriteViews(c.bus, f, 2, ssw);
    var b1 := Write(c.bus, f, 2, ssw);
    WriteViews(b1, Wrap(f as int + 2), 4, addr);
    var b2 := Write(b1, Wrap(f as int + 2), 4, addr);
    WriteViews(b2, Wrap(f as int + 6), 2, ir);
    var b3 := Write(b2, Wrap(f as int + 6), 2, ir);
    WriteViews(b3, Wrap(f as int + 8), 2, sr);
    WriteViews(Write(b3, Wrap(f as int + 8), 2, sr), Wrap(f as int + 0xA), 4, pc);
  }

  lemma FetchTrapSteady(m: Machine, paged: bool, fc: nat)
    ensures Steady(m.cpu, FetchTrap(m, paged, fc))
  {
    hide GroupZero, BusErrorRetry, BusErrorSkip, Wrap;
    var u := m.cpu;
    var t := u.(core := u.core.(bus := u.core.bus.(fault := None), pc := u.ipc));
    var pc := if m.ir == 0x4E75 then Wrap(m.irPc + 2) else Wrap(u.ipc + FetchAdvance(m.ir));
    GroupZeroSteady(t.(core := t.core.(pc := pc)), u.ipc, true, fc, m.ir);
    RetrySteady(t, u.ipc, true, fc);
    SkipSteady(t, u.ipc, true, fc);
  }

  /** An instruction records its own address and keeps the machine sound, whatever it does. */
  lemma InstructionKeeps(m: Machine, env: Env)
    ensures var t := Instruction(m, env).cpu;
            t.ipc == Narrow(m.cpu).core.pc && t.core.model == m.cpu.core.model && (Sound(m.cpu) ==> Sound(t))
    ensures m.ir < 0x1_0000 ==> Instruction(m, env).ir < 0x1_0000
  {
    hide Head, Narrow, FetchTrap, Dispatch;
    NarrowKeeps(m.cpu);
    HeadKeeps(Narrow(m.cpu));
    var (t, word) := Head(Narrow(m.cpu));
    FetchTrapSteady(m.(cpu := t), env.paged, env.fc);
    DispatchSteady(t, word / 0x1_0000, word % 0x1_0000, env.other);
  }

  lemma {:induction false} AfterKeeps(m: Machine, k: nat, env: Env)
    ensures var t := After(m, k, env).cpu;
            && t.core.model == m.cpu.core.model && (Sound(m.cpu) ==> Sound(t))
            && (k > 0 ==> t.ipc == Narrow(After(m, k - 1, env).cpu).core.pc)
    ensures m.ir < 0x1_0000 ==> After(m, k, env).ir < 0x1_0000
    decreases k
  {
    hide Instruction, Narrow, Sound;
    if k > 0 {
      AfterKeeps(m, k - 1, env);
      InstructionKeeps(After(m, k - 1, env), env);
    }
  }

  // ---- a whole sprint ---------------------------------------------------

  /** The last start is where the instruction address points. */
  lemma LastStart(m: Machine, env: Env, log: seq<Start>)
    requires log != [] && Recorded(log, m, env)
    ensures var exit := After(m, |log|, env).cpu;
            && exit.ipc == log[|log| - 1].pc && exit.core.model == m.cpu.core.model
            && (Sound(m.cpu) ==> Valid(exit) && ViewsAgree(exit))
    ensures m.ir < 0x1_0000 ==> After(m, |log|, env).ir < 0x1_0000
  {
    hide After, Narrow, Valid, ViewsAgree;
    AfterKeeps(m, |log|, env);
    assert log[|log| - 1].pc == Narrow(After(m, |log| - 1, env).cpu).core.pc;
  }

  /**
  A 68030 sprint that ends in a data fault: after delivery through the retry
  frame that frame holds the status word of the state the fault was found in,
  the address of the last instruction that started and the access that faulted,
  PC is at the handler, and nothing is pending.
  */
  lemma SprintStacksRetry(m: Machine, env: Env, log: seq<Start>)
    requires Sound(m.cpu) && m.cpu.core.model.M68030? && log != [] && Recorded(log, m, env)
    requires var exit := After(m, |log|, env).cpu; exit.core.bus.fault.Some? && StackMapped(exit, BUS_FRAME)
    ensures var exit := After(m, |log|, env).cpu;
            BusFrameStacked(exit, Deliver030(exit, true, env.fc), env.fc, log[|log| - 1].pc)
  {
    hide *;
    LastStart(m, env, log);
    DeliveredRetry(After(m, |log|, env).cpu, env.fc);
  }

  /**
  A 68000 sprint that ends in a data fault: the group-0 frame holds the status
  word, the address of the last instruction that started plus two, the access
  that faulted and the instruction register, and PC is at the handler; a repeat
  at the same address halts.
  */
  lemma SprintStacksGroupZero(m: Machine, env: Env, log: seq<Start>)
    requires Sound(m.cpu) && m.ir < 0x1_0000 && log != [] && Recorded(log, m, env)
    requires var exit := After(m, |log|, env).cpu; exit.core.bus.fault.Some? && StackMapped(exit, GROUP0_FRAME)
    ensures var (exit, ir) := (After(m, |log|, env).cpu, After(m, |log|, env).ir);
            var t := Deliver000(exit, env.fc, ir);
            if Repeated(exit) then t.halted && t.core.bus.fault.None?
            else GroupZeroStacked(exit, t, env.fc, ir, Wrap(log[|log| - 1].pc + 2))
  {
    hide *;
    LastStart(m, env, log);
    DeliveredGroupZero(After(m, |log|, env).cpu, env.fc, After(m, |log|, env).ir);
  }

  /** The instruction is fetched and ends without a fault. */
  predicate Undisturbed(m: Machine, env: Env) {
    Head(Narrow(m.cpu)).0.core.bus.fault.None? && Instruction(m, env).cpu.core.bus.fault.None?
  }

  /** A pending data fault will go out through a mapped retry frame, with no interrupt behind it. */
  predicate DeliversRetry(m: Machine, exit: Cpu, env: Env) {
    && Sound(m.cpu) && m.cpu.core.model.M68030? && env.paged
    && StackMapped(exit, BUS_FRAME) && !InterruptDue(exit.ipl, exit.mask)
  }

  /** The same for a group-0 frame. */
  predicate DeliversGroupZero(m: Machine, exit: Cpu) {
    && Sound(m.cpu) && m.ir < 0x1_0000 && StackMapped(exit, GROUP0_FRAME)
    && !Repeated(exit) && !InterruptDue(exit.ipl, exit.mask)
  }

  /** The interrupt request and the mask. */
  predicate SameLevels(u: Cpu, t: Cpu) { t.ipl == u.ipl && t.mask == u.mask }

  lemma ToSupervisorLevels(u: Cpu)
    ensures SameLevels(u, ToSupervisor(u))
  {
  }

  lemma RetryLevels(u: Cpu, addr: Long, read: bool, fc: nat)
    ensures SameLevels(u, BusErrorRetry(u, addr, read, fc))
  {
    hide PushBusFrame, ToSupervisor, Read, Wrap, GetSr, StatusWord;
    ToSupervisorLevels(u);
  }

  lemma GroupZeroLevels(u: Cpu, addr: Long, read: bool, fc: nat, ir: nat)
    ensures SameLevels(u, GroupZero(u, addr, read, fc, ir))
  {
    hide PushGroupZero, ToSupervisor, Read, Wrap, GetSr, Flag;
    ToSupervisorLevels(u);
  }

  /** Delivery leaves both. */
  lemma DeliverLevels(u: Cpu, fc: nat, ir: nat)
    ensures SameLevels(u, Deliver030(u, true, fc)) && SameLevels(u, Deliver000(u, fc, ir))
  {
    hide BusErrorRetry, GroupZero, Wrap;
    if u.core.bus.fault.Some? {
      var acc := u.core.bus.fault.value;
      var t := u.(core := u.core.(bus := u.core.bus.(fault := None)));
      RetryLevels(t, acc.addr, !acc.write, fc);
      GroupZeroLevels(t.(core := t.core.(pc := Wrap(u.ipc + 2))), acc.addr, !acc.write, fc, ir);
    }
  }

  /** What a 68030 sprint that ends in a fault leaves, the interrupt poll included. */
  lemma FaultStacked030(m: Machine, env: Env, log: seq<Start>)
    requires log != [] && Recorded(log, m, env)
    requires var exit := After(m, |log|, env).cpu; exit.core.bus.fault.Some? && DeliversRetry(m, exit, env)
    ensures var exit := After(m, |log|, env).cpu;
            var t := Deliver030(exit, env.paged, env.fc);
            CheckInterrupt(t) == t && BusFrameStacked(exit, t, env.fc, log[|log| - 1].pc)
  {
    hide After, Deliver030, BusFrameStacked, Recorded, StackMapped, Sound, Exception;
    var exit := After(m, |log|, env).cpu;
    SprintStacksRetry(m, env, log);
    DeliverLevels(exit, env.fc, 0);
  }

  lemma FaultStacked000(m: Machine, env: Env, log: seq<Start>)
    requires log != [] && Recorded(log, m, env)
    requires var exit := After(m, |log|, env).cpu; exit.core.bus.fault.Some? && DeliversGroupZero(m, exit)
    ensures var (exit, ir) := (After(m, |log|, env).cpu, After(m, |log|, env).ir);
            var t := Deliver000(exit, env.fc, ir);
            CheckInterrupt(t) == t
            && GroupZeroStacked(exit, t, env.fc, ir, Wrap(log[|log| - 1].pc + 2))
  {
    hide After, Deliver000, GroupZeroStacked, Recorded, StackMapped, Sound, Exception, Wrap, Repeated;
    var exit := After(m, |log|, env).cpu;
    SprintStacksGroupZero(m, env, log);
    DeliverLevels(exit, env.fc, After(m, |log|, env).ir);
  }

  lemma NoStarts(m: Machine, env: Env, budget: nat)
    ensures Orderly([], budget) && Recorded([], m, env) && After(m, 0, env) == m
  {
  }

  /** Extending a record by the start of the next instruction. */
  lemma OneMore(log: seq<Start>, start: Start, m: Machine, env: Env, budget: nat)
    requires Orderly(log, budget) && Recorded(log, m, env)
    requires var u := After(m, |log|, env).cpu;
             && start.pc == Narrow(u).core.pc && start.pending == u.core.bus.fault.Some?
             && !start.pending && 0 < start.left <= budget && (log != [] ==> start.left < log[|log| - 1].left)
    ensures Orderly(log + [start], budget) && Recorded(log + [start], m, env)
    ensures After(m, |log| + 1, env) == Instruction(After(m, |log|, env), env)
  {
    hide Instruction, Narrow;
    if log != [] {
      forall i | 0 <= i < |log| ensures start.left < log[i].left {
        assert i < |log| - 1 ==> log[|log| - 1].left < log[i].left;
      }
    }
  }
}
