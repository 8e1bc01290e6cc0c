/**
Supervisor state of the execution core: status register, banked stack
pointers, exception entry and return (src/core/cpu/cpu_internal.h,
src/core/cpu/cpu_ops.h, src/core/cpu/cpu_68030.c, src/core/cpu/cpu.c).
*/
module System {
  import opened Words
  import opened Memory
  import opened Operands

  datatype Ccr = Ccr(x: bool, n: bool, z: bool, v: bool, c: bool)

  /**
  `s`, `m`, `trace` and `mask` are the system byte; `ssp`, `usp` and `msp` hold
  the stack pointers that are not in A7. `ipc` is the address of the current
  instruction, `lastFault` the one remembered to recognise a repeated fault.
  */
  datatype Cpu = Cpu(
    core: Core,
    ccr: Ccr,
    s: bool,
    m: bool,
    trace: nat,
    mask: nat,
    ipl: nat,
    ssp: Long,
    usp: Long,
    msp: Long,
    vbr: Long,
    sfc: nat,
    dfc: nat,
    cacr: nat,
    caar: Long,
    ipc: Long,
    lastFault: Long,
    halted: bool)

  /** Field ranges; the 68000 has one trace bit and no M bit. */
  predicate Valid(u: Cpu) {
    && u.mask < 8 && u.ipl < 8
    && (if u.core.model.M68030? then u.trace < 4 else u.trace < 2 && !u.m)
  }

  // ---- status register --------------------------------------------------

  function Flag(b: bool, weight: nat): nat { if b then weight else 0 }

  /** `read_ccr`. */
  function ReadCcr(f: Ccr): (r: nat)
    ensures r < 32
  {
    Flag(f.x, 16) + Flag(f.n, 8) + Flag(f.z, 4) + Flag(f.v, 2) + Flag(f.c, 1)
  }

  /** `write_ccr`. */
  function WriteCcr(sr: nat): Ccr {
    Ccr(Bit(sr, 16), Bit(sr, 8), Bit(sr, 4), Bit(sr, 2), Bit(sr, 1))
  }

  /** Fields of a status word in their bit positions: I at 8, M at 12, S at 13, T0 at 14, T1 at 15. */
  function Status(ccr: nat, mask: nat, m: nat, s: nat, t0: nat, t1: nat): nat {
    ccr + mask * 0x100 + m * 0x1000 + s * 0x2000 + t0 * 0x4000 + t1 * 0x8000
  }

  /** `cpu_get_sr`. */
  function GetSr(u: Cpu): nat {
    if u.core.model.M68030? then
      Status(ReadCcr(u.ccr), u.mask, Flag(u.m, 1), Flag(u.s, 1), u.trace % 2, u.trace / 2 % 2)
    else
      Status(ReadCcr(u.ccr), u.mask, 0, Flag(u.s, 1), 0, Flag(u.trace != 0, 1))
  }

  /** A status word with the bits the model does not implement cleared: mask 0xF71F or 0xA71F. */
  function Implemented(model: Model, sr: nat): nat {
    var modern := model.M68030?;
    Status(sr % 0x20, sr / 0x100 % 8, if modern then sr / 0x1000 % 2 else 0, sr / 0x2000 % 2,
           if modern then sr / 0x4000 % 2 else 0, sr / 0x8000 % 2)
  }

  // ---- the three stack pointers a program sees --------------------------

  function Usp(u: Cpu): Long { if u.s then u.usp else u.core.a[7] }
  function Isp(u: Cpu): Long { if u.s && !u.m then u.core.a[7] else u.ssp }
  function Msp(u: Cpu): Long { if u.s && u.m then u.core.a[7] else u.msp }

  function SetA7(u: Cpu, v: Long): Cpu {
    u.(core := u.core.(a := u.core.a[7 := v]))
  }

  function SetView(u: Cpu, view: View): Cpu {
    u.(core := u.core.(bus := u.core.bus.(readView := view, writeView := view)))
  }

  function ViewOf(s: bool): View { if s then Supervisor else User }

  /** The active translation tables belong to the current privilege level. */
  predicate ViewsAgree(u: Cpu) {
    u.core.bus.readView == ViewOf(u.s) && u.core.bus.writeView == ViewOf(u.s)
  }

  // ---- write_sr ---------------------------------------------------------

  /** Stack switching of `write_sr`. */
  function Rebank(u: Cpu, newS: bool, newM: bool): Cpu {
    if u.core.model.M68030? then
      if u.s then
        var saved := if u.m then u.(msp := u.core.a[7]) else u.(ssp := u.core.a[7]);
        SetA7(saved, if !newS then saved.usp else if newM then saved.msp else saved.ssp)
      else if newS then SetA7(u.(usp := u.core.a[7]), if newM then u.msp else u.ssp)
      else u
    else
      if newS && !u.s then SetA7(u.(usp := u.core.a[7]), u.ssp)
      else if !newS && u.s then SetA7(u.(ssp := u.core.a[7]), u.usp)
      else u
  }

  /** `write_sr` up to its interrupt check. */
  function LoadSr(u: Cpu, sr: nat): Cpu {
    var newS := Bit(sr, 0x2000);
    var newM := u.core.model.M68030? && Bit(sr, 0x1000);
    var r := Rebank(u, newS, newM);
    var t := if newS != u.s then SetView(r, ViewOf(newS)) else r;
    t.(s := newS,
       m := if u.core.model.M68030? then newM else u.m,
       trace := if u.core.model.M68030? then sr / 0x4000 % 4 else sr / 0x8000 % 2,
       mask := sr / 0x100 % 8,
       ccr := WriteCcr(sr))
  }

  predicate InterruptDue(ipl: nat, mask: nat) {
    ipl > mask || ipl == 7
  }

  /** `cpu_check_interrupt`. */
  function CheckInterrupt(u: Cpu): Cpu {
    if InterruptDue(u.ipl, u.mask)
    then Exception(u.(mask := u.ipl), 0x60 + 4 * u.ipl, u.core.pc, GetSr(u)) else u
  }

  function WriteSr(u: Cpu, sr: nat): Cpu {
    CheckInterrupt(LoadSr(u, sr))
  }

  // ---- exception entry --------------------------------------------------

  function Push(c: Core, n: nat, v: nat): Core {
    var sp := Wrap(c.a[7] - n);
    c.(a := c.a[7 := sp], bus := Write(c.bus, sp, n, v))
  }

  /** The switch to a supervisor stack that every entry performs. */
  function ToSupervisor(u: Cpu): Cpu {
    var master := u.m && u.core.model.M68030?;
    if !u.s then
      SetView(SetA7(u.(usp := u.core.a[7], s := true, m := false),
                    if master then u.msp else u.ssp), Supervisor)
    else if master then SetA7(u.(msp := u.core.a[7], m := false), u.ssp)
    else u
  }

  /** Vectors whose 68030 frame also carries the instruction address. */
  predicate LongFormat(vector: nat) {
    var n := vector / 4;
    n == 5 || n == 6 || n == 7 || n == 9 || 48 <= n <= 54
  }

  /** The frame `exception` pushes. */
  function Framed(c: Core, vector: nat, ipc: Long, pc: Long, sr: nat): Core {
    if c.model.M68030? then
      var c1 := if LongFormat(vector) then Push(c, 4, ipc) else c;
      var word := (if LongFormat(vector) then 0x2000 else 0) + vector % 0x1000;
      Push(Push(Push(c1, 2, word), 4, pc), 2, sr)
    else Push(Push(c, 4, pc), 2, sr)
  }

  /** `exception`. */
  function Exception(u: Cpu, vector: nat, pc: Long, sr: nat): Cpu {
    var t := ToSupervisor(u);
    var c := Framed(t.core, vector, u.ipc, pc, sr);
    var (b, handler) := Read(c.bus, if u.core.model.M68030? then Wrap(u.vbr + vector) else Wrap(vector), 4);
    t.(core := c.(bus := b, pc := Wrap(handler)), trace := 0)
  }

  const BUS_FRAME: nat := 92

  /** Zero-fill of a bus-fault frame, four bytes at a time from offset i. */
  function ZeroFill(b: Bus, frame: Long, i: nat): Bus
    decreases BUS_FRAME - i
  {
    if i >= BUS_FRAME then b else ZeroFill(Write(b, Wrap(frame + i), 4, 0), frame, i + 4)
  }

  /** Format $B frame of the 68030 bus-error paths: 92 bytes below A7. */
  function PushBusFrame(c: Core, sr: nat, pc: Long, ssw: nat, addr: Long): Core {
    var frame := Wrap(c.a[7] - BUS_FRAME);
    var b0 := ZeroFill(c.bus, frame, 0);
    var b1 := Write(b0, frame, 2, sr);
    var b2 := Write(b1, Wrap(frame + 2), 4, pc);
    var b3 := Write(b2, Wrap(frame + 6), 2, 0xB008);
    var b4 := Write(b3, Wrap(frame + 0xA), 2, ssw);
    c.(a := c.a[7 := frame], bus := Write(b4, Wrap(frame + 0x10), 4, addr))
  }

  /** Special status word: data cycle, read/write, size and function code. */
  function StatusWord(read: bool, fc: nat): nat {
    0x110 + Flag(read, 0x40) + fc % 8
  }

  /**
  68030 bus error that will re-execute the instruction
  (`exception_bus_error_retry`); a fault while stacking or fetching the vector
  halts the processor.
  */
  function BusErrorRetry(u: Cpu, addr: Long, read: bool, fc: nat): Cpu {
    var t := ToSupervisor(u);
    var c := PushBusFrame(t.core, GetSr(u), u.ipc, StatusWord(read, fc), addr);
    if c.bus.fault.Some? then t.(core := c.(bus := c.bus.(fault := None)), halted := true)
    else
      var (b, handler) := Read(c.bus, Wrap(u.vbr + 8), 4);
      var done := c.(bus := b, pc := Wrap(handler));
      if b.fault.Some? then t.(core := done.(bus := b.(fault := None)), halted := true)
      else t.(core := done, trace := 0)
  }

  /** A second skipping bus error at the address of the last one. */
  predicate Repeated(u: Cpu) {
    u.lastFault != 0 && u.lastFault == u.ipc
  }

  /** 68030 bus error that resumes after the instruction (`exception_bus_error`). */
  function BusErrorSkip(u: Cpu, addr: Long, read: bool, fc: nat): Cpu {
    if Repeated(u) then
      u.(halted := true, lastFault := 0, core := u.core.(bus := u.core.bus.(fault := None)))
    else
      var t := ToSupervisor(u);
      var c := PushBusFrame(t.core, GetSr(u), u.core.pc, StatusWord(read, fc), addr);
      var (b, handler) := Read(c.bus, Wrap(u.vbr + 8), 4);
      t.(core := c.(bus := b, pc := Wrap(handler)), trace := 0,
         lastFault := if u.core.pc != u.ipc then 0 else u.ipc)
  }

  // ---- RTE --------------------------------------------------------------

  /** Bytes RTE drops for a 68030 frame format; None is a format error. */
  function FrameSize(format: nat): Option<nat> {
    match format
    case 0x0 => Some(8)
    case 0x2 => Some(12)
    case 0x9 => Some(20)
    case 0xA => Some(32)
    case 0xB => Some(92)
    case _ => None
  }

  /** RTE in supervisor mode. */
  function Rte(u: Cpu): Cpu {
    var sp := u.core.a[7];
    var (b1, sr) := Read(u.core.bus, sp, 2);
    var (b2, pc) := Read(b1, Wrap(sp + 2), 4);
    if u.core.model.M68030? then
      var (b3, word) := Read(b2, Wrap(sp + 6), 2);
      match FrameSize(word / 0x1000)
      case None =>
        var t := u.(core := u.core.(bus := b3), trace := 0);
        Exception(t, 0x38, u.ipc, GetSr(t))
      case Some(n) =>
        WriteSr(u.(core := u.core.(bus := b3, a := u.core.a[7 := Wrap(sp + n)], pc := Wrap(pc))), sr)
    else
      WriteSr(u.(core := u.core.(bus := b2, a := u.core.a[7 := Wrap(sp + 6)], pc := Wrap(pc))), sr)
  }

  // ---- banking refines three independent pointers -----------------------

  lemma RebankKeeps(u: Cpu, newS: bool, newM: bool)
    requires Valid(u) && (u.core.model.M68000? ==> !newM)
    ensures var t := Rebank(u, newS, newM).(s := newS, m := newM);
            && Usp(t) == Usp(u) && Isp(t) == Isp(u) && Msp(t) == Msp(u)
            && t.core == u.core.(a := t.core.a)
            && t.core.a == u.core.a[7 := t.core.a[7]]
            && t == u.(core := t.core, s := newS, m := newM, ssp := t.ssp, usp := t.usp, msp := t.msp)
  {
  }

  /** The fields of a status word, put together and taken apart. */
  lemma StatusFields(ccr: nat, mask: nat, m: nat, s: nat, t0: nat, t1: nat)
    requires ccr < 32 && mask < 8 && m < 2 && s < 2 && t0 < 2 && t1 < 2
    ensures var sr := Status(ccr, mask, m, s, t0, t1);
            && sr < 0x1_0000
            && sr % 0x20 == ccr && sr / 0x100 % 8 == mask && sr / 0x1000 % 2 == m
            && sr / 0x2000 % 2 == s && sr / 0x4000 % 2 == t0 && sr / 0x8000 % 2 == t1
  {
    hide Status;
    var q4 := t0 + 2 * t1;
    var q3 := s + 2 * q4;
    var q2 := m + 2 * q3;
    var q1 := mask + 16 * q2;
    var sr := Status(ccr, mask, m, s, t0, t1);
    StatusIs(ccr, mask, m, s, t0, t1);
    LowByte(ccr, q1);
    LowFive(ccr, 8 * q1);
    LowMask(mask, q2);
    MaskQuotient(sr);
    Halve(m, q3);
    HalfQuotient(sr, 0x1000);
    Halve(s, q4);
    HalfQuotient(sr, 0x2000);
    Halve(t0, t1);
    HalfQuotient(sr, 0x4000);
  }

  lemma StatusIs(ccr: nat, mask: nat, m: nat, s: nat, t0: nat, t1: nat)
    ensures Status(ccr, mask, m, s, t0, t1) == ccr + 0x100 * (mask + 16 * (m + 2 * (s + 2 * (t0 + 2 * t1))))
  {
  }

  lemma LowByte(ccr: nat, q: nat)
    requires ccr < 32
    ensures (ccr + 0x100 * q) / 0x100 == q
  {
  }

  lemma LowFive(ccr: nat, q: nat)
    requires ccr < 32
    ensures (ccr + 0x20 * q) % 0x20 == ccr
  {
  }

  lemma LowMask(mask: nat, q: nat)
    requires mask < 8
    ensures (mask + 16 * q) % 8 == mask && (mask + 16 * q) / 16 == q
  {
  }

  lemma MaskQuotient(v: nat)
    ensures v / 0x1000 == v / 0x100 / 16
  {
  }

  lemma Halve(bit: nat, q: nat)
    requires bit < 2
    ensures (bit + 2 * q) % 2 == bit && (bit + 2 * q) / 2 == q
  {
  }

  lemma HalfQuotient(v: nat, p: nat)
    requires p == 0x1000 || p == 0x2000 || p == 0x4000
    ensures v / (2 * p) == v / p / 2
  {
  }

  lemma CcrFields(sr: nat)
    ensures ReadCcr(WriteCcr(sr)) == sr % 0x20
  {
    hide ReadCcr;
    var q, r := sr / 32, sr % 32;
    assert sr / 16 == 2 * q + r / 16 && sr / 8 == 2 * (2 * q) + r / 8;
    assert sr / 4 == 2 * (4 * q) + r / 4 && sr / 2 == 2 * (8 * q) + r / 2;
    SameParity(q, r / 16);
    SameParity(2 * q, r / 8);
    SameParity(4 * q, r / 4);
    SameParity(8 * q, r / 2);
    SameParity(16 * q, r);
    CcrSmall(r);
  }

  lemma SameParity(x: nat, y: nat)
    ensures (2 * x + y) % 2 == y % 2
  {
  }

  lemma CcrSmall(r: nat)
    requires r < 32
    ensures ReadCcr(WriteCcr(r)) == r
  {
    BitSum(r);
    assert r / 1 == r;
  }

  /** Five bits and their weights. */
  lemma BitSum(r: nat)
    requires r < 32
    ensures r == 16 * (r / 16 % 2) + 8 * (r / 8 % 2) + 4 * (r / 4 % 2) + 2 * (r / 2 % 2) + r % 2
  {
    Halves(r);
    Halved(r, r / 2);
    Halved(r / 2, r / 4);
    Halved(r / 4, r / 8);
    Halved(r / 8, r / 16);
    Halved(r / 16, 0);
  }

  lemma Halved(v: nat, h: nat)
    requires h == v / 2
    ensures v == 2 * h + v % 2
  {
  }

  lemma Halves(r: nat)
    ensures r / 4 == r / 2 / 2 && r / 8 == r / 4 / 2 && r / 16 == r / 8 / 2
    ensures r < 32 ==> r / 16 / 2 == 0
  {
  }

  lemma TraceFields(sr: nat)
    ensures sr / 0x4000 % 4 / 2 % 2 == sr / 0x8000 % 2
    ensures sr / 0x4000 % 4 % 2 == sr / 0x4000 % 2
  {
    var t := sr / 0x4000;
    assert t / 2 == sr / 0x8000;
    assert t == 4 * (t / 4) + t % 4;
    assert t / 2 == 2 * (t / 4) + t % 4 / 2;
  }

  /** Loading any status word moves no stack pointer and is read back, masked. */
  lemma LoadSrRefines(u: Cpu, sr: nat)
    requires Valid(u)
    ensures var t := LoadSr(u, sr);
            && Valid(t)
            && Usp(t) == Usp(u) && Isp(t) == Isp(u) && Msp(t) == Msp(u)
            && GetSr(t) == Implemented(u.core.model, sr)
            && t.core.d == u.core.d && t.core.a == u.core.a[7 := t.core.a[7]]
            && t.core.bus.mem == u.core.bus.mem && t.core.pc == u.core.pc
            && (ViewsAgree(u) ==> ViewsAgree(t))
  {
    hide Rebank, ReadCcr, WriteCcr, Status;
    var newS, newM := Bit(sr, 0x2000), u.core.model.M68030? && Bit(sr, 0x1000);
    RebankKeeps(u, newS, newM);
    CcrFields(sr);
    TraceFields(sr);
  }

  /** The status word the processor reports has only implemented bits. */
  lemma SrRange(u: Cpu)
    requires Valid(u)
    ensures GetSr(u) < 0x1_0000
    ensures Implemented(u.core.model, GetSr(u)) == GetSr(u)
    ensures Bit(GetSr(u), 0x2000) == u.s && GetSr(u) / 0x100 % 8 == u.mask
    ensures u.core.model.M68030? ==> Bit(GetSr(u), 0x1000) == u.m
  {
    hide ReadCcr, Status;
    if u.core.model.M68030? {
      StatusFields(ReadCcr(u.ccr), u.mask, Flag(u.m, 1), Flag(u.s, 1), u.trace % 2, u.trace / 2 % 2);
    } else {
      StatusFields(ReadCcr(u.ccr), u.mask, 0, Flag(u.s, 1), 0, u.trace);
    }
  }

  /** Its low five bits are X, N, Z, V and C. */
  lemma SrFlags(u: Cpu)
    requires Valid(u)
    ensures var sr := GetSr(u);
            && sr / 16 % 2 == Flag(u.ccr.x, 1) && sr / 8 % 2 == Flag(u.ccr.n, 1) && sr / 4 % 2 == Flag(u.ccr.z, 1)
            && sr / 2 % 2 == Flag(u.ccr.v, 1) && sr % 2 == Flag(u.ccr.c, 1) && sr / 0x20 % 8 == 0
  {
    hide ReadCcr;
    var sr := GetSr(u);
    var q := u.mask + 16 * (if u.core.model.M68030?
                            then Flag(u.m, 1) + 2 * (Flag(u.s, 1) + 2 * (u.trace % 2 + 2 * (u.trace / 2 % 2)))
                            else 2 * (Flag(u.s, 1) + 2 * (2 * Flag(u.trace != 0, 1))));
    assert sr == ReadCcr(u.ccr) + 0x100 * q;
    LowFlags(u.ccr, q);
  }

  lemma LowFlags(f: Ccr, q: nat)
    ensures var v := ReadCcr(f) + 0x100 * q;
            && v / 16 % 2 == Flag(f.x, 1) && v / 8 % 2 == Flag(f.n, 1) && v / 4 % 2 == Flag(f.z, 1)
            && v / 2 % 2 == Flag(f.v, 1) && v % 2 == Flag(f.c, 1) && v / 0x20 % 8 == 0
  {
    hide ReadCcr;
    var r := ReadCcr(f);
    FlagBits(f);
    assert (r + 0x100 * q) / 16 == 2 * (8 * q) + r / 16 && (r + 0x100 * q) / 8 == 2 * (16 * q) + r / 8;
    assert (r + 0x100 * q) / 4 == 2 * (32 * q) + r / 4 && (r + 0x100 * q) / 2 == 2 * (64 * q) + r / 2;
    assert (r + 0x100 * q) / 0x20 == 8 * q;
    SameParity(8 * q, r / 16);
    SameParity(16 * q, r / 8);
    SameParity(32 * q, r / 4);
    SameParity(64 * q, r / 2);
    SameParity(128 * q, r);
  }

  lemma FlagBits(f: Ccr)
    ensures var r := ReadCcr(f);
            && r / 16 % 2 == Flag(f.x, 1) && r / 8 % 2 == Flag(f.n, 1) && r / 4 % 2 == Flag(f.z, 1)
            && r / 2 % 2 == Flag(f.v, 1) && r % 2 == Flag(f.c, 1)
  {
    FiveBits(Flag(f.x, 1), Flag(f.n, 1), Flag(f.z, 1), Flag(f.v, 1), Flag(f.c, 1));
  }

  lemma FiveBits(x: nat, n: nat, z: nat, v: nat, c: nat)
    requires x < 2 && n < 2 && z < 2 && v < 2 && c < 2
    ensures var r := 16 * x + 8 * n + 4 * z + 2 * v + c;
            r / 16 % 2 == x && r / 8 % 2 == n && r / 4 % 2 == z && r / 2 % 2 == v && r % 2 == c
  {
    var r := 16 * x + 8 * n + 4 * z + 2 * v + c;
    assert r / 2 == 2 * (4 * x + 2 * n + z) + v && r / 4 == 2 * (2 * x + n) + z;
    assert r / 8 == 2 * x + n && r / 16 == x;
    Halve(v, 4 * x + 2 * n + z);
    Halve(z, 2 * x + n);
    Halve(c, 8 * x + 4 * n + 2 * z + v);
  }

  lemma CcrInjective(f: Ccr, g: Ccr)
    requires ReadCcr(f) == ReadCcr(g)
    ensures f == g
  {
  }

  /** Two machines of one model with equal status words agree in every field of it. */
  lemma SrInjective(u: Cpu, t: Cpu)
    requires Valid(u) && Valid(t) && u.core.model == t.core.model && GetSr(u) == GetSr(t)
    ensures u.s == t.s && u.m == t.m && u.mask == t.mask && u.trace == t.trace && u.ccr == t.ccr
  {
    hide ReadCcr, Status;
    if u.core.model.M68030? {
      StatusFields(ReadCcr(u.ccr), u.mask, Flag(u.m, 1), Flag(u.s, 1), u.trace % 2, u.trace / 2 % 2);
      StatusFields(ReadCcr(t.ccr), t.mask, Flag(t.m, 1), Flag(t.s, 1), t.trace % 2, t.trace / 2 % 2);
    } else {
      StatusFields(ReadCcr(u.ccr), u.mask, 0, Flag(u.s, 1), 0, u.trace);
      StatusFields(ReadCcr(t.ccr), t.mask, 0, Flag(t.s, 1), 0, t.trace);
    }
    CcrInjective(u.ccr, t.ccr);
  }
}
