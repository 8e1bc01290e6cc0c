/**
Branch targets as text: the displacement printed by the disassembler
(src/core/cpu/cpu_disasm.c), scanned back by the annotator
(tools/dump/annotate_disasm.c), names the PC the executor takes
(src/core/cpu/cpu_ops.h).
*/
module Branch {
  import opened Words
  import opened Memory
  import opened Operands
  import opened Arithmetic
  import opened Disasm

  // ---- hexadecimal text -------------------------------------------------

  const HEX_DIGITS: string := "0123456789ABCDEF"

  function HexDigit(d: nat): char
    requires d < 16
  {
    HEX_DIGITS[d]
  }

  /** Value of a digit as `%x` reads it, upper or lower case. */
  function DigitValue(ch: char): Option<nat> {
    if '0' <= ch <= '9' then Some(ch as int - '0' as int)
    else if 'A' <= ch <= 'F' then Some(ch as int - 'A' as int + 10)
    else if 'a' <= ch <= 'f' then Some(ch as int - 'a' as int + 10)
    else None
  }

  lemma DigitBack(d: nat)
    requires d < 16
    ensures DigitValue(HexDigit(d)) == Some(d)
  {
  }

  /** `%X`. */
  function Hex(v: nat): string {
    if v < 16 then [HexDigit(v)] else Hex(v / 16) + [HexDigit(v % 16)]
  }

  function Zeros(k: nat): string { seq(k, _ => '0') }

  /** `%0kX`. */
  function HexPadded(v: nat, k: nat): string {
    if |Hex(v)| < k then Zeros(k - |Hex(v)|) + Hex(v) else Hex(v)
  }

  predicate IsHex(s: string) {
    forall i :: 0 <= i < |s| ==> DigitValue(s[i]).Some?
  }

  /** Length of the run of digits `%x` consumes. */
  function DigitRun(s: string): (k: nat)
    ensures k <= |s|
  {
    if s == [] || DigitValue(s[0]).None? then 0 else 1 + DigitRun(s[1..])
  }

  function HexValue(s: string): nat
    requires IsHex(s)
  {
    if s == [] then 0 else HexValue(s[..|s| - 1]) * 16 + DigitValue(s[|s| - 1]).value
  }

  lemma {:induction false} RunIsHex(s: string)
    ensures IsHex(s[..DigitRun(s)])
  {
    if s != [] && DigitValue(s[0]).Some? {
      RunIsHex(s[1..]);
      assert s[..DigitRun(s)] == [s[0]] + s[1..][..DigitRun(s[1..])];
    }
  }

  /** `%x`: the value of the leading digits, if there is one. */
  function ScanHex(s: string): Option<nat> {
    RunIsHex(s);
    if DigitRun(s) == 0 then None else Some(HexValue(s[..DigitRun(s)]))
  }

  lemma {:induction false} HexDigits(v: nat)
    ensures IsHex(Hex(v)) && |Hex(v)| >= 1 && HexValue(Hex(v)) == v
  {
    DigitBack(v % 16);
    if v < 16 {
      assert [HexDigit(v)][..0] == [];
    } else {
      HexDigits(v / 16);
      var h := Hex(v);
      assert h[..|h| - 1] == Hex(v / 16);
    }
  }

  lemma {:induction false} LeadingZeros(k: nat, s: string)
    requires IsHex(s)
    ensures IsHex(Zeros(k) + s) && HexValue(Zeros(k) + s) == HexValue(s)
    decreases |s| + k
  {
    var t := Zeros(k) + s;
    assert IsHex(t);
    if s != [] {
      LeadingZeros(k, s[..|s| - 1]);
      assert t[..|t| - 1] == Zeros(k) + s[..|s| - 1];
    } else if k > 0 {
      LeadingZeros(k - 1, s);
      assert t[..|t| - 1] == Zeros(k - 1) + s;
    }
  }

  lemma {:induction false} WholeRun(s: string)
    requires IsHex(s)
    ensures DigitRun(s) == |s|
  {
    if s != [] {
      WholeRun(s[1..]);
    }
  }

  /** A printed number is read back. */
  lemma ScanPrinted(v: nat, k: nat)
    ensures ScanHex(HexPadded(v, k)) == Some(v)
  {
    var s := HexPadded(v, k);
    HexDigits(v);
    if |Hex(v)| < k {
      LeadingZeros(k - |Hex(v)|, Hex(v));
    }
    WholeRun(s);
    assert s[..|s|] == s;
  }

  // ---- printing and annotating ------------------------------------------

  /** Reduction to a signed 32-bit value. */
  function S32(v: int): (r: int)
    ensures -0x8000_0000 <= r < 0x8000_0000
  {
    if Wrap(v) >= 0x8000_0000 then Wrap(v) - B32 else Wrap(v)
  }

  /** `format_pc_displacement`; the negation is taken modulo 2^32. */
  function FormatDisplacement(disp: int): string {
    if disp >= 0 then "*+$" + HexPadded(disp, 4) else "*-$" + HexPadded(Wrap(0 - disp), 4)
  }

  /** `strchr`. */
  function From(s: string, ch: char): Option<string> {
    if s == [] then None else if s[0] == ch then Some(s) else From(s[1..], ch)
  }

  /** The address `re_annotate_branch_destination` finds in an operand, if any. */
  function Destination(operands: string, addr: Long): Option<Long> {
    match From(operands, '*')
    case None => None
    case Some(star) =>
      if |star| < 3 || star[2] != '$' then None
      else
        match ScanHex(star[3..])
        case None => None
        case Some(v) =>
          if star[1] == '+' then Some(Wrap(addr + v))
          else if star[1] == '-' then Some(Wrap(addr - v))
          else None
  }

  function Annotate(operands: string, addr: Long): string {
    match Destination(operands, addr)
    case None => operands
    case Some(dest) => operands + "\t; -> $" + HexPadded(dest, 8)
  }

  /** A printed displacement, after any prefix without a star, is annotated with its target. */
  lemma PrintedDestination(prefix: string, disp: int, addr: Long)
    requires -0x8000_0000 <= disp < 0x8000_0000 && forall i :: 0 <= i < |prefix| ==> prefix[i] != '*'
    ensures Destination(prefix + FormatDisplacement(disp), addr) == Some(Wrap(addr + disp))
  {
    hide ScanHex, HexPadded, Wrap, Destination;
    var v := if disp >= 0 then disp else Wrap(0 - disp);
    var sign := if disp >= 0 then '+' else '-';
    ScanPrinted(v, 4);
    assert FormatDisplacement(disp) == ['*', sign, '$'] + HexPadded(v, 4);
    ScanStar(prefix, sign, HexPadded(v, 4), addr);
    WrapNegated(addr, disp);
  }

  /** What the scan makes of a star, a sign, a dollar and digits. */
  lemma ScanStar(prefix: string, sign: char, digits: string, addr: Long)
    requires (sign == '+' || sign == '-') && ScanHex(digits).Some?
    requires forall i :: 0 <= i < |prefix| ==> prefix[i] != '*'
    ensures Destination(prefix + (['*', sign, '$'] + digits), addr)
         == Some(if sign == '+' then Wrap(addr + ScanHex(digits).value) else Wrap(addr - ScanHex(digits).value))
  {
    hide ScanHex, Wrap, From;
    var text := ['*', sign, '$'] + digits;
    FindStar(prefix, text);
    assert text[3..] == digits;
  }

  lemma WrapNegated(addr: Long, disp: int)
    ensures Wrap(addr - Wrap(0 - disp)) == Wrap(addr + disp)
  {
  }

  lemma {:induction false} FindStar(prefix: string, text: string)
    requires text != [] && text[0] == '*' && forall i :: 0 <= i < |prefix| ==> prefix[i] != '*'
    ensures From(prefix + text, '*') == Some(text)
  {
    if prefix != [] {
      assert (prefix + text)[1..] == prefix[1..] + text;
      FindStar(prefix[1..], text);
    } else {
      assert prefix + text == text;
    }
  }

  // ---- Bcc --------------------------------------------------------------

  predicate IsBcc(op: nat) {
    op / 0x1000 == 6 && op / 0x100 % 16 != 1
  }

  /** Bcc.B/W/L from just past the opcode: the displacement is read only when the branch is taken. */
  function Bcc(c: Core, f: Ccr, op: nat): Core {
    var taken := ConditionalTest(f, op / 0x100 % 16);
    if op % 0x100 == 0xFF then
      if taken then var (c1, v) := Fetch(c, 4, false); c1.(pc := Wrap(c.pc + v)) else c.(pc := Wrap(c.pc + 4))
    else if op % 0x100 == 0 then
      if taken then var (c1, v) := Fetch(c, 2, false); c1.(pc := Wrap(c.pc + S16(v))) else c.(pc := Wrap(c.pc + 2))
    else c.(pc := Wrap(c.pc + if taken then S8(op) else 0))
  }

  /** The operand text of Bcc, from the opcode and the two words after it. */
  function BccText(op: nat, w1: Word, w2: Word): string {
    var high: int := w1;
    if op % 0x100 == 0xFF then FormatDisplacement(S32(high * 0x1_0000 + w2 + 2))
    else if op % 0x100 == 0 then FormatDisplacement(S16(w1) + 2)
    else FormatDisplacement(S8(op) + 2)
  }

  /** The two words after the opcode at addr. */
  predicate Follows(m: Bytes, addr: Long, w1: Word, w2: Word) {
    Peek(m, addr + 2, 2) == w1 && Peek(m, addr + 4, 2) == w2
  }

  lemma LongAfter(m: Bytes, addr: Long, w1: Word, w2: Word)
    requires Follows(m, addr, w1, w2)
    ensures var high: int := w1; Peek(m, addr + 2, 4) == high * 0x1_0000 + w2
  {
    assert Peek(m, addr + 2, 3) == Peek(m, addr + 2, 2) * 256 + Get(m, Wrap(addr + 4));
    assert Peek(m, addr + 4, 1) == Peek(m, addr + 4, 0) * 256 + Get(m, Wrap(addr + 4));
  }

  /** An annotated Bcc operand names the PC of the taken branch. */
  lemma BccTarget(c: Core, f: Ccr, op: nat, addr: Long, w1: Word, w2: Word)
    requires IsBcc(op) && ConditionalTest(f, op / 0x100 % 16)
    requires c.pc == Wrap(addr + 2) && Follows(c.bus.mem, addr, w1, w2) && Bcc(c, f, op).bus.fault.None?
    ensures Destination(BccText(op, w1, w2), addr) == Some(Bcc(c, f, op).pc)
    ensures Annotate(BccText(op, w1, w2), addr) == BccText(op, w1, w2) + "\t; -> $" + HexPadded(Bcc(c, f, op).pc, 8)
  {
    hide Destination, FormatDisplacement, Peek, HexPadded, Wrap;
    var high: int := w1;
    LongAfter(c.bus.mem, addr, w1, w2);
    PeekWrap(c.bus.mem, addr + 2, 2);
    PeekWrap(c.bus.mem, addr + 2, 4);
    var raw := if op % 0x100 == 0xFF then high * 0x1_0000 + w2 else if op % 0x100 == 0 then S16(w1) else S8(op);
    var disp := if op % 0x100 == 0xFF then S32(raw + 2) else raw + 2;
    PrintedDestination("", disp, addr);
    assert "" + FormatDisplacement(disp) == FormatDisplacement(disp);
    TargetSum(addr, raw);
  }

  lemma TargetSum(addr: Long, raw: int)
    ensures Wrap(Wrap(addr + 2) + raw) == Wrap(addr + (raw + 2)) == Wrap(addr + S32(raw + 2))
  {
    hide Wrap;
    WrapTwice(addr + 2, raw);
    SignedSame(raw + 2);
    WrapTwice(raw + 2, addr);
    WrapTwice(S32(raw + 2), addr);
  }

  lemma SignedSame(v: int)
    ensures Wrap(S32(v)) == Wrap(v)
  {
  }

  /** A branch not taken goes on past its displacement, reading nothing. */
  lemma BccFallsThrough(c: Core, f: Ccr, op: nat, addr: Long)
    requires IsBcc(op) && !ConditionalTest(f, op / 0x100 % 16) && c.pc == Wrap(addr + 2)
    ensures Bcc(c, f, op)
         == c.(pc := Wrap(addr + if op % 0x100 == 0xFF then 6 else if op % 0x100 == 0 then 4 else 2))
  {
    hide Peek, Wrap;
    WrapTwice(addr + 2, 0);
    WrapTwice(addr + 2, 2);
    WrapTwice(addr + 2, 4);
  }

  // ---- DBcc -------------------------------------------------------------

  predicate IsDbcc(op: nat) {
    op / 0x1000 == 5 && op / 8 % 32 == 0x19
  }

  /** DBcc from just past the opcode. */
  function Dbcc(c: Core, f: Ccr, op: nat): Core {
    if ConditionalTest(f, op / 0x100 % 16) then c.(pc := Wrap(c.pc + 2))
    else
      var reg := op % 8;
      var value: int := c.d[reg];
      var counter := S16(value - 1);
      var c1 := c.(d := c.d[reg := Merge(c.d[reg], 2, (value - 1) % 0x1_0000)]);
      if counter == -1 then c1.(pc := Wrap(c.pc + 2))
      else var (c2, v) := Fetch(c1, 2, false); c2.(pc := Wrap(c.pc + S16(v)))
  }

  function DbccText(op: nat, w1: Word): string {
    "D" + [HexDigit(op % 8)] + "," + FormatDisplacement(S16(w1) + 2)
  }

  /** The loop is entered again exactly when the test fails and the counter's low word was not zero. */
  predicate DbccTaken(c: Core, f: Ccr, op: nat) {
    !ConditionalTest(f, op / 0x100 % 16) && c.d[op % 8] % 0x1_0000 != 0
  }

  lemma DbccTarget(c: Core, f: Ccr, op: nat, addr: Long, w1: Word)
    requires IsDbcc(op) && DbccTaken(c, f, op)
    requires c.pc == Wrap(addr + 2) && Peek(c.bus.mem, addr + 2, 2) == w1 && Dbcc(c, f, op).bus.fault.None?
    ensures Destination(DbccText(op, w1), addr) == Some(Dbcc(c, f, op).pc)
    ensures Annotate(DbccText(op, w1), addr) == DbccText(op, w1) + "\t; -> $" + HexPadded(Dbcc(c, f, op).pc, 8)
    ensures Dbcc(c, f, op).d == c.d[op % 8 := c.d[op % 8] - 1]
  {
    hide Destination, FormatDisplacement, Peek, HexPadded, Wrap, Merge;
    var reg := op % 8;
    PeekWrap(c.bus.mem, addr + 2, 2);
    var prefix := "D" + [HexDigit(reg)] + ",";
    PrintedDestination(prefix, S16(w1) + 2, addr);
    TargetSum(addr, S16(w1));
    CountedDown(c.d[reg]);
  }

  /** Counting down the low word of a register. */
  lemma CountedDown(v: Long)
    ensures v % 0x1_0000 != 0 <==> S16(v as int - 1) != -1
    ensures Merge(v, 2, (v as int - 1) % 0x1_0000) == if v % 0x1_0000 != 0 then v - 1 else v + 0xFFFF
  {
    hide S16, Wrap, Pow256;
    Pow256Values();
    var q, r := v / 0x1_0000, v % 0x1_0000;
    LowerWord(q, r);
  }

  lemma LowerWord(q: nat, r: nat)
    requires q < 0x1_0000 && r < 0x1_0000
    ensures var low := if r != 0 then r - 1 else 0xFFFF;
            && (0x1_0000 * q + r - 1) % 0x1_0000 == low
            && (S16(0x1_0000 * q + r - 1) == -1 <==> r == 0)
            && Wrap(q * 0x1_0000 + low % 0x1_0000) == q * 0x1_0000 + low
  {
    if r == 0 {
      assert 0x1_0000 * q - 1 == 0x1_0000 * (q - 1) + 0xFFFF;
    }
  }

  /** Otherwise DBcc falls through, counting only when the test failed. */
  lemma DbccFallsThrough(c: Core, f: Ccr, op: nat, addr: Long)
    requires IsDbcc(op) && !DbccTaken(c, f, op) && c.pc == Wrap(addr + 2)
    ensures Dbcc(c, f, op).pc == Wrap(addr + 4) && Dbcc(c, f, op).bus == c.bus
    ensures Dbcc(c, f, op).d == if ConditionalTest(f, op / 0x100 % 16) then c.d
                                else c.d[op % 8 := c.d[op % 8] + 0xFFFF]
  {
    hide Peek, Merge;
    assert Wrap(Wrap(addr + 2) + 2) == Wrap(addr + 4);
    CountedDown(c.d[op % 8]);
  }
}
