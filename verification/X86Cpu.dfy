/** The compare and condition instructions of the interpreter, on its registers, flags,
    memory and instruction pointer. */
module X86Cpu {
  import opened Words
  import opened X86Flags

  const NUM_REGS := 16
  const NO_REG := -1
  const RIP_RELATIVE := -2

  datatype Operand =
    | Reg(index: nat, width: nat)
    | Imm(value: int, width: nat)
    | Mem(base: int, scaled: int, scale: nat, disp: int, width: nat)
  {
    predicate Valid() {
      && IsSize(width)
      && (Reg? ==> index < NUM_REGS)
      && (Mem? ==> RIP_RELATIVE <= base < NUM_REGS && NO_REG <= scaled < NUM_REGS)
    }
  }

  /** The parts of the processor these instructions touch. */
  datatype Cpu = Cpu(gpr: seq<nat>, rip: nat, flags: set<Flag>, mem: map<nat, nat>) {
    predicate Valid() {
      |gpr| == NUM_REGS && forall i | 0 <= i < NUM_REGS :: gpr[i] < U64
    }
  }

  // ---- Operands ----

  /** Bytes of memory; what was never written reads as zero. */
  function ByteAt(mem: map<nat, nat>, addr: int): nat {
    var p := addr % U64;
    if p in mem then mem[p] % 0x100 else 0
  }

  function LoadMem(mem: map<nat, nat>, addr: int, n: nat): nat
    decreases n
  {
    if n == 0 then 0 else ByteAt(mem, addr) + 0x100 * LoadMem(mem, addr + 1, n - 1)
  }

  function StoreMem(mem: map<nat, nat>, addr: int, n: nat, v: nat): map<nat, nat>
    decreases n
  {
    if n == 0 then mem else StoreMem(mem[addr % U64 := v % 0x100], addr + 1, n - 1, v / 0x100)
  }

  function EffectiveAddress(gpr: seq<nat>, op: Operand): int
    requires op.Mem? && op.Valid() && |gpr| == NUM_REGS
  {
    if op.base == RIP_RELATIVE then op.disp % U64
    else
      ((if op.base >= 0 then gpr[op.base] else 0) + (if op.scaled >= 0 then gpr[op.scaled] * op.scale else 0) + op.disp) % U64
  }

  /** A value cut to an operand size. */
  function Cut(v: int, width: nat): nat {
    if width == 1 then v % 0x100
    else if width == 2 then v % 0x1_0000
    else if width == 4 then v % 0x1_0000_0000
    else v % U64
  }

  lemma CutFits(v: int, width: nat)
    requires IsSize(width)
    ensures Cut(v, width) < Modulus(width)
  {
  }

  function ReadOperand(c: Cpu, op: Operand): nat
    requires c.Valid() && op.Valid()
  {
    match op
    case Reg(i, width) => Cut(c.gpr[i], width)
    case Imm(v, width) => Cut(v, width)
    case Mem(_, _, _, _, width) => Cut(LoadMem(c.mem, EffectiveAddress(c.gpr, op), width), width)
  }

  /** A 4-byte result clears the upper half of its register, a shorter one keeps what is
      above it. */
  function IntoReg(before: nat, v: nat, width: nat): nat {
    if width == 4 then v % 0x1_0000_0000
    else if width < 4 then before - Cut(before, width) + Cut(v, width)
    else v % U64
  }

  function WriteOperand(c: Cpu, op: Operand, v: nat): Cpu
    requires c.Valid() && op.Valid()
  {
    match op
    case Reg(i, width) => c.(gpr := c.gpr[i := IntoReg(c.gpr[i], v, width)])
    case Imm(_, _) => c
    case Mem(_, _, _, _, width) => c.(mem := StoreMem(c.mem, EffectiveAddress(c.gpr, op), width, v))
  }

  lemma {:induction false} WriteKeepsValid(c: Cpu, op: Operand, v: nat)
    requires c.Valid() && op.Valid()
    ensures WriteOperand(c, op, v).Valid()
  {
    if op.Reg? {
      IntoRegFits(c.gpr[op.index], v, op.width);
    }
  }

  lemma IntoRegFits(before: nat, v: nat, width: nat)
    requires before < U64 && IsSize(width)
    ensures IntoReg(before, v, width) < U64
    ensures Cut(IntoReg(before, v, width), width) == Cut(v, width)
  {
    if width == 1 {
      LowReplaced1(before, v % 0x100);
    } else if width == 2 {
      LowReplaced2(before, v % 0x1_0000);
    }
  }

  lemma LowReplaced1(before: nat, x: nat)
    requires before < U64 && x < 0x100
    ensures 0 <= before - before % 0x100 + x < U64
    ensures (before - before % 0x100 + x) % 0x100 == x
  {
    assert before == 0x100 * (before / 0x100) + before % 0x100;
  }

  lemma LowReplaced2(before: nat, x: nat)
    requires before < U64 && x < 0x1_0000
    ensures 0 <= before - before % 0x1_0000 + x < U64
    ensures (before - before % 0x1_0000 + x) % 0x1_0000 == x
  {
    assert before == 0x1_0000 * (before / 0x1_0000) + before % 0x1_0000;
  }

  /** What is written to a register reads back in its size. */
  lemma ReadsBack(c: Cpu, i: nat, width: nat, v: nat)
    requires c.Valid() && i < NUM_REGS && IsSize(width)
    ensures WriteOperand(c, Reg(i, width), v).Valid()
    ensures ReadOperand(WriteOperand(c, Reg(i, width), v), Reg(i, width)) == Cut(v, width)
  {
    IntoRegFits(c.gpr[i], v, width);
    WriteKeepsValid(c, Reg(i, width), v);
  }

  // ---- Instructions ----

  datatype Insn =
    | Cmp(left: Operand, right: Operand, opSize: nat)
    | Jcc(cc: nat, target: nat)
    | Setcc(cc: nat, dst: Operand)
    | Cmovcc(cc: nat, dst: Operand, src: Operand)
  {
    predicate Valid() {
      match this
      case Cmp(left, right, opSize) => left.Valid() && right.Valid() && IsSize(opSize)
      case Jcc(_, _) => true
      case Setcc(_, dst) => dst.Valid()
      case Cmovcc(_, dst, src) => dst.Valid() && src.Valid()
    }
  }

  /** The second operand of a comparison, widened when it is narrower than the first. */
  function Widened(c: Cpu, left: Operand, right: Operand): nat
    requires c.Valid() && left.Valid() && right.Valid()
  {
    var b := ReadOperand(c, right);
    if right.width < left.width then
      CutReads(c, right);
      SignExtend(b, right.width)
    else b
  }

  lemma CutReads(c: Cpu, op: Operand)
    requires c.Valid() && op.Valid()
    ensures ReadOperand(c, op) < Modulus(op.width)
  {
    match op
    case Reg(i, width) => CutFits(c.gpr[i], width);
    case Imm(v, width) => CutFits(v, width);
    case Mem(_, _, _, _, width) => CutFits(LoadMem(c.mem, EffectiveAddress(c.gpr, op), width), width);
  }

  function Exec(c: Cpu, insn: Insn, len: nat): Cpu
    requires c.Valid() && insn.Valid()
  {
    var next := (c.rip + len) % U64;
    match insn
    case Cmp(left, right, opSize) =>
      var a, b := ReadOperand(c, left), Widened(c, left, right);
      c.(flags := SubFlags(c.flags, a, b, (a - b) % U64, opSize), rip := next)
    case Jcc(cc, target) => c.(rip := if EvalCondition(c.flags, cc) then target else next)
    case Setcc(cc, dst) => WriteOperand(c, dst, if EvalCondition(c.flags, cc) then 1 else 0).(rip := next)
    case Cmovcc(cc, dst, src) =>
      (if EvalCondition(c.flags, cc) then WriteOperand(c, dst, ReadOperand(c, src)) else c).(rip := next)
  }

  // ---- Compare, then act ----

  /** A conditional instruction right after a comparison of two operands of one size
      acts exactly on the integer comparison that its condition code names. */
  lemma CompareThenAct(c: Cpu, left: Operand, right: Operand, cc: nat, len1: nat, len2: nat,
                       target: nat, dst: Operand, src: Operand)
    requires c.Valid() && left.Valid() && right.Valid() && dst.Valid() && src.Valid()
    requires left.width == right.width
    ensures var c1 := Exec(c, Cmp(left, right, left.width), len1);
            var holds := Compare(cc, ReadOperand(c, left), ReadOperand(c, right), left.width);
            var next := (c1.rip + len2) % U64;
            && c1 == c.(flags := c1.flags, rip := (c.rip + len1) % U64)
            && Exec(c1, Jcc(cc, target), len2) == c1.(rip := if holds then target else next)
            && Exec(c1, Setcc(cc, dst), len2) == WriteOperand(c1, dst, if holds then 1 else 0).(rip := next)
            && Exec(c1, Cmovcc(cc, dst, src), len2)
               == (if holds then WriteOperand(c1, dst, ReadOperand(c1, src)) else c1).(rip := next)
  {
    CutReads(c, left);
    CutReads(c, right);
    ConditionsCompare(c.flags, ReadOperand(c, left), ReadOperand(c, right), left.width, cc);
  }

  // ---- The interpreter ----

  class Interpreter {
    const gpr: array<nat>
    var rip: nat
    var rflags: set<Flag>
    var mem: map<nat, nat>

    function Now(): Cpu
      reads this, gpr
    {
      Cpu(gpr[..], rip, rflags, mem)
    }

    ghost predicate Valid()
      reads this, gpr
    {
      gpr.Length == NUM_REGS && Now().Valid()
    }

    constructor ()
      ensures Valid() && fresh(gpr) && rflags == {IF} && rip == 0
    {
      gpr := new nat[NUM_REGS](_ => 0);
      rip := 0;
      rflags := {IF};
      mem := map[];
    }

    method PutFlag(f: Flag, on: bool)
      modifies `rflags
      ensures rflags == SetFlag(old(rflags), f, on)
    {
      if on {
        rflags := rflags + {f};
      } else {
        rflags := rflags - {f};
      }
    }

    method UpdateFlagsSub(a: nat, b: nat, result: nat, bytes: nat)
      modifies `rflags
      ensures rflags == SubFlags(old(rflags), a, b, result, bytes)
    {
      var r := result % Modulus(bytes);
      PutFlag(CF, a < b);
      PutFlag(ZF, r == 0);
      PutFlag(SF, TopBit(r, bytes));
      PutFlag(OF, TopBit(a, bytes) != TopBit(b, bytes) && TopBit(a, bytes) != TopBit(result, bytes));
      PutFlag(AF, (Bit4(a) != Bit4(b)) != Bit4(result));
      PutFlag(PF, Parity(LowByte(r)));
    }

    method Write(op: Operand, v: nat)
      requires Valid() && op.Valid()
      modifies this, gpr
      ensures Valid() && Now() == WriteOperand(old(Now()), op, v)
    {
      WriteKeepsValid(Now(), op, v);
      match op
      case Reg(i, width) => gpr[i] := IntoReg(gpr[i], v, width);
      case Imm(_, _) =>
      case Mem(_, _, _, _, width) => mem := StoreMem(mem, EffectiveAddress(gpr[..], op), width, v);
    }

    /** The cases of wg_x86_exec_one for one decoded instruction. */
    method ExecOne(insn: Insn, len: nat)
      requires Valid() && insn.Valid()
      modifies this, gpr
      ensures Valid() && Now() == Exec(old(Now()), insn, len)
    {
      var nextRip := (rip + len) % U64;
      match insn
      case Cmp(left, right, opSize) =>
        var a := ReadOperand(Now(), left);
        var b := Widened(Now(), left, right);
        UpdateFlagsSub(a, b, (a - b) % U64, opSize);
        rip := nextRip;
      case Jcc(cc, target) =>
        if EvalCondition(rflags, cc) {
          nextRip := target;
        }
        rip := nextRip;
      case Setcc(cc, dst) =>
        Write(dst, if EvalCondition(rflags, cc) then 1 else 0);
        rip := nextRip;
      case Cmovcc(cc, dst, src) =>
        if EvalCondition(rflags, cc) {
          var v := ReadOperand(Now(), src);
          Write(dst, v);
        }
        rip := nextRip;
    }
  }
}
