/** Where the operands of the compare and condition instructions are: the bytes of a stored
    value, and the operands that an assembler put into an instruction. */
module X86Operands {
  import opened Words
  import opened X86Flags
  import opened X86Cpu
  import opened X86Decode

  // ---- Memory ----

  /** The k-th byte of a number, the lowest first. */
  function Digit(v: nat, k: nat): nat {
    if k == 0 then v % 256 else Digit(v / 256, k - 1)
  }

  /** A store puts the k-th byte of the value k addresses on, and changes no other byte. */
  lemma {:induction false} StorePuts(mem: map<nat, nat>, addr: int, n: nat, v: nat, k: nat)
    requires n <= 8 && k < 0x1_0000
    ensures ByteAt(StoreMem(mem, addr, n, v), addr + k) == if k < n then Digit(v, k) else ByteAt(mem, addr + k)
    decreases n
  {
    if n > 0 {
      var first := mem[addr % U64 := v % 0x100];
      Elsewhere(mem, addr, v % 0x100, addr + k);
      if k > 0 {
        StorePuts(first, addr + 1, n - 1, v / 0x100, k - 1);
      } else {
        StoreSpares(first, addr + 1, n - 1, v / 0x100, addr);
      }
    }
  }

  lemma Elsewhere(mem: map<nat, nat>, addr: int, b: nat, p: int)
    requires addr <= p < addr + 0x1_0000 && b < 0x100
    ensures ByteAt(mem[addr % U64 := b], p) == if p == addr then b else ByteAt(mem, p)
  {
    if p != addr {
      Distinct(addr, p);
    }
  }

  lemma Distinct(a: int, p: int)
    requires -0x1_0000 < p - a < 0x1_0000 && p != a
    ensures a % U64 != p % U64
  {
    Quotient(a, U64);
    Quotient(p, U64);
    if p / U64 != a / U64 {
      FarApart(p / U64 - a / U64, U64, (p / U64 - a / U64) * U64);
    }
  }

  lemma {:induction false} StoreSpares(mem: map<nat, nat>, addr: int, n: nat, v: nat, p: int)
    requires n <= 8 && addr + n - 0x100 < p < addr
    ensures ByteAt(StoreMem(mem, addr, n, v), p) == ByteAt(mem, p)
    decreases n
  {
    if n > 0 {
      Distinct(addr, p);
      var first := mem[addr % U64 := v % 0x100];
      assert ByteAt(first, p) == ByteAt(mem, p);
      StoreSpares(first, addr + 1, n - 1, v / 0x100, p);
    }
  }

  predicate HasDigit(mem: map<nat, nat>, addr: int, v: nat, k: nat) {
    ByteAt(mem, addr + k) == Digit(v, k)
  }

  predicate HasDigits(mem: map<nat, nat>, addr: int, n: nat, v: nat) {
    forall k: nat | k < n :: HasDigit(mem, addr, v, k)
  }

  lemma DigitsOn(mem: map<nat, nat>, addr: int, next: int, n: nat, v: nat, rest: nat)
    requires HasDigits(mem, addr, n + 1, v) && next == addr + 1 && rest == v / 256
    ensures HasDigits(mem, next, n, rest)
  {
    forall k: nat | k < n
      ensures HasDigit(mem, next, rest, k)
    {
      assert HasDigit(mem, addr, v, k + 1);
    }
  }

  /** What is loaded is the number with these bytes. */
  lemma {:induction false} LoadTakes(mem: map<nat, nat>, addr: int, n: nat, v: nat)
    requires v < Pow256(n) && HasDigits(mem, addr, n, v)
    ensures LoadMem(mem, addr, n) == v
    decreases n
  {
    if n > 0 {
      assert HasDigit(mem, addr, v, 0);
      DigitsOn(mem, addr, addr + 1, n - 1, v, v / 256);
      LoadTakes(mem, addr + 1, n - 1, v / 256);
    }
  }

  /** A stored value loads back. */
  lemma StoreLoads(mem: map<nat, nat>, addr: int, n: nat, v: nat)
    requires n <= 8 && v < Pow256(n)
    ensures LoadMem(StoreMem(mem, addr, n, v), addr, n) == v
  {
    var stored := StoreMem(mem, addr, n, v);
    forall k: nat | k < n
      ensures HasDigit(stored, addr, v, k)
    {
      StorePuts(mem, addr, n, v, k);
    }
    LoadTakes(stored, addr, n, v);
  }

  /** The address that base, scaled index and displacement name, in 64 bits. */
  function AddressOf(base: nat, index: nat, scale: nat, disp: int): int {
    base + index * scale + disp
  }

  /** Writing a memory operand puts the value's bytes at its address, and nothing else. */
  lemma MemoryOperand(c: Cpu, base: nat, index: nat, scale: nat, disp: int, width: nat, v: nat, k: nat)
    requires c.Valid() && base < NUM_REGS && index < NUM_REGS && IsSize(width) && k < 0x1_0000
    ensures var c', sum := WriteOperand(c, Mem(base, index, scale, disp, width), v), AddressOf(c.gpr[base], c.gpr[index], scale, disp);
            c' == c.(mem := c'.mem) && ByteAt(c'.mem, sum + k) == if k < width then Digit(v, k) else ByteAt(c.mem, sum + k)
  {
    var sum := AddressOf(c.gpr[base], c.gpr[index], scale, disp);
    AddressIs(c.gpr, Mem(base, index, scale, disp, width), sum);
    StorePuts(c.mem, sum % U64, width, v, k);
    SameByte(StoreMem(c.mem, sum % U64, width, v), sum, k);
    SameByte(c.mem, sum, k);
  }

  /** Reading it finds them there. */
  lemma MemoryReadsBack(c: Cpu, op: Operand, v: nat)
    requires c.Valid() && op.Valid() && op.Mem? && v < Modulus(op.width)
    ensures WriteOperand(c, op, v).Valid() && ReadOperand(WriteOperand(c, op, v), op) == v
  {
    SizePower(op.width);
    StoreLoads(c.mem, EffectiveAddress(c.gpr, op), op.width, v);
  }

  /** An operand without an index register, or relative to the next instruction, is at its
      base or displacement alone. */
  lemma SimpleAddresses(gpr: seq<nat>, base: nat, scale: nat, disp: int, width: nat)
    requires |gpr| == NUM_REGS && base < NUM_REGS && IsSize(width)
    ensures EffectiveAddress(gpr, Mem(base, NO_REG, scale, disp, width)) == AddressOf(gpr[base], 0, scale, disp) % U64
    ensures EffectiveAddress(gpr, Mem(NO_REG, base, scale, disp, width)) == AddressOf(0, gpr[base], scale, disp) % U64
    ensures EffectiveAddress(gpr, Mem(RIP_RELATIVE, NO_REG, scale, disp, width)) == disp % U64
  {
  }

  lemma AddressIs(gpr: seq<nat>, op: Operand, sum: int)
    requires op.Mem? && op.Valid() && |gpr| == NUM_REGS && op.base >= 0 && op.scaled >= 0
    requires sum == AddressOf(gpr[op.base], gpr[op.scaled], op.scale, op.disp)
    ensures EffectiveAddress(gpr, op) == sum % U64
  {
  }

  lemma SizePower(width: nat)
    requires IsSize(width)
    ensures Pow256(width) == Modulus(width) && forall v: nat | v < Modulus(width) :: Cut(v, width) == v
  {
    assert Pow256(1) == 256 && Pow256(2) == 0x1_0000;
    assert Pow256(4) == 256 * (256 * Pow256(2)) && Pow256(8) == 256 * (256 * (256 * (256 * Pow256(4))));
  }

  lemma SameByte(mem: map<nat, nat>, sum: int, k: nat)
    ensures ByteAt(mem, sum % U64 + k) == ByteAt(mem, sum + k)
  {
    Quotient(sum, U64);
    Quotient(sum % U64 + k, U64);
    DivModUnique(sum + k, U64, sum / U64 + (sum % U64 + k) / U64, (sum % U64 + k) % U64);
  }

  // ---- Registers ----

  /** A register write of 1 or 2 bytes keeps the bytes above them, one of 4 clears the upper
      half, and no other register changes. */
  lemma RegisterOperand(c: Cpu, i: nat, width: nat, v: nat)
    requires c.Valid() && i < NUM_REGS && IsSize(width) && v < Modulus(width)
    ensures var r := WriteOperand(c, Reg(i, width), v);
            && r == c.(gpr := r.gpr) && |r.gpr| == NUM_REGS && (forall j | 0 <= j < NUM_REGS && j != i :: r.gpr[j] == c.gpr[j])
            && r.gpr[i] % Modulus(width) == v
            && r.gpr[i] / Modulus(width) == if width == 1 || width == 2 then c.gpr[i] / Modulus(width) else 0
  {
    var m, before := Modulus(width), c.gpr[i];
    SizePower(width);
    Quotient(before, m);
    DivModUnique(IntoReg(before, v, width), m, if width < 4 then before / m else 0, v);
  }

  // ---- Instructions ----

  /** A comparison in assembly language, of operands of `size` bytes: a register or memory
      operand with a register, either way round, or with a number; the accumulator with a
      number. */
  datatype Form =
    | RmReg(rm: Operand, reg: nat)
    | RegRm(reg: nat, rm: Operand)
    | RmShort(rm: Operand, n: int)
    | RmLong(rm: Operand, n: int)
    | AccNumber(n: int)
  {
    predicate Ok(size: nat) {
      && IsSize(size)
      && match this
         case RmReg(rm, reg) => rm.Valid() && !rm.Imm? && rm.width == size && reg < 16
         case RegRm(reg, rm) => rm.Valid() && !rm.Imm? && rm.width == size && reg < 16
         case RmShort(rm, n) => rm.Valid() && !rm.Imm? && rm.width == size && -128 <= n < 128
         case RmLong(rm, n) => rm.Valid() && !rm.Imm? && rm.width == size > 1 && -0x8000_0000 <= n < 0x8000_0000
         case AccNumber(n) => if size == 1 then -128 <= n < 128 else -0x8000_0000 <= n < 0x8000_0000
    }

    function Left(size: nat): Operand {
      match this
      case RmReg(rm, _) => rm
      case RegRm(reg, _) => Reg(reg, size)
      case RmShort(rm, _) => rm
      case RmLong(rm, _) => rm
      case AccNumber(_) => Reg(0, size)
    }

    function Right(size: nat): Operand {
      match this
      case RmReg(_, reg) => Reg(reg, size)
      case RegRm(_, rm) => rm
      case RmShort(_, n) => Imm(n, size)
      case RmLong(_, n) => Imm(n, size)
      case AccNumber(n) => Imm(n, size)
    }

    /** The opcodes of the processor's manual: 38 to 3B for the register forms, 3C and 3D
        for the accumulator, 80, 81 and 83 with 7 in the register field for numbers. */
    function Opcode(size: nat): byte {
      match this
      case RmReg(_, _) => if size == 1 then 0x38 else 0x39
      case RegRm(_, _) => if size == 1 then 0x3A else 0x3B
      case RmShort(_, _) => if size == 1 then 0x80 else 0x83
      case RmLong(_, _) => 0x81
      case AccNumber(_) => if size == 1 then 0x3C else 0x3D
    }

    function Field(): nat {
      match this
      case RmReg(_, reg) => reg
      case RegRm(reg, _) => reg
      case AccNumber(_) => 0
      case _ => 7
    }

    function Number(): int {
      match this
      case RmShort(_, n) => n
      case RmLong(_, n) => n
      case AccNumber(n) => n
      case _ => 0
    }
  }

  function Resized(op: Operand, width: nat): Operand {
    match op
    case Reg(i, _) => Reg(i, width)
    case Imm(v, _) => Imm(v, width)
    case Mem(base, scaled, scale, disp, _) => Mem(base, scaled, scale, disp, width)
  }

  /** An instruction of the form; REX.W stands for eight bytes, the prefix 66 for two. */
  ghost predicate Encodes(e: Encoding, f: Form, size: nat) {
    && e.Valid() && e.opcode == f.Opcode(size)
    && (size > 1 ==> (e.rexW <==> size == 8) && (e.has66 <==> size == 2))
    && e.reg == f.Field() % 8 && (f.RmReg? || f.RegRm? ==> (e.rexR <==> f.Field() >= 8))
    && (f.AccNumber? || Resized(e.rm, size) == f.rm)
    && e.imm8 == f.Number() % 0x100 && e.imm32 == f.Number() % U32
  }

  /** Every form comes back as it was assembled, with both operands in order. */
  lemma AssembledDecodes(e: Encoding, f: Form, size: nat)
    requires f.Ok(size) && Encodes(e, f, size)
    ensures Decode(e) == Comparison(Cmp(f.Left(size), f.Right(size), if e.rexW then 8 else if e.has66 then 2 else 4))
  {
    if !f.RmReg? && !f.RegRm? {
      NumberBack(f.Number());
    }
  }

  lemma NumberBack(n: int)
    ensures -128 <= n < 128 ==> n % 0x100 == if n < 0 then n + 0x100 else n
    ensures -0x8000_0000 <= n < 0x8000_0000 ==> n % U32 == if n < 0 then n + U32 else n
  {
  }

  /** Nothing else is a comparison. */
  lemma OnlyComparisons(e: Encoding)
    requires e.Valid()
    ensures Decode(e).Comparison? <==> e.opcode in {0x38, 0x39, 0x3A, 0x3B, 0x3C, 0x3D} || (e.opcode in {0x80, 0x81, 0x82, 0x83} && e.reg == 7)
  {
  }
}
