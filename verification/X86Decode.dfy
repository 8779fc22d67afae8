/** The decoder's forms of the compare instruction, and what their conditions mean. */
module X86Decode {
  import opened Words
  import opened X86Flags
  import opened X86Cpu

  /** An instruction's prefixes and bytes, as far as comparisons look at them. `rm` is
      the operand that the ModR/M byte names, in no particular size. */
  datatype Encoding = Encoding(rexW: bool, rexR: bool, has66: bool, opcode: byte, reg: nat, rm: Operand,
                               imm8: byte, imm32: nat)
  {
    predicate Valid() {
      rm.Valid() && !rm.Imm? && reg < 8 && imm32 < U32
    }
  }

  /** effective_op_size. */
  function OpSize(e: Encoding): nat {
    if e.rexW then 8 else if e.has66 then 2 else 4
  }

  function InSize(op: Operand, width: nat): Operand {
    op.(width := width)
  }

  function RegOperand(e: Encoding, width: nat): Operand {
    Reg(e.reg + (if e.rexR then 8 else 0), width)
  }

  /** An immediate byte or double word, sign-extended. */
  function ByteImm(e: Encoding, width: nat): Operand {
    Imm(if e.imm8 >= 0x80 then e.imm8 - 0x100 else e.imm8, width)
  }

  function WordImm(e: Encoding, width: nat): Operand {
    Imm(if e.imm32 >= U32 / 2 then e.imm32 - U32 else e.imm32, width)
  }

  datatype Decoded = Other | Comparison(insn: Insn)

  /** The two cases of wg_x86_decode that give a comparison: the group of opcodes 80 to
      83 with an immediate, and 38 to 3D. Both operands have one size, that of the
      instruction or one byte: the interpreter's branch for a narrower second operand is
      never taken. */
  function Decode(e: Encoding): (d: Decoded)
    requires e.Valid()
    ensures d.Comparison? ==>
              var i := d.insn;
              && i.Cmp? && i.Valid() && i.left.width == i.right.width
              && (i.left.width == i.opSize || i.left.width == 1)
              && (i.opSize == 2 || i.opSize == 4 || i.opSize == 8)
  {
    var opSize := OpSize(e);
    if 0x80 <= e.opcode <= 0x83 then
      var sz := if e.opcode == 0x80 || e.opcode == 0x82 then 1 else opSize;
      if e.reg != 7 then Other
      else Comparison(Cmp(InSize(e.rm, sz),
                          if e.opcode == 0x83 || sz == 1 then ByteImm(e, sz) else WordImm(e, sz), opSize))
    else if 0x38 <= e.opcode <= 0x3D then
      var low := e.opcode - 0x38;
      var sz := if low == 0 || low == 2 then 1 else opSize;
      if low <= 1 then Comparison(Cmp(InSize(e.rm, sz), RegOperand(e, sz), opSize))
      else if low <= 3 then Comparison(Cmp(RegOperand(e, sz), InSize(e.rm, sz), opSize))
      else if low == 4 then Comparison(Cmp(Reg(0, 1), ByteImm(e, 1), opSize))
      else Comparison(Cmp(Reg(0, opSize), WordImm(e, opSize), opSize))
    else Other
  }

  /** After any decoded comparison, each of the sixteen conditions is the comparison of
      the operands in their own size exactly if they have the instruction's size, or
      are bytes for which that condition does not depend on it. */
  lemma DecodedConditions(c: Cpu, e: Encoding, len: nat, cc: nat)
    requires c.Valid() && e.Valid() && Decode(e).Comparison?
    ensures var i := Decode(e).insn;
            var a, b := ReadOperand(c, i.left), ReadOperand(c, i.right);
            EvalCondition(Exec(c, i, len).flags, cc) == Compare(cc, a, b, i.left.width)
            <==> i.left.width == i.opSize || RightForBytes(cc, a, b)
  {
    var i := Decode(e).insn;
    var a, b := ReadOperand(c, i.left), ReadOperand(c, i.right);
    CutReads(c, i.left);
    CutReads(c, i.right);
    if i.left.width == i.opSize {
      ConditionsCompare(c.flags, a, b, i.opSize, cc);
    } else {
      ByteConditions(c.flags, a, b, i.opSize, cc);
    }
  }
}
