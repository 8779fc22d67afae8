/** The flags a comparison leaves, and the conditions read from them: together they
    are the integer comparisons. */
module X86Flags {
  import opened Words

  datatype Flag = CF | PF | AF | ZF | SF | TF | IF | DF | OF

  predicate IsSize(bytes: nat) {
    bytes == 1 || bytes == 2 || bytes == 4 || bytes == 8
  }

  /** Two to the number of bits of an operand. */
  function Modulus(bytes: nat): (m: nat)
    ensures m > 1
  {
    if bytes == 1 then 0x100 else if bytes == 2 then 0x1_0000 else if bytes == 4 then 0x1_0000_0000 else U64
  }

  function Half(bytes: nat): int {
    if bytes == 1 then 0x80 else if bytes == 2 then 0x8000 else if bytes == 4 then 0x8000_0000 else 0x8000_0000_0000_0000
  }

  predicate TopBit(v: nat, bytes: nat) {
    if bytes == 1 then (v / 0x80) % 2 == 1
    else if bytes == 2 then (v / 0x8000) % 2 == 1
    else if bytes == 4 then (v / 0x8000_0000) % 2 == 1
    else (v / 0x8000_0000_0000_0000) % 2 == 1
  }

  predicate Bit4(v: nat) {
    (v / 16) % 2 == 1
  }

  /** Ones above the operand when its top bit is set. */
  function SignExtend(v: nat, bytes: nat): nat
    requires v < Modulus(bytes)
  {
    if TopBit(v, bytes) then v + (U64 - Modulus(bytes)) else v
  }

  /** The folding form of the parity of a byte. */
  function Parity(v: bv8): bool {
    var w := v ^ (v >> 4);
    var x := w ^ (w >> 2);
    var y := x ^ (x >> 1);
    y & 1 == 0
  }

  predicate BitOf(v: bv8, w: bv8) {
    v & w != 0
  }

  function One(b: bool): nat {
    if b then 1 else 0
  }

  function Ones(v: bv8): nat {
    One(BitOf(v, 1)) + One(BitOf(v, 2)) + One(BitOf(v, 4)) + One(BitOf(v, 8))
    + One(BitOf(v, 16)) + One(BitOf(v, 32)) + One(BitOf(v, 64)) + One(BitOf(v, 128))
  }

  /** Folding a byte onto its lowest bit counts its ones modulo two. */
  lemma ParityCountsOnes(v: bv8)
    ensures Parity(v) <==> Ones(v) % 2 == 0
  {
    var w := v ^ (v >> 4);
    var x := w ^ (w >> 2);
    assert Ones(v) % 2 == (One(BitOf(w, 1)) + One(BitOf(w, 2)) + One(BitOf(w, 4)) + One(BitOf(w, 8))) % 2;
    assert Ones(v) % 2 == (One(BitOf(x, 1)) + One(BitOf(x, 2))) % 2;
  }

  // ---- Flags ----

  function SetFlag(flags: set<Flag>, f: Flag, on: bool): set<Flag> {
    if on then flags + {f} else flags - {f}
  }

  function LowByte(v: nat): bv8 {
    (v % 0x100) as bv8
  }

  /** wg_x86_update_flags_sub, for an operand of so many bytes. */
  function SubFlags(flags: set<Flag>, a: nat, b: nat, result: nat, bytes: nat): set<Flag> {
    var r := result % Modulus(bytes);
    var f1 := SetFlag(flags, CF, a < b);
    var f2 := SetFlag(f1, ZF, r == 0);
    var f3 := SetFlag(f2, SF, TopBit(r, bytes));
    var f4 := SetFlag(f3, OF, TopBit(a, bytes) != TopBit(b, bytes) && TopBit(a, bytes) != TopBit(result, bytes));
    var f5 := SetFlag(f4, AF, (Bit4(a) != Bit4(b)) != Bit4(result));
    SetFlag(f5, PF, Parity(LowByte(r)))
  }

  /** eval_condition. */
  function EvalCondition(flags: set<Flag>, cc: nat): bool {
    var cf, zf, sf, of, pf := CF in flags, ZF in flags, SF in flags, OF in flags, PF in flags;
    match cc % 16
    case 0 => of
    case 1 => !of
    case 2 => cf
    case 3 => !cf
    case 4 => zf
    case 5 => !zf
    case 6 => cf || zf
    case 7 => !cf && !zf
    case 8 => sf
    case 9 => !sf
    case 10 => pf
    case 11 => !pf
    case 12 => sf != of
    case 13 => sf == of
    case 14 => zf || sf != of
    case _ => !zf && sf == of
  }

  // ---- Comparisons ----

  /** The operand as a signed number. */
  function Signed(v: nat, bytes: nat): int {
    if v >= Half(bytes) then v - Modulus(bytes) else v
  }

  /** The difference does not fit into the operand size. */
  predicate Overflows(d: int, bytes: nat) {
    !(-Half(bytes) <= d < Half(bytes))
  }

  /** What each condition code is for. */
  predicate Compare(cc: nat, a: nat, b: nat, bytes: nat) {
    CompareWith(cc, a, b, (a - b) % Modulus(bytes), bytes)
  }

  predicate CompareWith(cc: nat, a: nat, b: nat, d: nat, bytes: nat) {
    var sa, sb := Signed(a, bytes), Signed(b, bytes);
    match cc % 16
    case 0 => Overflows(sa - sb, bytes)
    case 1 => !Overflows(sa - sb, bytes)
    case 2 => a < b
    case 3 => a >= b
    case 4 => a == b
    case 5 => a != b
    case 6 => a <= b
    case 7 => a > b
    case 8 => d >= Half(bytes)
    case 9 => d < Half(bytes)
    case 10 => Ones(LowByte(d)) % 2 == 0
    case 11 => Ones(LowByte(d)) % 2 == 1
    case 12 => sa < sb
    case 13 => sa >= sb
    case 14 => sa <= sb
    case _ => sa > sb
  }

  lemma TopBitIsHalf(v: nat, bytes: nat)
    requires IsSize(bytes) && v < Modulus(bytes)
    ensures TopBit(v, bytes) <==> v >= Half(bytes)
  {
  }

  /** The top bit only depends on the operand's own bits. */
  lemma TopBitLow(v: nat, bytes: nat)
    requires IsSize(bytes)
    ensures TopBit(v, bytes) == TopBit(v % Modulus(bytes), bytes)
  {
    if bytes == 1 {
      HalfBit(v, 0x80, v / 0x100, v % 0x100);
    } else if bytes == 2 {
      HalfBit(v, 0x8000, v / 0x1_0000, v % 0x1_0000);
    } else if bytes == 4 {
      HalfBit(v, 0x8000_0000, v / 0x1_0000_0000, v % 0x1_0000_0000);
    } else {
      HalfBit(v, 0x8000_0000_0000_0000, v / U64, v % U64);
    }
  }

  /** Whole multiples of 2h do not change the bit of weight h. */
  lemma HalfBit(v: nat, h: nat, q: nat, r: nat)
    requires h > 0 && v == q * (2 * h) + r && r < 2 * h
    ensures (v / h) % 2 == (r / h) % 2
  {
    assert q * (2 * h) == (2 * q) * h;
    DivModUnique(v, h, 2 * q + r / h, r % h);
  }

  /** A difference of two operands, in their size, and cut from the machine word. */
  function Difference(a: nat, b: nat, bytes: nat): int {
    if a >= b then a - b else a - b + Modulus(bytes)
  }

  lemma DifferenceIs(a: nat, b: nat, bytes: nat)
    requires IsSize(bytes) && a < Modulus(bytes) && b < Modulus(bytes)
    ensures (a - b) % Modulus(bytes) == Difference(a, b, bytes)
    ensures ((a - b) % U64) % Modulus(bytes) == Difference(a, b, bytes)
  {
    if bytes == 1 {
      DifferenceMod(a, b, 0x100);
    } else if bytes == 2 {
      DifferenceMod(a, b, 0x1_0000);
    } else if bytes == 4 {
      DifferenceMod(a, b, 0x1_0000_0000);
    }
    CutDifference(a, b, bytes);
  }

  lemma DifferenceMod(a: nat, b: nat, m: nat)
    requires a < m && b < m
    ensures (a - b) % m == if a >= b then a - b else a - b + m
  {
    if a < b {
      assert (a - b + m) % m == a - b + m;
      assert (a - b) % m == (a - b + m) % m;
    }
  }

  lemma CutDifference(a: nat, b: nat, bytes: nat)
    requires IsSize(bytes) && a < Modulus(bytes) && b < Modulus(bytes)
    ensures ((a - b) % U64) % Modulus(bytes) == Difference(a, b, bytes)
  {
    if a < b {
      assert (a - b) % U64 == a - b + U64;
      if bytes == 1 {
        assert (a - b + U64) % 0x100 == a - b + 0x100;
      } else if bytes == 2 {
        assert (a - b + U64) % 0x1_0000 == a - b + 0x1_0000;
      } else if bytes == 4 {
        assert (a - b + U64) % 0x1_0000_0000 == a - b + 0x1_0000_0000;
      }
    }
  }

  /** The sign-bit test for overflow, for operands below 2h. */
  lemma OverflowBits(a: nat, b: nat, d: int, h: int)
    requires h > 0 && a < 2 * h && b < 2 * h && d == if a >= b then a - b else a - b + 2 * h
    ensures var sa, sb := if a >= h then a - 2 * h else a, if b >= h then b - 2 * h else b;
            ((a >= h) != (b >= h) && (a >= h) != (d >= h)) <==> !(-h <= sa - sb < h)
  {
  }

  predicate FlagsMean(f: set<Flag>, a: nat, b: nat, d: nat, bytes: nat) {
    && (CF in f <==> a < b) && (ZF in f <==> a == b) && (SF in f <==> d >= Half(bytes))
    && (OF in f <==> Overflows(Signed(a, bytes) - Signed(b, bytes), bytes))
    && (PF in f <==> Ones(LowByte(d)) % 2 == 0)
  }

  /** What the sign bits of a subtraction say. */
  lemma SignsSay(a: nat, b: nat, result: nat, d: nat, bytes: nat)
    requires IsSize(bytes) && a < Modulus(bytes) && b < Modulus(bytes)
    requires d == Difference(a, b, bytes) == result % Modulus(bytes)
    ensures TopBit(d, bytes) <==> d >= Half(bytes)
    ensures TopBit(a, bytes) != TopBit(b, bytes) && TopBit(a, bytes) != TopBit(result, bytes)
            <==> Overflows(Signed(a, bytes) - Signed(b, bytes), bytes)
  {
    TopBitLow(result, bytes);
    TopBitIsHalf(a, bytes);
    TopBitIsHalf(b, bytes);
    TopBitIsHalf(d, bytes);
    OverflowBits(a, b, d, Half(bytes));
  }

  /** The flags of a difference of two operands of the same size. */
  lemma FlagsOfDifference(flags: set<Flag>, a: nat, b: nat, bytes: nat)
    requires IsSize(bytes) && a < Modulus(bytes) && b < Modulus(bytes)
    ensures FlagsMean(SubFlags(flags, a, b, (a - b) % U64, bytes), a, b, (a - b) % Modulus(bytes), bytes)
  {
    var result, d := (a - b) % U64, (a - b) % Modulus(bytes);
    DifferenceIs(a, b, bytes);
    SignsSay(a, b, result, d, bytes);
    FlagsAre(flags, a, b, result, d, bytes);
  }

  lemma FlagsAre(flags: set<Flag>, a: nat, b: nat, result: nat, d: nat, bytes: nat)
    requires d == result % Modulus(bytes) && (d == 0 <==> a == b) && (TopBit(d, bytes) <==> d >= Half(bytes))
    requires TopBit(a, bytes) != TopBit(b, bytes) && TopBit(a, bytes) != TopBit(result, bytes)
             <==> Overflows(Signed(a, bytes) - Signed(b, bytes), bytes)
    ensures FlagsMean(SubFlags(flags, a, b, result, bytes), a, b, d, bytes)
  {
    ParityCountsOnes(LowByte(d));
  }

  lemma ConditionMeans(f: set<Flag>, a: nat, b: nat, bytes: nat, cc: nat)
    requires IsSize(bytes) && a < Modulus(bytes) && b < Modulus(bytes)
    requires FlagsMean(f, a, b, (a - b) % Modulus(bytes), bytes)
    ensures EvalCondition(f, cc) == Compare(cc, a, b, bytes)
  {
    DifferenceIs(a, b, bytes);
  }

  /** Compare and condition: after a comparison of operands of 2, 4 or 8 bytes every
      condition code is exactly the integer comparison it is for. */
  lemma ConditionsCompare(flags: set<Flag>, a: nat, b: nat, bytes: nat, cc: nat)
    requires IsSize(bytes) && a < Modulus(bytes) && b < Modulus(bytes)
    ensures EvalCondition(SubFlags(flags, a, b, (a - b) % U64, bytes), cc) == Compare(cc, a, b, bytes)
  {
    FlagsOfDifference(flags, a, b, bytes);
    ConditionMeans(SubFlags(flags, a, b, (a - b) % U64, bytes), a, b, bytes, cc);
  }

  // ---- Operands of other sizes ----

  /** When a condition is right after a byte comparison whose flags were set in a wider
      size: overflow when there is none, sign when the borrow agrees with it, signed
      order when the two sign bits agree, and all others always. */
  predicate RightForBytes(cc: nat, a: nat, b: nat) {
    match cc % 16
    case 0 | 1 => !Overflows(Signed(a, 1) - Signed(b, 1), 1)
    case 8 | 9 => a < b <==> Difference(a, b, 1) >= Half(1)
    case 12 | 13 | 14 | 15 => TopBit(a, 1) <==> TopBit(b, 1)
    case _ => true
  }

  /** Byte comparisons set their flags in the size of the instruction. For each of the
      sixteen conditions, this is exactly when it is still right. */
  lemma ByteConditions(flags: set<Flag>, a: nat, b: nat, opSize: nat, cc: nat)
    requires a < 0x100 && b < 0x100 && (opSize == 2 || opSize == 4 || opSize == 8)
    ensures EvalCondition(SubFlags(flags, a, b, (a - b) % U64, opSize), cc) == Compare(cc, a, b, 1)
            <==> RightForBytes(cc, a, b)
  {
    ConditionsCompare(flags, a, b, opSize, cc);
    WiderCompare(cc, a, b, opSize);
  }

  /** What a comparison of bytes in a wider size says of the bytes. */
  lemma WiderCompare(cc: nat, a: nat, b: nat, opSize: nat)
    requires a < 0x100 && b < 0x100 && (opSize == 2 || opSize == 4 || opSize == 8)
    ensures Compare(cc, a, b, opSize) == Compare(cc, a, b, 1) <==> RightForBytes(cc, a, b)
  {
    DifferenceIs(a, b, 1);
    DifferenceIs(a, b, opSize);
    SameLowByte(a, b, opSize);
    TopBitIsHalf(a, 1);
    TopBitIsHalf(b, 1);
    WiderWith(cc, a, b, (a - b) % Modulus(1), (a - b) % Modulus(opSize), opSize);
  }

  lemma WiderWith(cc: nat, a: nat, b: nat, d: nat, w: nat, opSize: nat)
    requires a < 0x100 && b < 0x100 && (opSize == 2 || opSize == 4 || opSize == 8)
    requires d == Difference(a, b, 1) && w == Difference(a, b, opSize) && LowByte(w) == LowByte(d)
    requires (TopBit(a, 1) <==> a >= 0x80) && (TopBit(b, 1) <==> b >= 0x80)
    ensures CompareWith(cc, a, b, w, opSize) == CompareWith(cc, a, b, d, 1) <==> RightForBytes(cc, a, b)
  {
  }

  lemma SameLowByte(a: nat, b: nat, opSize: nat)
    requires a < 0x100 && b < 0x100 && (opSize == 2 || opSize == 4 || opSize == 8)
    ensures LowByte((a - b) % Modulus(opSize)) == LowByte((a - b) % Modulus(1))
  {
    DifferenceIs(a, b, 1);
    DifferenceIs(a, b, opSize);
    LowByteOf(Difference(a, b, 1), Difference(a, b, opSize), opSize);
  }

  lemma LowByteOf(d: int, w: int, opSize: nat)
    requires 0 <= d < 0x100 && (w == d || w == d + (Modulus(opSize) - 0x100))
    requires opSize == 2 || opSize == 4 || opSize == 8
    ensures w >= 0 && w % 0x100 == d % 0x100
  {
  }

  lemma BytesThatFail()
    ensures Compare(0, 0x80, 1, 1) && Compare(12, 0x80, 1, 1) && !Compare(8, 0, 0x90, 1)
    ensures !RightForBytes(0, 0x80, 1) && !RightForBytes(12, 0x80, 1) && !RightForBytes(8, 0, 0x90)
  {
    assert Difference(0, 0x90, 1) == 0x70;
  }

  /** Bytes for which overflow and signed order come out wrong, in every wider size. */
  lemma SignedBytesFail(flags: set<Flag>, opSize: nat)
    requires opSize == 2 || opSize == 4 || opSize == 8
    ensures var f := SubFlags(flags, 0x80, 1, (0x80 - 1) % U64, opSize);
            && Compare(0, 0x80, 1, 1) && !EvalCondition(f, 0)
            && Compare(12, 0x80, 1, 1) && !EvalCondition(f, 12)
  {
    ByteConditions(flags, 0x80, 1, opSize, 0);
    ByteConditions(flags, 0x80, 1, opSize, 12);
    BytesThatFail();
  }

  /** Bytes for which the sign comes out wrong. */
  lemma SignOfBytesFails(flags: set<Flag>, opSize: nat)
    requires opSize == 2 || opSize == 4 || opSize == 8
    ensures EvalCondition(SubFlags(flags, 0, 0x90, (0 - 0x90) % U64, opSize), 8) && !Compare(8, 0, 0x90, 1)
  {
    ByteConditions(flags, 0, 0x90, opSize, 8);
    BytesThatFail();
  }

  /** A sign-extended operand, cut to a wider size. */
  lemma ExtendLow(v: nat, narrow: nat, bytes: nat)
    requires IsSize(narrow) && IsSize(bytes) && narrow < bytes && v < Modulus(narrow)
    ensures SignExtend(v, narrow) < U64
    ensures SignExtend(v, narrow) % Modulus(bytes) == if TopBit(v, narrow) then v + (Modulus(bytes) - Modulus(narrow)) else v
  {
    var b := SignExtend(v, narrow);
    if TopBit(v, narrow) {
      TopBitIsHalf(v, narrow);
      if bytes == 2 {
        assert b % 0x1_0000 == v + (0x1_0000 - Modulus(narrow));
      } else if bytes == 4 {
        assert b % 0x1_0000_0000 == v + (0x1_0000_0000 - Modulus(narrow));
      }
    }
  }

  /** The difference from a negative narrow operand, cut to the size. */
  lemma ExtendedDifference(a: nat, v: nat, narrow: nat, bytes: nat)
    requires IsSize(narrow) && IsSize(bytes) && narrow < bytes < 8 && a < Modulus(bytes) && v < Modulus(narrow)
    requires TopBit(v, narrow)
    ensures var b := SignExtend(v, narrow);
            var low := v + (Modulus(bytes) - Modulus(narrow));
            a < b && low < Modulus(bytes) && ((a - b) % U64) % Modulus(bytes) == Difference(a, low, bytes)
  {
    TopBitIsHalf(v, narrow);
    var x := a + (Modulus(narrow) - v);
    assert (a - SignExtend(v, narrow)) % U64 == x;
    if bytes == 2 {
      assert x % 0x1_0000 == Difference(a, v + (0x1_0000 - Modulus(narrow)), 2);
    } else {
      assert x % 0x1_0000_0000 == Difference(a, v + (0x1_0000_0000 - Modulus(narrow)), 4);
    }
  }

  /** A second operand that is narrower than the first is sign-extended to 64 bits. The
      flags are those of comparing with its value in the first operand's size, but for
      the carry, which a negative narrow operand sets for any first operand of fewer
      than 8 bytes. */
  lemma NarrowFlags(flags: set<Flag>, a: nat, v: nat, narrow: nat, bytes: nat)
    requires IsSize(narrow) && IsSize(bytes) && narrow < bytes && a < Modulus(bytes) && v < Modulus(narrow)
    ensures var b := SignExtend(v, narrow);
            var low := b % Modulus(bytes);
            var f := SubFlags(flags, a, b, (a - b) % U64, bytes);
            && FlagsMean(SetFlag(f, CF, a < low), a, low, (a - low) % Modulus(bytes), bytes)
            && (CF in f <==> a < low || (TopBit(v, narrow) && bytes < 8))
  {
    var b := SignExtend(v, narrow);
    var low := b % Modulus(bytes);
    ExtendLow(v, narrow, bytes);
    if TopBit(v, narrow) && bytes < 8 {
      ExtendedDifference(a, v, narrow, bytes);
      DifferenceIs(a, low, bytes);
      SignsSay(a, low, (a - b) % U64, (a - low) % Modulus(bytes), bytes);
      TopBitLow(b, bytes);
      FlagsButCarry(flags, a, b, low, (a - b) % U64, (a - low) % Modulus(bytes), bytes);
    } else {
      assert low == b;
      FlagsOfDifference(flags, a, b, bytes);
    }
  }

  lemma FlagsButCarry(flags: set<Flag>, a: nat, b: nat, low: nat, result: nat, d: nat, bytes: nat)
    requires d == result % Modulus(bytes) && (d == 0 <==> a == low) && (TopBit(d, bytes) <==> d >= Half(bytes))
    requires TopBit(b, bytes) == TopBit(low, bytes)
    requires TopBit(a, bytes) != TopBit(low, bytes) && TopBit(a, bytes) != TopBit(result, bytes)
             <==> Overflows(Signed(a, bytes) - Signed(low, bytes), bytes)
    ensures var f := SubFlags(flags, a, b, result, bytes);
            FlagsMean(SetFlag(f, CF, a < low), a, low, d, bytes) && (CF in f <==> a < b)
  {
    ParityCountsOnes(LowByte(d));
  }

  /** When a condition is right after a comparison with a narrower operand of value
      `low` in the first operand's size: the carry only misleads the unsigned order. */
  predicate RightForNarrow(cc: nat, a: nat, low: nat, negative: bool, bytes: nat) {
    match cc % 16
    case 2 | 3 => !(negative && bytes < 8 && a >= low)
    case 6 | 7 => !(negative && bytes < 8 && a > low)
    case _ => true
  }

  /** The branch for a narrower second operand, one condition at a time. No decoded
      comparison takes it. */
  lemma NarrowConditions(flags: set<Flag>, a: nat, v: nat, narrow: nat, bytes: nat, cc: nat)
    requires IsSize(narrow) && IsSize(bytes) && narrow < bytes && a < Modulus(bytes) && v < Modulus(narrow)
    ensures var b := SignExtend(v, narrow);
            var low := b % Modulus(bytes);
            EvalCondition(SubFlags(flags, a, b, (a - b) % U64, bytes), cc) == Compare(cc, a, low, bytes)
            <==> RightForNarrow(cc, a, low, TopBit(v, narrow), bytes)
  {
    var b := SignExtend(v, narrow);
    var low := b % Modulus(bytes);
    var f := SubFlags(flags, a, b, (a - b) % U64, bytes);
    NarrowFlags(flags, a, v, narrow, bytes);
    ConditionMeans(SetFlag(f, CF, a < low), a, low, bytes, cc);
    CarryOnly(f, cc, a, low, CF in f);
  }

  /** How a condition changes with the carry alone. */
  lemma CarryOnly(f: set<Flag>, cc: nat, a: nat, low: nat, carry: bool)
    requires (carry <==> CF in f) && (ZF in f <==> a == low)
    ensures var g := SetFlag(f, CF, a < low);
            EvalCondition(f, cc) == EvalCondition(g, cc) <==>
              match cc % 16
              case 2 | 3 => carry == (a < low)
              case 6 | 7 => a == low || carry == (a < low)
              case _ => true
  {
  }
}
