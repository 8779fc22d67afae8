/** The constants of the LZMA decoder, the layout of its probability array, and
    the two formulas that select a literal's context. */
module LzmaLayout {
  import opened Words

  // Range coder
  const TOP_VALUE := 0x100_0000
  const BIT_MODEL_TOTAL := 2048
  const MOVE_DIVISOR := 32
  const RC_INIT_SIZE := 5

  // Lengths
  const MATCH_MIN_LEN := 2
  const LEN_NUM_LOW_SYMBOLS := 8
  const LEN_NUM_HIGH_SYMBOLS := 256
  const LEN_HIGH := 256
  const LEN_CHOICE := 0
  const LEN_CHOICE2 := 8
  const NUM_LEN_PROBS := LEN_HIGH + LEN_NUM_HIGH_SYMBOLS

  // remainLen doubles as the decoder's phase
  const MATCH_SPEC_LEN_START := MATCH_MIN_LEN + LEN_NUM_LOW_SYMBOLS * 2 + LEN_NUM_HIGH_SYMBOLS

  // States
  const NUM_STATES := 12
  const NUM_LIT_STATES := 7

  // Distances
  const START_POS_MODEL_INDEX := 4
  const END_POS_MODEL_INDEX := 14
  const NUM_FULL_DISTANCES := 128
  const NUM_LEN_TO_POS_STATES := 4
  const POS_SLOTS := 64
  const ALIGN_TABLE_SIZE := 16
  const END_MARK_DISTANCE := 0xFFFF_FFFF

  // Offsets from the middle of the probability array, which starts START_OFFSET
  // entries before offset 0.
  const START_OFFSET := 1664
  const SPEC_POS := -START_OFFSET
  const IS_REP0_LONG := SPEC_POS + NUM_FULL_DISTANCES
  const REP_LEN_CODER := IS_REP0_LONG + 256
  const LEN_CODER := REP_LEN_CODER + NUM_LEN_PROBS
  const IS_MATCH := LEN_CODER + NUM_LEN_PROBS
  const ALIGN := IS_MATCH + 256
  const IS_REP := ALIGN + ALIGN_TABLE_SIZE
  const IS_REP_G0 := IS_REP + NUM_STATES
  const IS_REP_G1 := IS_REP_G0 + NUM_STATES
  const IS_REP_G2 := IS_REP_G1 + NUM_STATES
  const POS_SLOT := IS_REP_G2 + NUM_STATES
  const LITERAL := POS_SLOT + NUM_LEN_TO_POS_STATES * POS_SLOTS
  const NUM_BASE_PROBS := LITERAL + START_OFFSET
  const LIT_SIZE := 0x300

  const DIC_MIN := 0x1000
  const REQUIRED_INPUT_MAX := 20

  /** Properties of a stream: literal context bits, literal position bits,
      position bits and the dictionary size. */
  datatype Props = Props(lc: nat, lp: nat, pb: nat, dicSize: nat) {
    predicate Valid() {
      lc <= 8 && lp <= 4 && pb <= 4 && DIC_MIN <= dicSize < U32
    }
  }

  function Pow2(n: nat): (p: nat)
    ensures p > 0
  {
    if n == 0 then 1 else 2 * Pow2(n - 1)
  }

  function NumProbs(props: Props): (n: nat)
    ensures n >= NUM_BASE_PROBS + LIT_SIZE
  {
    NUM_BASE_PROBS + LIT_SIZE * Pow2(props.lc + props.lp)
  }

  /** The shifts and the bitwise AND of unsigned integers. */
  function Shl(x: nat, k: nat): (r: nat)
    ensures r >= x
  {
    if k == 0 then x else 2 * Shl(x, k - 1)
  }

  function Shr(x: nat, k: nat): nat {
    if k == 0 then x else Shr(x / 2, k - 1)
  }

  function BitAnd(x: nat, y: nat): nat {
    if x == 0 || y == 0 then 0
    else 2 * BitAnd(x / 2, y / 2) + (if x % 2 == 1 && y % 2 == 1 then 1 else 0)
  }

  lemma {:induction false} ShlMonotone(x: nat, y: nat, k: nat)
    requires x <= y
    ensures Shl(x, k) <= Shl(y, k)
    ensures Shl(x, k) + Shl(y - x, k) == Shl(y, k)
  {
    if k > 0 {
      ShlMonotone(x, y, k - 1);
    }
  }

  lemma {:induction false} ShlPow2(n: nat, k: nat)
    ensures Shl(Pow2(n), k) == Pow2(n + k)
  {
    if k > 0 {
      ShlPow2(n, k - 1);
    }
  }

  /** A shift right undoes a shift left, and keeps what was placed above. */
  lemma {:induction false} ShrOfJoined(x: nat, low: nat, k: nat)
    requires low < Pow2(k)
    ensures Shr(Shl(x, k) + low, k) == x
  {
    if k > 0 {
      ShrOfJoined(x, low / 2, k - 1);
    }
  }

  /** A mask of k low ones keeps the residue modulo 2^k. */
  lemma {:induction false} BitAndLow(x: nat, k: nat)
    ensures BitAnd(x, Pow2(k) - 1) == x % Pow2(k)
  {
    if k > 0 {
      var p := Pow2(k - 1);
      BitAndLow(x / 2, k - 1);
      ModOfProduct(x, 2, p);
      BitAndStep(x, 2 * p - 1);
      assert (2 * p - 1) / 2 == p - 1;
    }
  }

  lemma BitAndStep(x: nat, y: nat)
    ensures BitAnd(x, y) == 2 * BitAnd(x / 2, y / 2) + (if x % 2 == 1 && y % 2 == 1 then 1 else 0)
  {
  }

  /** Low zeros of a mask come out of the AND. */
  lemma {:induction false} BitAndShift(x: nat, y: nat, k: nat)
    ensures BitAnd(x, Shl(y, k)) == Shl(BitAnd(Shr(x, k), y), k)
  {
    if k > 0 {
      var w := Shl(y, k - 1);
      BitAndStep(x, 2 * w);
      BitAndShift(x / 2, y, k - 1);
    }
  }

  /** Placing q above k bits and reducing modulo 2^(k + n) reduces q modulo 2^n. */
  lemma {:induction false} JoinedResidue(q: nat, low: nat, k: nat, n: nat)
    requires low < Pow2(k)
    ensures (Shl(q, k) + low) % Pow2(k + n) == Shl(q % Pow2(n), k) + low
  {
    if k > 0 {
      JoinedResidue(q, low / 2, k - 1, n);
      var s, p := Shl(q, k - 1) + low / 2, Pow2(k - 1 + n);
      assert Shl(q, k) + low == 2 * s + low % 2 && Pow2(k + n) == 2 * p;
      BitBelow(s, low % 2, p, Shl(q, k) + low, Pow2(k + n));
    }
  }

  lemma BitBelow(s: nat, bit: nat, p: nat, x: nat, m: nat)
    requires bit < 2 && p > 0 && x == 2 * s + bit && m == 2 * p
    ensures x % m == 2 * (s % p) + bit
  {
    assert x / 2 == s && x % 2 == bit;
    ModOfProduct(x, 2, p);
  }

  lemma {:induction false} ShlAdd(x: nat, j: nat, k: nat)
    ensures Shl(Shl(x, j), k) == Shl(x, j + k)
  {
    if k > 0 {
      ShlAdd(x, j, k - 1);
    }
  }

  /** The position state scaled for slot arithmetic. */
  function PosState(props: Props, position: nat): nat {
    (position % Pow2(props.pb)) * 16
  }

  /** The literal sub-coder, as an offset from LITERAL: position bits first, then
      the high bits of the previous byte. */
  function LiteralBase(props: Props, position: nat, prev: byte): nat
    requires props.lc <= 8
  {
    LIT_SIZE * (Shl(position % Pow2(props.lp), props.lc) + Shr(prev, 8 - props.lc))
  }

  /** The real decoder's form of it: the position is shifted next to the previous
      byte, one mask picks both fields. */
  function MaskedLiteralBase(props: Props, processedPos: nat, prev: byte): nat
    requires props.lc <= 8
  {
    3 * Shl(BitAnd((processedPos * 256) % U32 + prev, LpMask(props.lc, props.lp)), props.lc)
  }

  function LpMask(lc: nat, lp: nat): (mask: nat)
    requires lc <= 8
    ensures mask == Shl(Pow2(lc + lp) - 1, 8 - lc)
  {
    LpMaskIsContiguous(lc, lp);
    Shl(0x100, lp) - Shr(0x100, lc)
  }

  /** The dry run's form of it. */
  function DryLiteralBase(props: Props, processedPos: nat, prev: byte): nat
    requires props.lc <= 8
  {
    LIT_SIZE * (Shl(BitAnd(processedPos, Shl(1, props.lp) - 1), props.lc) + Shr(prev, 8 - props.lc))
  }

  lemma LpMaskIsContiguous(lc: nat, lp: nat)
    requires lc <= 8
    ensures Shl(0x100, lp) - Shr(0x100, lc) == Shl(Pow2(lc + lp) - 1, 8 - lc)
  {
    assert Pow2(8) == 0x100;
    ShlPow2(8, lp);
    ShlPow2(0, 8 - lc);
    assert Shl(1, 8) == 0x100;
    ShlPow2(0, 8 - lc);
    ShlAdd(1, 8 - lc, lc);
    ShrOfJoined(Pow2(8 - lc), 0, lc);
    ShlPow2(8 - lc, lc);
    ShlPow2(lc + lp, 8 - lc);
    ShlMonotone(1, Pow2(lc + lp), 8 - lc);
  }

  /** The decoder's two formulas for a literal's sub-coder select the same one:
      the dry run masks the position and shifts the previous byte, the real
      decoder puts both under one mask. This holds for all positions, also when
      the shifted 32-bit position overflows. */
  lemma LiteralContextFormulasAgree(props: Props, position: nat, prev: byte)
    requires props.Valid()
    ensures MaskedLiteralBase(props, position % U32, prev) == LiteralBase(props, position, prev)
    ensures DryLiteralBase(props, position % U32, prev) == LiteralBase(props, position, prev)
  {
    DryFormulaAgrees(props, position, prev);
    PositionBits(position, props.lp);
    MaskedFormula(props, position % U32, (position % U32) % 0x100_0000, prev);
  }

  lemma MaskedFormula(props: Props, pp: nat, q: nat, prev: byte)
    requires props.lc <= 8 && pp < U32 && q == pp % 0x100_0000
    ensures MaskedLiteralBase(props, pp, prev) == LIT_SIZE * (Shl(q % Pow2(props.lp), props.lc) + Shr(prev, 8 - props.lc))
  {
    WrappedPosition(pp);
    MaskedResidue(q, prev, props.lc, props.lp, q * 256 + prev, LpMask(props.lc, props.lp));
  }

  lemma DryFormulaAgrees(props: Props, position: nat, prev: byte)
    requires props.Valid()
    ensures DryLiteralBase(props, position % U32, prev) == LiteralBase(props, position, prev)
  {
    PositionBits(position, props.lp);
    BitAndLow(position % U32, props.lp);
    ShlPow2(0, props.lp);
  }

  lemma MaskedResidue(q: nat, prev: byte, lc: nat, lp: nat, x: nat, mask: nat)
    requires lc <= 8
    requires x == q * 256 + prev && mask == Shl(Pow2(lc + lp) - 1, 8 - lc)
    ensures Shl(BitAnd(x, mask), lc) == 256 * (Shl(q % Pow2(lp), lc) + Shr(prev, 8 - lc))
  {
    FieldUnderMask(x, lc + lp, 8 - lc, mask);
    ByteFields(q, prev, lc);
    FieldResidue(q, Shr(prev, 8 - lc), lc, lp);
  }

  lemma FieldUnderMask(x: nat, n: nat, k: nat, mask: nat)
    requires mask == Shl(Pow2(n) - 1, k)
    ensures BitAnd(x, mask) == Shl(Shr(x, k) % Pow2(n), k)
  {
    BitAndShift(x, Pow2(n) - 1, k);
    BitAndLow(Shr(x, k), n);
  }

  lemma FieldResidue(q: nat, low: nat, lc: nat, lp: nat)
    requires lc <= 8 && low < Pow2(lc)
    ensures Shl(Shl((Shl(q, lc) + low) % Pow2(lc + lp), 8 - lc), lc) == 256 * (Shl(q % Pow2(lp), lc) + low)
  {
    JoinedResidue(q, low, lc, lp);
    ShiftByteInTwo(Shl(q % Pow2(lp), lc) + low, lc);
  }

  lemma WrappedPosition(pp: nat)
    requires pp < U32
    ensures (pp * 256) % U32 == (pp % 0x100_0000) * 256
  {
  }

  lemma ShiftByteInTwo(y: nat, lc: nat)
    requires lc <= 8
    ensures Shl(Shl(y, 8 - lc), lc) == 256 * y
  {
    ShlAdd(y, 8 - lc, lc);
    ShlByte(y);
  }

  /** Dropping the low 8 - lc bits of q above a byte leaves q above lc bits. */
  lemma ByteFields(q: nat, prev: byte, lc: nat)
    requires lc <= 8
    ensures Shr(q * 256 + prev, 8 - lc) == Shl(q, lc) + Shr(prev, 8 - lc)
    ensures Shr(prev, 8 - lc) < Pow2(lc)
  {
    assert Pow2(8) == 256;
    ShlByte(q);
    ShrSmall(q, prev, 8, lc);
  }

  lemma ShlByte(x: nat)
    ensures Shl(x, 8) == 256 * x
  {
    ShlIsTimes(x, 8);
    assert Pow2(8) == 256;
  }

  lemma {:induction false} ShlIsTimes(x: nat, k: nat)
    ensures Shl(x, k) == x * Pow2(k)
  {
    if k > 0 {
      ShlIsTimes(x, k - 1);
      var p := Pow2(k - 1);
      assert x * (2 * p) == 2 * (x * p);
    }
  }

  lemma {:induction false} ShrSmall(q: nat, low: nat, n: nat, lc: nat)
    requires lc <= n && low < Pow2(n)
    ensures Shr(Shl(q, n) + low, n - lc) == Shl(q, lc) + Shr(low, n - lc)
    ensures Shr(low, n - lc) < Pow2(lc)
  {
    if lc < n {
      ShrSmall(q, low / 2, n - 1, lc);
    }
  }

  /** Low position bits survive the 32-bit wrap of the position counter. */
  lemma PositionBits(position: nat, k: nat)
    requires k <= 4
    ensures (position % U32) % Pow2(k) == position % Pow2(k)
    ensures ((position % U32) % 0x100_0000) % Pow2(k) == position % Pow2(k)
  {
    var p := Pow2(k);
    SmallPow2(k);
    var c24, c32 := 0x100_0000 / p, U32 / p;
    assert p * c24 == 0x100_0000 && p * c32 == U32;
    ModOfMod(position, p, c32);
    ModOfMod(position % U32, p, c24);
  }

  lemma SmallPow2(k: nat)
    requires k <= 4
    ensures Pow2(k) in {1, 2, 4, 8, 16}
  {
    assert k == 0 || k == 1 || k == 2 || k == 3 || k == 4;
  }

  lemma PosStateBound(props: Props, position: nat)
    requires props.pb <= 4
    ensures PosState(props, position) <= 240 && PosState(props, position) % 16 == 0
    ensures BitAnd(position % U32, Shl(1, props.pb) - 1) * 16 == PosState(props, position)
  {
    SmallPow2(props.pb);
    PositionBits(position, props.pb);
    BitAndLow(position % U32, props.pb);
    ShlPow2(0, props.pb);
  }

  lemma LiteralBaseBound(props: Props, position: nat, prev: byte)
    requires props.Valid()
    ensures LiteralBase(props, position, prev) + LIT_SIZE <= LIT_SIZE * Pow2(props.lc + props.lp)
  {
    ByteFields(0, prev, props.lc);
    var r, b := position % Pow2(props.lp), Pow2(props.lp);
    ShlMonotone(r + 1, b, props.lc);
    ShlMonotone(r, r + 1, props.lc);
    ShlPow2(0, props.lc);
    ShlPow2(props.lp, props.lc);
  }
}
