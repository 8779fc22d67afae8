/** The parts of a symbol as the real decoder reads them, adapting probabilities.
    Each method moves the coder from one stage of the symbol to a later one. */
module LzmaReal {
  import opened Words
  import opened LzmaLayout
  import opened LzmaRangeCoder
  import opened LzmaSymbol
  import opened LzmaParse
  import opened LzmaBits
  import opened LzmaStream

  /** Eight NORMAL_LITER_DEC steps. */
  method ReadLiteral(probs: array<Prob>, prob: int, c: Coder, src: seq<byte>, ghost ctx: Ctx, ghost goal: Parse)
    returns (value: byte, c': Coder)
    requires On(ctx, AtLiteral(1, false, 0), c, src, probs[..], true, goal) && goal.Parsed?
    requires prob == START_OFFSET + LITERAL + ctx.litBase
    modifies probs
    ensures c.buf <= c'.buf && On(ctx, Done(Literal(value)), c', src, probs[..], true, goal)
  {
    var symbol := 1;
    c' := c;
    while symbol < 0x100
      invariant 1 <= symbol < 0x200 && c.buf <= c'.buf
      invariant On(ctx, LiteralStage(symbol, false, 0), c', src, probs[..], true, goal)
      decreases 0x200 - symbol
    {
      var bit;
      bit, c' := GetBit(probs, prob + symbol, c', src, ctx, AtLiteral(symbol, false, 0), goal);
      symbol := if bit then symbol + symbol + 1 else symbol + symbol;
    }
    value := symbol % 0x100;
  }

  ghost function LiteralStage(symbol: nat, same: bool, bits: byte): Stage
    requires symbol < 0x200
  {
    if symbol < 0x100 then AtLiteral(symbol, same, bits) else Done(Literal(symbol - 0x100))
  }

  /** Eight MATCHED_LITER_DEC steps: `offs` is 0x100 as long as the decoded bits
      are those of the match byte. */
  method ReadMatchedLiteral(probs: array<Prob>, prob: int, match0: byte, c: Coder, src: seq<byte>, ghost ctx: Ctx, ghost goal: Parse)
    returns (value: byte, c': Coder)
    requires On(ctx, AtLiteral(1, true, match0), c, src, probs[..], true, goal) && goal.Parsed?
    requires prob == START_OFFSET + LITERAL + ctx.litBase
    modifies probs
    ensures c.buf <= c'.buf && On(ctx, Done(Literal(value)), c', src, probs[..], true, goal)
  {
    var symbol, offs := 1, 0x100;
    var matchByte: nat := match0;
    c' := c;
    assert matchByte % 256 == match0;
    while symbol < 0x100
      invariant 1 <= symbol < 0x200 && c.buf <= c'.buf && (offs == 0 || offs == 0x100)
      invariant On(ctx, MatchedStage(symbol, offs, matchByte), c', src, probs[..], true, goal)
      decreases 0x200 - symbol
    {
      symbol, offs, matchByte, c' := MatchedBit(probs, prob, symbol, offs, matchByte, c', src, ctx, goal);
    }
    value := symbol % 0x100;
  }

  ghost function MatchedStage(symbol: nat, offs: int, matchByte: nat): Stage
    requires symbol < 0x200
  {
    LiteralStage(symbol, offs == 0x100, matchByte % 256)
  }

  method MatchedBit(probs: array<Prob>, prob: int, symbol0: nat, offs0: int, match0: nat, c: Coder, src: seq<byte>,
                    ghost ctx: Ctx, ghost goal: Parse)
    returns (symbol: nat, offs: int, matchByte: nat, c': Coder)
    requires 1 <= symbol0 < 0x100 && (offs0 == 0 || offs0 == 0x100)
    requires On(ctx, MatchedStage(symbol0, offs0, match0), c, src, probs[..], true, goal) && goal.Parsed?
    requires prob == START_OFFSET + LITERAL + ctx.litBase
    modifies probs
    ensures 2 * symbol0 <= symbol <= 2 * symbol0 + 1 && c.buf <= c'.buf && (offs == 0 || offs == 0x100)
    ensures On(ctx, MatchedStage(symbol, offs, matchByte), c', src, probs[..], true, goal)
  {
    MatchedStep(ctx, symbol0, offs0, match0);
    matchByte := match0 + match0;
    var bit := offs0;
    offs := BitAnd(matchByte, offs0);
    var one;
    one, c' := GetBit(probs, prob + (offs + bit + symbol0), c, src, ctx, MatchedStage(symbol0, offs0, match0), goal);
    if one {
      symbol := symbol0 + symbol0 + 1;
    } else {
      symbol := symbol0 + symbol0;
      offs := Xor256(offs, bit);
    }
  }

  /** The exclusive or of two values that are each 0 or 0x100. */
  function Xor256(x: int, y: int): int {
    if x == y then 0 else 0x100
  }

  lemma BitOf256(m: nat)
    ensures BitAnd(m, 0x100) == ((m / 256) % 2) * 256
    ensures BitAnd(m, 0) == 0
  {
    assert Shl(1, 8) == 0x100;
    BitAndShift(m, 1, 8);
    BitAndLow(Shr(m, 8), 1);
    ShlByte((m / 256) % 2);
    assert Shr(m, 8) == m / 256 by {
      ShrByte(m);
    }
  }

  lemma ShrByte(m: nat)
    ensures Shr(m, 8) == m / 256
  {
    ShlByte(m / 256);
    assert Pow2(8) == 256;
    ShrOfJoined(m / 256, m % 256, 8);
  }

  /** What MATCHED_LITER_DEC computes is the stage's own slot and its next stage. */
  lemma MatchedStep(ctx: Ctx, symbol: nat, offs: nat, matchByte: nat)
    requires 1 <= symbol < 0x100 && (offs == 0 || offs == 0x100)
    ensures var stage := MatchedStage(symbol, offs, matchByte);
            var offs1 := BitAnd(2 * matchByte, offs);
            && (offs1 == 0 || offs1 == 0x100) && StageOk(stage) && AsksProb(stage)
            && (ctx.Valid() ==> Slot(ctx, stage) == START_OFFSET + LITERAL + ctx.litBase + (offs1 + offs + symbol))
            && Advance(ctx, stage, true) == MatchedStage(2 * symbol + 1, offs1, 2 * matchByte)
            && Advance(ctx, stage, false) == MatchedStage(2 * symbol, Xor256(offs1, offs), 2 * matchByte)
  {
    BitOf256(2 * matchByte);
    DoubledByte(matchByte);
  }

  lemma DoubledByte(m: nat)
    ensures ((2 * m) / 256) % 2 == (m % 256) / 128
    ensures (2 * m) % 256 == ((m % 256) * 2) % 256
  {
    var q, r := m / 256, m % 256;
    assert m == q * 256 + r;
    assert (2 * m) / 256 == 2 * q + r / 128;
  }

  /** IsRepG0 to IsRep0Long: which of the repeated distances, and whether it is a
      single byte. */
  method ReadRep(probs: array<Prob>, state: nat, posState: nat, reps: Reps, c: Coder, src: seq<byte>, ghost ctx: Ctx, ghost goal: Parse)
    returns (short: bool, reps': Reps, c': Coder, ghost index: nat)
    requires On(ctx, AtRepG0, c, src, probs[..], true, goal) && goal.Parsed?
    requires state == ctx.state && posState == ctx.posState
    modifies probs
    ensures c.buf <= c'.buf && index < 4
    ensures short ==> reps' == reps && On(ctx, Done(ShortRep), c', src, probs[..], true, goal)
    ensures !short ==> reps' == reps.Front(index) && On(ctx, AtChoice(OldMatch(index)), c', src, probs[..], true, goal)
  {
    short, reps', index := false, reps, 0;
    var bit;
    bit, c' := GetBit(probs, START_OFFSET + IS_REP_G0 + state, c, src, ctx, AtRepG0, goal);
    if !bit {
      bit, c' := GetBit(probs, START_OFFSET + IS_REP0_LONG + (posState + state), c', src, ctx, AtRep0Long, goal);
      if !bit {
        short := true;
      }
    } else {
      var distance, rep2, rep3 := reps.r1, reps.r2, reps.r3;
      index := 1;
      bit, c' := GetBit(probs, START_OFFSET + IS_REP_G1 + state, c', src, ctx, AtRepG1, goal);
      if bit {
        bit, c' := GetBit(probs, START_OFFSET + IS_REP_G2 + state, c', src, ctx, AtRepG2, goal);
        if !bit {
          distance := reps.r2;
          index := 2;
        } else {
          distance := reps.r3;
          rep3 := reps.r2;
          index := 3;
        }
        rep2 := reps.r1;
      }
      reps' := Reps(distance, reps.r0, rep2, rep3);
    }
  }

  /** A length: a choice of three trees, two of them per position state. */
  method ReadLength(probs: array<Prob>, prob: int, posState: nat, c: Coder, src: seq<byte>,
                    ghost ctx: Ctx, ghost kind: Kind, ghost goal: Parse)
    returns (len: nat, c': Coder)
    requires On(ctx, AtChoice(kind), c, src, probs[..], true, goal) && goal.Parsed?
    requires prob == START_OFFSET + LenCoderBase(kind) && posState == ctx.posState
    modifies probs
    ensures c.buf <= c'.buf && len <= 271 && On(ctx, AfterLen(kind, len), c', src, probs[..], true, goal)
  {
    var bit;
    bit, c' := GetBit(probs, prob + LEN_CHOICE, c, src, ctx, AtChoice(kind), goal);
    if !bit {
      len, c' := DecodeTree(probs, prob + posState, 8, c', src, ctx, AtLen(kind, Low, 1), goal);
      len := len - 8;
    } else {
      len, c' := ReadLongLength(probs, prob, posState, c', src, ctx, kind, goal);
    }
  }

  /** The part of a length behind its second choice. */
  method ReadLongLength(probs: array<Prob>, prob: int, posState: nat, c: Coder, src: seq<byte>,
                        ghost ctx: Ctx, ghost kind: Kind, ghost goal: Parse)
    returns (len: nat, c': Coder)
    requires On(ctx, AtChoice2(kind), c, src, probs[..], true, goal) && goal.Parsed?
    requires prob == START_OFFSET + LenCoderBase(kind) && posState == ctx.posState
    modifies probs
    ensures c.buf <= c'.buf && len <= 271 && On(ctx, AfterLen(kind, len), c', src, probs[..], true, goal)
  {
    var bit;
    bit, c' := GetBit(probs, prob + LEN_CHOICE2, c, src, ctx, AtChoice2(kind), goal);
    if !bit {
      len, c' := DecodeTree(probs, prob + posState + 8, 8, c', src, ctx, AtLen(kind, Mid, 1), goal);
    } else {
      len, c' := DecodeTree(probs, prob + LEN_HIGH, LEN_NUM_HIGH_SYMBOLS, c', src, ctx, AtLen(kind, High, 1), goal);
      len := len - LEN_NUM_HIGH_SYMBOLS + LEN_NUM_LOW_SYMBOLS * 2;
    }
  }

  /** A distance: position slot, then modelled low bits in reverse, or direct bits
      and four aligned modelled ones. */
  method ReadDistance(probs: array<Prob>, len: nat, c: Coder, src: seq<byte>, ghost ctx: Ctx, ghost goal: Parse)
    returns (distance: nat, c': Coder)
    requires On(ctx, AtSlot(len, 1), c, src, probs[..], true, goal) && goal.Parsed?
    modifies probs
    ensures c.buf <= c'.buf && distance < U32
    ensures On(ctx, Done(Match(len, distance)), c', src, probs[..], true, goal)
  {
    var prob := START_OFFSET + POS_SLOT + (if len < NUM_LEN_TO_POS_STATES then len else NUM_LEN_TO_POS_STATES - 1) * POS_SLOTS;
    distance, c' := DecodeTree(probs, prob, POS_SLOTS, c, src, ctx, AtSlot(len, 1), goal);
    distance := distance - POS_SLOTS;
    if distance >= START_POS_MODEL_INDEX {
      var posSlot := distance;
      var numDirectBits := distance / 2 - 1;
      distance := 2 + distance % 2;
      if posSlot < END_POS_MODEL_INDEX {
        distance, c' := ReadSpec(probs, posSlot, numDirectBits, distance, c', src, ctx, len, goal);
      } else {
        distance, c' := ReadDirect(probs, numDirectBits - 4, distance, c', src, ctx, len, goal);
        distance, c' := ReadAlign(probs, distance, c', src, ctx, len, goal);
      }
    }
  }

  /** The stage at running value d of the short-distance tree. */
  ghost function SpecStage(len: nat, slot: nat, m: nat, d: nat): Stage
    requires d >= SpecBase(slot) + m
  {
    if m < SpecSize(slot) then AtSpec(len, slot, m, d - m - SpecBase(slot)) else Done(Match(len, d - m))
  }

  /** The reverse bit tree of the short distances. `distance` runs through the
      tree's slots: it is the smallest distance, plus the weight, plus the bits. */
  method ReadSpec(probs: array<Prob>, posSlot: nat, bits: nat, high: nat, c: Coder, src: seq<byte>,
                  ghost ctx: Ctx, ghost len: nat, ghost goal: Parse)
    returns (distance: nat, c': Coder)
    requires START_POS_MODEL_INDEX <= posSlot < END_POS_MODEL_INDEX
    requires bits == posSlot / 2 - 1 && high == 2 + posSlot % 2
    requires On(ctx, AtSpec(len, posSlot, 1, 0), c, src, probs[..], true, goal) && goal.Parsed?
    modifies probs
    ensures c.buf <= c'.buf && distance < U32
    ensures On(ctx, Done(Match(len, distance)), c', src, probs[..], true, goal)
  {
    c' := c;
    distance := Shl(high, bits);
    SpecShift(posSlot);
    var m, numDirectBits := 1, bits;
    distance := distance + 1;
    while numDirectBits != 0
      invariant numDirectBits >= 0 && SpecSize(posSlot) == Shl(m, numDirectBits)
      invariant distance >= SpecBase(posSlot) + m && c.buf <= c'.buf && m >= 1
      invariant On(ctx, SpecStage(len, posSlot, m, distance), c', src, probs[..], true, goal)
    {
      SpecWeight(m, numDirectBits, SpecSize(posSlot));
      m, distance, c' := SpecBit(probs, posSlot, m, distance, c', src, ctx, len, goal);
      numDirectBits := numDirectBits - 1;
    }
    distance := distance - m;
  }

  /** REV_BIT_VAR on the short-distance tree. */
  method SpecBit(probs: array<Prob>, ghost slot: nat, m0: nat, d0: nat, c: Coder, src: seq<byte>,
                 ghost ctx: Ctx, ghost len: nat, ghost goal: Parse)
    returns (m: nat, d: nat, c': Coder)
    requires d0 >= SpecBase(slot) + m0 && m0 < SpecSize(slot)
    requires On(ctx, SpecStage(len, slot, m0, d0), c, src, probs[..], true, goal) && goal.Parsed?
    modifies probs
    ensures m == 2 * m0 && d >= SpecBase(slot) + m && c.buf <= c'.buf
    ensures On(ctx, SpecStage(len, slot, m, d), c', src, probs[..], true, goal)
  {
    SpecStep(ctx, len, slot, m0, d0);
    m, d := m0, d0;
    var bit;
    bit, c' := GetBit(probs, START_OFFSET + SPEC_POS + d, c, src, ctx, SpecStage(len, slot, m0, d0), goal);
    if bit {
      m := m + m;
      d := d + m;
    } else {
      d := d + m;
      m := m + m;
    }
  }

  lemma SpecStep(ctx: Ctx, len: nat, slot: nat, m: nat, d: nat)
    requires d >= SpecBase(slot) + m && m < SpecSize(slot)
    ensures var stage := SpecStage(len, slot, m, d);
            StageOk(stage) ==>
              && AsksProb(stage)
              && (ctx.Valid() ==> Slot(ctx, stage) == START_OFFSET + SPEC_POS + d)
              && Advance(ctx, stage, true) == SpecStage(len, slot, 2 * m, d + 2 * m)
              && Advance(ctx, stage, false) == SpecStage(len, slot, 2 * m, d + m)
  {
  }

  lemma SpecShift(slot: nat)
    requires START_POS_MODEL_INDEX <= slot < END_POS_MODEL_INDEX
    ensures Shl(2 + slot % 2, slot / 2 - 1) == SpecBase(slot)
    ensures Shl(1, slot / 2 - 1) == SpecSize(slot)
  {
    var n := slot / 2 - 1;
    ShlIsTimes(2 + slot % 2, n);
    ShlIsTimes(1, n);
    assert n == 1 || n == 2 || n == 3 || n == 4 || n == 5;
    assert Pow2(1) == 2 && Pow2(2) == 4 && Pow2(3) == 8 && Pow2(4) == 16 && Pow2(5) == 32;
  }

  lemma {:induction false} SpecWeight(m: nat, n: nat, size: nat)
    requires n > 0 && m >= 1 && size == Shl(m, n)
    ensures Shl(2 * m, n - 1) == size && m < size && 2 * m <= size
  {
    ShlAdd(m, 1, n - 1);
    assert Shl(m, 1) == 2 * m;
  }

  /** The stage with n direct bits left. */
  ghost function DirectStage(len: nat, n: nat, d: nat): Stage {
    if n > 0 then AtDirect(len, n, d) else AtAlign(len, d * 16, 1, 0)
  }

  /** The direct bits of a long distance, most significant first. */
  method ReadDirect(probs: array<Prob>, bits: nat, high: nat, c: Coder, src: seq<byte>,
                    ghost ctx: Ctx, ghost len: nat, ghost goal: Parse)
    returns (distance: nat, c': Coder)
    requires bits > 0
    requires On(ctx, DirectStage(len, bits, high), c, src, probs[..], true, goal) && goal.Parsed?
    ensures c.buf <= c'.buf && On(ctx, AtAlign(len, distance, 1, 0), c', src, probs[..], true, goal)
  {
    distance, c' := high, c;
    var numDirectBits := bits;
    while numDirectBits != 0
      invariant numDirectBits >= 0 && c.buf <= c'.buf
      invariant numDirectBits == 0 ==> distance < 0x1000_0000
      invariant On(ctx, DirectStage(len, numDirectBits, distance), c', src, probs[..], true, goal)
    {
      DirectStep(ctx, len, numDirectBits, distance);
      var t;
      t, c' := GetDirectBit(probs[..], c', src, ctx, DirectStage(len, numDirectBits, distance), goal);
      distance := ShiftIn(distance, t);
      numDirectBits := numDirectBits - 1;
    }
    distance := (distance * 16) % U32;
  }

  /** distance << 1 plus t + 1, in 32 bits. */
  function ShiftIn(distance: nat, t: int): (r: nat)
    requires t == 0 || t == U32 - 1
    ensures 2 * distance + 1 < U32 ==> r == 2 * distance + Bit(t == 0)
  {
    (distance * 2 + (t + 1) % U32) % U32
  }

  lemma DirectStep(ctx: Ctx, len: nat, n: nat, d: nat)
    requires StageOk(DirectStage(len, n, d)) && n > 0
    ensures 2 * d + 1 < 0x1000_0000
    ensures Advance(ctx, DirectStage(len, n, d), true) == DirectStage(len, n - 1, 2 * d + 1)
    ensures Advance(ctx, DirectStage(len, n, d), false) == DirectStage(len, n - 1, 2 * d)
  {
    DirectFits(len, n, d);
  }

  /** 32 bits hold every distance: the arithmetic never wraps. */
  lemma DirectFits(len: nat, count: nat, high: nat)
    requires StageOk(AtDirect(len, count, high))
    ensures 2 * high + 1 < 0x1000_0000
  {
    DirectPartFits();
    ShlBound(26 - count, 25);
  }

  lemma {:induction false} ShlBound(j: nat, k: nat)
    requires j <= k
    ensures Shl(4, j) <= Shl(4, k)
  {
    if j < k {
      ShlBound(j, k - 1);
    }
  }

  /** The stage at running value i of the four aligned bits. */
  ghost function AlignStage(len: nat, high: nat, m: nat, i: nat): Stage
    requires m <= i
  {
    if m < 16 then AtAlign(len, high, m, i - m) else Done(Match(len, high + i - m))
  }

  lemma AlignStep(ctx: Ctx, len: nat, high: nat, m: nat, i: nat)
    requires m <= i && m <= 8
    ensures var stage := AlignStage(len, high, m, i);
            StageOk(stage) ==>
              && AsksProb(stage)
              && (ctx.Valid() ==> Slot(ctx, stage) == START_OFFSET + ALIGN + i)
              && Advance(ctx, stage, true) == AlignStage(len, high, 2 * m, i + 2 * m)
              && Advance(ctx, stage, false) == AlignStage(len, high, 2 * m, i + m)
  {
  }

  /** REV_BIT_CONST for the weights 1, 2 and 4. */
  method AlignBit(probs: array<Prob>, m: nat, i: nat, high: nat, c: Coder, src: seq<byte>,
                  ghost ctx: Ctx, ghost len: nat, ghost goal: Parse)
    returns (i': nat, c': Coder)
    requires m <= i && m <= 8
    requires On(ctx, AlignStage(len, high, m, i), c, src, probs[..], true, goal) && goal.Parsed?
    modifies probs
    ensures c.buf <= c'.buf && 2 * m <= i' && (i' == i + m || i' == i + 2 * m)
    ensures On(ctx, AlignStage(len, high, 2 * m, i'), c', src, probs[..], true, goal)
  {
    AlignStep(ctx, len, high, m, i);
    var bit;
    bit, c' := GetBit(probs, START_OFFSET + ALIGN + i, c, src, ctx, AlignStage(len, high, m, i), goal);
    i' := if bit then i + m * 2 else i + m;
  }

  /** The four aligned bits, unrolled; `i` ends as their value, the last step
      taking its weight off instead of adding it twice. */
  method ReadAlign(probs: array<Prob>, high: nat, c: Coder, src: seq<byte>, ghost ctx: Ctx, ghost len: nat, ghost goal: Parse)
    returns (distance: nat, c': Coder)
    requires On(ctx, AtAlign(len, high, 1, 0), c, src, probs[..], true, goal) && goal.Parsed?
    modifies probs
    ensures c.buf <= c'.buf && distance < U32
    ensures On(ctx, Done(Match(len, distance)), c', src, probs[..], true, goal)
  {
    var i := 1;
    i, c' := AlignBit(probs, 1, i, high, c, src, ctx, len, goal);
    i, c' := AlignBit(probs, 2, i, high, c', src, ctx, len, goal);
    i, c' := AlignBit(probs, 4, i, high, c', src, ctx, len, goal);
    AlignStep(ctx, len, high, 8, i);
    var bit;
    bit, c' := GetBit(probs, START_OFFSET + ALIGN + i, c', src, ctx, AlignStage(len, high, 8, i), goal);
    if !bit {
      i := i - 8;
    }
    distance := high + i;
  }
}
