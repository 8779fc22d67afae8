/** The parts of a symbol as the dry run reads them: the same stages under the
    checking macros, without adapting anything. */
module LzmaDry {
  import opened Words
  import opened LzmaLayout
  import opened LzmaRangeCoder
  import opened LzmaSymbol
  import opened LzmaParse
  import opened LzmaBits
  import opened LzmaReal

  method CheckLiteral(probs: array<Prob>, prob: int, c: Coder, src: seq<byte>, ghost ctx: Ctx, ghost goal: Parse)
    returns (ok: bool, c': Coder, ghost value: byte)
    requires On(ctx, AtLiteral(1, false, 0), c, src, probs[..], false, goal)
    requires prob == START_OFFSET + LITERAL + ctx.litBase
    ensures !ok ==> goal.Short?
    ensures ok ==> On(ctx, Done(Literal(value)), c', src, probs[..], false, goal)
  {
    var symbol := 1;
    ok, c', value := true, c, 0;
    while symbol < 0x100
      invariant ok && 1 <= symbol < 0x200
      invariant On(ctx, LiteralStage(symbol, false, 0), c', src, probs[..], false, goal)
      decreases 0x200 - symbol
    {
      var bit;
      ok, bit, c' := GetBitCheck(probs, prob + symbol, c', src, ctx, AtLiteral(symbol, false, 0), goal);
      if !ok {
        return;
      }
      symbol := if bit then symbol + symbol + 1 else symbol + symbol;
    }
    value := symbol - 0x100;
  }

  method CheckMatchedLiteral(probs: array<Prob>, prob: int, match0: byte, c: Coder, src: seq<byte>, ghost ctx: Ctx, ghost goal: Parse)
    returns (ok: bool, c': Coder, ghost value: byte)
    requires On(ctx, AtLiteral(1, true, match0), c, src, probs[..], false, goal)
    requires prob == START_OFFSET + LITERAL + ctx.litBase
    ensures !ok ==> goal.Short?
    ensures ok ==> On(ctx, Done(Literal(value)), c', src, probs[..], false, goal)
  {
    var symbol, offs := 1, 0x100;
    var matchByte: nat := match0;
    ok, c', value := true, c, 0;
    assert matchByte % 256 == match0;
    while symbol < 0x100
      invariant ok && 1 <= symbol < 0x200 && (offs == 0 || offs == 0x100)
      invariant On(ctx, MatchedStage(symbol, offs, matchByte), c', src, probs[..], false, goal)
      decreases 0x200 - symbol
    {
      ok, symbol, offs, matchByte, c' := MatchedBitCheck(probs, prob, symbol, offs, matchByte, c', src, ctx, goal);
      if !ok {
        return;
      }
    }
    value := symbol - 0x100;
  }

  method MatchedBitCheck(probs: array<Prob>, prob: int, symbol0: nat, offs0: int, match0: nat, c: Coder, src: seq<byte>,
                         ghost ctx: Ctx, ghost goal: Parse)
    returns (ok: bool, symbol: nat, offs: int, matchByte: nat, c': Coder)
    requires 1 <= symbol0 < 0x100 && (offs0 == 0 || offs0 == 0x100)
    requires On(ctx, MatchedStage(symbol0, offs0, match0), c, src, probs[..], false, goal)
    requires prob == START_OFFSET + LITERAL + ctx.litBase
    ensures 2 * symbol0 <= symbol <= 2 * symbol0 + 1 && (offs == 0 || offs == 0x100)
    ensures !ok ==> goal.Short?
    ensures ok ==> On(ctx, MatchedStage(symbol, offs, matchByte), c', src, probs[..], false, goal)
  {
    MatchedStep(ctx, symbol0, offs0, match0);
    matchByte := match0 + match0;
    var bit := offs0;
    offs := BitAnd(matchByte, offs0);
    var one;
    ok, one, c' := GetBitCheck(probs, prob + (offs + bit + symbol0), c, src, ctx, MatchedStage(symbol0, offs0, match0), goal);
    if one {
      symbol := symbol0 + symbol0 + 1;
    } else {
      symbol := symbol0 + symbol0;
      offs := Xor256(offs, bit);
    }
  }

  method CheckRep(probs: array<Prob>, state: nat, posState: nat, c: Coder, src: seq<byte>, ghost ctx: Ctx, ghost goal: Parse)
    returns (ok: bool, short: bool, c': Coder, ghost index: nat)
    requires On(ctx, AtRepG0, c, src, probs[..], false, goal)
    requires state == ctx.state && posState == ctx.posState
    ensures index < 4
    ensures !ok ==> goal.Short?
    ensures ok && short ==> On(ctx, Done(ShortRep), c', src, probs[..], false, goal)
    ensures ok && !short ==> On(ctx, AtChoice(OldMatch(index)), c', src, probs[..], false, goal)
  {
    short, index := false, 0;
    var bit;
    ok, bit, c' := GetBitCheck(probs, START_OFFSET + IS_REP_G0 + state, c, src, ctx, AtRepG0, goal);
    if !ok {
      return;
    }
    if !bit {
      ok, bit, c' := GetBitCheck(probs, START_OFFSET + IS_REP0_LONG + (posState + state), c', src, ctx, AtRep0Long, goal);
      short := !bit;
    } else {
      ok, bit, c' := GetBitCheck(probs, START_OFFSET + IS_REP_G1 + state, c', src, ctx, AtRepG1, goal);
      index := 1;
      if ok && bit {
        ok, bit, c' := GetBitCheck(probs, START_OFFSET + IS_REP_G2 + state, c', src, ctx, AtRepG2, goal);
        index := if bit then 3 else 2;
      }
    }
  }

  method CheckLength(probs: array<Prob>, prob: int, posState: nat, c: Coder, src: seq<byte>,
                     ghost ctx: Ctx, ghost kind: Kind, ghost goal: Parse)
    returns (ok: bool, len: nat, c': Coder)
    requires On(ctx, AtChoice(kind), c, src, probs[..], false, goal)
    requires prob == START_OFFSET + LenCoderBase(kind) && posState == ctx.posState
    ensures !ok ==> goal.Short?
    ensures ok ==> len <= 271 && On(ctx, AfterLen(kind, len), c', src, probs[..], false, goal)
  {
    var bit;
    len := 0;
    ok, bit, c' := GetBitCheck(probs, prob + LEN_CHOICE, c, src, ctx, AtChoice(kind), goal);
    if !ok {
      return;
    }
    if !bit {
      ok, len, c' := LengthTree(probs, prob + posState, 0, LEN_NUM_LOW_SYMBOLS, c', src, ctx, kind, Low, goal);
    } else {
      ok, len, c' := CheckLongLength(probs, prob, posState, c', src, ctx, kind, goal);
    }
  }

  /** The part of a length behind its second choice. */
  method CheckLongLength(probs: array<Prob>, prob: int, posState: nat, c: Coder, src: seq<byte>,
                         ghost ctx: Ctx, ghost kind: Kind, ghost goal: Parse)
    returns (ok: bool, len: nat, c': Coder)
    requires On(ctx, AtChoice2(kind), c, src, probs[..], false, goal)
    requires prob == START_OFFSET + LenCoderBase(kind) && posState == ctx.posState
    ensures !ok ==> goal.Short?
    ensures ok ==> len <= 271 && On(ctx, AfterLen(kind, len), c', src, probs[..], false, goal)
  {
    var bit;
    len := 0;
    ok, bit, c' := GetBitCheck(probs, prob + LEN_CHOICE2, c, src, ctx, AtChoice2(kind), goal);
    if !ok {
      return;
    }
    if !bit {
      ok, len, c' := LengthTree(probs, prob + posState + LEN_NUM_LOW_SYMBOLS, LEN_NUM_LOW_SYMBOLS, LEN_NUM_LOW_SYMBOLS,
                                c', src, ctx, kind, Mid, goal);
    } else {
      ok, len, c' := LengthTree(probs, prob + LEN_HIGH, LEN_NUM_LOW_SYMBOLS * 2, LEN_NUM_HIGH_SYMBOLS,
                                c', src, ctx, kind, High, goal);
    }
  }

  /** TREE_DECODE_CHECK and the offset of the part. */
  method LengthTree(probs: array<Prob>, probLen: int, offset: nat, limit: nat, c: Coder, src: seq<byte>,
                    ghost ctx: Ctx, ghost kind: Kind, ghost part: Part, ghost goal: Parse)
    returns (ok: bool, len: nat, c': Coder)
    requires TreeOn(ctx, AtLen(kind, part, 1), probLen, 1, limit, c, src, probs[..], false, goal)
    requires offset == PartStart(part)
    ensures !ok ==> goal.Short?
    ensures ok ==> len <= 271 && On(ctx, AfterLen(kind, len), c', src, probs[..], false, goal)
  {
    ok, len, c' := DecodeTreeCheck(probs, probLen, limit, c, src, ctx, AtLen(kind, part, 1), goal);
    if ok {
      len := len - limit + offset;
    }
  }

  /** The two reverse trees that end a distance. */
  datatype Tail = SpecTail(len: nat, slot: nat) | AlignTail(len: nat, high: nat)

  ghost function TailBase(tail: Tail): int {
    match tail
    case SpecTail(_, slot) => START_OFFSET + SPEC_POS + SpecBase(slot)
    case AlignTail(_, _) => START_OFFSET + ALIGN
  }

  ghost function TailSize(tail: Tail): nat {
    match tail
    case SpecTail(_, slot) => SpecSize(slot)
    case AlignTail(_, _) => ALIGN_TABLE_SIZE
  }

  ghost function TailStage(tail: Tail, m: nat, i: nat): Stage
    requires m <= i
  {
    match tail
    case SpecTail(len, slot) => SpecStage(len, slot, m, SpecBase(slot) + i)
    case AlignTail(len, high) => AlignStage(len, high, m, i)
  }

  lemma TailStep(ctx: Ctx, tail: Tail, m: nat, i: nat)
    requires m <= i && 1 <= m && 2 * m <= TailSize(tail)
    ensures var stage := TailStage(tail, m, i);
            StageOk(stage) ==>
              && AsksProb(stage)
              && (ctx.Valid() ==> Slot(ctx, stage) == TailBase(tail) + i)
              && Advance(ctx, stage, true) == TailStage(tail, 2 * m, i + 2 * m)
              && Advance(ctx, stage, false) == TailStage(tail, 2 * m, i + m)
  {
    match tail
    case SpecTail(len, slot) => SpecStep(ctx, len, slot, m, SpecBase(slot) + i);
    case AlignTail(len, high) => AlignStep(ctx, len, high, m, i);
  }

  /** REV_BIT_CHECK for every bit of the tail. */
  method CheckTail(probs: array<Prob>, prob: int, bits: nat, c: Coder, src: seq<byte>,
                   ghost ctx: Ctx, ghost tail: Tail, ghost goal: Parse)
    returns (ok: bool, c': Coder, ghost end: nat)
    requires On(ctx, TailStage(tail, 1, 1), c, src, probs[..], false, goal)
    requires prob == TailBase(tail) && Shl(1, bits) == TailSize(tail)
    ensures !ok ==> goal.Short?
    ensures ok ==> TailSize(tail) <= end && On(ctx, TailStage(tail, TailSize(tail), end), c', src, probs[..], false, goal)
  {
    var i, m, numDirectBits := 1, 1, bits;
    ok, c', end := true, c, 0;
    while numDirectBits != 0
      invariant ok && numDirectBits >= 0 && 1 <= m <= i && Shl(m, numDirectBits) == TailSize(tail)
      invariant On(ctx, TailStage(tail, m, i), c', src, probs[..], false, goal)
    {
      SpecWeight(m, numDirectBits, TailSize(tail));
      ok, m, i, c' := TailBit(probs, prob, m, i, c', src, ctx, tail, goal);
      if !ok {
        return;
      }
      numDirectBits := numDirectBits - 1;
    }
    end := i;
  }

  method TailBit(probs: array<Prob>, prob: int, m0: nat, i0: nat, c: Coder, src: seq<byte>,
                 ghost ctx: Ctx, ghost tail: Tail, ghost goal: Parse)
    returns (ok: bool, m: nat, i: nat, c': Coder)
    requires 1 <= m0 <= i0 && 2 * m0 <= TailSize(tail) && prob == TailBase(tail)
    requires On(ctx, TailStage(tail, m0, i0), c, src, probs[..], false, goal)
    ensures m == 2 * m0 && m <= i
    ensures !ok ==> goal.Short?
    ensures ok ==> On(ctx, TailStage(tail, m, i), c', src, probs[..], false, goal)
  {
    TailStep(ctx, tail, m0, i0);
    m, i := m0, i0;
    var bit;
    ok, bit, c' := GetBitCheck(probs, prob + i, c, src, ctx, TailStage(tail, m0, i0), goal);
    if bit {
      m := m + m;
      i := i + m;
    } else {
      i := i + m;
      m := m + m;
    }
  }

  method CheckDirect(probs: array<Prob>, bits: nat, ghost high: nat, c: Coder, src: seq<byte>,
                     ghost ctx: Ctx, ghost len: nat, ghost goal: Parse)
    returns (ok: bool, c': Coder, ghost distance: nat)
    requires bits > 0
    requires On(ctx, DirectStage(len, bits, high), c, src, probs[..], false, goal)
    ensures !ok ==> goal.Short?
    ensures ok ==> On(ctx, DirectStage(len, 0, distance), c', src, probs[..], false, goal)
  {
    ok, c', distance := true, c, high;
    var numDirectBits := bits;
    while numDirectBits != 0
      invariant ok && numDirectBits >= 0
      invariant On(ctx, DirectStage(len, numDirectBits, distance), c', src, probs[..], false, goal)
    {
      DirectStep(ctx, len, numDirectBits, distance);
      ghost var bit;
      ok, c', bit := GetDirectBitCheck(probs[..], c', src, ctx, DirectStage(len, numDirectBits, distance), goal);
      if !ok {
        return;
      }
      distance := 2 * distance + Bit(bit);
      numDirectBits := numDirectBits - 1;
    }
  }

  method CheckDistance(probs: array<Prob>, len: nat, c: Coder, src: seq<byte>, ghost ctx: Ctx, ghost goal: Parse)
    returns (ok: bool, c': Coder, ghost distance: nat)
    requires On(ctx, AtSlot(len, 1), c, src, probs[..], false, goal)
    ensures !ok ==> goal.Short?
    ensures ok ==> On(ctx, Done(Match(len, distance)), c', src, probs[..], false, goal)
  {
    distance := 0;
    var prob := START_OFFSET + POS_SLOT +
      (if len < NUM_LEN_TO_POS_STATES - 1 then len else NUM_LEN_TO_POS_STATES - 1) * POS_SLOTS;
    var posSlot;
    ok, posSlot, c' := DecodeTreeCheck(probs, prob, POS_SLOTS, c, src, ctx, AtSlot(len, 1), goal);
    if !ok {
      return;
    }
    posSlot := posSlot - POS_SLOTS;
    distance := posSlot;
    if posSlot >= START_POS_MODEL_INDEX {
      ok, c', distance := CheckLowBits(probs, posSlot, c', src, ctx, len, goal);
    }
  }

  method CheckLowBits(probs: array<Prob>, posSlot: nat, c: Coder, src: seq<byte>, ghost ctx: Ctx, ghost len: nat, ghost goal: Parse)
    returns (ok: bool, c': Coder, ghost distance: nat)
    requires START_POS_MODEL_INDEX <= posSlot < POS_SLOTS
    requires On(ctx, AfterSlot(len, posSlot), c, src, probs[..], false, goal)
    ensures !ok ==> goal.Short?
    ensures ok ==> On(ctx, Done(Match(len, distance)), c', src, probs[..], false, goal)
  {
    var numDirectBits := posSlot / 2 - 1;
    var prob;
    ghost var tail, end;
    distance := 0;
    ok, c' := true, c;
    if posSlot < END_POS_MODEL_INDEX {
      SpecShift(posSlot);
      prob := START_OFFSET + SPEC_POS + Shl(2 + posSlot % 2, numDirectBits);
      tail := SpecTail(len, posSlot);
    } else {
      numDirectBits := numDirectBits - 4;
      ok, c', distance := CheckDirect(probs, numDirectBits, 2 + posSlot % 2, c', src, ctx, len, goal);
      if !ok {
        return;
      }
      prob := START_OFFSET + ALIGN;
      numDirectBits := 4;
      assert Shl(1, 4) == 16;
      tail := AlignTail(len, distance * 16);
    }
    ok, c', end := CheckTail(probs, prob, numDirectBits, c', src, ctx, tail, goal);
    if ok {
      distance := TailStage(tail, TailSize(tail), end).symbol.distance;
    }
  }
}
