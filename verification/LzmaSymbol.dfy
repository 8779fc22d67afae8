/** One LZMA symbol as a walk through a decision machine. Every stage either asks
    for a bit under a probability slot, or for a direct bit, or is done. */
module LzmaSymbol {
  import opened Words
  import opened LzmaLayout

  datatype Symbol =
    | Literal(value: byte)
    | ShortRep
    | RepMatch(index: nat, repLen: nat)
    | Match(matchLen: nat, distance: nat)
  {
    predicate Valid() {
      match this
      case Literal(_) => true
      case ShortRep => true
      case RepMatch(i, len) => i < 4 && len <= 271
      case Match(len, distance) => len <= 271 && distance <= END_MARK_DISTANCE
    }

    predicate EndMark() {
      Match? && distance == END_MARK_DISTANCE
    }
  }

  /** What the parse of one symbol depends on besides the probabilities. */
  datatype Ctx = Ctx(state: nat, posState: nat, litBase: nat, matchByte: byte, numProbs: nat) {
    predicate Valid() {
      && state < NUM_STATES
      && posState <= 240 && posState % 16 == 0
      && NUM_BASE_PROBS + litBase + LIT_SIZE <= numProbs
    }
  }

  datatype Kind = NewMatch | OldMatch(index: nat)
  datatype Part = Low | Mid | High

  datatype Stage =
    | AtIsMatch
    | AtLiteral(sym: nat, same: bool, matchBits: byte)
    | AtIsRep
    | AtRepG0
    | AtRep0Long
    | AtRepG1
    | AtRepG2
    | AtChoice(kind: Kind)
    | AtChoice2(kind: Kind)
    | AtLen(kind: Kind, part: Part, node: nat)
    | AtSlot(len: nat, node: nat)
    | AtSpec(len: nat, slot: nat, weight: nat, value: nat)
    | AtDirect(len: nat, count: nat, high: nat)
    | AtAlign(len: nat, high: nat, weight: nat, value: nat)
    | Done(symbol: Symbol)

  function SpecSize(slot: nat): nat {
    if slot < 6 then 2 else if slot < 8 then 4 else if slot < 10 then 8 else if slot < 12 then 16 else 32
  }

  /** The smallest distance of a position slot. */
  function SpecBase(slot: nat): nat {
    if slot % 2 == 0 then 2 * SpecSize(slot) else 3 * SpecSize(slot)
  }

  predicate IsWeight(w: nat) {
    w == 1 || w == 2 || w == 4 || w == 8 || w == 16
  }

  predicate KindOk(kind: Kind) {
    kind.OldMatch? ==> kind.index < 4
  }

  function PartSize(part: Part): nat {
    if part.High? then LEN_NUM_HIGH_SYMBOLS else LEN_NUM_LOW_SYMBOLS
  }

  function PartStart(part: Part): nat {
    match part
    case Low => 0
    case Mid => LEN_NUM_LOW_SYMBOLS
    case High => 2 * LEN_NUM_LOW_SYMBOLS
  }

  predicate StageOk(stage: Stage) {
    match stage
    case AtLiteral(sym, _, _) => 1 <= sym < 256
    case AtChoice(kind) => KindOk(kind)
    case AtChoice2(kind) => KindOk(kind)
    case AtLen(kind, part, node) => KindOk(kind) && 1 <= node < PartSize(part)
    case AtSlot(len, node) => len <= 271 && 1 <= node < POS_SLOTS
    case AtSpec(len, slot, w, v) =>
      len <= 271 && START_POS_MODEL_INDEX <= slot < END_POS_MODEL_INDEX
      && IsWeight(w) && 2 * w <= SpecSize(slot) && v < w
    case AtDirect(len, count, high) =>
      len <= 271 && 1 <= count <= 26 && high < Shl(4, 26 - count)
    case AtAlign(len, high, w, v) =>
      len <= 271 && IsWeight(w) && w <= 8 && v < w && high <= END_MARK_DISTANCE - 15
    case Done(symbol) => symbol.Valid()
    case _ => true
  }

  predicate AsksProb(stage: Stage) {
    !stage.Done? && !stage.AtDirect?
  }

  function LenCoderBase(kind: Kind): int {
    if kind.NewMatch? then LEN_CODER else REP_LEN_CODER
  }

  /** The probability slot a stage asks for, as an index into the whole array. */
  function Slot(ctx: Ctx, stage: Stage): (slot: int)
    requires ctx.Valid() && StageOk(stage) && AsksProb(stage)
    ensures 0 <= slot < ctx.numProbs
  {
    START_OFFSET + match stage
    case AtIsMatch => IS_MATCH + ctx.posState + ctx.state
    case AtLiteral(sym, same, bits) =>
      LITERAL + ctx.litBase + (if same then 0x100 + 0x100 * (bits / 128) else 0) + sym
    case AtIsRep => IS_REP + ctx.state
    case AtRepG0 => IS_REP_G0 + ctx.state
    case AtRep0Long => IS_REP0_LONG + ctx.posState + ctx.state
    case AtRepG1 => IS_REP_G1 + ctx.state
    case AtRepG2 => IS_REP_G2 + ctx.state
    case AtChoice(kind) => LenCoderBase(kind) + LEN_CHOICE
    case AtChoice2(kind) => LenCoderBase(kind) + LEN_CHOICE2
    case AtLen(kind, part, node) =>
      LenCoderBase(kind) + node +
      (match part case Low => ctx.posState case Mid => ctx.posState + 8 case High => LEN_HIGH)
    case AtSlot(len, node) => POS_SLOT + (if len < 4 then len else 3) * POS_SLOTS + node
    case AtSpec(_, slot, w, v) => SPEC_POS + SpecBase(slot) + w + v
    case AtAlign(_, _, w, v) => ALIGN + w + v
  }

  function AfterLen(kind: Kind, len: nat): Stage {
    if kind.NewMatch? then AtSlot(len, 1) else Done(RepMatch(kind.index, len))
  }

  function AfterSlot(len: nat, slot: nat): Stage {
    if slot < START_POS_MODEL_INDEX then Done(Match(len, slot))
    else if slot < END_POS_MODEL_INDEX then AtSpec(len, slot, 1, 0)
    else AtDirect(len, slot / 2 - 5, 2 + slot % 2)
  }

  function Bit(b: bool): nat {
    if b then 1 else 0
  }

  function Weighted(b: bool, w: nat): nat {
    if b then w else 0
  }

  /** The next stage after a bit. */
  function Advance(ctx: Ctx, stage: Stage, bit: bool): Stage
    requires StageOk(stage) && !stage.Done?
  {
    match stage
    case AtIsMatch => if bit then AtIsRep else AtLiteral(1, ctx.state >= NUM_LIT_STATES, ctx.matchByte)
    case AtLiteral(sym, same, bits) =>
      var next := 2 * sym + Bit(bit);
      if 256 <= next < 512 then Done(Literal(next - 256))
      else AtLiteral(next, same && bit == (bits >= 128), (bits * 2) % 256)
    case AtIsRep => if bit then AtRepG0 else AtChoice(NewMatch)
    case AtRepG0 => if bit then AtRepG1 else AtRep0Long
    case AtRep0Long => if bit then AtChoice(OldMatch(0)) else Done(ShortRep)
    case AtRepG1 => if bit then AtRepG2 else AtChoice(OldMatch(1))
    case AtRepG2 => AtChoice(OldMatch(if bit then 3 else 2))
    case AtChoice(kind) => if bit then AtChoice2(kind) else AtLen(kind, Low, 1)
    case AtChoice2(kind) => AtLen(kind, if bit then High else Mid, 1)
    case AtLen(kind, part, node) =>
      var next := 2 * node + Bit(bit);
      if next < PartSize(part) then AtLen(kind, part, next)
      else AfterLen(kind, next - PartSize(part) + PartStart(part))
    case AtSlot(len, node) =>
      var next := 2 * node + Bit(bit);
      if next < POS_SLOTS then AtSlot(len, next) else AfterSlot(len, next - POS_SLOTS)
    case AtSpec(len, slot, w, v) =>
      var next := v + Weighted(bit, w);
      if 2 * w < SpecSize(slot) then AtSpec(len, slot, 2 * w, next)
      else Done(Match(len, SpecBase(slot) + next))
    case AtDirect(len, count, high) =>
      var next := 2 * high + Bit(bit);
      if count == 1 then AtAlign(len, next * 16, 1, 0) else AtDirect(len, count - 1, next)
    case AtAlign(len, high, w, v) =>
      var next := v + Weighted(bit, w);
      if w < 8 then AtAlign(len, high, 2 * w, next) else Done(Match(len, high + next))
  }

  /** A number that grows at every stage of a symbol. */
  function Rank(stage: Stage): int {
    match stage
    case AtIsMatch => 0
    case AtLiteral(sym, _, _) => 1 + sym
    case AtIsRep => 1
    case AtRepG0 => 2
    case AtRep0Long => 3
    case AtRepG1 => 3
    case AtRepG2 => 4
    case AtChoice(_) => 5
    case AtChoice2(_) => 6
    case AtLen(_, _, node) => 6 + node
    case AtSlot(_, node) => 300 + node
    case AtSpec(_, slot, w, v) => 400 + SpecBase(slot) + w + v
    case AtDirect(_, count, _) => 430 - count
    case AtAlign(_, _, w, v) => 430 + w + v
    case Done(_) => 1000
  }

  lemma DirectPartFits()
    ensures Shl(4, 25) == 0x800_0000
  {
    ShlIsTimes(4, 25);
    ShlPow2(12, 13);
    ShlIsTimes(Pow2(12), 13);
    assert Pow2(12) == 4096 && Pow2(13) == 8192;
  }

  lemma AdvanceOk(ctx: Ctx, stage: Stage, bit: bool)
    requires StageOk(stage) && !stage.Done?
    ensures StageOk(Advance(ctx, stage, bit))
    ensures Rank(stage) < Rank(Advance(ctx, stage, bit)) <= 1000
  {
    match stage
    case AtLiteral(_, _, _) =>
    case AtLen(_, _, _) => LenAdvances(ctx, stage, bit);
    case AtSlot(_, _) => SlotAdvances(ctx, stage, bit);
    case AtSpec(_, _, _, _) => SpecAdvances(ctx, stage, bit);
    case AtDirect(_, _, _) => DirectAdvances(ctx, stage, bit);
    case AtAlign(_, _, _, _) => AlignAdvances(ctx, stage, bit);
    case _ =>
  }

  lemma LenAdvances(ctx: Ctx, stage: Stage, bit: bool)
    requires StageOk(stage) && stage.AtLen?
    ensures StageOk(Advance(ctx, stage, bit)) && Rank(stage) < Rank(Advance(ctx, stage, bit)) <= 1000
  {
  }

  lemma SlotAdvances(ctx: Ctx, stage: Stage, bit: bool)
    requires StageOk(stage) && stage.AtSlot?
    ensures StageOk(Advance(ctx, stage, bit)) && Rank(stage) < Rank(Advance(ctx, stage, bit)) <= 1000
  {
    var next := 2 * stage.node + Bit(bit);
    if next >= POS_SLOTS {
      AfterSlotOk(stage.len, next - POS_SLOTS);
    }
  }

  lemma AfterSlotOk(len: nat, slot: nat)
    requires len <= 271 && slot < POS_SLOTS
    ensures StageOk(AfterSlot(len, slot)) && 400 <= Rank(AfterSlot(len, slot)) <= 1000
  {
    if slot >= END_POS_MODEL_INDEX {
      ShlSmall(31 - slot / 2);
    }
  }

  lemma ShlSmall(k: nat)
    ensures Shl(4, k) >= 4
  {
  }

  lemma SpecAdvances(ctx: Ctx, stage: Stage, bit: bool)
    requires StageOk(stage) && stage.AtSpec?
    ensures StageOk(Advance(ctx, stage, bit)) && Rank(stage) < Rank(Advance(ctx, stage, bit)) <= 1000
  {
  }

  lemma DirectAdvances(ctx: Ctx, stage: Stage, bit: bool)
    requires StageOk(stage) && stage.AtDirect?
    ensures StageOk(Advance(ctx, stage, bit)) && Rank(stage) < Rank(Advance(ctx, stage, bit)) <= 1000
  {
    if stage.count == 1 {
      DirectPartFits();
    } else {
      assert Shl(4, 27 - stage.count) == 2 * Shl(4, 26 - stage.count);
    }
  }

  lemma AlignAdvances(ctx: Ctx, stage: Stage, bit: bool)
    requires StageOk(stage) && stage.AtAlign?
    ensures StageOk(Advance(ctx, stage, bit)) && Rank(stage) < Rank(Advance(ctx, stage, bit)) <= 1000
  {
  }
}
