/** Parsing one symbol: the decision machine driven by the range decoder, with
    and without adapting the probabilities, and what both have in common. */
module LzmaParse {
  import opened Words
  import opened LzmaLayout
  import opened LzmaRangeCoder
  import opened LzmaSymbol

  datatype Parse = Short | Parsed(symbol: Symbol, rc: Rc, probs: seq<Prob>)

  ghost predicate Ready(ctx: Ctx, stage: Stage, rc: Rc, probs: seq<Prob>) {
    ctx.Valid() && StageOk(stage) && rc.Valid() && |probs| == ctx.numProbs
  }

  /** One bit for a stage: normalise, decode, adapt when asked to. The last
      component is the probability array afterwards. */
  datatype BitStep = Starved | BitStep(bit: bool, rc: Rc, probs: seq<Prob>)

  function Decide(ctx: Ctx, stage: Stage, rc: Rc, probs: seq<Prob>, adapt: bool): (r: BitStep)
    requires ctx.Valid() && StageOk(stage) && rc.Valid() && |probs| == ctx.numProbs
    requires !stage.Done?
    ensures r.BitStep? ==> r.rc.Valid() && |r.probs| == |probs| && |r.rc.inp| <= |rc.inp|
  {
    match Normalize(rc)
    case NoInput => Starved
    case Norm(rc1) =>
      if stage.AtDirect? then
        var (bit, rc2) := DirectBit(rc1);
        BitStep(bit, rc2, probs)
      else
        var slot := Slot(ctx, stage);
        var (bit, rc2) := ModelledBit(rc1, probs[slot]);
        BitStep(bit, rc2, if adapt then probs[slot := Adapt(probs[slot], bit)] else probs)
  }

  /** The whole rest of a symbol, with the final normalisation. */
  function Run(ctx: Ctx, stage: Stage, rc: Rc, probs: seq<Prob>, adapt: bool): (r: Parse)
    requires ctx.Valid() && StageOk(stage) && rc.Valid() && |probs| == ctx.numProbs
    ensures r.Parsed? ==> r.symbol.Valid() && r.rc.Normalized() && |r.probs| == |probs|
    decreases 1000 - Rank(stage)
  {
    if stage.Done? then
      match Normalize(rc)
      case NoInput => Short
      case Norm(rc1) => Parsed(stage.symbol, rc1, probs)
    else
      match Decide(ctx, stage, rc, probs, adapt)
      case Starved => Short
      case BitStep(bit, rc1, probs1) =>
        AdvanceOk(ctx, stage, bit);
        Run(ctx, Advance(ctx, stage, bit), rc1, probs1, adapt)
  }

  /** A stage of a symbol whose whole parse is `goal`. The statement about the rest
      of the run is kept under a key: it only unfolds where Asked names it. */
  predicate Asked(key: Key, stage: Stage, rc: Rc) {
    true
  }

  ghost predicate Leads(ctx: Ctx, stage: Stage, rc: Rc, probs: seq<Prob>, adapt: bool, goal: Parse) {
    && Ready(ctx, stage, rc, probs)
    && forall key {:trigger Asked(key, stage, rc)} :: Asked(key, stage, rc) ==> Run(ctx, stage, rc, probs, adapt) == goal
  }

  lemma LeadsTo(ctx: Ctx, stage: Stage, rc: Rc, probs: seq<Prob>, adapt: bool, goal: Parse)
    requires Leads(ctx, stage, rc, probs, adapt, goal)
    ensures Run(ctx, stage, rc, probs, adapt) == goal
  {
    assert Asked(Key, stage, rc);
  }

  lemma LeadsEarly(ctx: Ctx, stage: Stage, rc: Rc, n: Rc, probs: seq<Prob>, adapt: bool, goal: Parse)
    requires rc.Valid() && Normalize(rc) == Norm(n)
    requires Leads(ctx, stage, n, probs, adapt, goal)
    ensures Leads(ctx, stage, rc, probs, adapt, goal)
  {
    LeadsTo(ctx, stage, n, probs, adapt, goal);
    NormalizeEarly(ctx, stage, rc, probs, adapt);
  }

  /** A bit decoded for the stage leads on from the next stage. */
  lemma LeadsOn(ctx: Ctx, stage: Stage, rc: Rc, probs: seq<Prob>, adapt: bool, goal: Parse)
    requires Leads(ctx, stage, rc, probs, adapt, goal) && !stage.Done?
    ensures var d := Decide(ctx, stage, rc, probs, adapt);
            && (d.Starved? ==> goal.Short?)
            && (d.BitStep? ==> Leads(ctx, Advance(ctx, stage, d.bit), d.rc, d.probs, adapt, goal))
  {
    LeadsTo(ctx, stage, rc, probs, adapt, goal);
    RunStep(ctx, stage, rc, probs, adapt);
  }

  lemma LeadsFed(ctx: Ctx, stage: Stage, rc: Rc, probs: seq<Prob>, adapt: bool, goal: Parse)
    requires Leads(ctx, stage, rc, probs, adapt, goal)
    ensures Normalize(rc).NoInput? ==> goal.Short?
    ensures stage.Done? && Normalize(rc).Norm? ==> goal == Parsed(stage.symbol, Normalize(rc).rc, probs)
  {
    LeadsTo(ctx, stage, rc, probs, adapt, goal);
    NormalizeEarly(ctx, stage, rc, probs, adapt);
  }

  /** One stage of a run. */
  lemma RunStep(ctx: Ctx, stage: Stage, rc: Rc, probs: seq<Prob>, adapt: bool)
    requires Ready(ctx, stage, rc, probs) && !stage.Done?
    ensures var d := Decide(ctx, stage, rc, probs, adapt);
            && (d.Starved? ==> Run(ctx, stage, rc, probs, adapt).Short?)
            && (d.BitStep? ==>
                  && Ready(ctx, Advance(ctx, stage, d.bit), d.rc, d.probs)
                  && Run(ctx, stage, rc, probs, adapt)
                     == Run(ctx, Advance(ctx, stage, d.bit), d.rc, d.probs, adapt))
  {
    var d := Decide(ctx, stage, rc, probs, adapt);
    if d.BitStep? {
      AdvanceOk(ctx, stage, d.bit);
    }
  }

  /** Normalising early changes nothing: the first bit would do it. */
  lemma NormalizeEarly(ctx: Ctx, stage: Stage, rc: Rc, probs: seq<Prob>, adapt: bool)
    requires Ready(ctx, stage, rc, probs)
    ensures Normalize(rc).NoInput? ==> Run(ctx, stage, rc, probs, adapt).Short?
    ensures Normalize(rc).Norm? ==>
              Run(ctx, stage, rc, probs, adapt) == Run(ctx, stage, Normalize(rc).rc, probs, adapt)
  {
  }

  // ---- More input does not change a symbol ----

  lemma NormalizeExtend(rc: Rc, more: seq<byte>)
    requires rc.Valid()
    ensures Normalize(rc).Norm? ==> Normalize(rc.Extend(more)) == Norm(Normalize(rc).rc.Extend(more))
    ensures Normalize(rc).NoInput? && Normalize(rc.Extend(more)).Norm? ==>
              |Normalize(rc.Extend(more)).rc.inp| < |more|
  {
    if rc.range < TOP_VALUE && |rc.inp| > 0 {
      assert (rc.inp + more)[1..] == rc.inp[1..] + more;
    }
  }

  /** A symbol that parses on an input parses the same on every longer input, and
      what it leaves is the longer rest. */
  lemma {:induction false} RunExtend(ctx: Ctx, stage: Stage, rc: Rc, probs: seq<Prob>, adapt: bool, more: seq<byte>)
    requires Ready(ctx, stage, rc, probs)
    ensures var r := Run(ctx, stage, rc, probs, adapt);
            var r' := Run(ctx, stage, rc.Extend(more), probs, adapt);
            && (r.Parsed? ==> r' == Parsed(r.symbol, r.rc.Extend(more), r.probs))
            && (r.Short? && r'.Parsed? ==> |r'.rc.inp| < |more|)
    decreases 1000 - Rank(stage)
  {
    if stage.Done? {
      NormalizeExtend(rc, more);
    } else {
      DecideExtend(ctx, stage, rc, probs, adapt, more);
      var d := Decide(ctx, stage, rc, probs, adapt);
      var d' := Decide(ctx, stage, rc.Extend(more), probs, adapt);
      if d.BitStep? {
        AdvanceOk(ctx, stage, d.bit);
        RunExtend(ctx, Advance(ctx, stage, d.bit), d.rc, d.probs, adapt, more);
      } else if d'.BitStep? {
        AdvanceOk(ctx, stage, d'.bit);
        RunShrinks(ctx, Advance(ctx, stage, d'.bit), d'.rc, d'.probs, adapt);
      }
    }
  }

  lemma DecideExtend(ctx: Ctx, stage: Stage, rc: Rc, probs: seq<Prob>, adapt: bool, more: seq<byte>)
    requires Ready(ctx, stage, rc, probs) && !stage.Done?
    ensures var d := Decide(ctx, stage, rc, probs, adapt);
            var d' := Decide(ctx, stage, rc.Extend(more), probs, adapt);
            && (d.BitStep? ==> d' == BitStep(d.bit, d.rc.Extend(more), d.probs))
            && (d.Starved? && d'.BitStep? ==> |d'.rc.inp| < |more|)
  {
    NormalizeExtend(rc, more);
  }

  ghost predicate IsSuffix(a: seq<byte>, b: seq<byte>) {
    |a| <= |b| && a == b[|b| - |a|..]
  }

  lemma SuffixTransitive(a: seq<byte>, b: seq<byte>, c: seq<byte>)
    requires IsSuffix(a, b) && IsSuffix(b, c)
    ensures IsSuffix(a, c)
  {
  }

  lemma DecideShrinks(ctx: Ctx, stage: Stage, rc: Rc, probs: seq<Prob>, adapt: bool)
    requires Ready(ctx, stage, rc, probs) && !stage.Done?
    ensures var d := Decide(ctx, stage, rc, probs, adapt);
            d.BitStep? ==> IsSuffix(d.rc.inp, rc.inp)
  {
  }

  /** What a symbol leaves unread is a suffix of its input. */
  lemma {:induction false} RunShrinks(ctx: Ctx, stage: Stage, rc: Rc, probs: seq<Prob>, adapt: bool)
    requires Ready(ctx, stage, rc, probs)
    ensures var r := Run(ctx, stage, rc, probs, adapt);
            r.Parsed? ==> IsSuffix(r.rc.inp, rc.inp)
    decreases 1000 - Rank(stage)
  {
    if !stage.Done? {
      var d := Decide(ctx, stage, rc, probs, adapt);
      RunStep(ctx, stage, rc, probs, adapt);
      if d.BitStep? {
        AdvanceOk(ctx, stage, d.bit);
        DecideShrinks(ctx, stage, rc, probs, adapt);
        RunShrinks(ctx, Advance(ctx, stage, d.bit), d.rc, d.probs, adapt);
        var r := Run(ctx, stage, rc, probs, adapt);
        if r.Parsed? {
          SuffixTransitive(r.rc.inp, d.rc.inp, rc.inp);
        }
      }
    }
  }

  // ---- The dry run ----

  /** The rank of the stage that owns a slot. */
  function SlotRank(ctx: Ctx, slot: int): int {
    var off := slot - START_OFFSET;
    if off < IS_REP0_LONG then 400 + off - SPEC_POS
    else if off < REP_LEN_CODER then 3
    else if off < IS_MATCH then
      var o := (off - REP_LEN_CODER) % NUM_LEN_PROBS;
      if o == LEN_CHOICE then 5
      else if o == LEN_CHOICE2 then 6
      else if o < LEN_HIGH then 6 + o % 8
      else 6 + o - LEN_HIGH
    else if off < ALIGN then 0
    else if off < IS_REP then 430 + off - ALIGN
    else if off < IS_REP_G0 then 1
    else if off < IS_REP_G1 then 2
    else if off < IS_REP_G2 then 3
    else if off < POS_SLOT then 4
    else if off < LITERAL then 300 + (off - POS_SLOT) % POS_SLOTS
    else 1 + (off - LITERAL - ctx.litBase) % 256
  }

  lemma LenSlotRank(ctx: Ctx, kind: Kind, part: Part, node: nat)
    requires ctx.Valid() && KindOk(kind) && 1 <= node < PartSize(part)
    ensures SlotRank(ctx, Slot(ctx, AtLen(kind, part, node))) == 6 + node
  {
    var base := LenCoderBase(kind);
    var o := Slot(ctx, AtLen(kind, part, node)) - START_OFFSET - base;
    assert 0 < o < NUM_LEN_PROBS && o != LEN_CHOICE && o != LEN_CHOICE2;
    assert (base + o - REP_LEN_CODER) % NUM_LEN_PROBS == o;
    if !part.High? {
      LowThreeBits(ctx.posState, o, node);
    }
  }

  lemma LowThreeBits(posState: nat, o: int, node: nat)
    requires posState % 16 == 0 && node < 8 && (o == posState + node || o == posState + 8 + node)
    ensures o % 8 == node
  {
  }

  /** No two stages of different rank share a slot: in particular the two choice
      slots of a length coder are not nodes of its trees. */
  lemma SlotDeterminesRank(ctx: Ctx, stage: Stage)
    requires ctx.Valid() && StageOk(stage) && AsksProb(stage)
    ensures SlotRank(ctx, Slot(ctx, stage)) == Rank(stage)
  {
    match stage
    case AtLen(kind, part, node) => LenSlotRank(ctx, kind, part, node);
    case AtLiteral(sym, same, bits) => LiteralSlotRank(ctx, sym, same, bits);
    case AtSlot(len, node) => DistanceSlotRank(ctx, len, node);
    case _ =>
  }

  lemma LiteralSlotRank(ctx: Ctx, sym: nat, same: bool, bits: byte)
    requires ctx.Valid() && StageOk(AtLiteral(sym, same, bits))
    ensures SlotRank(ctx, Slot(ctx, AtLiteral(sym, same, bits))) == Rank(AtLiteral(sym, same, bits))
  {
    assert (Slot(ctx, AtLiteral(sym, same, bits)) - START_OFFSET - LITERAL - ctx.litBase) % 256 == sym;
  }

  lemma DistanceSlotRank(ctx: Ctx, len: nat, node: nat)
    requires ctx.Valid() && StageOk(AtSlot(len, node))
    ensures SlotRank(ctx, Slot(ctx, AtSlot(len, node))) == Rank(AtSlot(len, node))
  {
    assert (Slot(ctx, AtSlot(len, node)) - START_OFFSET - POS_SLOT) % POS_SLOTS == node;
  }

  ghost predicate AgreeFrom(ctx: Ctx, rank: int, p: seq<Prob>, q: seq<Prob>) {
    |p| == |q| && forall s | 0 <= s < |p| && SlotRank(ctx, s) >= rank :: p[s] == q[s]
  }

  /** Decoding without adapting gives the same symbol and the same range decoder:
      every stage reads a slot no earlier stage of this symbol has adapted. */
  lemma {:induction false} DryRunAgrees(ctx: Ctx, stage: Stage, rc: Rc, p: seq<Prob>, q: seq<Prob>)
    requires Ready(ctx, stage, rc, p) && AgreeFrom(ctx, Rank(stage), p, q)
    ensures var wet := Run(ctx, stage, rc, p, true);
            var dry := Run(ctx, stage, rc, q, false);
            && wet.Short? == dry.Short?
            && (wet.Parsed? ==> wet.symbol == dry.symbol && wet.rc == dry.rc && dry.probs == q)
    decreases 1000 - Rank(stage)
  {
    if !stage.Done? {
      if AsksProb(stage) {
        SlotDeterminesRank(ctx, stage);
      }
      var d := Decide(ctx, stage, rc, p, true);
      if d.BitStep? {
        AdvanceOk(ctx, stage, d.bit);
        assert Decide(ctx, stage, rc, q, false) == BitStep(d.bit, d.rc, q);
        var next := Advance(ctx, stage, d.bit);
        assert AgreeFrom(ctx, Rank(next), d.probs, q);
        DryRunAgrees(ctx, next, d.rc, d.probs, q);
      }
    }
  }

  // ---- How much input a symbol needs ----

  function Times67(n: nat, x: nat): (r: nat)
    ensures r >= x
  {
    if n == 0 then x else 67 * Times67(n - 1, x)
  }

  /** How many bits above this node of a bit tree have been decoded. */
  function Level(node: nat): nat {
    if node < 2 then 0 else if node < 4 then 1 else if node < 8 then 2 else if node < 16 then 3
    else if node < 32 then 4 else if node < 64 then 5 else if node < 128 then 6 else 7
  }

  /** Losses are counted in thousandths. */
  const UNIT: nat := 1000
  const ALIGN_FACTOR: nat := 20151121
  const MATCH_LOSS: nat := 1387479128441094144

  const EIGHT_BITS: nat := 67 * 67 * 67 * 67 * 67 * 67 * 67 * 67
  const NEW_SLOT_LOSS: nat := 67 * 67 * 67 * 67 * 67 * 67 * MATCH_LOSS
  const NEW_CHOICE2_LOSS: nat := 67 * EIGHT_BITS * NEW_SLOT_LOSS
  const OLD_CHOICE2_LOSS: nat := 67 * EIGHT_BITS * UNIT
  const LOSS_AT_REP_G2: nat := 67 * 67 * OLD_CHOICE2_LOSS
  const LOSS_AT_IS_REP: nat := 67 * 67 * NEW_CHOICE2_LOSS

  /** Direct bits followed by four modelled ones: a factor of two each, and a
      thousandth for what halving an odd range drops. */
  function DirectLoss(count: nat): (r: nat)
    ensures r >= UNIT * ALIGN_FACTOR
  {
    Shl(ALIGN_FACTOR * (UNIT + count), count)
  }

  /** A bound on the factor that the range can still lose before the symbol ends. */
  function Loss(stage: Stage): (r: nat)
    requires StageOk(stage)
    ensures r >= UNIT
  {
    match stage
    case AtIsMatch => 67 * LOSS_AT_IS_REP
    case AtLiteral(sym, _, _) => Times67(8 - Level(sym), UNIT)
    case AtIsRep => LOSS_AT_IS_REP
    case AtRepG0 => 67 * 67 * LOSS_AT_REP_G2
    case AtRep0Long => 67 * LOSS_AT_REP_G2
    case AtRepG1 => 67 * LOSS_AT_REP_G2
    case AtRepG2 => LOSS_AT_REP_G2
    case AtChoice(kind) => if kind.NewMatch? then 67 * NEW_CHOICE2_LOSS else 67 * OLD_CHOICE2_LOSS
    case AtChoice2(kind) => if kind.NewMatch? then NEW_CHOICE2_LOSS else OLD_CHOICE2_LOSS
    case AtLen(kind, part, node) =>
      Times67((if part.High? then 8 else 3) - Level(node), AfterLenLoss(kind))
    case AtSlot(_, node) => Times67(6 - Level(node), MATCH_LOSS)
    case AtSpec(_, _, w, _) => Times67(WeightBits(w) + 1, UNIT)
    case AtDirect(_, count, _) => DirectLoss(count)
    case AtAlign(_, _, w, _) => Times67(WeightBits(w), UNIT)
    case Done(_) => UNIT
  }

  function AfterLenLoss(kind: Kind): (r: nat)
    ensures r >= UNIT
  {
    if kind.NewMatch? then NEW_SLOT_LOSS else UNIT
  }

  function WeightBits(w: nat): nat {
    if w == 1 then 4 else if w == 2 then 3 else if w == 4 then 2 else if w == 8 then 1 else 0
  }

  lemma {:induction false} ShlGrows(x: nat, y: nat, j: nat, k: nat)
    requires x <= y && j <= k
    ensures Shl(x, j) <= Shl(y, k)
  {
    if j > 0 {
      ShlGrows(x, y, j - 1, k - 1);
    }
  }

  /** The longest run of direct bits is the most expensive tail of a match. */
  lemma LongestDirect(count: nat)
    requires count <= 26
    ensures DirectLoss(count) <= MATCH_LOSS
  {
    ShlGrows(ALIGN_FACTOR * (UNIT + count), 20675050146, count, 26);
    ShlIsTimes(20675050146, 26);
    Pow2Of26();
  }

  lemma Pow2Of26()
    ensures Pow2(26) == 67108864
  {
    ShlPow2(13, 13);
    ShlIsTimes(Pow2(13), 13);
    assert Pow2(13) == 8192;
  }

  /** One direct bit: the range keeps at least 1026/2054 of itself. */
  lemma DirectLossDrops(count: nat)
    requires 1 <= count <= 26
    ensures 1026 * DirectLoss(count) >= 2054 * DirectLoss(count - 1)
  {
    var x, y := ALIGN_FACTOR * (UNIT + count), ALIGN_FACTOR * (UNIT + count - 1);
    ShlIsTimes(x, count - 1);
    ShlIsTimes(y, count - 1);
    ScaledOrder(x, y, Pow2(count - 1));
  }

  lemma ScaledOrder(x: nat, y: nat, p: nat)
    requires 1026 * (2 * x) >= 2054 * y
    ensures 1026 * (2 * (x * p)) >= 2054 * (y * p)
  {
    MulMonotone(2054 * y, 1026 * (2 * x), p);
    MulAssoc(2054, y, p);
    MulAssoc(2052, x, p);
  }

  lemma LevelDrops(node: nat, bit: bool)
    requires 1 <= node < 256
    ensures node < 128 ==> Level(2 * node + Bit(bit)) == Level(node) + 1
    ensures node >= 128 ==> Level(node) == 7
  {
  }

  ghost predicate Drops(before: Stage, after: Stage)
    requires StageOk(before) && StageOk(after)
  {
    && (AsksProb(before) ==> Loss(before) >= 67 * Loss(after))
    && (before.AtDirect? ==> 1026 * Loss(before) >= 2054 * Loss(after))
  }

  /** Each modelled bit accounts for a factor 67, each direct bit for 2054/1026. */
  lemma LossDrops(ctx: Ctx, stage: Stage, bit: bool)
    requires StageOk(stage) && !stage.Done?
    ensures StageOk(Advance(ctx, stage, bit))
    ensures Drops(stage, Advance(ctx, stage, bit))
  {
    AdvanceOk(ctx, stage, bit);
    match stage
    case AtLiteral(_, _, _) => LiteralLossDrops(ctx, stage, bit);
    case AtChoice(_) => ChoiceLossDrops(ctx, stage, bit);
    case AtChoice2(_) => ChoiceLossDrops(ctx, stage, bit);
    case AtLen(_, _, _) => TreeLossDrops(ctx, stage, bit);
    case AtSlot(_, _) => SlotStageLossDrops(ctx, stage, bit);
    case AtDirect(_, _, _) => DirectStageLossDrops(ctx, stage, bit);
    case AtSpec(_, _, _, _) => TailLossDrops(ctx, stage, bit);
    case AtAlign(_, _, _, _) => TailLossDrops(ctx, stage, bit);
    case _ => FlagLossDrops(ctx, stage, bit);
  }

  lemma LiteralLossDrops(ctx: Ctx, stage: Stage, bit: bool)
    requires StageOk(stage) && stage.AtLiteral? && StageOk(Advance(ctx, stage, bit))
    ensures Drops(stage, Advance(ctx, stage, bit))
  {
    LevelDrops(stage.sym, bit);
  }

  lemma SlotStageLossDrops(ctx: Ctx, stage: Stage, bit: bool)
    requires StageOk(stage) && stage.AtSlot? && StageOk(Advance(ctx, stage, bit))
    ensures Drops(stage, Advance(ctx, stage, bit))
  {
    LevelDrops(stage.node, bit);
    SlotLossDrops(stage.len, 2 * stage.node + Bit(bit) - POS_SLOTS);
  }

  lemma DirectStageLossDrops(ctx: Ctx, stage: Stage, bit: bool)
    requires StageOk(stage) && stage.AtDirect? && StageOk(Advance(ctx, stage, bit))
    ensures Drops(stage, Advance(ctx, stage, bit))
  {
    DirectLossDrops(stage.count);
    if stage.count == 1 {
      FourBits();
    }
  }

  lemma FourBits()
    ensures Times67(4, UNIT) == UNIT * ALIGN_FACTOR && DirectLoss(0) == ALIGN_FACTOR * UNIT
  {
  }

  lemma TailLossDrops(ctx: Ctx, stage: Stage, bit: bool)
    requires StageOk(stage) && (stage.AtSpec? || stage.AtAlign?) && StageOk(Advance(ctx, stage, bit))
    ensures Drops(stage, Advance(ctx, stage, bit))
  {
  }

  lemma ThreeAndEight(x: nat)
    ensures Times67(3, x) == 300763 * x
    ensures Times67(8, x) == EIGHT_BITS * x
  {
    assert Times67(1, x) == 67 * x;
    assert Times67(2, x) == 67 * Times67(1, x);
    assert Times67(4, x) == 4489 * Times67(2, x);
    assert Times67(6, x) == 4489 * Times67(4, x);
  }

  lemma FlagLossDrops(ctx: Ctx, stage: Stage, bit: bool)
    requires stage.AtIsMatch? || stage.AtIsRep? || stage.AtRepG0? || stage.AtRep0Long? || stage.AtRepG1? || stage.AtRepG2?
    ensures StageOk(Advance(ctx, stage, bit))
    ensures Drops(stage, Advance(ctx, stage, bit))
  {
    assert Times67(8, UNIT) == EIGHT_BITS * UNIT;
  }

  lemma ChoiceLossDrops(ctx: Ctx, stage: Stage, bit: bool)
    requires StageOk(stage) && (stage.AtChoice? || stage.AtChoice2?)
    ensures StageOk(Advance(ctx, stage, bit))
    ensures Drops(stage, Advance(ctx, stage, bit))
  {
    ThreeAndEight(AfterLenLoss(stage.kind));
  }

  lemma TreeLossDrops(ctx: Ctx, stage: Stage, bit: bool)
    requires StageOk(stage) && stage.AtLen?
    ensures StageOk(Advance(ctx, stage, bit))
    ensures Drops(stage, Advance(ctx, stage, bit))
  {
    AdvanceOk(ctx, stage, bit);
    LevelDrops(stage.node, bit);
    SixBits(MATCH_LOSS);
    assert Loss(AtSlot(0, 1)) == AfterLenLoss(NewMatch);
  }

  lemma SixBits(x: nat)
    ensures Times67(6, x) == 67 * 67 * 67 * 67 * 67 * 67 * x
  {
    ThreeAndEight(x);
    assert Times67(4, x) == 67 * Times67(3, x);
    assert Times67(5, x) == 67 * Times67(4, x);
  }

  lemma SlotLossDrops(len: nat, slot: int)
    requires len <= 271 && slot < POS_SLOTS
    ensures slot >= 0 ==> StageOk(AfterSlot(len, slot))
    ensures slot >= 0 ==> Loss(AfterSlot(len, slot)) <= MATCH_LOSS
  {
    if slot >= END_POS_MODEL_INDEX {
      LongestDirect(slot / 2 - 5);
    } else if slot >= START_POS_MODEL_INDEX {
      assert Times67(5, UNIT) == 1350125107000;
    }
  }

  /** Enough budget: k more shifts make up for every loss that can still come. */
  ghost predicate Covered(range: int, k: nat, loss: nat) {
    range * Pow256(k) * UNIT >= TOP_VALUE * loss
  }

  lemma CoveredStep(range: int, range': int, k: nat, loss: nat, loss': nat, a: nat, b: nat)
    requires Covered(range, k, loss) && b > 0
    requires a * range' >= b * range && b * loss >= a * loss' && a > 0
    ensures Covered(range', k, loss')
  {
    MulAssoc(range, Pow256(k), UNIT);
    MulAssoc(range', Pow256(k), UNIT);
    Rescale(range, range', Pow256(k) * UNIT, loss, loss', a, b);
  }

  lemma Rescale(range: int, range': int, m: nat, loss: nat, loss': nat, a: nat, b: nat)
    requires range * m >= TOP_VALUE * loss && a * range' >= b * range && b * loss >= a * loss' && a > 0 && b > 0
    ensures range' * m >= TOP_VALUE * loss'
  {
    var x, y := range' * m, range * m;
    MulMonotone(b * range, a * range', m);
    MulAssoc(a, range', m);
    MulAssoc(b, range, m);
    assert a * x >= b * y;
    MulMonotone(TOP_VALUE * loss, y, b);
    MulCommute(y, b);
    MulAssoc(TOP_VALUE, loss, b);
    MulCommute(loss, b);
    assert b * y >= TOP_VALUE * (b * loss);
    MulCommute(a, TOP_VALUE * loss');
    MulAssoc(TOP_VALUE, loss', a);
    MulCommute(loss', a);
    assert a * (TOP_VALUE * loss') == TOP_VALUE * (a * loss');
    CancelFactor(a, x, TOP_VALUE * loss');
  }

  lemma CancelFactor(a: int, x: int, y: int)
    requires a > 0 && a * x >= a * y
    ensures x >= y
  {
    if x < y {
      MulOrder(x, y, a);
      MulCommute(x, a);
      MulCommute(y, a);
    }
  }

  lemma CoveredShift(range: int, k: nat, loss: nat)
    requires Covered(range, k, loss) && range < TOP_VALUE && loss >= UNIT
    ensures k > 0 && Covered(range * 256, k - 1, loss)
  {
    if k > 0 {
      assert range * (256 * Pow256(k - 1)) == (range * 256) * Pow256(k - 1);
    }
  }

  lemma NormalizeCovered(rc: Rc, k: nat, loss: nat)
    requires rc.Valid() && Covered(rc.range, k, loss) && |rc.inp| >= k && loss >= UNIT
    ensures Normalize(rc).Norm?
    ensures var rc1 := Normalize(rc).rc;
            var k1 := k - (|rc.inp| - |rc1.inp|);
            k1 >= 0 && |rc1.inp| >= k1 && Covered(rc1.range, k1, loss)
  {
    if rc.range < TOP_VALUE {
      CoveredShift(rc.range, k, loss);
    }
  }

  /** A symbol whose remaining losses are covered by k shifts needs at most k
      bytes of input, the final normalisation included. */
  lemma {:induction false} RunWithin(ctx: Ctx, stage: Stage, rc: Rc, probs: seq<Prob>, adapt: bool, k: nat)
    requires Ready(ctx, stage, rc, probs)
    requires Covered(rc.range, k, Loss(stage)) && |rc.inp| >= k
    ensures var r := Run(ctx, stage, rc, probs, adapt);
            r.Parsed? && |rc.inp| - |r.rc.inp| <= k
    decreases 1000 - Rank(stage)
  {
    NormalizeCovered(rc, k, Loss(stage));
    if !stage.Done? {
      var rc1 := Normalize(rc).rc;
      var k1 := k - (|rc.inp| - |rc1.inp|);
      var d := Decide(ctx, stage, rc, probs, adapt);
      var next := Advance(ctx, stage, d.bit);
      AdvanceOk(ctx, stage, d.bit);
      LossDrops(ctx, stage, d.bit);
      if AsksProb(stage) {
        CoveredStep(rc1.range, d.rc.range, k1, Loss(stage), Loss(next), 67, 1);
      } else {
        CoveredStep(rc1.range, d.rc.range, k1, Loss(stage), Loss(next), 2054, 1026);
      }
      RunWithin(ctx, next, d.rc, d.probs, adapt, k1);
    }
  }

  lemma TwentyBytesCover()
    ensures Pow256(20) * UNIT >= Loss(AtIsMatch)
    ensures Pow256(21) == 256 * Pow256(20)
  {
    var p1 := Pow256(1);
    assert p1 == 256;
    assert Pow256(2) == 256 * p1;
    assert Pow256(3) == 256 * Pow256(2);
    assert Pow256(4) == 0x1_0000_0000;
    assert Pow256(5) == 256 * Pow256(4);
    assert Pow256(6) == 256 * Pow256(5);
    assert Pow256(7) == 256 * Pow256(6);
    assert Pow256(8) == 0x1_0000_0000_0000_0000;
  }

  /** The bound behind the decoder's lookahead: from a normalised range decoder a
      symbol and its final normalisation never need more than 20 bytes; with one
      normalisation pending, never more than 21. */
  lemma SymbolFitsLookahead(ctx: Ctx, rc: Rc, probs: seq<Prob>, adapt: bool)
    requires Ready(ctx, AtIsMatch, rc, probs)
    ensures rc.Normalized() && |rc.inp| >= REQUIRED_INPUT_MAX ==>
              var r := Run(ctx, AtIsMatch, rc, probs, adapt);
              r.Parsed? && |rc.inp| - |r.rc.inp| <= REQUIRED_INPUT_MAX
    ensures |rc.inp| >= REQUIRED_INPUT_MAX + 1 ==>
              var r := Run(ctx, AtIsMatch, rc, probs, adapt);
              r.Parsed? && |rc.inp| - |r.rc.inp| <= REQUIRED_INPUT_MAX + 1
  {
    TwentyBytesCover();
    if rc.Normalized() && |rc.inp| >= REQUIRED_INPUT_MAX {
      CoveredAtStart(rc.range, TOP_VALUE, 20);
      RunWithin(ctx, AtIsMatch, rc, probs, adapt, 20);
    }
    if |rc.inp| >= REQUIRED_INPUT_MAX + 1 {
      CoveredAtStart(rc.range, 0x1_0000, 21);
      RunWithin(ctx, AtIsMatch, rc, probs, adapt, 21);
    }
  }

  lemma CoveredAtStart(range: int, floor: int, k: nat)
    requires range >= floor > 0 && floor * (Pow256(k) * UNIT) >= TOP_VALUE * Loss(AtIsMatch)
    ensures Covered(range, k, Loss(AtIsMatch))
  {
    var m := Pow256(k) * UNIT;
    assert range * m >= floor * m by {
      assert (range - floor) * m >= 0;
    }
    assert range * Pow256(k) * UNIT == range * m;
  }

  // ---- The first symbol of a stream ----

  const INITIAL_RANGE := 0xFFFF_FFFF
  const BAD_REP_CODE := 0xC000_0000 - 0x400

  ghost predicate Fresh(probs: seq<Prob>) {
    forall i | 0 <= i < |probs| :: probs[i] == INITIAL_PROB
  }

  /** On a fresh decoder, a code below BAD_REP_CODE is exactly what keeps the
      first symbol from being a repeated match. */
  lemma FirstSymbolIsNotRep(ctx: Ctx, rc: Rc, probs: seq<Prob>)
    requires Ready(ctx, AtIsMatch, rc, probs) && rc.range == INITIAL_RANGE && Fresh(probs)
    ensures var r := Run(ctx, AtIsMatch, rc, probs, true);
            r.Parsed? ==> (rc.code >= BAD_REP_CODE <==> ClassOf(Done(r.symbol)).OfRep?)
  {
    var d := FirstFlag(ctx, rc, probs);
    var next := Advance(ctx, AtIsMatch, d.bit);
    RunStep(ctx, AtIsMatch, rc, probs, true);
    FlagsDecide(ctx, next, d.rc, d.probs);
  }

  lemma FlagsDecide(ctx: Ctx, next: Stage, rc: Rc, probs: seq<Prob>)
    requires next.AtIsRep? || ClassOf(next).OfLiteral?
    requires Ready(ctx, next, rc, probs)
    requires next.AtIsRep? ==> rc.range == 0x8000_03FF && probs[Slot(ctx, AtIsRep)] == INITIAL_PROB
    ensures var r := Run(ctx, next, rc, probs, true);
            r.Parsed? ==> (ClassOf(Done(r.symbol)).OfRep? <==> next.AtIsRep? && rc.code >= 0x4000_0000)
  {
    if next.AtIsRep? {
      SecondFlagDecides(ctx, rc, probs);
    } else {
      SymbolClass(ctx, next, rc, probs);
    }
  }

  lemma SecondFlagDecides(ctx: Ctx, rc: Rc, probs: seq<Prob>)
    requires Ready(ctx, AtIsRep, rc, probs) && rc.range == 0x8000_03FF
    requires probs[Slot(ctx, AtIsRep)] == INITIAL_PROB
    ensures var r := Run(ctx, AtIsRep, rc, probs, true);
            r.Parsed? ==> ClassOf(Done(r.symbol)) == (if rc.code >= 0x4000_0000 then OfRep else OfMatch)
  {
    var e := SecondFlag(ctx, rc, probs);
    RunStep(ctx, AtIsRep, rc, probs, true);
    SymbolClass(ctx, Advance(ctx, AtIsRep, e.bit), e.rc, e.probs);
  }

  lemma FirstFlag(ctx: Ctx, rc: Rc, probs: seq<Prob>) returns (d: BitStep)
    requires Ready(ctx, AtIsMatch, rc, probs) && rc.range == INITIAL_RANGE
    requires Fresh(probs)
    ensures d.BitStep? && d == Decide(ctx, AtIsMatch, rc, probs, true)
    ensures Ready(ctx, Advance(ctx, AtIsMatch, d.bit), d.rc, d.probs)
    ensures d.bit <==> rc.code >= 0x7FFF_FC00
    ensures d.bit ==> d.rc.range == 0x8000_03FF && d.rc.code == rc.code - 0x7FFF_FC00
    ensures d.probs[Slot(ctx, AtIsRep)] == INITIAL_PROB
  {
    d := Decide(ctx, AtIsMatch, rc, probs, true);
    assert Bound(INITIAL_RANGE, INITIAL_PROB) == 0x7FFF_FC00;
    AdvanceOk(ctx, AtIsMatch, d.bit);
  }

  lemma SecondFlag(ctx: Ctx, rc: Rc, probs: seq<Prob>) returns (e: BitStep)
    requires Ready(ctx, AtIsRep, rc, probs) && rc.range == 0x8000_03FF
    requires probs[Slot(ctx, AtIsRep)] == INITIAL_PROB
    ensures e.BitStep? && e == Decide(ctx, AtIsRep, rc, probs, true)
    ensures Ready(ctx, Advance(ctx, AtIsRep, e.bit), e.rc, e.probs)
    ensures e.bit <==> rc.code >= 0x4000_0000
  {
    e := Decide(ctx, AtIsRep, rc, probs, true);
    assert Bound(0x8000_03FF, INITIAL_PROB) == 0x4000_0000;
    AdvanceOk(ctx, AtIsRep, e.bit);
  }

  datatype Class = Unknown | OfLiteral | OfMatch | OfRep

  function ClassOf(stage: Stage): Class {
    match stage
    case AtIsMatch => Unknown
    case AtLiteral(_, _, _) => OfLiteral
    case AtIsRep => Unknown
    case AtRepG0 => OfRep
    case AtRep0Long => OfRep
    case AtRepG1 => OfRep
    case AtRepG2 => OfRep
    case AtChoice(kind) => if kind.NewMatch? then OfMatch else OfRep
    case AtChoice2(kind) => if kind.NewMatch? then OfMatch else OfRep
    case AtLen(kind, _, _) => if kind.NewMatch? then OfMatch else OfRep
    case AtSlot(_, _) => OfMatch
    case AtSpec(_, _, _, _) => OfMatch
    case AtDirect(_, _, _) => OfMatch
    case AtAlign(_, _, _, _) => OfMatch
    case Done(symbol) =>
      (match symbol
       case Literal(_) => OfLiteral
       case ShortRep => OfRep
       case RepMatch(_, _) => OfRep
       case Match(_, _) => OfMatch)
  }

  lemma ClassStays(ctx: Ctx, stage: Stage, bit: bool)
    requires StageOk(stage) && !stage.Done? && !ClassOf(stage).Unknown?
    ensures ClassOf(Advance(ctx, stage, bit)) == ClassOf(stage)
  {
  }

  /** Once the flags are read, the kind of the symbol is settled. */
  lemma {:induction false} SymbolClass(ctx: Ctx, stage: Stage, rc: Rc, probs: seq<Prob>)
    requires Ready(ctx, stage, rc, probs) && !ClassOf(stage).Unknown?
    ensures var r := Run(ctx, stage, rc, probs, true);
            r.Parsed? ==> ClassOf(Done(r.symbol)) == ClassOf(stage)
    decreases 1000 - Rank(stage)
  {
    if !stage.Done? {
      var d := Decide(ctx, stage, rc, probs, true);
      if d.BitStep? {
        AdvanceOk(ctx, stage, d.bit);
        ClassStays(ctx, stage, d.bit);
        SymbolClass(ctx, Advance(ctx, stage, d.bit), d.rc, d.probs);
      }
    }
  }
}
