/** What a parse does to the probabilities: each one it was asked under moves a thirty-second
    of the way to the bit that was read there, and no other one changes. */
module LzmaLearning {
  import opened LzmaRangeCoder
  import opened LzmaSymbol
  import opened LzmaParse

  /** From p to r, a thirty-second of the way to 0 for a one, to 2048 for a zero. */
  predicate Moved(p: int, r: int, bit: bool) {
    if bit then 32 * (p - r) <= p < 32 * (p - r) + 32
    else 32 * (r - p) <= 2048 - p < 32 * (r - p) + 32
  }

  /** One bit moves the probability it was read with. */
  lemma BitMoves(ctx: Ctx, stage: Stage, rc: Rc, probs: seq<Prob>)
    requires Ready(ctx, stage, rc, probs) && !stage.Done?
    ensures var d := Decide(ctx, stage, rc, probs, true);
            d.BitStep? ==>
              if AsksProb(stage) then
                var slot := Slot(ctx, stage);
                d.probs == probs[slot := d.probs[slot]] && Moved(probs[slot], d.probs[slot], d.bit)
              else d.probs == probs
  {
  }

  /** The bit that a parse reads under each probability it is asked under. */
  function Readings(ctx: Ctx, stage: Stage, rc: Rc, probs: seq<Prob>): map<int, bool>
    requires Ready(ctx, stage, rc, probs)
    decreases 1000 - Rank(stage)
  {
    if stage.Done? then map[]
    else
      match Decide(ctx, stage, rc, probs, true)
      case Starved => map[]
      case BitStep(bit, rc1, probs1) =>
        AdvanceOk(ctx, stage, bit);
        var rest := Readings(ctx, Advance(ctx, stage, bit), rc1, probs1);
        if AsksProb(stage) then rest[Slot(ctx, stage) := bit] else rest
  }

  /** Exactly the probabilities read have moved, each toward its bit. */
  ghost predicate Learns(probs: seq<Prob>, after: seq<Prob>, readings: map<int, bool>) {
    && |after| == |probs| && (forall s | s in readings :: 0 <= s < |probs|)
    && forall s | 0 <= s < |probs| :: if s in readings then Moved(probs[s], after[s], readings[s]) else after[s] == probs[s]
  }

  /** The same, and none was read before this stage. */
  ghost predicate LearnsFrom(ctx: Ctx, rank: int, probs: seq<Prob>, after: seq<Prob>, readings: map<int, bool>) {
    Learns(probs, after, readings) && forall s | s in readings :: SlotRank(ctx, s) >= rank
  }

  /** A slot of a lower rank is read before all others. */
  lemma LearnsFirst(ctx: Ctx, rank: int, probs: seq<Prob>, slot: int, p: Prob, bit: bool, after: seq<Prob>, rest: map<int, bool>)
    requires 0 <= slot < |probs| && Moved(probs[slot], p, bit) && SlotRank(ctx, slot) < rank
    requires LearnsFrom(ctx, rank, probs[slot := p], after, rest)
    ensures LearnsFrom(ctx, SlotRank(ctx, slot), probs, after, rest[slot := bit])
  {
    assert slot !in rest;
  }

  lemma LearnsLater(ctx: Ctx, rank: int, lower: int, probs: seq<Prob>, after: seq<Prob>, rest: map<int, bool>)
    requires LearnsFrom(ctx, rank, probs, after, rest) && lower <= rank
    ensures LearnsFrom(ctx, lower, probs, after, rest)
  {
  }

  /** A whole symbol. */
  lemma {:induction false} RunLearns(ctx: Ctx, stage: Stage, rc: Rc, probs: seq<Prob>)
    requires Ready(ctx, stage, rc, probs) && Run(ctx, stage, rc, probs, true).Parsed?
    ensures LearnsFrom(ctx, Rank(stage), probs, Run(ctx, stage, rc, probs, true).probs, Readings(ctx, stage, rc, probs))
    decreases 1000 - Rank(stage)
  {
    if !stage.Done? {
      var d := Decide(ctx, stage, rc, probs, true);
      AdvanceOk(ctx, stage, d.bit);
      RunStep(ctx, stage, rc, probs, true);
      BitMoves(ctx, stage, rc, probs);
      var next := Advance(ctx, stage, d.bit);
      RunLearns(ctx, next, d.rc, d.probs);
      var after, rest := Run(ctx, next, d.rc, d.probs, true).probs, Readings(ctx, next, d.rc, d.probs);
      if AsksProb(stage) {
        SlotDeterminesRank(ctx, stage);
        var slot := Slot(ctx, stage);
        LearnsFirst(ctx, Rank(next), probs, slot, d.probs[slot], d.bit, after, rest);
      } else {
        LearnsLater(ctx, Rank(next), Rank(stage), probs, after, rest);
      }
    }
  }

  /** So for a symbol of the decoder: after it, the probability under each bit read has
      moved toward that bit, and no other has changed. */
  lemma SymbolLearns(ctx: Ctx, rc: Rc, probs: seq<Prob>)
    requires Ready(ctx, AtIsMatch, rc, probs) && Run(ctx, AtIsMatch, rc, probs, true).Parsed?
    ensures Learns(probs, Run(ctx, AtIsMatch, rc, probs, true).probs, Readings(ctx, AtIsMatch, rc, probs))
  {
    RunLearns(ctx, AtIsMatch, rc, probs);
  }
}
