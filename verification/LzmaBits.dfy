/** The decoder's bit macros as methods on the coder's three running values and
    the probability array: the adapting ones of the real decoder, and the checking
    ones of the dry run, which stop at the end of the input and change nothing. */
module LzmaBits {
  import opened Words
  import opened LzmaLayout
  import opened LzmaRangeCoder
  import opened LzmaSymbol
  import opened LzmaParse

  /** range, code and the read position in the current input buffer. */
  datatype Coder = Coder(range: int, code: int, buf: nat)

  ghost function View(c: Coder, src: seq<byte>): Rc
    requires c.buf <= |src|
  {
    Rc(c.range, c.code, src[c.buf..])
  }

  /** The coder stands at a stage of a symbol whose whole parse is `goal`. */
  ghost predicate On(ctx: Ctx, stage: Stage, c: Coder, src: seq<byte>, probs: seq<Prob>, adapt: bool, goal: Parse) {
    c.buf <= |src| && Leads(ctx, stage, View(c, src), probs, adapt, goal)
  }

  /** NORMALIZE: the input byte must be there. */
  method Shift(c: Coder, src: seq<byte>) returns (c': Coder)
    requires c.buf <= |src| && View(c, src).Valid() && Normalize(View(c, src)).Norm?
    ensures c.buf <= c'.buf <= |src| && View(c', src) == Normalize(View(c, src)).rc
  {
    if c.range < TOP_VALUE {
      assert src[c.buf..][1..] == src[c.buf + 1..];
      c' := Coder(c.range * 256, (c.code * 256) % U32 + src[c.buf], c.buf + 1);
    } else {
      c' := c;
    }
  }

  /** NORMALIZE_CHECK: at the end of the buffer the dry run gives up. */
  method ShiftCheck(c: Coder, src: seq<byte>) returns (ok: bool, c': Coder)
    requires c.buf <= |src| && View(c, src).Valid()
    ensures ok == Normalize(View(c, src)).Norm?
    ensures ok ==> c.buf <= c'.buf <= |src| && View(c', src) == Normalize(View(c, src)).rc
  {
    c' := c;
    ok := true;
    if c.range < TOP_VALUE {
      if c.buf >= |src| {
        ok := false;
      } else {
        c' := Shift(c, src);
      }
    }
  }

  /** A bit decoded for the stage leaves the coder on the next stage. */
  lemma BitTaken(ctx: Ctx, stage: Stage, c: Coder, src: seq<byte>, probs: seq<Prob>, adapt: bool, goal: Parse,
                 rc1: Rc, bit: bool, c2: Coder, probs2: seq<Prob>)
    requires On(ctx, stage, c, src, probs, adapt, goal) && !stage.Done?
    requires Normalize(View(c, src)) == Norm(rc1) && c2.buf <= |src|
    requires stage.AtDirect? ==> DirectBit(rc1) == (bit, View(c2, src)) && probs2 == probs
    requires AsksProb(stage) ==>
               var slot := Slot(ctx, stage);
               && ModelledBit(rc1, probs[slot]) == (bit, View(c2, src))
               && probs2 == if adapt then probs[slot := Adapt(probs[slot], bit)] else probs
    ensures On(ctx, Advance(ctx, stage, bit), c2, src, probs2, adapt, goal)
  {
    LeadsOn(ctx, stage, View(c, src), probs, adapt, goal);
    assert Decide(ctx, stage, View(c, src), probs, adapt) == BitStep(bit, View(c2, src), probs2);
  }

  /** The coder after one side of the split has been chosen. */
  method Split(c: Coder, ttt: Prob, src: seq<byte>) returns (bit: bool, c': Coder)
    requires c.buf <= |src| && View(c, src).Normalized()
    ensures c'.buf == c.buf && ModelledBit(View(c, src), ttt) == (bit, View(c', src))
  {
    var bound := (c.range / BIT_MODEL_TOTAL) * ttt;
    if c.code < bound {
      c' := Coder(bound, c.code, c.buf);
      bit := false;
    } else {
      c' := Coder(c.range - bound, c.code - bound, c.buf);
      bit := true;
    }
  }

  /** IF_BIT_0 with UPDATE_0 or UPDATE_1 in its branches. */
  method GetBit(probs: array<Prob>, p: int, c: Coder, src: seq<byte>, ghost ctx: Ctx, ghost stage: Stage, ghost goal: Parse)
    returns (bit: bool, c': Coder)
    requires On(ctx, stage, c, src, probs[..], true, goal) && goal.Parsed?
    requires AsksProb(stage) && Slot(ctx, stage) == p
    modifies probs
    ensures c.buf <= c'.buf
    ensures On(ctx, Advance(ctx, stage, bit), c', src, probs[..], true, goal)
  {
    LeadsFed(ctx, stage, View(c, src), probs[..], true, goal);
    var ttt := probs[p];
    c' := Shift(c, src);
    ghost var rc1 := View(c', src);
    bit, c' := Split(c', ttt, src);
    if bit {
      probs[p] := ttt - ttt / MOVE_DIVISOR;
    } else {
      probs[p] := ttt + (BIT_MODEL_TOTAL - ttt) / MOVE_DIVISOR;
    }
    BitTaken(ctx, stage, c, src, old(probs[..]), true, goal, rc1, bit, c', probs[..]);
  }

  /** IF_BIT_0_CHECK with UPDATE_0_CHECK or UPDATE_1_CHECK in its branches. */
  method GetBitCheck(probs: array<Prob>, p: int, c: Coder, src: seq<byte>, ghost ctx: Ctx, ghost stage: Stage, ghost goal: Parse)
    returns (ok: bool, bit: bool, c': Coder)
    requires On(ctx, stage, c, src, probs[..], false, goal)
    requires AsksProb(stage) && Slot(ctx, stage) == p
    ensures !ok ==> goal.Short?
    ensures ok ==> On(ctx, Advance(ctx, stage, bit), c', src, probs[..], false, goal)
  {
    LeadsFed(ctx, stage, View(c, src), probs[..], false, goal);
    var ttt := probs[p];
    bit := false;
    ok, c' := ShiftCheck(c, src);
    if ok {
      ghost var rc1 := View(c', src);
      bit, c' := Split(c', ttt, src);
      BitTaken(ctx, stage, c, src, probs[..], false, goal, rc1, bit, c', probs[..]);
    }
  }

  /** The coder after the half that the sign of code - range selects. */
  method Halve(c: Coder, src: seq<byte>) returns (t: int, c': Coder)
    requires c.buf <= |src| && View(c, src).Normalized()
    ensures t == 0 || t == U32 - 1
    ensures c'.buf == c.buf && DirectBit(View(c, src)) == (t == 0, View(c', src))
  {
    var range := c.range / 2;
    var code := (c.code - range) % U32;
    t := (0 - code / 0x8000_0000) % U32;
    RestoreCode(c.code, range);
    code := (code + MaskWord(range, t)) % U32;
    c' := Coder(range, code, c.buf);
  }

  /** One direct bit of the real decoder: the sign of code - range selects, by an
      all-ones word t, whether range is added back. */
  method GetDirectBit(ghost probs: seq<Prob>, c: Coder, src: seq<byte>, ghost ctx: Ctx, ghost stage: Stage, ghost goal: Parse)
    returns (t: int, c': Coder)
    requires On(ctx, stage, c, src, probs, true, goal) && goal.Parsed?
    requires stage.AtDirect?
    ensures t == 0 || t == U32 - 1
    ensures c.buf <= c'.buf
    ensures On(ctx, Advance(ctx, stage, t == 0), c', src, probs, true, goal)
  {
    LeadsFed(ctx, stage, View(c, src), probs, true, goal);
    c' := Shift(c, src);
    ghost var rc1 := View(c', src);
    t, c' := Halve(c', src);
    BitTaken(ctx, stage, c, src, probs, true, goal, rc1, t == 0, c', probs);
  }

  /** One direct bit of the dry run: the mask is the complement of the sign. */
  method GetDirectBitCheck(ghost probs: seq<Prob>, c: Coder, src: seq<byte>, ghost ctx: Ctx, ghost stage: Stage, ghost goal: Parse)
    returns (ok: bool, c': Coder, ghost bit: bool)
    requires On(ctx, stage, c, src, probs, false, goal)
    requires stage.AtDirect?
    ensures !ok ==> goal.Short?
    ensures ok ==> On(ctx, Advance(ctx, stage, bit), c', src, probs, false, goal)
  {
    LeadsFed(ctx, stage, View(c, src), probs, false, goal);
    bit := false;
    ok, c' := ShiftCheck(c, src);
    if ok {
      ghost var rc1 := View(c', src);
      var range := c'.range / 2;
      var sign := ((c'.code - range) % U32) / 0x8000_0000;
      var code := (c'.code - MaskWord(range, (sign - 1) % U32)) % U32;
      c' := Coder(range, code, c'.buf);
      bit := sign == 0;
      BitTaken(ctx, stage, c, src, probs, false, goal, rc1, bit, c', probs);
    }
  }

  /** The AND of a word with all zeros or all ones. */
  function MaskWord(x: int, mask: int): int
    requires mask == 0 || mask == U32 - 1
  {
    if mask == 0 then 0 else x
  }

  lemma RestoreCode(code: int, half: int)
    requires 0 <= code < U32 && 0 <= half < U32
    ensures (((code - half) % U32) + half) % U32 == code
  {
  }

  /** The stage of a bit tree at one of its nodes, and after its last bit. */
  ghost function NodeStage(tree: Stage, node: nat): Stage
    requires tree.AtLen? || tree.AtSlot?
  {
    if tree.AtLen? then AtLen(tree.kind, tree.part, node) else AtSlot(tree.len, node)
  }

  ghost function TreeSize(tree: Stage): nat
    requires tree.AtLen? || tree.AtSlot?
  {
    if tree.AtLen? then PartSize(tree.part) else POS_SLOTS
  }

  ghost function LeafStage(tree: Stage, node: nat): Stage
    requires (tree.AtLen? || tree.AtSlot?) && TreeSize(tree) <= node
  {
    if tree.AtLen? then AfterLen(tree.kind, node - PartSize(tree.part) + PartStart(tree.part))
    else AfterSlot(tree.len, node - POS_SLOTS)
  }

  ghost predicate TreeOn(ctx: Ctx, tree: Stage, base: int, i: nat, limit: nat,
                         c: Coder, src: seq<byte>, probs: seq<Prob>, adapt: bool, goal: Parse)
  {
    && (tree.AtLen? || tree.AtSlot?) && limit == TreeSize(tree) && 1 <= i < 2 * limit
    && ctx.Valid() && StageOk(NodeStage(tree, 1)) && AsksProb(NodeStage(tree, 1))
    && Slot(ctx, NodeStage(tree, 1)) == base + 1
    && On(ctx, if i < limit then NodeStage(tree, i) else LeafStage(tree, i), c, src, probs, adapt, goal)
  }

  lemma TreeStep(ctx: Ctx, tree: Stage, base: int, i: nat, limit: nat, bit: bool)
    requires (tree.AtLen? || tree.AtSlot?) && limit == TreeSize(tree) && 1 <= i < limit
    requires ctx.Valid() && StageOk(NodeStage(tree, 1)) && Slot(ctx, NodeStage(tree, 1)) == base + 1
    ensures StageOk(NodeStage(tree, i)) && Slot(ctx, NodeStage(tree, i)) == base + i
    ensures var next := 2 * i + Bit(bit);
            Advance(ctx, NodeStage(tree, i), bit) == if next < limit then NodeStage(tree, next) else LeafStage(tree, next)
  {
  }

  /** TREE_GET_BIT until the leaves. */
  method DecodeTree(probs: array<Prob>, base: int, limit: nat, c: Coder, src: seq<byte>,
                    ghost ctx: Ctx, ghost tree: Stage, ghost goal: Parse)
    returns (i: nat, c': Coder)
    requires TreeOn(ctx, tree, base, 1, limit, c, src, probs[..], true, goal) && goal.Parsed?
    modifies probs
    ensures limit <= i && c.buf <= c'.buf
    ensures TreeOn(ctx, tree, base, i, limit, c', src, probs[..], true, goal)
  {
    i, c' := 1, c;
    while i < limit
      invariant TreeOn(ctx, tree, base, i, limit, c', src, probs[..], true, goal)
      invariant c.buf <= c'.buf
      decreases limit - i
    {
      var bit;
      TreeStep(ctx, tree, base, i, limit, true);
      TreeStep(ctx, tree, base, i, limit, false);
      bit, c' := GetBit(probs, base + i, c', src, ctx, NodeStage(tree, i), goal);
      i := if bit then i + i + 1 else i + i;
    }
  }

  method DecodeTreeCheck(probs: array<Prob>, base: int, limit: nat, c: Coder, src: seq<byte>,
                         ghost ctx: Ctx, ghost tree: Stage, ghost goal: Parse)
    returns (ok: bool, i: nat, c': Coder)
    requires TreeOn(ctx, tree, base, 1, limit, c, src, probs[..], false, goal)
    ensures !ok ==> goal.Short?
    ensures ok ==> limit <= i && TreeOn(ctx, tree, base, i, limit, c', src, probs[..], false, goal)
  {
    ok, i, c' := true, 1, c;
    while i < limit
      invariant ok && TreeOn(ctx, tree, base, i, limit, c', src, probs[..], false, goal)
      decreases limit - i
    {
      var bit;
      TreeStep(ctx, tree, base, i, limit, true);
      TreeStep(ctx, tree, base, i, limit, false);
      ok, bit, c' := GetBitCheck(probs, base + i, c', src, ctx, NodeStage(tree, i), goal);
      if !ok {
        return;
      }
      i := if bit then i + i + 1 else i + i;
    }
  }
}
