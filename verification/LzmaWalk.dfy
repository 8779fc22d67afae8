/** The decision machine spells every symbol as its bits say: reading them leads from the
    first stage to the symbol, and each stage asks for the probability that is named. */
module LzmaWalk {
  import opened Words
  import opened LzmaLayout
  import opened LzmaSymbol
  import opened LzmaHistory

  // ---- Where the named probabilities are ----

  function LenBase(rep: bool): int {
    if rep then REP_LEN_CODER else LEN_CODER
  }

  function TreeStart(tree: Tree): int {
    match tree
    case LowTree(rep, posState) => LenBase(rep) + 16 * posState
    case MidTree(rep, posState) => LenBase(rep) + 16 * posState + 8
    case HighTree(rep) => LenBase(rep) + LEN_HIGH
    case SlotTree(lenState) => POS_SLOT + POS_SLOTS * lenState
  }

  function TreeBits(tree: Tree): nat {
    match tree
    case LowTree(_, _) => 3
    case MidTree(_, _) => 3
    case HighTree(_) => 8
    case SlotTree(_) => 6
  }

  function TreeSize(tree: Tree): nat {
    match tree
    case LowTree(_, _) => 8
    case MidTree(_, _) => 8
    case HighTree(_) => 256
    case SlotTree(_) => 64
  }

  /** The place of a name in the decoder's array. */
  function Place(name: Name): int {
    START_OFFSET + match name
    case IsMatchAt(state, posState) => IS_MATCH + 16 * posState + state
    case IsRepAt(state) => IS_REP + state
    case IsRepG0At(state) => IS_REP_G0 + state
    case IsRepG1At(state) => IS_REP_G1 + state
    case IsRepG2At(state) => IS_REP_G2 + state
    case IsRep0LongAt(state, posState) => IS_REP0_LONG + 16 * posState + state
    case LiteralAt(coder, table, node) => LITERAL + LIT_SIZE * coder + 0x100 * table + node
    case ChoiceAt(rep) => LenBase(rep) + LEN_CHOICE
    case Choice2At(rep) => LenBase(rep) + LEN_CHOICE2
    case TreeAt(tree, node) => TreeStart(tree) + node
    case SpecialAt(slot, mark) => SPEC_POS + SpecBase(slot) + mark
    case AlignAt(mark) => ALIGN + mark
  }

  predicate TreeOk(tree: Tree) {
    match tree
    case LowTree(_, posState) => posState < 16
    case MidTree(_, posState) => posState < 16
    case HighTree(_) => true
    case SlotTree(lenState) => lenState < 4
  }

  /** A name that a stream with so many literal coders can use. */
  predicate NameOk(coders: nat, name: Name) {
    match name
    case IsMatchAt(state, posState) => state < 12 && posState < 16
    case IsRepAt(state) => state < 12
    case IsRepG0At(state) => state < 12
    case IsRepG1At(state) => state < 12
    case IsRepG2At(state) => state < 12
    case IsRep0LongAt(state, posState) => state < 12 && posState < 16
    case LiteralAt(coder, table, node) => coder < coders && table < 3 && 1 <= node < 256
    case ChoiceAt(_) => true
    case Choice2At(_) => true
    case TreeAt(tree, node) => TreeOk(tree) && 1 <= node < TreeSize(tree)
    case SpecialAt(slot, mark) => 4 <= slot < 14 && 1 <= mark < SpecSize(slot)
    case AlignAt(mark) => 1 <= mark < 16
  }

  /** What a place is for. */
  function NameAt(place: int): Name {
    var off := place - START_OFFSET;
    if off < IS_REP0_LONG then SpecialNameAt(off - SPEC_POS)
    else if off < REP_LEN_CODER then IsRep0LongAt(Low4(off - IS_REP0_LONG), High4(off - IS_REP0_LONG))
    else if off < LEN_CODER then LenNameAt(true, off - REP_LEN_CODER)
    else if off < IS_MATCH then LenNameAt(false, off - LEN_CODER)
    else if off < ALIGN then IsMatchAt(Low4(off - IS_MATCH), High4(off - IS_MATCH))
    else if off < IS_REP then AlignAt(off - ALIGN)
    else if off < IS_REP_G0 then IsRepAt(off - IS_REP)
    else if off < IS_REP_G1 then IsRepG0At(off - IS_REP_G0)
    else if off < IS_REP_G2 then IsRepG1At(off - IS_REP_G1)
    else if off < POS_SLOT then IsRepG2At(off - IS_REP_G2)
    else if off < LITERAL then TreeAt(SlotTree((off - POS_SLOT) / 64), (off - POS_SLOT) % 64)
    else LiteralNameAt(off - LITERAL)
  }

  function Low4(off: int): nat {
    off % 16
  }

  function High4(off: int): nat {
    if off < 0 then 0 else off / 16
  }

  function LiteralNameAt(off: nat): Name {
    LiteralAt(off / LIT_SIZE, (off % LIT_SIZE) / 0x100, (off % LIT_SIZE) % 0x100)
  }

  function LenNameAt(rep: bool, off: nat): Name {
    if off >= LEN_HIGH then TreeAt(HighTree(rep), off - LEN_HIGH)
    else if off == LEN_CHOICE then ChoiceAt(rep)
    else if off == LEN_CHOICE2 then Choice2At(rep)
    else if off % 16 < 8 then TreeAt(LowTree(rep, off / 16), off % 16)
    else TreeAt(MidTree(rep, off / 16), off % 16 - 8)
  }

  function SpecialNameAt(off: int): Name {
    var slot := if off < 6 then 4 else if off < 8 then 5 else if off < 12 then 6 else if off < 16 then 7
                else if off < 24 then 8 else if off < 32 then 9 else if off < 48 then 10 else if off < 64 then 11
                else if off < 96 then 12 else 13;
    SpecialAt(slot, if off < SpecBase(slot) then 0 else off - SpecBase(slot))
  }

  /** So no two names share a place. */
  lemma PlaceIsOwn(coders: nat, name: Name)
    requires NameOk(coders, name)
    ensures NameAt(Place(name)) == name
  {
    match name
    case IsMatchAt(state, posState) => DivModUnique(16 * posState + state, 16, posState, state);
    case IsRep0LongAt(state, posState) => DivModUnique(16 * posState + state, 16, posState, state);
    case LiteralAt(coder, table, node) => LiteralPlace(coder, table, node);
    case TreeAt(tree, node) => TreePlace(tree, node);
    case _ =>
  }

  /** Each lies in the decoder's array. */
  lemma PlaceFits(coders: nat, name: Name)
    requires NameOk(coders, name)
    ensures 0 <= Place(name) < NUM_BASE_PROBS + LIT_SIZE * coders
  {
    match name
    case LiteralAt(coder, _, _) => MulOrder(coder, coders, LIT_SIZE);
    case _ =>
  }

  lemma LiteralPlace(coder: nat, table: nat, node: nat)
    requires table < 3 && 1 <= node < 256
    ensures LiteralNameAt(LIT_SIZE * coder + 0x100 * table + node) == LiteralAt(coder, table, node)
  {
    DivModUnique(LIT_SIZE * coder + 0x100 * table + node, LIT_SIZE, coder, 0x100 * table + node);
    DivModUnique(0x100 * table + node, 0x100, table, node);
  }

  lemma TreePlace(tree: Tree, node: nat)
    requires TreeOk(tree) && 1 <= node < TreeSize(tree)
    ensures NameAt(Place(TreeAt(tree, node))) == TreeAt(tree, node)
  {
    match tree
    case LowTree(_, posState) => DivModUnique(16 * posState + node, 16, posState, node);
    case MidTree(_, posState) => DivModUnique(16 * posState + (8 + node), 16, posState, 8 + node);
    case SlotTree(lenState) => DivModUnique(64 * lenState + node, 64, lenState, node);
    case HighTree(_) =>
  }

  // ---- Walking ----

  /** The stage asks for this event's bit, under the probability it names. */
  predicate Asks(ctx: Ctx, coders: nat, stage: Stage, e: Event) {
    && ctx.Valid() && StageOk(stage) && !stage.Done?
    && match e
       case Plain(_) => stage.AtDirect?
       case Modelled(name, _) => !stage.AtDirect? && NameOk(coders, name) && Slot(ctx, stage) == Place(name)
  }

  /** Reading the events leads from one stage to another. */
  predicate Through(ctx: Ctx, coders: nat, stage: Stage, events: seq<Event>, to: Stage)
    decreases |events|
  {
    if events == [] then stage == to
    else Asks(ctx, coders, stage, events[0]) && Through(ctx, coders, Advance(ctx, stage, events[0].bit), events[1..], to)
  }

  predicate AskedThrough(key: Key, stage: Stage, events: seq<Event>) {
    true
  }

  ghost predicate Spelled(key: Key, ctx: Ctx, coders: nat, stage: Stage, events: seq<Event>, to: Stage) {
    forall k: Key {:trigger AskedThrough(k, stage, events)} :: AskedThrough(k, stage, events) ==>
      Through(ctx, coders, stage, events, to)
  }

  /** The same, kept under a key. */
  ghost predicate Spells(ctx: Ctx, coders: nat, stage: Stage, events: seq<Event>, to: Stage) {
    exists key: Key {:trigger Spelled(key, ctx, coders, stage, events, to)} :: Spelled(key, ctx, coders, stage, events, to)
  }

  lemma IsThrough(ctx: Ctx, coders: nat, stage: Stage, events: seq<Event>, to: Stage)
    requires Spells(ctx, coders, stage, events, to)
    ensures Through(ctx, coders, stage, events, to)
  {
    assert AskedThrough(Key, stage, events);
  }

  lemma {:induction false} SpellsTwice(ctx: Ctx, coders: nat, a: Stage, e: seq<Event>, b: Stage, f: seq<Event>, c: Stage)
    requires Spells(ctx, coders, a, e, b) && Spells(ctx, coders, b, f, c)
    ensures Spells(ctx, coders, a, e + f, c)
    decreases |e|
  {
    if e == [] {
      IsThrough(ctx, coders, a, e, b);
      assert e + f == f;
    } else {
      var next := FirstAsked(ctx, coders, a, e, b);
      SpellsTwice(ctx, coders, next, e[1..], b, f, c);
      SpellsFirst(ctx, coders, a, e[0], next, e[1..] + f, c);
      assert e + f == [e[0]] + (e[1..] + f);
    }
  }

  lemma FirstAsked(ctx: Ctx, coders: nat, a: Stage, e: seq<Event>, b: Stage) returns (next: Stage)
    requires Spells(ctx, coders, a, e, b) && e != []
    ensures Asks(ctx, coders, a, e[0]) && next == Advance(ctx, a, e[0].bit) && Spells(ctx, coders, next, e[1..], b)
  {
    IsThrough(ctx, coders, a, e, b);
    next := Advance(ctx, a, e[0].bit);
    assert Spelled(Key, ctx, coders, next, e[1..], b);
  }

  lemma SpellsNothing(ctx: Ctx, coders: nat, stage: Stage)
    ensures Spells(ctx, coders, stage, [], stage)
  {
    assert Spelled(Key, ctx, coders, stage, [], stage);
  }

  lemma SpellsFirst(ctx: Ctx, coders: nat, stage: Stage, e: Event, next: Stage, rest: seq<Event>, to: Stage)
    requires Asks(ctx, coders, stage, e) && next == Advance(ctx, stage, e.bit) && Spells(ctx, coders, next, rest, to)
    ensures Spells(ctx, coders, stage, [e] + rest, to)
  {
    IsThrough(ctx, coders, next, rest, to);
    assert ([e] + rest)[1..] == rest;
    assert Spelled(Key, ctx, coders, stage, [e] + rest, to);
  }

  lemma SpellsOne(ctx: Ctx, coders: nat, stage: Stage, e: Event, next: Stage)
    requires Asks(ctx, coders, stage, e) && next == Advance(ctx, stage, e.bit)
    ensures Spells(ctx, coders, stage, [e], next)
  {
    SpellsNothing(ctx, coders, next);
    SpellsFirst(ctx, coders, stage, e, next, [], next);
    assert [e] + [] == [e];
  }

  // ---- Bits of numbers ----

  /** One more high bit of v. */
  lemma {:induction false} NextHighBit(v: nat, r: nat)
    requires r > 0
    ensures Above(v, r - 1) == 2 * Above(v, r) + Bit(BitAt(v, r - 1))
  {
    if r > 1 {
      NextHighBit(v / 2, r - 1);
    }
  }

  /** One more low bit of v. */
  lemma {:induction false} NextLowBit(v: nat, k: nat)
    ensures Below(v, k + 1) == Below(v, k) + Weighted(BitAt(v, k), Pow2(k))
  {
    if k > 0 {
      NextLowBit(v / 2, k - 1);
    }
  }

  lemma {:induction false} BelowFits(v: nat, k: nat)
    ensures Below(v, k) < Pow2(k)
  {
    if k > 0 {
      BelowFits(v / 2, k - 1);
    }
  }

  lemma {:induction false} HighPart(v: nat, n: nat, r: nat)
    requires r <= n && v < Pow2(n)
    ensures Above(v, r) < Pow2(n - r)
    decreases r
  {
    if r > 0 {
      HighPart(v / 2, n - 1, r - 1);
    }
  }

  // ---- Trees ----

  function Node(v: nat, n: nat, r: nat): nat
    requires r <= n
  {
    Pow2(n - r) + Above(v, r)
  }

  lemma NodeNext(v: nat, n: nat, r: nat)
    requires 0 < r <= n && v < Pow2(n)
    ensures 1 <= Node(v, n, r) && Node(v, n, r) < 2 * Pow2(n - r) <= Pow2(n)
    ensures 2 * Node(v, n, r) + Bit(BitAt(v, r - 1)) == Node(v, n, r - 1)
    ensures r > 1 ==> Node(v, n, r - 1) < Pow2(n)
    ensures r == 1 ==> Node(v, n, r - 1) == Pow2(n) + v
  {
    HighPart(v, n, r);
    HighPart(v, n, r - 1);
    NextHighBit(v, r);
    PowersGrow(n - r + 1, n);
    if r > 1 {
      PowersGrow(n - r + 2, n);
    }
  }

  lemma {:induction false} PowersGrow(a: nat, b: nat)
    requires a <= b
    ensures Pow2(a) <= Pow2(b)
    decreases b
  {
    if a < b {
      PowersGrow(a, b - 1);
    }
  }

  lemma SmallPowers()
    ensures Pow2(3) == 8 && Pow2(6) == 64 && Pow2(8) == 256
  {
    assert Pow2(3) == 8;
    assert Pow2(6) == 8 * Pow2(3);
  }

  /** What a symbol's parse looks at, as its setting says. */
  predicate Fits(ctx: Ctx, coders: nat, s: Setting) {
    && ctx.Valid() && ctx.state == s.state && ctx.posState == 16 * s.posState
    && ctx.litBase == LIT_SIZE * s.coder && s.coder < coders && (s.state >= 7 ==> ctx.matchByte == s.matchByte)
  }

  predicate LenTree(kind: Kind, part: Part, tree: Tree, posState: nat) {
    match part
    case Low => tree == LowTree(kind.OldMatch?, posState)
    case Mid => tree == MidTree(kind.OldMatch?, posState)
    case High => tree == HighTree(kind.OldMatch?)
  }

  lemma {:induction false} LenTreeWalk(ctx: Ctx, coders: nat, kind: Kind, part: Part, tree: Tree, posState: nat, v: nat, n: nat, r: nat)
    requires ctx.Valid() && ctx.posState == 16 * posState && KindOk(kind) && LenTree(kind, part, tree, posState)
    requires 0 < r <= n == TreeBits(tree) && v < TreeSize(tree)
    ensures Spells(ctx, coders, AtLen(kind, part, Node(v, n, r)), TreeEvents(tree, v, r, Node(v, n, r)),
                   AfterLen(kind, v + PartStart(part)))
    decreases r
  {
    TreeNext(tree, v, n, r);
    var node, next, to := Node(v, n, r), Node(v, n, r - 1), AfterLen(kind, v + PartStart(part));
    var e := Modelled(TreeAt(tree, node), BitAt(v, r - 1));
    LenAsks(ctx, coders, kind, part, tree, posState, node, e.bit, next, r == 1);
    if r > 1 {
      LenTreeWalk(ctx, coders, kind, part, tree, posState, v, n, r - 1);
      SpellsFirst(ctx, coders, AtLen(kind, part, node), e, AtLen(kind, part, next), TreeEvents(tree, v, r - 1, next), to);
    } else {
      SpellsNothing(ctx, coders, to);
      SpellsFirst(ctx, coders, AtLen(kind, part, node), e, to, [], to);
      assert TreeEvents(tree, v, 1, node) == [e] + [];
    }
  }

  lemma TreeNext(tree: Tree, v: nat, n: nat, r: nat)
    requires 0 < r <= n == TreeBits(tree) && v < TreeSize(tree)
    ensures 1 <= Node(v, n, r) < TreeSize(tree) && Node(v, n, r - 1) == 2 * Node(v, n, r) + Bit(BitAt(v, r - 1))
    ensures if r > 1 then Node(v, n, r - 1) < TreeSize(tree) else Node(v, n, r - 1) == TreeSize(tree) + v
  {
    SmallPowers();
    NodeNext(v, n, r);
  }

  lemma LenAsks(ctx: Ctx, coders: nat, kind: Kind, part: Part, tree: Tree, posState: nat, node: nat, bit: bool, next: nat, last: bool)
    requires ctx.Valid() && ctx.posState == 16 * posState && KindOk(kind) && LenTree(kind, part, tree, posState)
    requires 1 <= node < TreeSize(tree) && next == 2 * node + Bit(bit) && (last <==> next >= TreeSize(tree))
    ensures Asks(ctx, coders, AtLen(kind, part, node), Modelled(TreeAt(tree, node), bit))
    ensures Advance(ctx, AtLen(kind, part, node), bit)
         == if last then AfterLen(kind, next - TreeSize(tree) + PartStart(part)) else AtLen(kind, part, next)
  {
  }

  lemma {:induction false} SlotTreeWalk(ctx: Ctx, coders: nat, len: nat, tree: Tree, v: nat, r: nat)
    requires ctx.Valid() && len <= 271 && 0 < r <= 6 && v < 64 && tree == SlotTree(if len < 3 then len else 3)
    ensures Spells(ctx, coders, AtSlot(len, Node(v, 6, r)), TreeEvents(tree, v, r, Node(v, 6, r)), AfterSlot(len, v))
    decreases r
  {
    TreeNext(tree, v, 6, r);
    var node, next, to := Node(v, 6, r), Node(v, 6, r - 1), AfterSlot(len, v);
    if r > 1 {
      SlotTreeWalk(ctx, coders, len, tree, v, r - 1);
    } else {
      SpellsNothing(ctx, coders, to);
      assert TreeEvents(tree, v, 0, next) == [];
    }
    SlotStep(ctx, coders, len, tree, node, BitAt(v, r - 1), next, TreeEvents(tree, v, r - 1, next), to);
  }

  lemma SlotStep(ctx: Ctx, coders: nat, len: nat, tree: Tree, node: nat, bit: bool, next: nat, rest: seq<Event>, to: Stage)
    requires ctx.Valid() && len <= 271 && 1 <= node < 64 && tree == SlotTree(if len < 3 then len else 3)
    requires next == 2 * node + Bit(bit)
    requires Spells(ctx, coders, if next >= 64 then AfterSlot(len, next - 64) else AtSlot(len, next), rest, to)
    ensures Spells(ctx, coders, AtSlot(len, node), [Modelled(TreeAt(tree, node), bit)] + rest, to)
  {
    SlotAsks(ctx, coders, len, tree, node, bit, next);
    SpellsFirst(ctx, coders, AtSlot(len, node), Modelled(TreeAt(tree, node), bit),
                if next >= 64 then AfterSlot(len, next - 64) else AtSlot(len, next), rest, to);
  }

  lemma SlotAsks(ctx: Ctx, coders: nat, len: nat, tree: Tree, node: nat, bit: bool, next: nat)
    requires ctx.Valid() && len <= 271 && 1 <= node < 64 && tree == SlotTree(if len < 3 then len else 3)
    requires next == 2 * node + Bit(bit)
    ensures Asks(ctx, coders, AtSlot(len, node), Modelled(TreeAt(tree, node), bit))
    ensures Advance(ctx, AtSlot(len, node), bit) == if next >= 64 then AfterSlot(len, next - 64) else AtSlot(len, next)
  {
  }

  /** The top bit of a match byte that has been shifted left. */
  lemma MatchBits(m: byte, r: nat)
    requires 0 < r <= 8
    ensures var bits := Below(m, r) * Pow2(8 - r);
            && bits < 256 && bits / 128 == Bit(BitAt(m, r - 1)) && (bits >= 128 <==> BitAt(m, r - 1))
            && (bits * 2) % 256 == Below(m, r - 1) * Pow2(9 - r)
  {
    NextLowBit(m, r - 1);
    BelowFits(m, r - 1);
    ByteParts(r);
    TopOfByte(Below(m, r - 1), BitAt(m, r - 1), Pow2(r - 1), Pow2(8 - r), Pow2(9 - r));
  }

  lemma ByteParts(r: nat)
    requires 0 < r <= 8
    ensures Pow2(r - 1) * Pow2(8 - r) == 128 && Pow2(9 - r) == 2 * Pow2(8 - r)
  {
    ShlPow2(r - 1, 8 - r);
    ShlIsTimes(Pow2(r - 1), 8 - r);
    assert Pow2(7) == 128;
  }

  lemma TopOfByte(x: nat, bit: bool, q: nat, p: nat, p2: nat)
    requires x < q && q * p == 128 && p2 == 2 * p
    ensures var bits := (x + Weighted(bit, q)) * p;
            bits < 256 && bits / 128 == Bit(bit) && (bits >= 128 <==> bit) && (bits * 2) % 256 == x * p2
  {
    MulDistribute(x, Weighted(bit, q), p);
    MulOrder(x, q, p);
    NotNegative(x, p);
    MulAssoc(x, 2, p);
    MulCommute(x, 2);
    MulAssoc(2, x, p);
  }

  lemma {:induction false} LiteralWalk(ctx: Ctx, coders: nat, coder: nat, v: byte, r: nat, same: bool, m: byte, bits: byte)
    requires ctx.Valid() && ctx.litBase == LIT_SIZE * coder && coder < coders && 0 < r <= 8
    requires same ==> bits == Below(m, r) * Pow2(8 - r)
    ensures Spells(ctx, coders, AtLiteral(Node(v, 8, r), same, bits), LiteralEvents(coder, v, r, Node(v, 8, r), same, m),
                   Done(Literal(v)))
    decreases r
  {
    SmallPowers();
    NodeNext(v, 8, r);
    MatchBits(m, r);
    var bit, other, node, next := BitAt(v, r - 1), BitAt(m, r - 1), Node(v, 8, r), Node(v, 8, r - 1);
    var same', bits' := same && bit == other, (bits * 2) % 256;
    if r > 1 {
      LiteralWalk(ctx, coders, coder, v, r - 1, same', m, bits');
    } else {
      SpellsNothing(ctx, coders, Done(Literal(v)));
      assert LiteralEvents(coder, v, 0, next, same', m) == [];
    }
    LiteralStep(ctx, coders, coder, node, same, bits, other, bit, next, LiteralEvents(coder, v, r - 1, next, same', m),
                Done(Literal(v)));
  }

  lemma LiteralStep(ctx: Ctx, coders: nat, coder: nat, node: nat, same: bool, bits: byte, other: bool, bit: bool, next: nat,
                    rest: seq<Event>, to: Stage)
    requires ctx.Valid() && ctx.litBase == LIT_SIZE * coder && coder < coders && 1 <= node < 256
    requires same ==> bits / 128 == Bit(other)
    requires next == 2 * node + Bit(bit)
    requires Spells(ctx, coders, if 256 <= next then Done(Literal(next - 256)) else AtLiteral(next, same && bit == other, (bits * 2) % 256),
                    rest, to)
    ensures Spells(ctx, coders, AtLiteral(node, same, bits),
                   [Modelled(LiteralAt(coder, if same then 1 + Bit(other) else 0, node), bit)] + rest, to)
  {
    LiteralAsks(ctx, coders, coder, node, same, bits, other, bit, next);
    SpellsFirst(ctx, coders, AtLiteral(node, same, bits), Modelled(LiteralAt(coder, if same then 1 + Bit(other) else 0, node), bit),
                if 256 <= next then Done(Literal(next - 256)) else AtLiteral(next, same && bit == other, (bits * 2) % 256), rest, to);
  }

  lemma LiteralAsks(ctx: Ctx, coders: nat, coder: nat, node: nat, same: bool, bits: byte, other: bool, bit: bool, next: nat)
    requires ctx.Valid() && ctx.litBase == LIT_SIZE * coder && coder < coders && 1 <= node < 256
    requires same ==> bits / 128 == Bit(other)
    requires next == 2 * node + Bit(bit)
    ensures Asks(ctx, coders, AtLiteral(node, same, bits),
                 Modelled(LiteralAt(coder, if same then 1 + Bit(other) else 0, node), bit))
    ensures Advance(ctx, AtLiteral(node, same, bits), bit)
         == if 256 <= next then Done(Literal(next - 256)) else AtLiteral(next, same && bit == other, (bits * 2) % 256)
  {
  }

  // ---- Lengths and distances ----

  lemma FromRoot(v: nat, n: nat)
    requires v < Pow2(n)
    ensures Node(v, n, n) == 1
  {
    HighPart(v, n, n);
  }

  lemma LenFromRoot(ctx: Ctx, coders: nat, kind: Kind, part: Part, tree: Tree, posState: nat, v: nat, n: nat)
    requires ctx.Valid() && ctx.posState == 16 * posState && KindOk(kind) && LenTree(kind, part, tree, posState)
    requires n == TreeBits(tree) && v < TreeSize(tree)
    ensures Spells(ctx, coders, AtLen(kind, part, 1), TreeEvents(tree, v, n, 1), AfterLen(kind, v + PartStart(part)))
  {
    SmallPowers();
    FromRoot(v, n);
    LenTreeWalk(ctx, coders, kind, part, tree, posState, v, n, n);
  }

  /** A length from its first choice on. */
  lemma LenWalk(ctx: Ctx, coders: nat, kind: Kind, posState: nat, len: nat)
    requires ctx.Valid() && ctx.posState == 16 * posState && KindOk(kind) && len <= 271
    ensures Spells(ctx, coders, AtChoice(kind), LenEvents(kind.OldMatch?, posState, len), AfterLen(kind, len))
  {
    var rep, to := kind.OldMatch?, AfterLen(kind, len);
    if len < 8 {
      LenFromRoot(ctx, coders, kind, Low, LowTree(rep, posState), posState, len, 3);
      ChoiceAsks(ctx, coders, kind);
      SpellsFirst(ctx, coders, AtChoice(kind), Modelled(ChoiceAt(rep), false), AtLen(kind, Low, 1),
                  TreeEvents(LowTree(rep, posState), len, 3, 1), to);
    } else if len < 16 {
      LenFromRoot(ctx, coders, kind, Mid, MidTree(rep, posState), posState, len - 8, 3);
      SecondChoice(ctx, coders, kind, false, AtLen(kind, Mid, 1), TreeEvents(MidTree(rep, posState), len - 8, 3, 1), to);
    } else {
      LenFromRoot(ctx, coders, kind, High, HighTree(rep), posState, len - 16, 8);
      SecondChoice(ctx, coders, kind, true, AtLen(kind, High, 1), TreeEvents(HighTree(rep), len - 16, 8, 1), to);
    }
  }

  lemma ChoiceAsks(ctx: Ctx, coders: nat, kind: Kind)
    requires ctx.Valid() && KindOk(kind)
    ensures Asks(ctx, coders, AtChoice(kind), Modelled(ChoiceAt(kind.OldMatch?), false))
    ensures Asks(ctx, coders, AtChoice(kind), Modelled(ChoiceAt(kind.OldMatch?), true))
    ensures Asks(ctx, coders, AtChoice2(kind), Modelled(Choice2At(kind.OldMatch?), false))
    ensures Asks(ctx, coders, AtChoice2(kind), Modelled(Choice2At(kind.OldMatch?), true))
  {
  }

  lemma SecondChoice(ctx: Ctx, coders: nat, kind: Kind, high: bool, tree: Stage, rest: seq<Event>, to: Stage)
    requires ctx.Valid() && KindOk(kind) && tree == AtLen(kind, if high then High else Mid, 1) && Spells(ctx, coders, tree, rest, to)
    ensures Spells(ctx, coders, AtChoice(kind), [Modelled(ChoiceAt(kind.OldMatch?), true), Modelled(Choice2At(kind.OldMatch?), high)] + rest, to)
  {
    var one, two := Modelled(ChoiceAt(kind.OldMatch?), true), Modelled(Choice2At(kind.OldMatch?), high);
    ChoiceAsks(ctx, coders, kind);
    SpellsFirst(ctx, coders, AtChoice2(kind), two, tree, rest, to);
    SpellsFirst(ctx, coders, AtChoice(kind), one, AtChoice2(kind), [two] + rest, to);
    assert [one, two] + rest == [one] + ([two] + rest);
  }

  /** A slot says where the two highest bits are and what they are. */
  lemma {:induction false} SlotSays(distance: nat, bits: nat)
    requires distance < Pow2(bits)
    ensures var slot := PosSlot(distance);
            && slot < 2 * bits + 2
            && if distance < 4 then slot == distance
               else 4 <= slot && Above(distance, slot / 2 - 1) == 2 + slot % 2
    decreases distance
  {
    if distance >= 4 {
      if bits > 0 {
        SlotSays(distance / 2, bits - 1);
      }
    }
  }

  lemma {:induction false} Rejoined(v: nat, k: nat)
    ensures v == Above(v, k) * Pow2(k) + Below(v, k)
  {
    if k > 0 {
      Rejoined(v / 2, k - 1);
      MulAssoc(Above(v, k), Pow2(k - 1), 2);
      MulCommute(Pow2(k - 1), 2);
    }
  }

  lemma SlotBase(slot: nat)
    requires 4 <= slot < 14
    ensures SpecSize(slot) == Pow2(slot / 2 - 1) && SpecBase(slot) == (2 + slot % 2) * Pow2(slot / 2 - 1)
  {
    assert Pow2(1) == 2 && Pow2(2) == 4 && Pow2(3) == 8 && Pow2(4) == 16 && Pow2(5) == 32;
    var k := slot / 2 - 1;
    assert k == 1 || k == 2 || k == 3 || k == 4 || k == 5;
  }

  /** The bits of a distance that have trees of their own, lowest first. */
  lemma {:induction false} SpecialWalk(ctx: Ctx, coders: nat, len: nat, slot: nat, distance: nat, k: nat, n: nat)
    requires ctx.Valid() && len <= 271 && 4 <= slot < 14 && k < n == slot / 2 - 1
    ensures Spells(ctx, coders, AtSpec(len, slot, Pow2(k), Below(distance, k)), SpecialEvents(slot, distance, k, n),
                   Done(Match(len, SpecBase(slot) + Below(distance, n))))
    decreases n - k
  {
    SlotBase(slot);
    NextLowBit(distance, k);
    BelowFits(distance, k);
    var w, v, to := Pow2(k), Below(distance, k), Done(Match(len, SpecBase(slot) + Below(distance, n)));
    var e := Modelled(SpecialAt(slot, w + v), BitAt(distance, k));
    SpecialAsks(ctx, coders, len, slot, k, n, w, v, e.bit);
    if k + 1 < n {
      SpecialWalk(ctx, coders, len, slot, distance, k + 1, n);
      SpellsFirst(ctx, coders, AtSpec(len, slot, w, v), e, AtSpec(len, slot, 2 * w, Below(distance, k + 1)),
                  SpecialEvents(slot, distance, k + 1, n), to);
    } else {
      SpellsNothing(ctx, coders, to);
      SpellsFirst(ctx, coders, AtSpec(len, slot, w, v), e, to, [], to);
      assert SpecialEvents(slot, distance, k, n) == [e] + [];
    }
  }

  lemma SpecialAsks(ctx: Ctx, coders: nat, len: nat, slot: nat, k: nat, n: nat, w: nat, v: nat, bit: bool)
    requires ctx.Valid() && len <= 271 && 4 <= slot < 14 && k < n == slot / 2 - 1 && w == Pow2(k) && v < w
    ensures Asks(ctx, coders, AtSpec(len, slot, w, v), Modelled(SpecialAt(slot, w + v), bit))
    ensures Advance(ctx, AtSpec(len, slot, w, v), bit)
         == if k + 1 < n then AtSpec(len, slot, 2 * w, v + Weighted(bit, w))
            else Done(Match(len, SpecBase(slot) + (v + Weighted(bit, w))))
  {
    SlotBase(slot);
    Sizes(k, n, w);
  }

  lemma Sizes(k: nat, n: nat, w: nat)
    requires k < n <= 5 && w == Pow2(k)
    ensures IsWeight(w) && 2 * w <= Pow2(n) && (2 * w < Pow2(n) <==> k + 1 < n)
  {
    assert Pow2(1) == 2 && Pow2(2) == 4 && Pow2(3) == 8 && Pow2(4) == 16 && Pow2(5) == 32;
    assert k == 0 || k == 1 || k == 2 || k == 3 || k == 4;
  }

  lemma {:induction false} AlignWalk(ctx: Ctx, coders: nat, len: nat, high: nat, distance: nat, k: nat)
    requires ctx.Valid() && len <= 271 && k < 4 && high <= END_MARK_DISTANCE - 15
    ensures Spells(ctx, coders, AtAlign(len, high, Pow2(k), Below(distance, k)), AlignEvents(distance, k),
                   Done(Match(len, high + Below(distance, 4))))
    decreases 4 - k
  {
    NextLowBit(distance, k);
    BelowFits(distance, k);
    var w, v, to := Pow2(k), Below(distance, k), Done(Match(len, high + Below(distance, 4)));
    if k < 3 {
      AlignWalk(ctx, coders, len, high, distance, k + 1);
    } else {
      SpellsNothing(ctx, coders, to);
      assert AlignEvents(distance, 4) == [];
    }
    AlignStep(ctx, coders, len, high, k, w, v, BitAt(distance, k), AlignEvents(distance, k + 1), to);
  }

  lemma AlignStep(ctx: Ctx, coders: nat, len: nat, high: nat, k: nat, w: nat, v: nat, bit: bool, rest: seq<Event>, to: Stage)
    requires ctx.Valid() && len <= 271 && k < 4 && high <= END_MARK_DISTANCE - 15 && w == Pow2(k) && v < w
    requires Spells(ctx, coders, if k < 3 then AtAlign(len, high, 2 * w, v + Weighted(bit, w))
                                 else Done(Match(len, high + (v + Weighted(bit, w)))), rest, to)
    ensures Spells(ctx, coders, AtAlign(len, high, w, v), [Modelled(AlignAt(w + v), bit)] + rest, to)
  {
    AlignAsks(ctx, coders, len, high, k, w, v, bit);
    SpellsFirst(ctx, coders, AtAlign(len, high, w, v), Modelled(AlignAt(w + v), bit),
                if k < 3 then AtAlign(len, high, 2 * w, v + Weighted(bit, w))
                else Done(Match(len, high + (v + Weighted(bit, w)))), rest, to);
  }

  lemma AlignAsks(ctx: Ctx, coders: nat, len: nat, high: nat, k: nat, w: nat, v: nat, bit: bool)
    requires ctx.Valid() && len <= 271 && k < 4 && high <= END_MARK_DISTANCE - 15 && w == Pow2(k) && v < w
    ensures Asks(ctx, coders, AtAlign(len, high, w, v), Modelled(AlignAt(w + v), bit))
    ensures Advance(ctx, AtAlign(len, high, w, v), bit)
         == if k < 3 then AtAlign(len, high, 2 * w, v + Weighted(bit, w)) else Done(Match(len, high + (v + Weighted(bit, w))))
  {
    assert Pow2(1) == 2 && Pow2(2) == 4 && Pow2(3) == 8;
  }

  /** The bits in the middle of a long distance, highest first. */
  lemma {:induction false} PlainWalk(ctx: Ctx, coders: nat, len: nat, distance: nat, r: nat)
    requires ctx.Valid() && len <= 271 && 5 <= r <= 30 && distance <= END_MARK_DISTANCE
    ensures Spells(ctx, coders, AtDirect(len, r - 4, Above(distance, r)), PlainEvents(distance, r),
                   AtAlign(len, Above(distance, 4) * 16, 1, 0))
    decreases r
  {
    NextHighBit(distance, r);
    HighFits(distance, r);
    var high, to := Above(distance, r), AtAlign(len, Above(distance, 4) * 16, 1, 0);
    var e := Plain(BitAt(distance, r - 1));
    PlainAsks(ctx, coders, len, r - 4, high, e.bit);
    if r > 5 {
      PlainWalk(ctx, coders, len, distance, r - 1);
      SpellsFirst(ctx, coders, AtDirect(len, r - 4, high), e, AtDirect(len, r - 5, Above(distance, r - 1)),
                  PlainEvents(distance, r - 1), to);
    } else {
      assert PlainEvents(distance, 4) == [];
      SpellsNothing(ctx, coders, to);
      SpellsFirst(ctx, coders, AtDirect(len, r - 4, high), e, to, [], to);
    }
  }

  lemma PlainAsks(ctx: Ctx, coders: nat, len: nat, count: nat, high: nat, bit: bool)
    requires ctx.Valid() && len <= 271 && 1 <= count <= 26 && high < Shl(4, 26 - count)
    ensures Asks(ctx, coders, AtDirect(len, count, high), Plain(bit))
    ensures Advance(ctx, AtDirect(len, count, high), bit)
         == if count == 1 then AtAlign(len, (2 * high + Bit(bit)) * 16, 1, 0) else AtDirect(len, count - 1, 2 * high + Bit(bit))
  {
  }

  lemma HighFits(distance: nat, r: nat)
    requires r <= 30 && distance <= END_MARK_DISTANCE
    ensures Above(distance, r) < Shl(4, 30 - r)
  {
    WordIsPower();
    HighPart(distance, 32, r);
    ShlPow2(2, 30 - r);
    assert Pow2(2) == 4;
  }

  lemma WordIsPower()
    ensures Pow2(32) == U32
  {
    assert Pow2(8) == 256;
    ShlPow2(8, 8);
    ShlPow2(16, 16);
    ShlIsTimes(Pow2(8), 8);
    ShlIsTimes(Pow2(16), 16);
  }

  lemma SlotFromRoot(ctx: Ctx, coders: nat, len: nat, tree: Tree, slot: nat)
    requires ctx.Valid() && len <= 271 && slot < 64 && tree == SlotTree(if len < 3 then len else 3)
    ensures Spells(ctx, coders, AtSlot(len, 1), TreeEvents(tree, slot, 6, 1), AfterSlot(len, slot))
  {
    SmallPowers();
    FromRoot(slot, 6);
    SlotTreeWalk(ctx, coders, len, tree, slot, 6);
  }

  /** A new match's distance, from its slot on. */
  lemma DistanceWalk(ctx: Ctx, coders: nat, len: nat, distance: nat)
    requires ctx.Valid() && len <= 271 && distance <= END_MARK_DISTANCE
    ensures Spells(ctx, coders, AtSlot(len, 1), DistanceEvents(len, distance), Done(Match(len, distance)))
  {
    var tree, slot := SlotTree(if len < 3 then len else 3), PosSlot(distance);
    SlotFits(distance);
    SlotFromRoot(ctx, coders, len, tree, slot);
    FooterWalk(ctx, coders, len, slot, distance);
    SpellsTwice(ctx, coders, AtSlot(len, 1), TreeEvents(tree, slot, 6, 1), AfterSlot(len, slot),
                FooterEvents(slot, distance), Done(Match(len, distance)));
  }

  lemma SlotFits(distance: nat)
    requires distance <= END_MARK_DISTANCE
    ensures var slot := PosSlot(distance);
            && slot < 64
            && if distance < 4 then slot == distance
               else 4 <= slot && Above(distance, slot / 2 - 1) == 2 + slot % 2
  {
    WordIsPower();
    SlotSays(distance, 32);
    if distance >= 4 {
      HighestBit(distance, 32);
    }
  }

  lemma {:induction false} HighestBit(distance: nat, bits: nat)
    requires 4 <= distance < Pow2(bits)
    ensures PosSlot(distance) < 2 * bits
    decreases distance
  {
    SmallBits(bits);
    if distance >= 8 {
      HighestBit(distance / 2, bits - 1);
    }
  }

  lemma SmallBits(bits: nat)
    requires 4 < Pow2(bits)
    ensures bits >= 3
  {
    assert Pow2(2) == 4;
    if bits < 3 {
      PowersGrow(bits, 2);
    }
  }

  lemma FooterWalk(ctx: Ctx, coders: nat, len: nat, slot: nat, distance: nat)
    requires ctx.Valid() && len <= 271 && distance <= END_MARK_DISTANCE && slot < 64
    requires if slot < 4 then slot == distance else Above(distance, slot / 2 - 1) == 2 + slot % 2
    ensures Spells(ctx, coders, AfterSlot(len, slot), FooterEvents(slot, distance), Done(Match(len, distance)))
  {
    if slot < 4 {
      SpellsNothing(ctx, coders, Done(Match(len, distance)));
    } else if slot < 14 {
      SlotBase(slot);
      Rejoined(distance, slot / 2 - 1);
      SpecialWalk(ctx, coders, len, slot, distance, 0, slot / 2 - 1);
    } else {
      LongFooter(ctx, coders, len, slot, distance);
    }
  }

  lemma LongFooter(ctx: Ctx, coders: nat, len: nat, slot: nat, distance: nat)
    requires ctx.Valid() && len <= 271 && distance <= END_MARK_DISTANCE && 14 <= slot < 64
    requires Above(distance, slot / 2 - 1) == 2 + slot % 2
    ensures Spells(ctx, coders, AfterSlot(len, slot), FooterEvents(slot, distance), Done(Match(len, distance)))
  {
    var r, high := slot / 2 - 1, Above(distance, 4) * 16;
    assert AfterSlot(len, slot) == AtDirect(len, r - 4, Above(distance, r));
    PlainWalk(ctx, coders, len, distance, r);
    Rejoined(distance, 4);
    assert Pow2(4) == 16;
    AlignWalk(ctx, coders, len, high, distance, 0);
    SpellsTwice(ctx, coders, AfterSlot(len, slot), PlainEvents(distance, r), AtAlign(len, high, 1, 0),
                AlignEvents(distance, 0), Done(Match(len, distance)));
  }

  // ---- Symbols ----

  /** Reading the bits of a symbol gives the symbol. */
  lemma SymbolWalk(ctx: Ctx, coders: nat, s: Setting, symbol: Symbol)
    requires Fits(ctx, coders, s) && symbol.Valid()
    ensures Spells(ctx, coders, AtIsMatch, SymbolEvents(s, symbol), Done(symbol))
  {
    match symbol
    case Literal(v) => LiteralSymbol(ctx, coders, s, v);
    case Match(len, distance) => MatchSymbol(ctx, coders, s, len, distance);
    case ShortRep => ShortRepSymbol(ctx, coders, s);
    case RepMatch(i, len) => RepSymbol(ctx, coders, s, i, len);
  }

  lemma LiteralSymbol(ctx: Ctx, coders: nat, s: Setting, v: byte)
    requires Fits(ctx, coders, s)
    ensures Spells(ctx, coders, AtIsMatch, SymbolEvents(s, Literal(v)), Done(Literal(v)))
  {
    var same := s.state >= 7;
    SmallPowers();
    FromRoot(v, 8);
    WholeByte(s.matchByte);
    LiteralWalk(ctx, coders, s.coder, v, 8, same, s.matchByte, ctx.matchByte);
    FlagsAsk(ctx, coders, s);
    SpellsFirst(ctx, coders, AtIsMatch, Modelled(IsMatchAt(s.state, s.posState), false), AtLiteral(1, same, ctx.matchByte),
                LiteralEvents(s.coder, v, 8, 1, same, s.matchByte), Done(Literal(v)));
  }

  lemma WholeByte(m: byte)
    ensures Below(m, 8) * Pow2(0) == m
  {
    SmallPowers();
    HighPart(m, 8, 8);
    Rejoined(m, 8);
  }

  lemma FlagsAsk(ctx: Ctx, coders: nat, s: Setting)
    requires Fits(ctx, coders, s)
    ensures forall b :: Asks(ctx, coders, AtIsMatch, Modelled(IsMatchAt(s.state, s.posState), b))
    ensures forall b :: Asks(ctx, coders, AtIsRep, Modelled(IsRepAt(s.state), b))
    ensures forall b :: Asks(ctx, coders, AtRepG0, Modelled(IsRepG0At(s.state), b))
    ensures forall b :: Asks(ctx, coders, AtRepG1, Modelled(IsRepG1At(s.state), b))
    ensures forall b :: Asks(ctx, coders, AtRepG2, Modelled(IsRepG2At(s.state), b))
    ensures forall b :: Asks(ctx, coders, AtRep0Long, Modelled(IsRep0LongAt(s.state, s.posState), b))
  {
  }

  /** Two bits in a row. */
  lemma SpellsPair(ctx: Ctx, coders: nat, a: Stage, e: Event, b: Stage, f: Event, c: Stage)
    requires Asks(ctx, coders, a, e) && b == Advance(ctx, a, e.bit) && Asks(ctx, coders, b, f) && c == Advance(ctx, b, f.bit)
    ensures Spells(ctx, coders, a, [e, f], c)
  {
    SpellsOne(ctx, coders, b, f, c);
    SpellsFirst(ctx, coders, a, e, b, [f], c);
    assert [e] + [f] == [e, f];
  }

  lemma MatchSymbol(ctx: Ctx, coders: nat, s: Setting, len: nat, distance: nat)
    requires Fits(ctx, coders, s) && len <= 271 && distance <= END_MARK_DISTANCE
    ensures Spells(ctx, coders, AtIsMatch, SymbolEvents(s, Match(len, distance)), Done(Match(len, distance)))
  {
    var flags := [Modelled(IsMatchAt(s.state, s.posState), true), Modelled(IsRepAt(s.state), false)];
    FlagsAsk(ctx, coders, s);
    SpellsPair(ctx, coders, AtIsMatch, flags[0], AtIsRep, flags[1], AtChoice(NewMatch));
    LenWalk(ctx, coders, NewMatch, s.posState, len);
    SpellsTwice(ctx, coders, AtIsMatch, flags, AtChoice(NewMatch), LenEvents(false, s.posState, len), AtSlot(len, 1));
    DistanceWalk(ctx, coders, len, distance);
    SpellsTwice(ctx, coders, AtIsMatch, flags + LenEvents(false, s.posState, len), AtSlot(len, 1),
                DistanceEvents(len, distance), Done(Match(len, distance)));
  }

  lemma RepFlags(ctx: Ctx, coders: nat, s: Setting)
    requires Fits(ctx, coders, s)
    ensures Spells(ctx, coders, AtIsMatch, RepEvents(s), AtRepG0)
  {
    FlagsAsk(ctx, coders, s);
    SpellsPair(ctx, coders, AtIsMatch, Modelled(IsMatchAt(s.state, s.posState), true), AtIsRep,
               Modelled(IsRepAt(s.state), true), AtRepG0);
  }

  lemma ShortRepSymbol(ctx: Ctx, coders: nat, s: Setting)
    requires Fits(ctx, coders, s)
    ensures Spells(ctx, coders, AtIsMatch, SymbolEvents(s, ShortRep), Done(ShortRep))
  {
    var flags := [Modelled(IsRepG0At(s.state), false), Modelled(IsRep0LongAt(s.state, s.posState), false)];
    RepFlags(ctx, coders, s);
    FlagsAsk(ctx, coders, s);
    SpellsPair(ctx, coders, AtRepG0, flags[0], AtRep0Long, flags[1], Done(ShortRep));
    SpellsTwice(ctx, coders, AtIsMatch, RepEvents(s), AtRepG0, flags, Done(ShortRep));
  }

  lemma RepSymbol(ctx: Ctx, coders: nat, s: Setting, i: nat, len: nat)
    requires Fits(ctx, coders, s) && i < 4 && len <= 271
    ensures Spells(ctx, coders, AtIsMatch, SymbolEvents(s, RepMatch(i, len)), Done(RepMatch(i, len)))
  {
    var kind := OldMatch(i);
    RepFlags(ctx, coders, s);
    IndexWalk(ctx, coders, s, i);
    SpellsTwice(ctx, coders, AtIsMatch, RepEvents(s), AtRepG0, IndexEvents(s, i), AtChoice(kind));
    LenWalk(ctx, coders, kind, s.posState, len);
    SpellsTwice(ctx, coders, AtIsMatch, RepEvents(s) + IndexEvents(s, i), AtChoice(kind),
                LenEvents(true, s.posState, len), Done(RepMatch(i, len)));
  }

  lemma IndexWalk(ctx: Ctx, coders: nat, s: Setting, i: nat)
    requires Fits(ctx, coders, s) && i < 4
    ensures Spells(ctx, coders, AtRepG0, IndexEvents(s, i), AtChoice(OldMatch(i)))
  {
    FlagsAsk(ctx, coders, s);
    var to := AtChoice(OldMatch(i));
    var g0, g1 := Modelled(IsRepG0At(s.state), i > 0), Modelled(IsRepG1At(s.state), i > 1);
    if i == 0 {
      SpellsPair(ctx, coders, AtRepG0, g0, AtRep0Long, Modelled(IsRep0LongAt(s.state, s.posState), true), to);
    } else if i == 1 {
      SpellsPair(ctx, coders, AtRepG0, g0, AtRepG1, g1, to);
    } else {
      var g2 := Modelled(IsRepG2At(s.state), i == 3);
      SpellsPair(ctx, coders, AtRepG1, g1, AtRepG2, g2, to);
      SpellsFirst(ctx, coders, AtRepG0, g0, AtRepG1, [g1, g2], to);
      assert [g0] + [g1, g2] == [g0, g1, g2];
    }
  }
}
