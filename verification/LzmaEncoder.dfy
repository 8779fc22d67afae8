/** A range encoder on unbounded numbers, and what a range decoder reads back from the
    number it ends with: exactly the bits that were put in. */
module LzmaEncoder {
  import opened Words
  import opened LzmaLayout
  import opened LzmaRangeCoder
  import opened LzmaSymbol
  import opened LzmaParse
  import opened LzmaHistory
  import opened LzmaWalk

  // ---- Encoding ----

  /** The interval that the number will lie in, counted in units of 256 to the number of
      shifts still to come. */
  datatype Enc = Enc(low: nat, range: nat, shifts: nat)

  type Model = map<Name, nat>

  function Chance(model: Model, name: Name): nat {
    if name in model then model[name] else 1024
  }

  /** A chance moves a thirty-second of the way to the bit that was coded. */
  function Learned(p: nat, bit: bool): nat {
    if bit then p - p / 32 else if p <= 2048 then p + (2048 - p) / 32 else p
  }

  function Shifted(e: Enc): Enc {
    if e.range < 0x100_0000 then Enc(e.low * 256, e.range * 256, e.shifts + 1) else e
  }

  /** The lower part of the interval for a zero, the upper part for a one. */
  function Cut(e: Enc, lower: nat, upper: nat, bit: bool): Enc {
    if bit then Enc(e.low + lower, upper, e.shifts) else Enc(e.low, lower, e.shifts)
  }

  function PutOne(e: Enc, model: Model, event: Event): (r: (Enc, Model)) {
    var s := Shifted(e);
    match event
    case Plain(bit) => (Cut(s, s.range / 2, s.range / 2, bit), model)
    case Modelled(name, bit) =>
      var p := Chance(model, name);
      var lower := (s.range / 2048) * p;
      (Cut(s, lower, if lower <= s.range then s.range - lower else 0, bit), model[name := Learned(p, bit)])
  }

  function PutAll(e: Enc, model: Model, events: seq<Event>): (Enc, Model)
    decreases |events|
  {
    if events == [] then (e, model)
    else
      var (e', model') := PutOne(e, model, events[0]);
      PutAll(e', model', events[1..])
  }

  /** The low m bytes of a number, the highest first. */
  function Digits(v: nat, m: nat): (s: seq<byte>)
    ensures |s| == m
  {
    if m == 0 then [] else [(v / Pow256(m - 1)) % 256] + Digits(v, m - 1)
  }

  // ---- Decoding ----

  /** The number v, cut after `total` shifts, lies in the interval. */
  predicate Holds(e: Enc, v: nat, total: nat) {
    e.shifts <= total && e.low <= v / Pow256(total - e.shifts) < e.low + e.range
  }

  /** A decoder that has read as much of v as the encoder has decided. */
  ghost predicate Tuned(rc: Rc, e: Enc, v: nat, total: nat) {
    && Holds(e, v, total) && rc.Valid() && rc.range == e.range
    && rc.code == v / Pow256(total - e.shifts) - e.low && rc.inp == Digits(v, total - e.shifts)
  }

  lemma NextDigit(v: nat, m: nat)
    requires m > 0
    ensures v / Pow256(m - 1) == 256 * (v / Pow256(m)) + (v / Pow256(m - 1)) % 256
  {
    var p := Pow256(m - 1);
    var h := v / p;
    Quotient(v, p);
    Quotient(h, 256);
    ByteUp(v, p, h / 256, h % 256, v % p);
  }

  lemma ByteUp(v: nat, p: nat, q: nat, d: nat, m: nat)
    requires p > 0 && d < 256 && m < p && v == (q * 256 + d) * p + m
    ensures v / (256 * p) == q
  {
    MulDistribute(q * 256, d, p);
    MulAssoc(q, 256, p);
    MulMonotone(d, 255, p);
    NotNegative(d, p);
    DivModUnique(v, 256 * p, q, d * p + m);
  }

  /** Shifting does not leave the interval, forward or back. */
  lemma ShiftHolds(e: Enc, v: nat, total: nat)
    requires Holds(Shifted(e), v, total)
    ensures Holds(e, v, total)
  {
    if e.range < 0x100_0000 {
      NextDigit(v, total - e.shifts);
    }
  }

  lemma CutHolds(e: Enc, lower: nat, upper: nat, bit: bool, v: nat, total: nat)
    requires lower + upper <= e.range && Holds(Cut(e, lower, upper, bit), v, total)
    ensures Holds(e, v, total)
  {
  }

  lemma CodeShifts(low: nat, range: nat, head: nat, longer: nat, digit: byte)
    requires low <= head < low + range && range < TOP_VALUE && longer == 256 * head + digit
    ensures ((head - low) * 256) % U32 + digit == longer - low * 256
    ensures low * 256 <= longer < low * 256 + range * 256
  {
    assert 0 <= (head - low) * 256 < U32;
  }

  /** The decoder follows a shift by reading a byte. */
  lemma ShiftRead(rc: Rc, e: Enc, v: nat, total: nat)
    requires Tuned(rc, e, v, total) && Holds(Shifted(e), v, total)
    ensures Normalize(rc).Norm? && Tuned(Normalize(rc).rc, Shifted(e), v, total)
  {
    if e.range < 0x100_0000 {
      var m := total - e.shifts;
      var digit := (v / Pow256(m - 1)) % 256;
      NextDigit(v, m);
      CodeShifts(e.low, e.range, v / Pow256(m), v / Pow256(m - 1), digit);
      assert rc.inp == [digit] + Digits(v, m - 1);
      assert Normalize(rc) == Norm(Rc(rc.range * 256, (rc.code * 256) % U32 + digit, Digits(v, m - 1)));
    }
  }

  /** Chances that a decoder can hold. */
  predicate Sane(model: Model) {
    forall name | name in model :: 31 <= model[name] <= 2017
  }

  predicate Usable(e: Enc) {
    0x1_0000 <= e.range < U32
  }

  lemma PutUsable(e: Enc, model: Model, event: Event)
    requires Usable(e) && Sane(model)
    ensures Usable(PutOne(e, model, event).0) && Sane(PutOne(e, model, event).1)
    ensures var s := Shifted(e); TOP_VALUE <= s.range < U32
    ensures event.Modelled? ==>
              var s, p := Shifted(e), Chance(model, event.name);
              31 <= p <= 2017 && Bound(s.range, p) == (s.range / 2048) * p && 0 <= Bound(s.range, p) < s.range
  {
    if event.Modelled? {
      BoundSplits(Shifted(e).range, Chance(model, event.name));
    }
  }

  /** The interval after a bit lies in the one before. */
  lemma PutHolds(e: Enc, model: Model, event: Event, v: nat, total: nat)
    requires Usable(e) && Sane(model) && Holds(PutOne(e, model, event).0, v, total)
    ensures Holds(Shifted(e), v, total) && Holds(e, v, total)
  {
    PutUsable(e, model, event);
    var s := Shifted(e);
    if event.Plain? {
      CutHolds(s, s.range / 2, s.range / 2, event.bit, v, total);
    } else {
      var lower := Bound(s.range, Chance(model, event.name));
      assert 0 <= lower <= s.range;
      CutHolds(s, lower, s.range - lower, event.bit, v, total);
    }
    ShiftHolds(e, v, total);
  }

  lemma {:induction false} PutAllHolds(e: Enc, model: Model, events: seq<Event>, v: nat, total: nat)
    requires Usable(e) && Sane(model)
    ensures Usable(PutAll(e, model, events).0) && Sane(PutAll(e, model, events).1)
    ensures Holds(PutAll(e, model, events).0, v, total) ==> Holds(e, v, total)
    decreases |events|
  {
    if events != [] {
      PutUsable(e, model, events[0]);
      var (e', model') := PutOne(e, model, events[0]);
      PutAllHolds(e', model', events[1..], v, total);
      if Holds(PutAll(e, model, events).0, v, total) {
        PutHolds(e, model, events[0], v, total);
      }
    }
  }

  /** A modelled bit is read back. */
  lemma ModelledRead(rc: Rc, s: Enc, p: Prob, bit: bool, v: nat, total: nat)
    requires rc.Normalized() && Tuned(rc, s, v, total)
    requires Holds(Cut(s, Bound(s.range, p), s.range - Bound(s.range, p), bit), v, total)
    ensures ModelledBit(rc, p).0 == bit
    ensures Tuned(ModelledBit(rc, p).1, Cut(s, Bound(s.range, p), s.range - Bound(s.range, p), bit), v, total)
  {
    BoundSplits(rc.range, p);
  }

  /** So is a plain one. */
  lemma PlainRead(rc: Rc, s: Enc, bit: bool, v: nat, total: nat)
    requires rc.Normalized() && Tuned(rc, s, v, total) && Holds(Cut(s, s.range / 2, s.range / 2, bit), v, total)
    ensures DirectBit(rc).0 == bit && Tuned(DirectBit(rc).1, Cut(s, s.range / 2, s.range / 2, bit), v, total)
  {
    var half := rc.range / 2;
    if bit {
      assert (rc.code - half) % U32 == rc.code - half;
    } else {
      assert (rc.code - half) % U32 == rc.code - half + U32;
    }
  }

  // ---- The decoder's probabilities ----

  predicate SameChance(model: Model, probs: seq<Prob>, name: Name) {
    0 <= Place(name) < |probs| && probs[Place(name)] == Chance(model, name)
  }

  /** Every probability has the value of the chance that it is named for. */
  ghost predicate Follows(coders: nat, model: Model, probs: seq<Prob>) {
    && |probs| == NUM_BASE_PROBS + LIT_SIZE * coders && Sane(model)
    && forall name | NameOk(coders, name) :: SameChance(model, probs, name)
  }

  lemma LearnedFits(p: Prob, bit: bool)
    ensures 31 <= Learned(p, bit) <= 2017 && Adapt(p, bit) == Learned(p, bit)
  {
  }

  /** The decoder has learned what the encoder has. */
  lemma BothLearn(coders: nat, model: Model, probs: seq<Prob>, name: Name, bit: bool)
    requires Follows(coders, model, probs) && NameOk(coders, name)
    ensures SameChance(model, probs, name)
    ensures Follows(coders, model[name := Learned(Chance(model, name), bit)],
                    probs[Place(name) := Adapt(probs[Place(name)], bit)])
  {
    assert SameChance(model, probs, name);
    var p := Chance(model, name);
    var model', probs' := model[name := Learned(p, bit)], probs[Place(name) := Adapt(probs[Place(name)], bit)];
    LearnedFits(p, bit);
    assert Sane(model');
    forall other | NameOk(coders, other)
      ensures SameChance(model', probs', other)
    {
      assert SameChance(model, probs, other);
      if other != name {
        PlaceIsOwn(coders, name);
        PlaceIsOwn(coders, other);
      }
    }
  }

  /** One bit of the decision machine. */
  lemma DecideReads(ctx: Ctx, coders: nat, stage: Stage, rc: Rc, probs: seq<Prob>, e: Enc, model: Model, event: Event,
                    v: nat, total: nat)
    requires Asks(ctx, coders, stage, event) && |probs| == ctx.numProbs && Follows(coders, model, probs)
    requires Tuned(rc, e, v, total) && Holds(PutOne(e, model, event).0, v, total)
    ensures var d, put := Decide(ctx, stage, rc, probs, true), PutOne(e, model, event);
            d.BitStep? && d.bit == event.bit && Tuned(d.rc, put.0, v, total) && Follows(coders, put.1, d.probs)
  {
    PutUsable(e, model, event);
    PutHolds(e, model, event, v, total);
    ShiftRead(rc, e, v, total);
    var rc1, s := Normalize(rc).rc, Shifted(e);
    match event {
      case Plain(bit) => PlainRead(rc1, s, bit, v, total);
      case Modelled(name, bit) =>
        BothLearn(coders, model, probs, name, bit);
        ModelledRead(rc1, s, probs[Place(name)], bit, v, total);
    }
  }

  /** A whole symbol. */
  lemma {:induction false} RunReads(ctx: Ctx, coders: nat, stage: Stage, events: seq<Event>, symbol: Symbol, rc: Rc, probs: seq<Prob>,
                                    e: Enc, model: Model, v: nat, total: nat)
    requires Ready(ctx, stage, rc, probs) && Follows(coders, model, probs) && Through(ctx, coders, stage, events, Done(symbol))
    requires Tuned(rc, e, v, total) && Holds(Shifted(PutAll(e, model, events).0), v, total)
    ensures var r, put := Run(ctx, stage, rc, probs, true), PutAll(e, model, events);
            r.Parsed? && r.symbol == symbol && Tuned(r.rc, Shifted(put.0), v, total) && Follows(coders, put.1, r.probs)
    decreases |events|
  {
    if events == [] {
      ShiftRead(rc, e, v, total);
    } else {
      var (e', model') := PutOne(e, model, events[0]);
      PutUsable(e, model, events[0]);
      ShiftHolds(PutAll(e, model, events).0, v, total);
      PutAllHolds(e', model', events[1..], v, total);
      DecideReads(ctx, coders, stage, rc, probs, e, model, events[0], v, total);
      RunStep(ctx, stage, rc, probs, true);
      var d := Decide(ctx, stage, rc, probs, true);
      RunReads(ctx, coders, Advance(ctx, stage, d.bit), events[1..], symbol, d.rc, d.probs, e', model', v, total);
    }
  }
}
