/** What the decoder's registers mean: after any symbols, its state, its distances and its
    output are those of the history. */
module LzmaStates {
  import opened Words
  import opened LzmaLayout
  import opened LzmaSymbol
  import opened LzmaParse
  import opened LzmaStream
  import opened LzmaCalls
  import opened LzmaHistory

  // ---- States ----

  predicate AfterLiteral(past: seq<Symbol>) {
    past == [] || past[|past| - 1].Literal?
  }

  lemma LiteralFollows(past: seq<Symbol>, b: byte)
    ensures StateOf(past + [Literal(b)]) == StateAfterLiteral(StateOf(past))
  {
    var next := past + [Literal(b)];
    assert next[..|past|] == past;
    var n := Literals(past);
    LastBeforeLiterals(past);
    LastBeforeLiterals(next);
    if n < |past| {
      assert next[..|past| - n - 1] == past[..|past| - n - 1];
    }
  }

  /** States below 7 are those after a literal. */
  lemma LowStates(past: seq<Symbol>)
    ensures StateOf(past) < 7 <==> AfterLiteral(past)
    ensures StateOf(past) < 12
  {
    LastBeforeLiterals(past);
  }

  lemma OtherFollows(past: seq<Symbol>, symbol: Symbol)
    requires !symbol.Literal?
    ensures symbol.Match? ==> StateOf(past + [symbol]) == StateAfterMatch(StateOf(past))
    ensures symbol.ShortRep? ==> StateOf(past + [symbol]) == StateAfterShortRep(StateOf(past))
    ensures symbol.RepMatch? ==> StateOf(past + [symbol]) == StateAfterRep(StateOf(past))
  {
    var next := past + [symbol];
    assert next[..|past|] == past;
    LowStates(past);
  }

  // ---- Symbols applied ----

  function Recent(reps: Reps): seq<int> {
    [reps.r0, reps.r1, reps.r2, reps.r3]
  }

  /** The decoder is where the history says. */
  ghost predicate Remembers(c: Core, past: seq<Symbol>) {
    c.state == StateOf(past) && Recent(c.reps) == RecentOf(past) && c.out == TextOf(past)
  }

  /** What holds of a core between the parse of a symbol and its application. */
  ghost predicate Between(c: Core) {
    && c.props.Valid() && |c.probs| == NumProbs(c.props) && TOP_VALUE <= c.range < U32 && 0 <= c.code < U32
    && c.state < NUM_STATES && c.rem == 0 && (|c.out| > 0 ==> c.reps.Within(c.Window()))
    && (|c.out| == 0 ==> c.reps == Reps(1, 1, 1, 1) && c.state == 0)
  }

  /** A pending match, copied whole. */
  function Settled(c: Core): (r: Core)
    requires c.Valid()
    ensures r.Valid() && !r.Copying() && (c.Finished() ==> r == c)
  {
    if c.Copying() then Emit(c, c.rem) else c
  }

  lemma {:induction false} CopyIsRepeated(out: seq<byte>, distance: int, n: nat)
    requires 1 <= distance <= |out|
    ensures Copy(out, distance, n) == Repeated(out, distance, n)
    decreases n
  {
    if n > 0 {
      CopyIsRepeated(out + [out[|out| - distance]], distance, n - 1);
      assert Copy(out, distance, 1) == out + [out[|out| - distance]];
      CopyInTwo(out, distance, 1, n - 1);
    }
  }

  lemma RecentNext(past: seq<Symbol>, symbol: Symbol)
    ensures RecentOf(past + [symbol]) == Used(RecentOf(past), symbol)
    ensures TextOf(past + [symbol]) == Extended(past, TextOf(past), symbol)
  {
    assert (past + [symbol])[..|past|] == past;
  }

  lemma FrontIsRecent(reps: Reps, i: nat)
    requires i < 4
    ensures Recent(reps.Front(i)) == [Recent(reps)[i]] + Recent(reps)[..i] + Recent(reps)[i + 1..]
  {
    var r := Recent(reps);
    match i
    case 0 => assert [r[0]] + r[..0] + r[1..] == Recent(reps.Front(0));
    case 1 => assert [r[1]] + r[..1] + r[2..] == Recent(reps.Front(1));
    case 2 => assert [r[2]] + r[..2] + r[3..] == Recent(reps.Front(2));
    case 3 => assert [r[3]] + r[..3] + r[4..] == Recent(reps.Front(3));
  }

  /** A symbol is applied exactly if it can follow the history, or is the end mark; the
      history then goes on with it. */
  ghost predicate GoesOn(c: Core, past: seq<Symbol>, symbol: Symbol)
    requires Between(c) && symbol.Valid()
  {
    var a := Apply(c, symbol);
    && (a.Applied? <==> CanFollow(past, c.out, c.props.dicSize, symbol) || symbol.EndMark())
    && (a.Applied? && !symbol.EndMark() ==> a.core.Valid() && !a.core.Finished() && Remembers(Settled(a.core), past + [symbol]))
    && (a.Applied? && symbol.EndMark() ==> a.core == c.(rem := MATCH_SPEC_LEN_START))
  }

  lemma AppliedFollows(c: Core, past: seq<Symbol>, symbol: Symbol)
    requires Between(c) && Remembers(c, past) && symbol.Valid()
    ensures GoesOn(c, past, symbol)
  {
    match symbol
    case Literal(b) => LiteralApplied(c, past, b);
    case ShortRep => ShortRepApplied(c, past);
    case RepMatch(i, len) => RepApplied(c, past, i, len);
    case Match(len, distance) => MatchApplied(c, past, len, distance);
  }

  lemma LiteralApplied(c: Core, past: seq<Symbol>, b: byte)
    requires Between(c) && Remembers(c, past)
    ensures GoesOn(c, past, Literal(b))
  {
    RecentNext(past, Literal(b));
    LiteralFollows(past, b);
  }

  lemma ShortRepApplied(c: Core, past: seq<Symbol>)
    requires Between(c) && Remembers(c, past)
    ensures GoesOn(c, past, ShortRep)
  {
    if |c.out| > 0 {
      RecentNext(past, ShortRep);
      OtherFollows(past, ShortRep);
      CopyIsRepeated(c.out, c.reps.r0, 1);
    }
  }

  lemma RepApplied(c: Core, past: seq<Symbol>, i: nat, len: nat)
    requires Between(c) && Remembers(c, past) && i < 4 && len <= 271
    ensures GoesOn(c, past, RepMatch(i, len))
  {
    if |c.out| > 0 {
      var symbol := RepMatch(i, len);
      var a := c.(reps := c.reps.Front(i), state := StateAfterRep(c.state), rem := len + 2);
      OtherFollows(past, symbol);
      FrontIsRecent(c.reps, i);
      MatchSettles(c, past, symbol, a, Recent(c.reps)[i], len + 2);
    }
  }

  lemma MatchApplied(c: Core, past: seq<Symbol>, len: nat, distance: nat)
    requires Between(c) && Remembers(c, past) && len <= 271 && distance <= END_MARK_DISTANCE
    ensures GoesOn(c, past, Match(len, distance))
  {
    if distance < c.Window() && distance != END_MARK_DISTANCE {
      var symbol := Match(len, distance);
      var a := c.(reps := Reps(distance + 1, c.reps.r0, c.reps.r1, c.reps.r2), state := StateAfterMatch(c.state), rem := len + 2);
      OtherFollows(past, symbol);
      assert Recent(a.reps) == [distance + 1] + Recent(c.reps)[..3];
      MatchSettles(c, past, symbol, a, distance + 1, len + 2);
    }
  }

  lemma MatchSettles(c: Core, past: seq<Symbol>, symbol: Symbol, a: Core, distance: int, n: nat)
    requires Between(c) && Remembers(c, past) && |c.out| > 0 && 2 <= n < MATCH_SPEC_LEN_START
    requires a == c.(reps := a.reps, state := a.state, rem := n) && a.reps.r0 == distance && a.reps.Within(c.Window())
    requires a.state == StateOf(past + [symbol]) && a.state < NUM_STATES && Recent(a.reps) == Used(RecentOf(past), symbol)
    requires Extended(past, c.out, symbol) == Again(c.out, distance, n)
    ensures a.Valid() && !a.Finished() && Remembers(Settled(a), past + [symbol])
  {
    RecentNext(past, symbol);
    CopyIsRepeated(c.out, distance, n);
  }

  // ---- Over a whole stream ----

  /** Some symbols decoded one after another, up to the end mark, an error or the end of
      the input. */
  datatype Trace = Trace(core: Core, inp: seq<byte>, past: seq<Symbol>)

  function Further(t: Trace): (r: Trace)
    requires t.core.Valid()
    ensures r.core.Valid()
  {
    if t.core.rem != 0 then t
    else
      match Step(t.core, t.inp)
      case Next(core, rest, symbol) =>
        if core.Finished() then Trace(core, rest, t.past) else Trace(Settled(core), rest, t.past + [symbol])
      case _ => t
  }

  function DecodeSome(c: Core, inp: seq<byte>, n: nat): (t: Trace)
    requires c.Valid()
    ensures t.core.Valid()
  {
    if n == 0 then Trace(c, inp, []) else Further(DecodeSome(c, inp, n - 1))
  }

  /** A step is a parse and the application of its symbol. */
  lemma StepApplies(c: Core, inp: seq<byte>) returns (p: Parse, c1: Core)
    requires c.Valid() && c.rem == 0
    ensures c.Context().Valid() && p == Run(c.Context(), AtIsMatch, c.Coder(inp), c.probs, true)
    ensures p.Short? ==> Step(c, inp).NeedInput?
    ensures p.Parsed? ==>
              && c1 == c.(range := p.rc.range, code := p.rc.code, probs := p.probs) && Between(c1) && p.symbol.Valid()
              && Step(c, inp) == if Apply(c1, p.symbol).Refused? then Bad else Next(Apply(c1, p.symbol).core, p.rc.inp, p.symbol)
  {
    ContextValid(c);
    p := Run(c.Context(), AtIsMatch, c.Coder(inp), c.probs, true);
    c1 := if p.Parsed? then c.(range := p.rc.range, code := p.rc.code, probs := p.probs) else c;
  }

  lemma ProperNext(past: seq<Symbol>, dicSize: nat, symbol: Symbol)
    requires Proper(past, dicSize) && CanFollow(past, TextOf(past), dicSize, symbol)
    ensures Proper(past + [symbol], dicSize)
  {
    assert (past + [symbol])[..|past|] == past;
  }

  ghost predicate IsTold(key: Key, c: Core, past: seq<Symbol>, props: Props) {
    c.props == props && Remembers(c, past) && Proper(past, props.dicSize)
  }

  /** The history is the core's; kept under a key. */
  ghost predicate Tells(c: Core, past: seq<Symbol>, props: Props) {
    exists key: Key {:trigger IsTold(key, c, past, props)} :: IsTold(key, c, past, props)
  }

  /** One symbol: it can follow the history, which goes on with it. */
  lemma FurtherTells(t: Trace, r: Trace, props: Props)
    requires t.core.Valid() && Tells(t.core, t.past, props) && r == Further(t)
    ensures Tells(r.core, r.past, props)
  {
    if t.core.rem == 0 {
      var p, c1 := StepApplies(t.core, t.inp);
      if p.Parsed? {
        AppliedFollows(c1, t.past, p.symbol);
        if !p.symbol.EndMark() && Apply(c1, p.symbol).Applied? {
          ProperNext(t.past, props.dicSize, p.symbol);
        }
      }
      assert IsTold(Key, r.core, r.past, props);
    }
  }

  lemma {:induction false} RegistersTell(props: Props, c: Core, inp: seq<byte>, n: nat)
    requires c.Valid() && Tells(c, [], props)
    ensures Tells(DecodeSome(c, inp, n).core, DecodeSome(c, inp, n).past, props)
  {
    if n > 0 {
      RegistersTell(props, c, inp, n - 1);
      FurtherTells(DecodeSome(c, inp, n - 1), DecodeSome(c, inp, n), props);
    }
  }

  lemma NothingYet(c: Core)
    requires c.state == 0 && c.reps == Reps(1, 1, 1, 1) && c.out == []
    ensures Remembers(c, []) && Proper([], c.props.dicSize)
  {
  }

  /** However many symbols of a stream are decoded: they can follow one another, the
      output is their text, the state is that of their kinds, and the four distances are
      those used last. */
  lemma RegistersTellTheHistory(props: Props, header: seq<byte>, inp: seq<byte>, n: nat)
    requires props.Valid() && |header| == RC_INIT_SIZE
    ensures var t := DecodeSome(InitialCore(props, header), inp, n);
            && Proper(t.past, props.dicSize) && t.core.out == TextOf(t.past)
            && t.core.state == StateOf(t.past) && Recent(t.core.reps) == RecentOf(t.past)
  {
    var c := InitialCore(props, header);
    NothingYet(c);
    assert IsTold(Key, c, [], props);
    RegistersTell(props, c, inp, n);
  }
}
