/** The decoder as a machine over an unbounded history: symbols are applied to
    everything produced so far, and one call drives it to an output limit. This is
    the reference that the buffered, circular, resumable decoder refines. */
module LzmaStream {
  import opened Words
  import opened LzmaLayout
  import opened LzmaRangeCoder
  import opened LzmaSymbol
  import opened LzmaParse

  datatype Reps = Reps(r0: int, r1: int, r2: int, r3: int) {
    predicate Within(limit: int) {
      1 <= r0 <= limit && 1 <= r1 <= limit && 1 <= r2 <= limit && 1 <= r3 <= limit
    }

    /** A repeated distance moves to the front. */
    function Front(i: nat): Reps
      requires i < 4
    {
      match i
      case 0 => this
      case 1 => Reps(r1, r0, r2, r3)
      case 2 => Reps(r2, r0, r1, r3)
      case 3 => Reps(r3, r0, r1, r2)
    }
  }

  function Min(a: int, b: int): int {
    if a < b then a else b
  }

  /** The decoder between two symbols. `rem` is the part of the last match that is
      still to be copied, or MATCH_SPEC_LEN_START after the end mark. */
  datatype Core = Core(props: Props, range: int, code: int, probs: seq<Prob>, state: nat,
                       reps: Reps, out: seq<byte>, rem: nat)
  {
    /** Distances never reach before the first byte, nor beyond the dictionary. */
    ghost predicate Valid() {
      && props.Valid() && |probs| == NumProbs(props)
      && TOP_VALUE <= range < U32 && 0 <= code < U32
      && state < NUM_STATES && rem <= MATCH_SPEC_LEN_START
      && (|out| > 0 ==> reps.Within(Window()))
      && (|out| == 0 ==> reps == Reps(1, 1, 1, 1) && state == 0 && (rem == 0 || rem == MATCH_SPEC_LEN_START))
      && (|out| == 0 && rem == 0 ==> Fresh(probs) && range == INITIAL_RANGE)
    }

    /** How far back a distance may reach. */
    function Window(): int {
      Min(|out|, props.dicSize)
    }

    predicate Finished() {
      rem == MATCH_SPEC_LEN_START
    }

    predicate Copying() {
      0 < rem < MATCH_SPEC_LEN_START
    }

    function Coder(inp: seq<byte>): Rc {
      Rc(range, code, inp)
    }

    function Context(): Ctx
      requires props.lc <= 8 && (state >= NUM_LIT_STATES ==> 1 <= reps.r0 <= |out|)
    {
      ContextOf(props, state, reps.r0, out)
    }
  }

  /** Everything a symbol's parse looks at: the literal sub-coder of the previous
      byte, the position, and after a match the byte one distance back. */
  function ContextOf(props: Props, state: nat, r0: int, out: seq<byte>): Ctx
    requires props.lc <= 8 && (state >= NUM_LIT_STATES ==> 1 <= r0 <= |out|)
  {
    Ctx(state, PosState(props, |out|), LiteralBase(props, |out|, Last(out)),
        if state >= NUM_LIT_STATES then out[|out| - r0] else 0, NumProbs(props))
  }

  function Last(out: seq<byte>): byte {
    if |out| == 0 then 0 else out[|out| - 1]
  }

  lemma ContextOfValid(props: Props, state: nat, r0: int, out: seq<byte>)
    requires props.Valid() && state < NUM_STATES && (state >= NUM_LIT_STATES ==> 1 <= r0 <= |out|)
    ensures ContextOf(props, state, r0, out).Valid()
  {
    PosStateBound(props, |out|);
    LiteralBaseBound(props, |out|, Last(out));
  }

  lemma ContextValid(c: Core)
    requires c.Valid()
    ensures c.Context().Valid()
  {
    ContextOfValid(c.props, c.state, c.reps.r0, c.out);
  }

  /** The states after each kind of symbol. */
  function StateAfterLiteral(state: nat): nat {
    if state < 4 then 0 else if state < 10 then state - 3 else state - 6
  }

  function StateAfterMatch(state: nat): nat {
    if state < NUM_LIT_STATES then 7 else 10
  }

  function StateAfterRep(state: nat): nat {
    if state < NUM_LIT_STATES then 8 else 11
  }

  function StateAfterShortRep(state: nat): nat {
    if state < NUM_LIT_STATES then 9 else 11
  }

  /** LZ77 copying: byte n of the output repeats byte n - dist. */
  function Copy(out: seq<byte>, dist: int, n: nat): (r: seq<byte>)
    requires 1 <= dist <= |out|
    ensures |r| == |out| + n
    decreases n
  {
    if n == 0 then out
    else
      var o := Copy(out, dist, n - 1);
      o + [o[|o| - dist]]
  }

  lemma {:induction false} CopyRepeats(out: seq<byte>, dist: int, n: nat, k: nat)
    requires 1 <= dist <= |out| && k < |out| + n
    ensures Copy(out, dist, n)[k] == if k < |out| then out[k] else Copy(out, dist, n)[k - dist]
  {
    if n > 0 && k < |out| + n - 1 {
      CopyRepeats(out, dist, n - 1, k);
    }
  }

  lemma {:induction false} CopyInTwo(out: seq<byte>, dist: int, m: nat, n: nat)
    requires 1 <= dist <= |out|
    ensures Copy(Copy(out, dist, m), dist, n) == Copy(out, dist, m + n)
  {
    if n > 0 {
      CopyInTwo(out, dist, m, n - 1);
    }
  }

  /** The effect of one symbol. A match only sets up its copy. */
  datatype Applied = Refused | Applied(core: Core)

  function Apply(c: Core, symbol: Symbol): Applied
    requires c.rem == 0
    requires |c.out| > 0 ==> 1 <= c.reps.r0 <= |c.out|
    requires symbol.Valid()
  {
    match symbol
    case Literal(b) => Applied(c.(out := c.out + [b], state := StateAfterLiteral(c.state)))
    case ShortRep =>
      if |c.out| == 0 then Refused
      else Applied(c.(out := Copy(c.out, c.reps.r0, 1), state := StateAfterShortRep(c.state)))
    case RepMatch(i, len) =>
      if |c.out| == 0 then Refused
      else Applied(c.(reps := c.reps.Front(i), state := StateAfterRep(c.state), rem := len + MATCH_MIN_LEN))
    case Match(len, distance) =>
      if symbol.EndMark() then Applied(c.(rem := MATCH_SPEC_LEN_START))
      else if distance >= c.Window() then Refused
      else Applied(c.(reps := Reps(distance + 1, c.reps.r0, c.reps.r1, c.reps.r2),
                      state := StateAfterMatch(c.state), rem := len + MATCH_MIN_LEN))
  }

  datatype StepResult = NeedInput | Bad | Next(core: Core, rest: seq<byte>, symbol: Symbol)

  /** Decode one symbol and apply it. */
  function Step(c: Core, inp: seq<byte>): (r: StepResult)
    requires c.Valid() && c.rem == 0
    ensures r.Next? ==> r.core.Valid()
  {
    ContextValid(c);
    match Run(c.Context(), AtIsMatch, c.Coder(inp), c.probs, true)
    case Short => NeedInput
    case Parsed(symbol, rc, probs) =>
      match Apply(c.(range := rc.range, code := rc.code, probs := probs), symbol)
      case Refused => Bad
      case Applied(core) => Next(core, rc.inp, symbol)
  }

  /** Copy from a pending match, as far as the limit allows. */
  function Emit(c: Core, n: nat): (r: Core)
    requires c.Valid() && c.Copying() && n <= c.rem
    ensures r.Valid() && |r.out| == |c.out| + n
  {
    c.(out := Copy(c.out, c.reps.r0, n), rem := c.rem - n)
  }

  function Flush(c: Core, limit: nat): (r: Core)
    requires c.Valid() && |c.out| <= limit
    ensures r.Valid() && |r.out| <= limit && |c.out| <= |r.out|
    ensures r.Copying() ==> |r.out| == limit
    ensures c.Copying() && |c.out| < limit ==> |c.out| < |r.out|
  {
    if c.Copying() then Emit(c, Min(c.rem, limit - |c.out|)) else c
  }

  datatype Mode = FinishAny | FinishEnd
  datatype Status = NotSpecified | FinishedWithMark | NotFinished | NeedsMoreInput | MaybeFinishedWithoutMark

  /** How a call ends. A failed one has still produced `out`. */
  datatype Outcome = Fail(status: Status, out: seq<byte>) | Stop(core: Core, rest: seq<byte>, status: Status)

  /** Decode until the output limit, the end mark, the end of the input or an
      error. */
  function Drive(c: Core, inp: seq<byte>, limit: nat, mode: Mode): (r: Outcome)
    requires c.Valid() && |c.out| <= limit && (c.Copying() ==> |c.out| == limit)
    ensures r.Stop? ==> r.core.Valid() && |c.out| <= |r.core.out| <= limit
    decreases limit - |c.out|
  {
    if c.Finished() then AtEndMark(c, inp)
    else if |c.out| == limit then AtLimit(c, inp, mode)
    else
      match Step(c, inp)
      case NeedInput => Stop(c, inp, NeedsMoreInput)
      case Bad => Fail(NotSpecified, c.out)
      case Next(core, rest, _) =>
        if core.Finished() then AtEndMark(core, rest)
        else Drive(Flush(core, limit), rest, limit, mode)
  }

  function AtEndMark(c: Core, inp: seq<byte>): Outcome {
    if c.code != 0 then Fail(NotSpecified, c.out) else Stop(c, inp, FinishedWithMark)
  }

  /** At the output limit the stream may be complete without a mark; otherwise, when
      the caller says the stream ends here, only the end mark may follow. */
  function AtLimit(c: Core, inp: seq<byte>, mode: Mode): (r: Outcome)
    requires c.Valid() && !c.Finished()
    ensures r.Stop? ==> r.core.Valid() && r.core.out == c.out
  {
    if c.rem == 0 && c.code == 0 then Stop(c, inp, MaybeFinishedWithoutMark)
    else if mode.FinishAny? then Stop(c, inp, NotFinished)
    else if c.rem != 0 then Fail(NotFinished, c.out)
    else
      ContextValid(c);
      match Run(c.Context(), AtIsMatch, c.Coder(inp), c.probs, true)
      case Short => Stop(c, inp, NeedsMoreInput)
      case Parsed(symbol, rc, probs) =>
        if !symbol.Match? then Fail(NotFinished, c.out)
        else if !symbol.EndMark() then Fail(NotSpecified, c.out)
        else AtEndMark(c.(range := rc.range, code := rc.code, probs := probs, rem := MATCH_SPEC_LEN_START), rc.inp)
  }

  /** One call: first the rest of a pending match, then symbols. */
  function Resume(c: Core, inp: seq<byte>, limit: nat, mode: Mode): (r: Outcome)
    requires c.Valid() && |c.out| <= limit
    ensures r.Stop? ==> r.core.Valid() && |c.out| <= |r.core.out| <= limit
  {
    Drive(Flush(c, limit), inp, limit, mode)
  }
}
