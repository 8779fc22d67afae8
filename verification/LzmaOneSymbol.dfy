/** One symbol of the real decoder: parsed from the input, written into the
    circular dictionary, and the decoder's registers moved on. */
module LzmaOneSymbol {
  import opened Words
  import opened LzmaLayout
  import opened LzmaRangeCoder
  import opened LzmaSymbol
  import opened LzmaParse
  import opened LzmaStream
  import opened LzmaBits
  import opened LzmaReal
  import opened LzmaDictionary

  /** The registers the main loop keeps besides the coder's, and the ghost history
      they stand for. */
  datatype Regs = Regs(dicPos: nat, processedPos: int, state: nat, reps: Reps, len: nat)

  /** The parts of the decoder that a symbol only reads. */
  datatype Settings = Settings(prop: Props, checkDicSize: int)

  /** Where the registers stand with respect to the history: the write position
      mirrors it, and every distance in use lies in the buffer. */
  ghost predicate Placed(env: Settings, dic: seq<byte>, r: Regs, out: seq<byte>) {
    && env.prop.Valid()
    && Mirrors(dic, r.dicPos, out) && r.processedPos == |out| % U32
    && (env.prop.dicSize <= |dic| || |out| == r.dicPos)
    && r.state < NUM_STATES
    && (|out| > 0 ==> r.reps.Within(Min(|out|, env.prop.dicSize)))
    && (|out| == 0 ==> r.state == 0 && r.reps == Reps(1, 1, 1, 1))
  }

  /** checkDicSize is raised when the history has filled the dictionary. */
  ghost predicate Checked(env: Settings, out: seq<byte>) {
    env.checkDicSize == if |out| >= env.prop.dicSize then env.prop.dicSize else 0
  }

  ghost function CtxOf(env: Settings, r: Regs, out: seq<byte>): Ctx
    requires env.prop.Valid() && r.state < NUM_STATES
    requires |out| > 0 ==> r.reps.Within(Min(|out|, env.prop.dicSize))
    requires |out| == 0 ==> r.state == 0
  {
    ContextOf(env.prop, r.state, r.reps.r0, out)
  }

  /** A core that only carries what symbols act on. */
  ghost function Bare(env: Settings, r: Regs, out: seq<byte>): Core {
    Core(env.prop, 0, 0, [], r.state, r.reps, out, r.len)
  }

  lemma Reachable(env: Settings, dic: seq<byte>, r: Regs, out: seq<byte>)
    requires Placed(env, dic, r, out) && |out| > 0
    ensures 1 <= r.reps.r0 <= |dic|
    ensures BackByte(dic, r.dicPos, r.reps.r0) == out[|out| - r.reps.r0]
    ensures BackByte(dic, r.dicPos, 1) == Last(out)
  {
  }

  lemma NoHistory(env: Settings, processedPos: int, out: seq<byte>)
    requires env.prop.Valid() && Checked(env, out) && processedPos == |out| % U32
    ensures (processedPos == 0 && env.checkDicSize == 0) <==> out == []
  {
    if processedPos == 0 && out != [] {
      assert |out| >= U32;
    }
  }

  lemma LiteralBaseAtStart(props: Props)
    requires props.Valid()
    ensures LiteralBase(props, 0, 0) == 0
  {
    ShlIsTimes(0, props.lc);
    ShrOfJoined(0, 0, 8 - props.lc);
    ShlIsTimes(0, 8 - props.lc);
  }

  /** The literal sub-coder from the circular dictionary. */
  method LiteralProb(env: Settings, dic: array<byte>, r: Regs, ghost out: seq<byte>) returns (prob: int)
    requires Placed(env, dic[..], r, out) && Checked(env, out)
    ensures prob == START_OFFSET + LITERAL + LiteralBase(env.prop, |out|, Last(out))
  {
    NoHistory(env, r.processedPos, out);
    prob := START_OFFSET + LITERAL;
    if r.processedPos != 0 || env.checkDicSize != 0 {
      Reachable(env, dic[..], r, out);
      LiteralContextFormulasAgree(env.prop, |out|, Last(out));
      prob := prob + MaskedLiteralBase(env.prop, r.processedPos, dic[(if r.dicPos == 0 then dic.Length else r.dicPos) - 1]);
    } else {
      LiteralBaseAtStart(env.prop);
    }
  }

  /** The effect of a symbol on registers and history, against the reference. */
  ghost predicate Effect(env: Settings, r: Regs, out: seq<byte>, symbol: Symbol, err: bool, r': Regs, out': seq<byte>) {
    && symbol.Valid() && r.len == 0 && (|out| > 0 ==> 1 <= r.reps.r0 <= |out|)
    && Apply(Bare(env, r, out), symbol) == if err then Refused else Applied(Bare(env, r', out'))
  }

  /** A literal's byte and the state after it, from the bit after IsMatch. */
  method LiteralValue(env: Settings, probs: array<Prob>, dic: array<byte>, r: Regs, c: Coder, src: seq<byte>,
                      ghost out: seq<byte>, ghost goal: Parse)
    returns (symbol: byte, state: nat, c': Coder)
    requires Placed(env, dic[..], r, out) && Checked(env, out) && goal.Parsed?
    requires var ctx := CtxOf(env, r, out);
             On(ctx, AtLiteral(1, r.state >= NUM_LIT_STATES, ctx.matchByte), c, src, probs[..], true, goal)
    modifies probs
    ensures state == StateAfterLiteral(r.state)
    ensures c.buf <= c'.buf && On(CtxOf(env, r, out), Done(Literal(symbol)), c', src, probs[..], true, goal)
  {
    ghost var ctx := CtxOf(env, r, out);
    var prob := LiteralProb(env, dic, r, out);
    state := r.state;
    if state < NUM_LIT_STATES {
      state := state - (if state < 4 then state else 3);
      symbol, c' := ReadLiteral(probs, prob, c, src, ctx, goal);
    } else {
      Reachable(env, dic[..], r, out);
      var matchByte := dic[r.dicPos - r.reps.r0 + (if r.dicPos < r.reps.r0 then dic.Length else 0)];
      state := state - (if state < 10 then 3 else 6);
      symbol, c' := ReadMatchedLiteral(probs, prob, matchByte, c, src, ctx, goal);
    }
  }

  lemma OneMore(env: Settings, dic: seq<byte>, dic': seq<byte>, r: Regs, out: seq<byte>, b: byte, state: nat)
    requires Placed(env, dic, r, out) && |dic'| == |dic| && state < NUM_STATES
    requires Mirrors(dic', r.dicPos + 1, out + [b])
    ensures Placed(env, dic', r.(dicPos := r.dicPos + 1, processedPos := (r.processedPos + 1) % U32, state := state), out + [b])
  {
  }

  /** The literal branch: read, write, move on. */
  method LiteralBranch(env: Settings, probs: array<Prob>, dic: array<byte>, r: Regs, c: Coder, src: seq<byte>,
                       ghost out: seq<byte>, ghost goal: Parse)
    returns (r': Regs, c': Coder, ghost out': seq<byte>)
    requires Placed(env, dic[..], r, out) && Checked(env, out) && r.dicPos < dic.Length && r.len == 0
    requires goal.Parsed?
    requires var ctx := CtxOf(env, r, out);
             On(ctx, AtLiteral(1, r.state >= NUM_LIT_STATES, ctx.matchByte), c, src, probs[..], true, goal)
    modifies probs, dic
    ensures c.buf <= c'.buf && On(CtxOf(env, r, out), Done(goal.symbol), c', src, probs[..], true, goal)
    ensures Placed(env, dic[..], r', out') && r'.dicPos == r.dicPos + 1
    ensures Effect(env, r, out, goal.symbol, false, r', out')
  {
    var symbol, state;
    symbol, state, c' := LiteralValue(env, probs, dic, r, c, src, out, goal);
    DoneIsGoal(CtxOf(env, r, out), Literal(symbol), c', src, probs[..], goal);
    PutByte(dic, r.dicPos, symbol, out);
    OneMore(env, old(dic[..]), dic[..], r, out, symbol, state);
    out' := out + [symbol];
    r' := r.(dicPos := r.dicPos + 1, processedPos := (r.processedPos + 1) % U32, state := state);
  }

  lemma DoneIsGoal(ctx: Ctx, symbol: Symbol, c: Coder, src: seq<byte>, probs: seq<Prob>, goal: Parse)
    requires On(ctx, Done(symbol), c, src, probs, true, goal) && goal.Parsed?
    ensures goal.symbol == symbol && Normalize(View(c, src)) == Norm(goal.rc) && goal.probs == probs
  {
    LeadsFed(ctx, Done(symbol), View(c, src), probs, true, goal);
  }

  /** Registers after a new match: the end mark, or the distance checked against the
      history and moved in front of the others. */
  function SetMatch(env: Settings, r: Regs, len: nat, distance: nat): (bool, Regs) {
    var state := r.state + NUM_STATES;
    if distance == END_MARK_DISTANCE then (false, r.(len := MATCH_SPEC_LEN_START, state := state - NUM_STATES))
    else
      (distance >= (if env.checkDicSize == 0 then r.processedPos else env.checkDicSize),
       r.(len := len + MATCH_MIN_LEN,
          state := if state < NUM_STATES + NUM_LIT_STATES then NUM_LIT_STATES else NUM_LIT_STATES + 3,
          reps := Reps(distance + 1, r.reps.r0, r.reps.r1, r.reps.r2)))
  }

  lemma SetMatchEffect(env: Settings, dic: seq<byte>, r: Regs, out: seq<byte>, len: nat, distance: nat)
    requires Placed(env, dic, r, out) && Checked(env, out) && r.len == 0 && Match(len, distance).Valid()
    ensures var (err, r') := SetMatch(env, r, len, distance);
            && Effect(env, r, out, Match(len, distance), err, r', out)
            && (!err ==> Placed(env, dic, r', out))
  {
    assert env.checkDicSize == 0 ==> r.processedPos == |out|;
  }

  /** A new match, from the bit after IsRep: length, distance, and the check that the
      distance stays inside the history. */
  method NewMatchBranch(env: Settings, probs: array<Prob>, r: Regs, posState: nat, c: Coder, src: seq<byte>,
                        ghost dic: seq<byte>, ghost out: seq<byte>, ghost goal: Parse)
    returns (err: bool, r': Regs, c': Coder)
    requires Placed(env, dic, r, out) && Checked(env, out) && r.len == 0 && goal.Parsed?
    requires posState == CtxOf(env, r, out).posState
    requires On(CtxOf(env, r, out), AtChoice(NewMatch), c, src, probs[..], true, goal)
    modifies probs
    ensures c.buf <= c'.buf && On(CtxOf(env, r, out), Done(goal.symbol), c', src, probs[..], true, goal)
    ensures goal.symbol.Match? && r'.dicPos == r.dicPos && r'.processedPos == r.processedPos
    ensures Effect(env, r, out, goal.symbol, err, r', out)
    ensures !err ==> Placed(env, dic, r', out)
  {
    ghost var ctx := CtxOf(env, r, out);
    var len, distance;
    len, c' := ReadLength(probs, START_OFFSET + LEN_CODER, posState, c, src, ctx, NewMatch, goal);
    distance, c' := ReadDistance(probs, len, c', src, ctx, goal);
    DoneIsGoal(ctx, Match(len, distance), c', src, probs[..], goal);
    SetMatchEffect(env, dic, r, out, len, distance);
    var moved := SetMatch(env, r, len, distance);
    err, r' := moved.0, moved.1;
  }

  lemma RepEffect(env: Settings, dic: seq<byte>, r: Regs, out: seq<byte>, index: nat, len: nat)
    requires Placed(env, dic, r, out) && |out| > 0 && r.len == 0 && RepMatch(index, len).Valid()
    ensures var r' := r.(reps := r.reps.Front(index), state := StateAfterRep(r.state), len := len + MATCH_MIN_LEN);
            && Effect(env, r, out, RepMatch(index, len), false, r', out)
            && Placed(env, dic, r', out)
  {
  }

  lemma ShortRepEffect(env: Settings, dic: seq<byte>, dic': seq<byte>, r: Regs, out: seq<byte>)
    requires Placed(env, dic, r, out) && |out| > 0 && r.len == 0 && |dic'| == |dic|
    requires Mirrors(dic', r.dicPos + 1, Copy(out, r.reps.r0, 1))
    ensures var r' := r.(dicPos := r.dicPos + 1, processedPos := (r.processedPos + 1) % U32,
                         state := StateAfterShortRep(r.state));
            && Effect(env, r, out, ShortRep, false, r', Copy(out, r.reps.r0, 1))
            && Placed(env, dic', r', Copy(out, r.reps.r0, 1))
  {
    CopyOnce(out, r.reps.r0);
    OneMore(env, dic, dic', r, out, out[|out| - r.reps.r0], StateAfterShortRep(r.state));
  }

  lemma CopyOnce(out: seq<byte>, dist: int)
    requires 1 <= dist <= |out|
    ensures Copy(out, dist, 1) == out + [out[|out| - dist]]
  {
    assert Copy(out, dist, 0) == out;
  }

  /** A short repeated match: the byte at the last distance once more. */
  method CopyOne(env: Settings, dic: array<byte>, r: Regs, ghost out: seq<byte>) returns (r': Regs, ghost out': seq<byte>)
    requires Placed(env, dic[..], r, out) && |out| > 0 && r.len == 0 && r.dicPos < dic.Length
    modifies dic
    ensures Placed(env, dic[..], r', out') && Effect(env, r, out, ShortRep, false, r', out')
    ensures |out'| == |out| + 1 && r'.dicPos == r.dicPos + 1
  {
    Reachable(env, dic[..], r, out);
    assert Copy(out, r.reps.r0, 0) == out;
    CopyByte(dic, r.dicPos, r.dicPos - r.reps.r0 + (if r.dicPos < r.reps.r0 then dic.Length else 0), r.reps.r0, out, 0);
    ShortRepEffect(env, old(dic[..]), dic[..], r, out);
    out' := Copy(out, r.reps.r0, 1);
    r' := r.(dicPos := r.dicPos + 1, processedPos := (r.processedPos + 1) % U32,
             state := if r.state < NUM_LIT_STATES then 9 else 11);
  }

  /** A repeated match, from the bit after IsRep; a short one copies its byte. */
  method RepBranch(env: Settings, probs: array<Prob>, dic: array<byte>, r: Regs, posState: nat, c: Coder, src: seq<byte>,
                   ghost out: seq<byte>, ghost goal: Parse)
    returns (r': Regs, c': Coder, ghost out': seq<byte>)
    requires Placed(env, dic[..], r, out) && r.len == 0 && r.dicPos < dic.Length && goal.Parsed?
    requires |out| == 0 ==> !ClassOf(Done(goal.symbol)).OfRep?
    requires posState == CtxOf(env, r, out).posState
    requires On(CtxOf(env, r, out), AtRepG0, c, src, probs[..], true, goal)
    modifies probs, dic
    ensures c.buf <= c'.buf && On(CtxOf(env, r, out), Done(goal.symbol), c', src, probs[..], true, goal)
    ensures r'.dicPos == r.dicPos + |out'| - |out| && |out| <= |out'| <= |out| + 1
    ensures Effect(env, r, out, goal.symbol, false, r', out') && Placed(env, dic[..], r', out')
  {
    ghost var ctx := CtxOf(env, r, out);
    var short, reps; ghost var index;
    short, reps, c', index := ReadRep(probs, r.state, posState, r.reps, c, src, ctx, goal);
    out' := out;
    if short {
      DoneIsGoal(ctx, ShortRep, c', src, probs[..], goal);
      r', out' := CopyOne(env, dic, r, out);
    } else {
      var len;
      len, c' := ReadLength(probs, START_OFFSET + REP_LEN_CODER, posState, c', src, ctx, OldMatch(index), goal);
      DoneIsGoal(ctx, RepMatch(index, len), c', src, probs[..], goal);
      RepEffect(env, dic[..], r, out, index, len);
      r' := r.(reps := reps, state := if r.state < NUM_LIT_STATES then 8 else 11, len := len + MATCH_MIN_LEN);
    }
  }

  /** One symbol, up to but not including the copy of a match. */
  method DecodeOne(env: Settings, probs: array<Prob>, dic: array<byte>, r: Regs, c: Coder, src: seq<byte>,
                   ghost out: seq<byte>, ghost goal: Parse)
    returns (err: bool, r': Regs, c': Coder, ghost out': seq<byte>)
    requires Placed(env, dic[..], r, out) && Checked(env, out) && r.len == 0 && goal.Parsed?
    requires |out| == 0 ==> !ClassOf(Done(goal.symbol)).OfRep?
    requires r.dicPos < dic.Length || goal.symbol.Match?
    requires On(CtxOf(env, r, out), AtIsMatch, c, src, probs[..], true, goal)
    modifies probs, dic
    ensures c.buf <= c'.buf && On(CtxOf(env, r, out), Done(goal.symbol), c', src, probs[..], true, goal)
    ensures r'.dicPos == r.dicPos + |out'| - |out| && |out| <= |out'| <= |out| + 1
    ensures Effect(env, r, out, goal.symbol, err, r', out')
    ensures !err ==> Placed(env, dic[..], r', out')
    ensures goal.symbol.Match? ==> out' == out && dic[..] == old(dic[..])
    ensures err ==> goal.symbol.Match?
  {
    ghost var ctx := CtxOf(env, r, out);
    PosStateBound(env.prop, |out|);
    var posState := BitAnd(r.processedPos, Shl(1, env.prop.pb) - 1) * 16;
    err, out' := false, out;
    var bit;
    bit, c' := GetBit(probs, START_OFFSET + IS_MATCH + (posState + r.state), c, src, ctx, AtIsMatch, goal);
    if !bit {
      OnlyMatchAtLimit(ctx, AtLiteral(1, r.state >= NUM_LIT_STATES, ctx.matchByte), c', src, probs[..], goal);
      r', c', out' := LiteralBranch(env, probs, dic, r, c', src, out, goal);
    } else {
      bit, c' := GetBit(probs, START_OFFSET + IS_REP + r.state, c', src, ctx, AtIsRep, goal);
      if !bit {
        err, r', c' := NewMatchBranch(env, probs, r, posState, c', src, dic[..], out, goal);
      } else {
        OnlyMatchAtLimit(ctx, AtRepG0, c', src, probs[..], goal);
        r', c', out' := RepBranch(env, probs, dic, r, posState, c', src, out, goal);
      }
    }
  }

  lemma OnlyMatchAtLimit(ctx: Ctx, stage: Stage, c: Coder, src: seq<byte>, probs: seq<Prob>, goal: Parse)
    requires On(ctx, stage, c, src, probs, true, goal) && goal.Parsed? && !ClassOf(stage).Unknown?
    ensures ClassOf(Done(goal.symbol)) == ClassOf(stage)
  {
    LeadsTo(ctx, stage, View(c, src), probs, true, goal);
    SymbolClass(ctx, stage, View(c, src), probs);
  }
}
