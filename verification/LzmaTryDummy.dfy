/** The dry run of one symbol: whether the input holds all of it, and of which kind
    it is, found without changing anything. */
module LzmaTryDummy {
  import opened Words
  import opened LzmaLayout
  import opened LzmaRangeCoder
  import opened LzmaSymbol
  import opened LzmaParse
  import opened LzmaStream
  import opened LzmaBits
  import opened LzmaDry
  import opened LzmaOneSymbol

  datatype DummyRes = DummyError | DummyLit | DummyMatch | DummyRep

  /** What the dry run should say about a parse of the real decoder. */
  function Verdict(p: Parse): DummyRes {
    match p
    case Short => DummyError
    case Parsed(symbol, _, _) => KindOfSymbol(symbol)
  }

  function KindOfSymbol(symbol: Symbol): DummyRes {
    match symbol
    case Literal(_) => DummyLit
    case Match(_, _) => DummyMatch
    case ShortRep => DummyRep
    case RepMatch(_, _) => DummyRep
  }

  /** A dry run reports what the adapting run of the same symbol gives. */
  lemma DryVerdict(ctx: Ctx, rc: Rc, probs: seq<Prob>) returns (goal: Parse)
    requires Ready(ctx, AtIsMatch, rc, probs)
    ensures Leads(ctx, AtIsMatch, rc, probs, false, goal)
    ensures Verdict(goal) == Verdict(Run(ctx, AtIsMatch, rc, probs, true))
  {
    goal := Run(ctx, AtIsMatch, rc, probs, false);
    DryRunAgrees(ctx, AtIsMatch, rc, probs, probs);
  }

  /** The literal sub-coder as the dry run computes it. */
  method DryLiteralProb(env: Settings, dic: array<byte>, r: Regs, ghost out: seq<byte>) returns (prob: int)
    requires Placed(env, dic[..], r, out) && Checked(env, out)
    ensures prob == START_OFFSET + LITERAL + LiteralBase(env.prop, |out|, Last(out))
  {
    NoHistory(env, r.processedPos, out);
    prob := START_OFFSET + LITERAL;
    if env.checkDicSize != 0 || r.processedPos != 0 {
      Reachable(env, dic[..], r, out);
      LiteralContextFormulasAgree(env.prop, |out|, Last(out));
      prob := prob + DryLiteralBase(env.prop, r.processedPos, dic[(if r.dicPos == 0 then dic.Length else r.dicPos) - 1]);
    } else {
      LiteralBaseAtStart(env.prop);
    }
  }

  method DryLiteral(env: Settings, probs: array<Prob>, dic: array<byte>, r: Regs, c: Coder, src: seq<byte>,
                    ghost out: seq<byte>, ghost goal: Parse)
    returns (ok: bool, c': Coder, ghost symbol: Symbol)
    requires Placed(env, dic[..], r, out) && Checked(env, out)
    requires var ctx := CtxOf(env, r, out);
             On(ctx, AtLiteral(1, r.state >= NUM_LIT_STATES, ctx.matchByte), c, src, probs[..], false, goal)
    ensures symbol.Literal?
    ensures !ok ==> goal.Short?
    ensures ok ==> On(CtxOf(env, r, out), Done(symbol), c', src, probs[..], false, goal)
  {
    ghost var ctx := CtxOf(env, r, out);
    var prob := DryLiteralProb(env, dic, r, out);
    ghost var value;
    if r.state < NUM_LIT_STATES {
      ok, c', value := CheckLiteral(probs, prob, c, src, ctx, goal);
    } else {
      Reachable(env, dic[..], r, out);
      var matchByte := dic[r.dicPos - r.reps.r0 + (if r.dicPos < r.reps.r0 then dic.Length else 0)];
      ok, c', value := CheckMatchedLiteral(probs, prob, matchByte, c, src, ctx, goal);
    }
    symbol := Literal(value);
  }

  method DryMatch(probs: array<Prob>, state: nat, posState: nat, c: Coder, src: seq<byte>, ghost ctx: Ctx, ghost goal: Parse)
    returns (ok: bool, res: DummyRes, c': Coder, ghost symbol: Symbol)
    requires On(ctx, AtIsRep, c, src, probs[..], false, goal)
    requires state == ctx.state && posState == ctx.posState
    ensures res == KindOfSymbol(symbol)
    ensures !ok ==> goal.Short?
    ensures ok ==> On(ctx, Done(symbol), c', src, probs[..], false, goal)
  {
    res, symbol := DummyMatch, Match(0, 0);
    var bit, len, short;
    ghost var index, distance;
    ok, bit, c' := GetBitCheck(probs, START_OFFSET + IS_REP + state, c, src, ctx, AtIsRep, goal);
    if !ok {
      return;
    }
    if !bit {
      ok, len, c' := CheckLength(probs, START_OFFSET + LEN_CODER, posState, c', src, ctx, NewMatch, goal);
      if ok {
        ok, c', distance := CheckDistance(probs, len, c', src, ctx, goal);
        symbol := Match(len, distance);
      }
    } else {
      res, symbol := DummyRep, ShortRep;
      ok, short, c', index := CheckRep(probs, state, posState, c', src, ctx, goal);
      if ok && !short {
        ok, len, c' := CheckLength(probs, START_OFFSET + REP_LEN_CODER, posState, c', src, ctx, OldMatch(index), goal);
        symbol := RepMatch(index, len);
      }
    }
  }

  lemma ContextPlaced(env: Settings, dic: seq<byte>, r: Regs, out: seq<byte>)
    requires Placed(env, dic, r, out)
    ensures CtxOf(env, r, out).Valid()
    ensures CtxOf(env, r, out).posState == BitAnd(r.processedPos, Shl(1, env.prop.pb) - 1) * 16
  {
    ContextOfValid(env.prop, r.state, r.reps.r0, out);
    PosStateBound(env.prop, |out|);
  }

  /** The whole dry run, on the decoder's registers and the input it is offered. It
      gives up exactly when the real decoder would need more input for this symbol
      and its last normalisation, and otherwise names the kind of symbol the real
      decoder is going to decode. */
  method DryRun(env: Settings, probs: array<Prob>, dic: array<byte>, r: Regs, c: Coder, src: seq<byte>, ghost out: seq<byte>)
    returns (res: DummyRes)
    requires Placed(env, dic[..], r, out) && Checked(env, out) && probs.Length == NumProbs(env.prop)
    requires c.buf <= |src| && View(c, src).Valid()
    ensures CtxOf(env, r, out).Valid()
    ensures res == Verdict(Run(CtxOf(env, r, out), AtIsMatch, View(c, src), probs[..], true))
  {
    ghost var ctx := CtxOf(env, r, out);
    ContextPlaced(env, dic[..], r, out);
    ghost var goal := DryVerdict(ctx, View(c, src), probs[..]);
    var posState := BitAnd(r.processedPos, Shl(1, env.prop.pb) - 1) * 16;
    res := DrySymbol(env, probs, dic, r, posState, c, src, out, goal);
  }

  method DrySymbol(env: Settings, probs: array<Prob>, dic: array<byte>, r: Regs, posState: nat, c: Coder, src: seq<byte>,
                   ghost out: seq<byte>, ghost goal: Parse)
    returns (res: DummyRes)
    requires Placed(env, dic[..], r, out) && Checked(env, out) && posState == CtxOf(env, r, out).posState
    requires On(CtxOf(env, r, out), AtIsMatch, c, src, probs[..], false, goal)
    ensures res == Verdict(goal)
  {
    ghost var ctx := CtxOf(env, r, out);
    var ok, bit, c';
    ghost var symbol;
    ok, bit, c' := GetBitCheck(probs, START_OFFSET + IS_MATCH + (posState + r.state), c, src, ctx, AtIsMatch, goal);
    if !ok {
      return DummyError;
    }
    if !bit {
      ok, c', symbol := DryLiteral(env, probs, dic, r, c', src, out, goal);
      res := DummyLit;
    } else {
      ok, res, c', symbol := DryMatch(probs, r.state, posState, c', src, ctx, goal);
    }
    if !ok {
      return DummyError;
    }
    LeadsFed(ctx, Done(symbol), View(c', src), probs[..], false, goal);
    ok, c' := ShiftCheck(c', src);
    if !ok {
      return DummyError;
    }
  }
}
