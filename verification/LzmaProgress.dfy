/** Progress of the real decoder toward the result of a call. `r` is what the
    reference machine makes of the call; every part of the real decoder keeps the
    rest of the work leading to it. */
module LzmaProgress {
  import opened Words
  import opened LzmaLayout
  import opened LzmaRangeCoder
  import opened LzmaSymbol
  import opened LzmaParse
  import opened LzmaStream
  import opened LzmaCalls
  import opened LzmaBits
  import opened LzmaDictionary
  import opened LzmaOneSymbol

  predicate AskedFor(key: Key, c: Core, inp: seq<byte>) {
    true
  }

  /** Resuming from here gives `r`. Like Leads, it unfolds only on request. */
  ghost predicate Toward(c: Core, inp: seq<byte>, limit: nat, mode: Mode, r: Outcome) {
    && c.Valid() && |c.out| <= limit
    && forall key {:trigger AskedFor(key, c, inp)} :: AskedFor(key, c, inp) ==> Resume(c, inp, limit, mode) == r
  }

  lemma TowardIs(c: Core, inp: seq<byte>, limit: nat, mode: Mode, r: Outcome)
    requires Toward(c, inp, limit, mode, r)
    ensures Resume(c, inp, limit, mode) == r
  {
    assert AskedFor(Key, c, inp);
  }

  /** The core after one parsed symbol, in terms of registers and history. */
  ghost function CoreWith(env: Settings, rc: Rc, probs: seq<Prob>, r: Regs, out: seq<byte>): Core {
    Core(env.prop, rc.range, rc.code, probs, r.state, r.reps, out, r.len)
  }

  /** A parse on a part of the input is the parse on all of it. */
  lemma LeadsExtend(ctx: Ctx, rc: Rc, probs: seq<Prob>, goal: Parse, tail: seq<byte>)
    requires Leads(ctx, AtIsMatch, rc, probs, true, goal) && goal.Parsed?
    ensures Leads(ctx, AtIsMatch, rc.Extend(tail), probs, true, Parsed(goal.symbol, goal.rc.Extend(tail), goal.probs))
  {
    LeadsTo(ctx, AtIsMatch, rc, probs, true, goal);
    RunExtend(ctx, AtIsMatch, rc, probs, true, tail);
  }

  lemma TowardStep(c: Core, inp: seq<byte>, limit: nat, mode: Mode, r: Outcome, goal: Parse)
    requires Toward(c, inp, limit, mode, r) && c.rem == 0 && |c.out| < limit
    requires Leads(c.Context(), AtIsMatch, c.Coder(inp), c.probs, true, goal)
    ensures goal.Short? ==> r == Stop(c, inp, NeedsMoreInput)
    ensures goal.Parsed? && goal.symbol.Valid() ==>
              match Apply(c.(range := goal.rc.range, code := goal.rc.code, probs := goal.probs), goal.symbol)
              case Refused => r == Fail(NotSpecified, c.out)
              case Applied(core) => Toward(core, goal.rc.inp, limit, mode, r)
  {
    TowardIs(c, inp, limit, mode, r);
    LeadsTo(c.Context(), AtIsMatch, c.Coder(inp), c.probs, true, goal);
    ResumeStep(c, inp, limit, mode);
  }

  /** At the limit, with the stream required to end: only the end mark goes on. */
  lemma TowardEnd(c: Core, inp: seq<byte>, limit: nat, r: Outcome, goal: Parse)
    requires Toward(c, inp, limit, FinishEnd, r) && c.rem == 0 && |c.out| == limit && c.code != 0
    requires Leads(c.Context(), AtIsMatch, c.Coder(inp), c.probs, true, goal)
    ensures goal.Short? ==> r == Stop(c, inp, NeedsMoreInput)
    ensures goal.Parsed? && !goal.symbol.Match? ==> r == Fail(NotFinished, c.out)
    ensures goal.Parsed? && goal.symbol.Match? && !goal.symbol.EndMark() ==> r == Fail(NotSpecified, c.out)
    ensures goal.Parsed? && goal.symbol.EndMark() ==>
              var core := c.(range := goal.rc.range, code := goal.rc.code, probs := goal.probs, rem := MATCH_SPEC_LEN_START);
              Toward(core, goal.rc.inp, limit, FinishEnd, r)
  {
    TowardIs(c, inp, limit, FinishEnd, r);
    LeadsTo(c.Context(), AtIsMatch, c.Coder(inp), c.probs, true, goal);
  }

  lemma TowardEmit(c: Core, inp: seq<byte>, limit: nat, mode: Mode, r: Outcome, n: nat)
    requires Toward(c, inp, limit, mode, r) && c.Copying() && n <= c.rem && |c.out| + n <= limit
    ensures Toward(Emit(c, n), inp, limit, mode, r)
  {
    TowardIs(c, inp, limit, mode, r);
    ResumeEmit(c, inp, limit, mode, n, Emit(c, n));
    TowardFrom(Emit(c, n), inp, limit, mode, r);
  }

  lemma TowardFrom(c: Core, inp: seq<byte>, limit: nat, mode: Mode, r: Outcome)
    requires c.Valid() && |c.out| <= limit && Resume(c, inp, limit, mode) == r
    ensures Toward(c, inp, limit, mode, r)
  {
  }

  lemma ResumeEmit(c: Core, inp: seq<byte>, limit: nat, mode: Mode, n: nat, e: Core)
    requires c.Valid() && c.Copying() && n <= c.rem && |c.out| + n <= limit && e == Emit(c, n)
    ensures Resume(c, inp, limit, mode) == Resume(e, inp, limit, mode)
  {
    EmitIsFlush(c, n);
    ResumeFrom(c, inp, |c.out| + n, limit, mode, e);
  }

  lemma ResumeFrom(c: Core, inp: seq<byte>, l1: nat, l2: nat, mode: Mode, f: Core)
    requires c.Valid() && |c.out| <= l1 <= l2 && f == Flush(c, l1)
    ensures Resume(c, inp, l2, mode) == Resume(f, inp, l2, mode)
  {
    ResumeFlushed(c, inp, l1, l2, mode);
  }

  lemma EmitIsFlush(c: Core, n: nat)
    requires c.Valid() && c.Copying() && n <= c.rem
    ensures Emit(c, n) == Flush(c, |c.out| + n)
  {
  }

  lemma EffectApplies(env: Settings, r: Regs, out: seq<byte>, symbol: Symbol, err: bool, r1: Regs, out1: seq<byte>,
                      n: Rc, probs: seq<Prob>)
    requires Effect(env, r, out, symbol, err, r1, out1)
    ensures Apply(CoreWith(env, n, probs, r, out), symbol)
         == if err then Refused else Applied(CoreWith(env, n, probs, r1, out1))
  {
  }

  lemma SymbolToward(env: Settings, r: Regs, out: seq<byte>, n: Rc, probs: seq<Prob>, goal: Parse, tail: seq<byte>,
                     err: bool, r1: Regs, out1: seq<byte>, limit: nat, mode: Mode, res: Outcome)
    requires var c := CoreWith(env, n, probs, r, out);
             && Toward(c, n.inp + tail, limit, mode, res) && c.rem == 0 && |out| < limit
             && Leads(c.Context(), AtIsMatch, n, probs, true, goal)
    requires goal.Parsed? && Effect(env, r, out, goal.symbol, err, r1, out1)
    ensures err ==> res == Fail(NotSpecified, out)
    ensures !err ==> Toward(CoreWith(env, goal.rc, goal.probs, r1, out1), goal.rc.inp + tail, limit, mode, res)
  {
    var c := CoreWith(env, n, probs, r, out);
    LeadsExtend(c.Context(), n, probs, goal, tail);
    TowardStep(c, n.inp + tail, limit, mode, res, Parsed(goal.symbol, goal.rc.Extend(tail), goal.probs));
    EffectApplies(env, r, out, goal.symbol, err, r1, out1, goal.rc, goal.probs);
  }

  lemma SymbolTowardEnd(env: Settings, r: Regs, out: seq<byte>, n: Rc, probs: seq<Prob>, goal: Parse, tail: seq<byte>,
                        err: bool, r1: Regs, out1: seq<byte>, limit: nat, res: Outcome)
    requires var c := CoreWith(env, n, probs, r, out);
             && Toward(c, n.inp + tail, limit, FinishEnd, res) && c.rem == 0 && |out| == limit && n.code != 0
             && Leads(c.Context(), AtIsMatch, n, probs, true, goal)
    requires goal.Parsed? && goal.symbol.Match? && Effect(env, r, out, goal.symbol, err, r1, out1)
    ensures err || r1.len != MATCH_SPEC_LEN_START ==> res == Fail(NotSpecified, out)
    ensures !err && r1.len == MATCH_SPEC_LEN_START ==>
              Toward(CoreWith(env, goal.rc, goal.probs, r1, out1), goal.rc.inp + tail, limit, FinishEnd, res)
  {
    var c := CoreWith(env, n, probs, r, out);
    LeadsExtend(c.Context(), n, probs, goal, tail);
    TowardEnd(c, n.inp + tail, limit, res, Parsed(goal.symbol, goal.rc.Extend(tail), goal.probs));
    EffectApplies(env, r, out, goal.symbol, err, r1, out1, goal.rc, goal.probs);
  }

  predicate AskedBetween(key: Key, c: Coder, n: Rc) {
    true
  }

  /** The main loop between two symbols: the coder may owe one normalisation; `n` is
      the coder after it, and `tail` the input behind the current buffer. Like Leads,
      it unfolds only on request. */
  ghost predicate BetweenSymbols(env: Settings, probs: seq<Prob>, dic: seq<byte>, r: Regs, c: Coder, src: seq<byte>, tail: seq<byte>,
                      out: seq<byte>, n: Rc, limit: nat, mode: Mode, res: Outcome)
  {
    forall key {:trigger AskedBetween(key, c, n)} :: AskedBetween(key, c, n) ==>
      && Placed(env, dic, r, out)
      && c.buf <= |src| && View(c, src).Valid() && Normalize(View(c, src)) == Norm(n)
      && Toward(CoreWith(env, n, probs, r, out), n.inp + tail, limit, mode, res)
  }

  lemma IsBetween(env: Settings, probs: seq<Prob>, dic: seq<byte>, r: Regs, c: Coder, src: seq<byte>, tail: seq<byte>,
                  out: seq<byte>, n: Rc, limit: nat, mode: Mode, res: Outcome)
    requires BetweenSymbols(env, probs, dic, r, c, src, tail, out, n, limit, mode, res)
    ensures Placed(env, dic, r, out)
    ensures c.buf <= |src| && View(c, src).Valid() && Normalize(View(c, src)) == Norm(n)
    ensures Toward(CoreWith(env, n, probs, r, out), n.inp + tail, limit, mode, res)
  {
    assert AskedBetween(Key, c, n);
  }

  /** Whether the call is at its output limit and looks for the end mark only. */
  ghost predicate Ending(r: Regs, dicLimit: nat, out: seq<byte>, n: Rc, limit: nat, mode: Mode) {
    r.dicPos == dicLimit && |out| == limit && mode.FinishEnd? && n.code != 0
  }

  /** One round of the main loop. */
  method Round(env: Settings, probs: array<Prob>, dic: array<byte>, r: Regs, c: Coder, src: seq<byte>, dicLimit: nat,
               ghost tail: seq<byte>, ghost out: seq<byte>, ghost n: Rc, ghost limit: nat, ghost mode: Mode,
               ghost res: Outcome, ghost goal: Parse)
    returns (err: bool, r': Regs, c': Coder, ghost out': seq<byte>, ghost n': Rc)
    requires BetweenSymbols(env, probs[..], dic[..], r, c, src, tail, out, n, limit, mode, res)
    requires Placed(env, dic[..], r, out) && Checked(env, out) && r.len == 0
    requires Leads(CtxOf(env, r, out), AtIsMatch, n, probs[..], true, goal) && goal.Parsed?
    requires |out| == 0 ==> !ClassOf(Done(goal.symbol)).OfRep?
    requires r.dicPos <= dicLimit <= dic.Length && |out| + (dicLimit - r.dicPos) <= limit
    requires r.dicPos < dicLimit || (Ending(r, dicLimit, out, n, limit, mode) && goal.symbol.Match?)
    modifies probs, dic
    ensures err ==> res == Fail(NotSpecified, out') && Mirrors(dic[..], r'.dicPos, out')
    ensures n' == goal.rc && r.dicPos <= r'.dicPos <= dicLimit
    ensures !err ==> BetweenSymbols(env, probs[..], dic[..], r', c', src, tail, out', n', limit, mode, res) && c.buf <= c'.buf
    ensures r'.dicPos == r.dicPos + |out'| - |out|
    ensures !err ==> r'.len == MATCH_SPEC_LEN_START || (|out| < |out'| && (r'.len == 0 || r'.dicPos == dicLimit))
  {
    ghost var ctx := CtxOf(env, r, out);
    IsBetween(env, probs[..], dic[..], r, c, src, tail, out, n, limit, mode, res);
    LeadsEarly(ctx, AtIsMatch, View(c, src), n, probs[..], true, goal);
    err, r', c', out' := DecodeOne(env, probs, dic, r, c, src, out, goal);
    LeadsFed(ctx, Done(goal.symbol), View(c', src), probs[..], true, goal);
    n' := goal.rc;
    if r.dicPos < dicLimit {
      SymbolToward(env, r, out, n, old(probs[..]), goal, tail, err, r', out', limit, mode, res);
    } else {
      SymbolTowardEnd(env, r, out, n, old(probs[..]), goal, tail, err, r', out', limit, res);
    }
    if !err && r'.len != 0 && r'.len != MATCH_SPEC_LEN_START {
      var rem := dicLimit - r'.dicPos;
      if rem == 0 {
        err := true;
      } else {
        r', out' := CopyPart(env, probs[..], dic, r', rem, out', n', n'.inp + tail, limit, mode, res);
      }
    }
  }

  /** As much of a match as fits below the limit; the rest stays in `len`. */
  method CopyPart(env: Settings, ghost probs: seq<Prob>, dic: array<byte>, r: Regs, rem: nat,
                  ghost out: seq<byte>, ghost n: Rc, ghost inp: seq<byte>, ghost limit: nat, ghost mode: Mode, ghost res: Outcome)
    returns (r': Regs, ghost out': seq<byte>)
    requires Placed(env, dic[..], r, out) && 0 < r.len < MATCH_SPEC_LEN_START && |out| > 0
    requires 0 < rem && r.dicPos + rem <= dic.Length && |out| + rem <= limit
    requires Toward(CoreWith(env, n, probs, r, out), inp, limit, mode, res)
    modifies dic
    ensures Placed(env, dic[..], r', out')
    ensures Toward(CoreWith(env, n, probs, r', out'), inp, limit, mode, res)
    ensures |out| < |out'| && r'.dicPos == r.dicPos + |out'| - |out| && r'.dicPos <= r.dicPos + rem
    ensures r'.len == 0 || (r'.dicPos == r.dicPos + rem && r'.len < MATCH_SPEC_LEN_START)
  {
    var curLen := if rem < r.len then rem else r.len;
    InReach(env, dic[..], r, out);
    var dicPos := CopyMatch(dic, r.dicPos, r.reps.r0, curLen, out);
    out' := Copy(out, r.reps.r0, curLen);
    r' := r.(dicPos := dicPos, processedPos := (r.processedPos + curLen) % U32, len := r.len - curLen);
    AfterCopy(env, old(dic[..]), dic[..], r, out, curLen, r', out', n, probs, inp, limit, mode, res);
  }

  /** The rest of a match that did not fit, copied as far as the limit allows;
      checkDicSize is raised when the history fills the dictionary. */
  method CopyRest(env: Settings, ghost probs: seq<Prob>, dic: array<byte>, r: Regs, limit: nat,
                  ghost out: seq<byte>, ghost n: Rc, ghost inp: seq<byte>, ghost total: nat, ghost mode: Mode, ghost res: Outcome)
    returns (checkDicSize: int, r': Regs, ghost out': seq<byte>)
    requires Placed(env, dic[..], r, out) && Checked(env, out) && 0 < r.len < MATCH_SPEC_LEN_START && |out| > 0
    requires r.dicPos <= limit <= dic.Length && |out| + (limit - r.dicPos) <= total
    requires Toward(CoreWith(env, n, probs, r, out), inp, total, mode, res)
    modifies dic
    ensures Placed(env, dic[..], r', out') && Checked(env.(checkDicSize := checkDicSize), out')
    ensures Toward(CoreWith(env, n, probs, r', out'), inp, total, mode, res)
    ensures r'.dicPos == r.dicPos + |out'| - |out| && |out| <= |out'| && r'.dicPos <= limit
    ensures r'.len == 0 || (r'.dicPos == limit && r'.len < MATCH_SPEC_LEN_START)
  {
    var len := r.len;
    var rem := limit - r.dicPos;
    if rem < len {
      len := rem;
    }
    checkDicSize := env.checkDicSize;
    if checkDicSize == 0 && env.prop.dicSize - r.processedPos <= len {
      checkDicSize := env.prop.dicSize;
    }
    CheckRaised(env, r.processedPos, |out|, len, checkDicSize);
    r', out' := CopySome(env, probs, dic, r, len, out, n, inp, total, mode, res);
  }

  method CopySome(env: Settings, ghost probs: seq<Prob>, dic: array<byte>, r: Regs, len: nat,
                  ghost out: seq<byte>, ghost n: Rc, ghost inp: seq<byte>, ghost total: nat, ghost mode: Mode, ghost res: Outcome)
    returns (r': Regs, ghost out': seq<byte>)
    requires Placed(env, dic[..], r, out) && len <= r.len < MATCH_SPEC_LEN_START && 0 < r.len && |out| > 0
    requires r.dicPos + len <= dic.Length && |out| + len <= total
    requires Toward(CoreWith(env, n, probs, r, out), inp, total, mode, res)
    modifies dic
    ensures Placed(env, dic[..], r', out')
    ensures Toward(CoreWith(env, n, probs, r', out'), inp, total, mode, res)
    ensures |out'| == |out| + len && r'.dicPos == r.dicPos + len && r'.len == r.len - len
  {
    ghost var before := dic[..];
    InReach(env, before, r, out);
    out' := Copy(out, r.reps.r0, len);
    var dicPos := CopyRemainder(dic, r.dicPos, r.reps.r0, len, out);
    r' := r.(dicPos := dicPos, processedPos := (r.processedPos + len) % U32, len := r.len - len);
    AfterCopy(env, before, dic[..], r, out, len, r', out', n, probs, inp, total, mode, res);
  }

  lemma InReach(env: Settings, dic: seq<byte>, r: Regs, out: seq<byte>)
    requires Placed(env, dic, r, out) && |out| > 0
    ensures 1 <= r.reps.r0 <= |out| && r.reps.r0 <= |dic|
  {
  }

  /** A part of a match copied in the buffer is the reference's copy of it. */
  lemma AfterCopy(env: Settings, dic: seq<byte>, dic': seq<byte>, r: Regs, out: seq<byte>, len: nat, r': Regs, out': seq<byte>,
                  n: Rc, probs: seq<Prob>, inp: seq<byte>, limit: nat, mode: Mode, res: Outcome)
    requires Placed(env, dic, r, out) && |out| > 0 && |dic'| == |dic| && 1 <= r.reps.r0 <= |out|
    requires 0 < r.len < MATCH_SPEC_LEN_START && len <= r.len && |out| + len <= limit
    requires Toward(CoreWith(env, n, probs, r, out), inp, limit, mode, res)
    requires out' == Copy(out, r.reps.r0, len) && Mirrors(dic', r.dicPos + len, out')
    requires r' == r.(dicPos := r.dicPos + len, processedPos := (r.processedPos + len) % U32, len := r.len - len)
    ensures Placed(env, dic', r', out') && |out'| == |out| + len
    ensures Toward(CoreWith(env, n, probs, r', out'), inp, limit, mode, res)
  {
    var c := CoreWith(env, n, probs, r, out);
    TowardEmit(c, inp, limit, mode, res, len);
    EmitIsCopy(env, r, out, len, r', out', n, probs);
    PlacedAfterCopy(env, dic, dic', r, out, len);
  }

  lemma EmitIsCopy(env: Settings, r: Regs, out: seq<byte>, len: nat, r': Regs, out': seq<byte>, n: Rc, probs: seq<Prob>)
    requires var c := CoreWith(env, n, probs, r, out); c.Valid() && c.Copying() && len <= r.len
    requires out' == Copy(out, r.reps.r0, len)
    requires r'.state == r.state && r'.reps == r.reps && r'.len == r.len - len
    ensures Emit(CoreWith(env, n, probs, r, out), len) == CoreWith(env, n, probs, r', out')
  {
  }

  lemma CheckRaised(env: Settings, processedPos: int, produced: nat, len: nat, checkDicSize: int)
    requires env.prop.Valid() && processedPos == produced % U32
    requires env.checkDicSize == if produced >= env.prop.dicSize then env.prop.dicSize else 0
    requires checkDicSize == if env.checkDicSize == 0 && env.prop.dicSize - processedPos <= len then env.prop.dicSize
                             else env.checkDicSize
    ensures checkDicSize == if produced + len >= env.prop.dicSize then env.prop.dicSize else 0
  {
  }

  lemma PlacedAfterCopy(env: Settings, dic: seq<byte>, dic': seq<byte>, r: Regs, out: seq<byte>, n: nat)
    requires Placed(env, dic, r, out) && |out| > 0 && |dic'| == |dic| && n <= r.len
    requires Mirrors(dic', r.dicPos + n, Copy(out, r.reps.r0, n))
    ensures Placed(env, dic', r.(dicPos := r.dicPos + n, processedPos := (r.processedPos + n) % U32, len := r.len - n),
                   Copy(out, r.reps.r0, n))
  {
    PositionAdds(|out|, n);
    PlacedLonger(env, dic, dic', r, out, Copy(out, r.reps.r0, n), n, (r.processedPos + n) % U32);
  }

  lemma PlacedLonger(env: Settings, dic: seq<byte>, dic': seq<byte>, r: Regs, out: seq<byte>, out': seq<byte>, n: nat,
                     processedPos: int)
    requires Placed(env, dic, r, out) && |out| > 0 && |dic'| == |dic| && n <= r.len && |out'| == |out| + n
    requires Mirrors(dic', r.dicPos + n, out') && processedPos == |out'| % U32
    ensures Placed(env, dic', r.(dicPos := r.dicPos + n, processedPos := processedPos, len := r.len - n), out')
  {
  }

  lemma PositionAdds(x: nat, n: nat)
    ensures (x % U32 + n) % U32 == (x + n) % U32
  {
  }
}
