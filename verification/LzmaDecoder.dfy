/** The resumable LZMA decoder: the object that carries its state across calls, in
    the buffers and fields of the original. */
module LzmaDecoder {
  import opened Words
  import opened LzmaLayout
  import opened LzmaRangeCoder
  import opened LzmaSymbol
  import opened LzmaParse
  import opened LzmaStream
  import opened LzmaCalls
  import opened LzmaBits
  import opened LzmaDictionary
  import opened LzmaOneSymbol
  import opened LzmaProgress
  import opened LzmaTryDummy

  datatype SRes = SzOk | SzErrorData | SzErrorFail

  /** The phase in which the header is still to come. */
  const NEED_INIT_STATE := MATCH_SPEC_LEN_START + 2

  predicate AskedAhead(key: Key, inp: seq<byte>) {
    true
  }

  predicate AskedValid(key: Key) {
    true
  }

  predicate AskedReturn(key: Key, r: CallResult) {
    true
  }

  class LzmaDec {
    const prop: Props
    const probs: array<Prob>
    const dic: array<byte>
    const tempBuf: array<byte>
    var dicPos: nat
    var buf: nat
    var range: int
    var code: int
    var processedPos: int
    var checkDicSize: int
    var reps: Reps
    var state: nat
    var remainLen: nat
    var tempBufSize: nat

    /** Everything produced since the dictionary was initialised. */
    ghost var out: seq<byte>

    ghost function Env(): Settings
      reads `checkDicSize
    {
      Settings(prop, checkDicSize)
    }

    ghost function Registers(): Regs
      reads `dicPos, `processedPos, `state, `reps, `remainLen
    {
      Regs(dicPos, processedPos, state, reps, remainLen)
    }

    ghost function CoreNow(): Core
      reads `range, `code, `state, `reps, `out, `remainLen, probs
    {
      Core(prop, range, code, probs[..], state, reps, out, remainLen)
    }

    ghost predicate Shape() {
      prop.Valid() && probs.Length == NumProbs(prop) && dic != tempBuf && tempBuf.Length == REQUIRED_INPUT_MAX
    }

    /** The rest of a call, from these fields and the unread input, leads to `res`.
        Like Leads, it unfolds only on request. */
    ghost predicate Ahead(inp: seq<byte>, total: nat, mode: Mode, res: Outcome)
      reads `dicPos, `range, `code, `processedPos, `checkDicSize, `reps, `state, `remainLen, `out, probs, dic
    {
      && Shape() && remainLen <= MATCH_SPEC_LEN_START && processedPos == |out| % U32
      && forall key {:trigger AskedAhead(key, inp)} :: AskedAhead(key, inp) ==>
           && Placed(Env(), dic[..], Registers(), out)
           && Toward(CoreNow(), inp, total, mode, res)
    }

    lemma IsAhead(inp: seq<byte>, total: nat, mode: Mode, res: Outcome)
      requires Ahead(inp, total, mode, res)
      ensures Placed(Env(), dic[..], Registers(), out)
      ensures Toward(CoreNow(), inp, total, mode, res)
      ensures CoreNow().Valid()
    {
      assert AskedAhead(Key, inp);
    }

    /** The call fails; the dictionary holds what has been produced until then. */
    ghost predicate Broken(res: Outcome, st: Status)
      reads `dicPos, `out, dic
    {
      res == Fail(st, out) && Mirrors(dic[..], dicPos, out)
    }

    /** The next symbol on this input. */
    ghost predicate LeadsHere(inp: seq<byte>, goal: Parse)
      reads `range, `code, `state, `reps, `out, `remainLen, probs
    {
      && prop.Valid() && (state >= NUM_LIT_STATES ==> 1 <= reps.r0 <= |out|)
      && Leads(CoreNow().Context(), AtIsMatch, Rc(range, code, inp), probs[..], true, goal)
    }

    /** What holds whenever a call may go on: the room left in the buffer is the room
        left below the call's output limit. */
    ghost predicate Working(limit: nat, inp: seq<byte>, total: nat, mode: Mode, res: Outcome)
      reads `dicPos, `range, `code, `processedPos, `checkDicSize, `reps, `state, `remainLen, `out, probs, dic
    {
      && Ahead(inp, total, mode, res) && Checked(Env(), out)
      && dicPos <= limit <= dic.Length && |out| + (limit - dicPos) == total
    }

    /** The main loop: at least one symbol, then more while there is room for output
        and enough input for whole symbols. */
    method DecodeReal(limit: nat, src: seq<byte>, bufLimit: nat,
                      ghost tail: seq<byte>, ghost total: nat, ghost mode: Mode, ghost res: Outcome, ghost goal: Parse)
      returns (sres: SRes)
      requires buf <= |src| && Ahead(src[buf..] + tail, total, mode, res) && Checked(Env(), out) && remainLen == 0
      requires LeadsHere(src[buf..], goal) && goal.Parsed?
      requires |out| == 0 ==> !ClassOf(Done(goal.symbol)).OfRep?
      requires dicPos <= limit <= dic.Length && |out| + (limit - dicPos) <= total
      requires checkDicSize == 0 ==> |out| + (limit - dicPos) <= prop.dicSize
      requires bufLimit <= buf || bufLimit + REQUIRED_INPUT_MAX <= |src|
      requires dicPos < limit || (dicPos == limit && |out| == total && mode.FinishEnd? && code != 0 && goal.symbol.Match?)
      modifies this, probs, dic
      ensures tempBufSize == old(tempBufSize) && checkDicSize == old(checkDicSize)
      ensures sres == SzOk ==> old(buf) <= buf <= |src|
      ensures sres == SzOk || (sres == SzErrorData && Broken(res, NotSpecified))
      ensures sres == SzOk ==> Ahead(src[buf..] + tail, total, mode, res)
      ensures old(dicPos) <= dicPos <= limit
      ensures |out| - dicPos == |old(out)| - old(dicPos)
      ensures sres == SzOk ==> remainLen == MATCH_SPEC_LEN_START || (|out| > |old(out)| && (remainLen == 0 || dicPos == limit))
      ensures sres == SzOk && bufLimit <= old(buf) ==> src[buf..] == goal.rc.inp
    {
      var env := Settings(prop, checkDicSize);
      var c := Coder(range, code, buf);
      var r := Regs(dicPos, processedPos, state, reps, 0);
      ghost var o;
      IsAhead(src[buf..] + tail, total, mode, res);
      sres, r, c, o := MainLoop(env, probs, dic, r, c, src, limit, bufLimit, tail, out, total, mode, res, goal);
      if sres == SzOk {
        Store(r, c, o);
        assert CoreNow() == CoreWith(env, View(c, src), probs[..], r, o);
      } else {
        dicPos := r.dicPos;
        out := o;
      }
    }

    /** WriteRem: the pending part of a match, up to the limit. */
    method WriteRem(limit: nat, ghost inp: seq<byte>, ghost total: nat, ghost mode: Mode, ghost res: Outcome)
      requires Working(limit, inp, total, mode, res)
      modifies this, dic
      ensures Working(limit, inp, total, mode, res) && old(dicPos) <= dicPos
      ensures remainLen == 0 || remainLen == MATCH_SPEC_LEN_START || dicPos == limit
      ensures old(remainLen) == 0 || old(remainLen) == MATCH_SPEC_LEN_START ==> CoreNow() == old(CoreNow())
      ensures tempBufSize == old(tempBufSize) && buf == old(buf) && range == old(range) && code == old(code)
    {
      if remainLen != 0 && remainLen < MATCH_SPEC_LEN_START {
        IsAhead(inp, total, mode, res);
        var env := Settings(prop, checkDicSize);
        var r := Regs(dicPos, processedPos, state, reps, remainLen);
        ghost var n, o := Rc(range, code, []), out;
        assert CoreWith(env, n, probs[..], r, o) == CoreNow();
        var check;
        check, r, o := CopyRest(env, probs[..], dic, r, limit, o, n, inp, total, mode, res);
        Store(r, Coder(range, code, buf), o);
        checkDicSize := check;
        assert CoreNow() == CoreWith(env, n, probs[..], r, o);
      }
    }

    /** A limit that stops where the history fills the dictionary, and the check of
        the first code word. */
    method LimitToDictionary(limit: nat, src: seq<byte>,
                             ghost tail: seq<byte>, ghost total: nat, ghost mode: Mode, ghost res: Outcome, ghost goal: Parse)
      returns (sres: SRes, limit2: nat)
      requires buf <= |src| && Working(limit, src[buf..] + tail, total, mode, res) && remainLen == 0
      requires LeadsHere(src[buf..], goal) && goal.Parsed?
      requires dicPos < limit || goal.symbol.Match?
      ensures sres == SzOk || (sres == SzErrorData && Broken(res, NotSpecified))
      ensures dicPos <= limit2 <= limit && (dicPos < limit ==> dicPos < limit2)
      ensures checkDicSize == 0 ==> |out| + (limit2 - dicPos) <= prop.dicSize
      ensures sres == SzOk && out == [] ==> !ClassOf(Done(goal.symbol)).OfRep?
    {
      limit2 := limit;
      NoHistory(Env(), processedPos, out);
      if checkDicSize == 0 {
        var rem := prop.dicSize - processedPos;
        if limit - dicPos > rem {
          limit2 := dicPos + rem;
        }
        if processedPos == 0 {
          FirstSymbolHere(src[buf..], tail, total, mode, res, goal);
          if code >= BAD_REP_CODE {
            return SzErrorData, limit2;
          }
        }
      }
      sres := SzOk;
    }

    /** One round of DecodeReal2: up to the point where the history fills the
        dictionary, then the rest of the last match. */
    method DecodeReal2Round(limit: nat, src: seq<byte>, bufLimit: nat,
                            ghost tail: seq<byte>, ghost total: nat, ghost mode: Mode, ghost res: Outcome, ghost goal: Parse)
      returns (sres: SRes)
      requires buf <= |src| && Working(limit, src[buf..] + tail, total, mode, res) && remainLen == 0
      requires LeadsHere(src[buf..], goal) && goal.Parsed?
      requires bufLimit <= buf || bufLimit + REQUIRED_INPUT_MAX <= |src|
      requires dicPos < limit || (mode.FinishEnd? && code != 0 && goal.symbol.Match?)
      modifies this, probs, dic
      ensures sres == SzOk || (sres == SzErrorData && Broken(res, NotSpecified))
      ensures tempBufSize == old(tempBufSize) && old(dicPos) <= dicPos <= limit
      ensures |out| - dicPos == |old(out)| - old(dicPos)
      ensures sres == SzOk ==> old(buf) <= buf <= |src| && Working(limit, src[buf..] + tail, total, mode, res)
      ensures sres == SzOk ==> remainLen == MATCH_SPEC_LEN_START || (|out| > |old(out)| && (remainLen == 0 || dicPos == limit))
      ensures sres == SzOk && bufLimit <= old(buf) ==> src[buf..] == goal.rc.inp
    {
      var limit2;
      sres, limit2 := LimitToDictionary(limit, src, tail, total, mode, res, goal);
      if sres != SzOk {
        return;
      }
      sres := DecodeReal(limit2, src, bufLimit, tail, total, mode, res, goal);
      if sres == SzOk {
        RaiseCheck(|old(out)|, src[buf..] + tail, total, mode, res);
        WriteRem(limit, src[buf..] + tail, total, mode, res);
      }
    }

    lemma FirstSymbolHere(inp: seq<byte>, tail: seq<byte>, total: nat, mode: Mode, res: Outcome, goal: Parse)
      requires Ahead(inp + tail, total, mode, res) && remainLen == 0 && out == []
      requires LeadsHere(inp, goal) && goal.Parsed?
      requires total > 0 || goal.symbol.Match?
      ensures code >= BAD_REP_CODE ==> Broken(res, NotSpecified)
      ensures code < BAD_REP_CODE ==> !ClassOf(Done(goal.symbol)).OfRep?
    {
      IsAhead(inp + tail, total, mode, res);
      FirstSymbol(CoreNow(), inp, tail, total, mode, res, goal);
    }

    /** checkDicSize is raised when the main loop has filled the dictionary. */
    method RaiseCheck(ghost before: nat, ghost inp: seq<byte>, ghost total: nat, ghost mode: Mode,
                      ghost res: Outcome)
      requires Ahead(inp, total, mode, res) && before <= |out|
      requires checkDicSize == if before >= prop.dicSize then prop.dicSize else 0
      requires checkDicSize == 0 ==> |out| <= prop.dicSize
      modifies this`checkDicSize
      ensures Ahead(inp, total, mode, res) && Checked(Env(), out)
    {
      IsAhead(inp, total, mode, res);
      CheckReached(Env(), processedPos, before, |out|);
      if checkDicSize == 0 && processedPos >= prop.dicSize {
        checkDicSize := prop.dicSize;
      }
    }

    lemma NextGoal(inp: seq<byte>, tail: seq<byte>, total: nat, mode: Mode, res: Outcome) returns (goal: Parse)
      requires Ahead(inp + tail, total, mode, res) && remainLen == 0 && |inp| >= REQUIRED_INPUT_MAX
      ensures LeadsHere(inp, goal) && goal.Parsed?
    {
      IsAhead(inp + tail, total, mode, res);
      goal := NextSymbolParses(Env(), probs[..], dic[..], Registers(), out, Rc(range, code, inp));
    }

    method DecodeReal2(limit: nat, src: seq<byte>, bufLimit: nat,
                       ghost tail: seq<byte>, ghost total: nat, ghost mode: Mode, ghost res: Outcome, ghost goal: Parse)
      returns (sres: SRes)
      requires buf <= |src| && Working(limit, src[buf..] + tail, total, mode, res) && remainLen == 0
      requires LeadsHere(src[buf..], goal) && goal.Parsed?
      requires bufLimit <= buf || bufLimit + REQUIRED_INPUT_MAX <= |src|
      requires dicPos < limit || (mode.FinishEnd? && code != 0 && goal.symbol.Match?)
      modifies this, probs, dic
      ensures sres == SzOk || (sres == SzErrorData && Broken(res, NotSpecified))
      ensures tempBufSize == old(tempBufSize) && old(dicPos) <= dicPos <= limit
      ensures |out| - dicPos == |old(out)| - old(dicPos)
      ensures sres == SzOk ==> buf <= |src| && Working(limit, src[buf..] + tail, total, mode, res)
      ensures sres == SzOk ==> remainLen == MATCH_SPEC_LEN_START || (|out| > |old(out)| && (remainLen == 0 || dicPos == limit))
      ensures sres == SzOk && bufLimit <= old(buf) ==> src[buf..] == goal.rc.inp
    {
      ghost var g := goal;
      sres := DecodeReal2Round(limit, src, bufLimit, tail, total, mode, res, g);
      while sres == SzOk && dicPos < limit && buf < bufLimit && remainLen < MATCH_SPEC_LEN_START
        invariant sres == SzOk || (sres == SzErrorData && Broken(res, NotSpecified))
        invariant tempBufSize == old(tempBufSize) && old(dicPos) <= dicPos <= limit
        invariant |out| - dicPos == |old(out)| - old(dicPos)
        invariant sres == SzOk ==> old(buf) <= buf <= |src| && Working(limit, src[buf..] + tail, total, mode, res)
        invariant sres == SzOk ==> remainLen == MATCH_SPEC_LEN_START || (|out| > |old(out)| && (remainLen == 0 || dicPos == limit))
        invariant sres == SzOk && bufLimit <= old(buf) ==> src[buf..] == goal.rc.inp
        decreases if sres == SzOk then 2 + limit - dicPos - (if remainLen == MATCH_SPEC_LEN_START then 1 else 0) else 0
      {
        g := NextGoal(src[buf..], tail, total, mode, res);
        sres := DecodeReal2Round(limit, src, bufLimit, tail, total, mode, res, g);
      }
    }

    /** TryDummy on the bytes `src`: an error exactly when they do not hold the whole
        next symbol, otherwise the kind of symbol that DecodeReal will decode. */
    method TryDummy(src: seq<byte>, ghost inp: seq<byte>, ghost total: nat, ghost mode: Mode, ghost res: Outcome)
      returns (dummy: DummyRes, ghost goal: Parse)
      requires Ahead(inp, total, mode, res) && Checked(Env(), out)
      ensures LeadsHere(src, goal) && dummy == Verdict(goal)
    {
      IsAhead(inp, total, mode, res);
      ContextValid(CoreNow());
      assert src[0..] == src;
      dummy := DryRun(Settings(prop, checkDicSize), probs, dic, Regs(dicPos, processedPos, state, reps, remainLen),
                      Coder(range, code, 0), src, out);
      goal := Run(CoreNow().Context(), AtIsMatch, Rc(range, code, src), probs[..], true);
    }

    // ---- One call ----

    /** The bytes taken by earlier calls and not used yet. */
    ghost function Carry(): seq<byte>
      requires tempBufSize <= tempBuf.Length
      reads `tempBufSize, tempBuf
    {
      tempBuf[..tempBufSize]
    }

    /** The decoder as the reference machine sees it. */
    ghost function Abstract(): Decoder
      requires tempBufSize <= tempBuf.Length
      reads this, probs, tempBuf
    {
      if remainLen > MATCH_SPEC_LEN_START then Header(prop, Carry()) else Body(CoreNow(), Carry())
    }

    /** What holds between two calls. Like Leads, the main part unfolds only on
        request. */
    ghost predicate Valid()
      reads this, probs, dic, tempBuf
    {
      && Shape() && tempBufSize <= tempBuf.Length && dicPos <= dic.Length
      && Abstract().Produced() == |out|
      && forall key {:trigger AskedValid(key)} :: AskedValid(key) ==> Inside()
    }

    /** The reference state is valid. Before the header is complete nothing has been
        produced; after it the dictionary mirrors the history. */
    ghost predicate Inside()
      requires tempBufSize <= tempBuf.Length && dicPos <= dic.Length
      reads this, probs, dic, tempBuf
    {
      && Abstract().Valid() && Checked(Env(), out)
      && if remainLen > MATCH_SPEC_LEN_START then AtStart() else Placed(Env(), dic[..], Registers(), out)
    }

    lemma IsInside()
      requires Valid()
      ensures Inside()
    {
      assert AskedValid(Key);
    }

    ghost predicate AtStart()
      reads this
    {
      remainLen == NEED_INIT_STATE && out == [] && dicPos == 0 && processedPos == 0 && checkDicSize == 0
    }

    /** The call ends as the reference machine's call does. Like Leads, it unfolds
        only on request. */
    ghost predicate Returned(r: CallResult, limit: nat, total: nat, sres: SRes, srcLen: nat, status: Status)
      reads this, probs, dic, tempBuf
    {
      forall key {:trigger AskedReturn(key, r)} :: AskedReturn(key, r) ==> EndsAs(r, limit, total, sres, srcLen, status)
    }

    lemma HowItEnds(r: CallResult, limit: nat, total: nat, sres: SRes, srcLen: nat, status: Status)
      requires Returned(r, limit, total, sres, srcLen, status)
      ensures EndsAs(r, limit, total, sres, srcLen, status)
    {
      assert AskedReturn(Key, r);
    }

    /** How the end of a call compares with the reference machine's. */
    ghost predicate EndsAs(r: CallResult, limit: nat, total: nat, sres: SRes, srcLen: nat, status: Status)
      reads this, probs, dic, tempBuf
    {
      match r
      case Failed(st, o) =>
        && sres == SzErrorData && status == st && o == out
        && Mirrors(dic[..], dicPos, out) && |out| + (limit - dicPos) == total
      case Called(dec, n, st) =>
        && sres == SzOk && status == st && srcLen == n && Valid() && Abstract() == dec
        && |out| + (limit - dicPos) == total
    }

    /** Between two turns of a call's loop, with `from` input bytes taken: carried
        bytes are only there before anything has been decoded. */
    ghost predicate Turning(limit: nat, inp: seq<byte>, from: nat, carry: seq<byte>, total: nat, mode: Mode, res: Outcome)
      reads this, probs, dic, tempBuf
    {
      && from <= |inp| && tempBufSize <= tempBuf.Length
      && Working(limit, Carry() + inp[from..], total, mode, res)
      && (remainLen == 0 || remainLen == MATCH_SPEC_LEN_START || dicPos == limit)
      && (tempBufSize > 0 ==> from == 0 && Carry() == carry && CarryStarves())
    }

    ghost predicate CarryStarves()
      requires tempBufSize <= tempBuf.Length
      reads this, probs, tempBuf
    {
      CoreNow().Valid() && Starving(CoreNow(), Carry())
    }

    /** Bytes put behind the carried ones, up to twenty in all. */
    method FillTemp(src: seq<byte>) returns (lookAhead: nat)
      requires tempBufSize <= tempBuf.Length == REQUIRED_INPUT_MAX
      modifies `tempBufSize, tempBuf
      ensures lookAhead <= |src| && tempBufSize == old(tempBufSize) + lookAhead <= REQUIRED_INPUT_MAX
      ensures Carry() == old(Carry()) + src[..lookAhead]
      ensures tempBufSize < REQUIRED_INPUT_MAX ==> lookAhead == |src|
    {
      var rem := tempBufSize;
      lookAhead := 0;
      while rem < REQUIRED_INPUT_MAX && lookAhead < |src|
        invariant lookAhead <= |src| && rem == tempBufSize + lookAhead <= REQUIRED_INPUT_MAX
        invariant tempBuf[..rem] == old(Carry()) + src[..lookAhead]
      {
        tempBuf[rem] := src[lookAhead];
        rem, lookAhead := rem + 1, lookAhead + 1;
      }
      tempBufSize := rem;
    }

    /** Leaving the loop in agreement with the reference. */
    lemma Settles(limit: nat, inp: seq<byte>, from: nat, carry: seq<byte>, total: nat, mode: Mode, res: Outcome, st: Status)
      requires from <= |inp| && tempBufSize <= tempBuf.Length
      requires Working(limit, Carry() + inp[from..], total, mode, res)
      requires res == Stop(CoreNow(), Carry() + inp[from..], st)
      requires tempBufSize > 0 ==> CarryStarves()
      requires st == NeedsMoreInput ==> from == |inp|
      requires st != NeedsMoreInput && tempBufSize > 0 ==> from == 0 && Carry() == carry
      ensures Returned(Settle(res, carry, inp), limit, total, SzOk, from, st)
    {
      IsAhead(Carry() + inp[from..], total, mode, res);
      if st == NeedsMoreInput {
        assert Carry() + inp[from..] == Carry();
      }
    }

    /** At the output limit: the call is over, or only the end mark may follow. */
    method AtDicLimit(limit: nat, inp: seq<byte>, from: nat, mode: Mode, ghost carry: seq<byte>, ghost total: nat, ghost res: Outcome)
      returns (done: bool, sres: SRes, status: Status)
      requires Turning(limit, inp, from, carry, total, mode, res) && remainLen != MATCH_SPEC_LEN_START && dicPos == limit
      ensures done ==> Returned(Settle(res, carry, inp), limit, total, sres, from, status)
      ensures !done ==> remainLen == 0 && code != 0 && mode.FinishEnd?
    {
      done, sres, status := true, SzOk, NotSpecified;
      ghost var rest := Carry() + inp[from..];
      IsAhead(rest, total, mode, res);
      LimitReached(CoreNow(), rest, total, mode, res);
      if remainLen == 0 && code == 0 {
        Settles(limit, inp, from, carry, total, mode, res, MaybeFinishedWithoutMark);
        status := MaybeFinishedWithoutMark;
      } else if mode == FinishAny {
        Settles(limit, inp, from, carry, total, mode, res, NotFinished);
        status := NotFinished;
      } else if remainLen != 0 {
        sres, status := SzErrorData, NotFinished;
      } else {
        done := false;
      }
    }

    /** Too little input for the next symbol: the reference stops here too. */
    lemma Starved(inp: seq<byte>, total: nat, mode: Mode, res: Outcome, goal: Parse)
      requires Ahead(inp, total, mode, res) && remainLen == 0
      requires LeadsHere(inp, goal) && goal.Short?
      requires |out| < total || (|out| == total && mode.FinishEnd? && code != 0)
      ensures res == Stop(CoreNow(), inp, NeedsMoreInput)
      ensures CoreNow().Valid() && Starving(CoreNow(), inp)
    {
      IsAhead(inp, total, mode, res);
      ShortStops(CoreNow(), inp, total, mode, res, goal);
    }

    lemma ShortIsShort(inp: seq<byte>, rest: seq<byte>, total: nat, mode: Mode, res: Outcome, goal: Parse)
      requires Ahead(rest, total, mode, res) && LeadsHere(inp, goal) && goal.Short?
      ensures |inp| < REQUIRED_INPUT_MAX
    {
      IsAhead(rest, total, mode, res);
      ShortNeedsFew(CoreNow().Context(), Rc(range, code, inp), probs[..], goal);
    }

    lemma NotTheEnd(inp: seq<byte>, tail: seq<byte>, total: nat, res: Outcome, goal: Parse)
      requires Ahead(inp + tail, total, FinishEnd, res) && remainLen == 0 && |out| == total && code != 0
      requires LeadsHere(inp, goal) && goal.Parsed? && !goal.symbol.Match?
      ensures Broken(res, NotFinished)
    {
      IsAhead(inp + tail, total, FinishEnd, res);
      LeadsExtend(CoreNow().Context(), Rc(range, code, inp), probs[..], goal, tail);
      TowardEnd(CoreNow(), inp + tail, total, res, Parsed(goal.symbol, goal.rc.Extend(tail), goal.probs));
    }

    ghost predicate ReadyForSymbol(limit: nat, checkEndMarkNow: bool, mode: Mode)
      reads this
    {
      remainLen == 0 && if checkEndMarkNow then dicPos == limit && mode.FinishEnd? && code != 0 else dicPos < limit
    }

    /** A turn that decodes straight from the caller's input. */
    method TurnFromInput(limit: nat, inp: seq<byte>, from: nat, mode: Mode, checkEndMarkNow: bool,
                         ghost carry: seq<byte>, ghost total: nat, ghost res: Outcome)
      returns (done: bool, sres: SRes, from': nat, status: Status)
      requires Turning(limit, inp, from, carry, total, mode, res) && tempBufSize == 0
      requires ReadyForSymbol(limit, checkEndMarkNow, mode)
      modifies this, probs, dic, tempBuf
      ensures old(dicPos) <= dicPos <= limit && from' <= |inp|
      ensures done ==> Returned(Settle(res, carry, inp), limit, total, sres, from', status)
      ensures !done ==> sres == SzOk && status == NotSpecified && Turning(limit, inp, from', carry, total, mode, res)
      ensures !done ==> remainLen == MATCH_SPEC_LEN_START || old(dicPos) < dicPos
    {
      var src := inp[from..];
      assert Carry() + inp[from..] == src && src + [] == src;
      done, sres, from', status := true, SzOk, from, NotSpecified;
      var bufLimit := 0;
      ghost var goal;
      if |src| < REQUIRED_INPUT_MAX || checkEndMarkNow {
        var dummy;
        dummy, goal := TryDummy(src, src, total, mode, res);
        if dummy == DummyError {
          from' := KeepInput(limit, inp, from, mode, carry, total, res, goal);
          status := NeedsMoreInput;
          return;
        }
        if checkEndMarkNow && dummy != DummyMatch {
          NotTheEnd(src, [], total, res, goal);
          sres, status := SzErrorData, NotFinished;
          return;
        }
      } else {
        bufLimit := |src| - REQUIRED_INPUT_MAX;
        goal := NextGoal(src, [], total, mode, res);
      }
      done := false;
      sres, from' := DecodeStraight(limit, inp, from, bufLimit, mode, carry, total, res, goal);
      done := sres != SzOk;
    }

    /** DecodeReal2 on the caller's input. */
    method DecodeStraight(limit: nat, inp: seq<byte>, from: nat, bufLimit: nat, ghost mode: Mode, ghost carry: seq<byte>,
                          ghost total: nat, ghost res: Outcome, ghost goal: Parse)
      returns (sres: SRes, from': nat)
      requires from <= |inp| && Working(limit, inp[from..], total, mode, res) && tempBufSize == 0 && remainLen == 0
      requires LeadsHere(inp[from..], goal) && goal.Parsed?
      requires bufLimit == 0 || bufLimit + REQUIRED_INPUT_MAX <= |inp| - from
      requires dicPos < limit || (mode.FinishEnd? && code != 0 && goal.symbol.Match?)
      modifies this, probs, dic
      ensures old(dicPos) <= dicPos <= limit && from' <= |inp|
      ensures sres == SzOk || (sres == SzErrorData && Broken(res, NotSpecified) && |out| + (limit - dicPos) == total)
      ensures sres == SzOk ==> Turning(limit, inp, from', carry, total, mode, res)
      ensures sres == SzOk ==> remainLen == MATCH_SPEC_LEN_START || old(dicPos) < dicPos
    {
      var src := inp[from..];
      from' := from;
      buf := 0;
      assert src[0..] == src && src + [] == src;
      sres := DecodeReal2(limit, src, bufLimit, [], total, mode, res, goal);
      if sres == SzOk {
        from' := from + buf;
        assert Carry() + inp[from'..] == src[buf..] + [];
      }
    }

    /** The start of a symbol moves into the carry buffer. */
    method KeepInput(limit: nat, inp: seq<byte>, from: nat, ghost mode: Mode, ghost carry: seq<byte>,
                     ghost total: nat, ghost res: Outcome, ghost goal: Parse)
      returns (from': nat)
      requires from <= |inp| && Working(limit, inp[from..], total, mode, res) && tempBufSize == 0
      requires remainLen == 0 && LeadsHere(inp[from..], goal) && goal.Short?
      requires |out| < total || (mode.FinishEnd? && code != 0)
      modifies `tempBufSize, tempBuf
      ensures from' == |inp| && Returned(Settle(res, carry, inp), limit, total, SzOk, from', NeedsMoreInput)
    {
      var src := inp[from..];
      Starved(src, total, mode, res, goal);
      ShortIsShort(src, src, total, mode, res, goal);
      var n := FillTemp(src);
      from' := from + n;
      assert Carry() == src && Carry() + inp[from'..] == src;
      Settles(limit, inp, from', carry, total, mode, res, NeedsMoreInput);
    }

    /** A turn that decodes one symbol from the carry buffer, topped up with new
        input. Both internal-error tests fail on every run: the symbol is longer than
        what was carried, so its end lies in the bytes just added. */
    method TurnFromCarry(limit: nat, inp: seq<byte>, mode: Mode, checkEndMarkNow: bool,
                         ghost carry: seq<byte>, ghost total: nat, ghost res: Outcome)
      returns (done: bool, sres: SRes, from': nat, status: Status)
      requires Turning(limit, inp, 0, carry, total, mode, res) && tempBufSize > 0
      requires ReadyForSymbol(limit, checkEndMarkNow, mode)
      modifies this, probs, dic, tempBuf
      ensures old(dicPos) <= dicPos <= limit && from' <= |inp|
      ensures done ==> Returned(Settle(res, carry, inp), limit, total, sres, from', status)
      ensures !done ==> sres == SzOk && status == NotSpecified && Turning(limit, inp, from', carry, total, mode, res)
      ensures !done ==> remainLen == MATCH_SPEC_LEN_START || old(dicPos) < dicPos
    {
      done, sres, from', status := true, SzOk, 0, NotSpecified;
      ghost var carried, core := Carry(), CoreNow();
      var lookAhead := FillTemp(inp);
      var rem := tempBufSize;
      ghost var src, tail := Carry(), inp[lookAhead..];
      TopUp(carried, inp, lookAhead, src);
      ghost var goal;
      if rem < REQUIRED_INPUT_MAX || checkEndMarkNow {
        var dummy;
        dummy, goal := TryDummy(tempBuf[..rem], src + tail, total, mode, res);
        if dummy == DummyError {
          KeepTemp(limit, inp, lookAhead, mode, carry, total, res, goal);
          from', status := lookAhead, NeedsMoreInput;
          return;
        }
        if checkEndMarkNow && dummy != DummyMatch {
          NotTheEnd(src, tail, total, res, goal);
          sres, status := SzErrorData, NotFinished;
          return;
        }
      } else {
        goal := NextGoal(src, tail, total, mode, res);
      }
      CarryUsed(core, carried, inp[..lookAhead], goal);
      sres, from' := DecodeCarried(limit, inp, rem, lookAhead, mode, carry, total, res, goal);
      done := sres != SzOk;
    }

    /** The carried bytes are still too few when the whole input is added. */
    lemma KeepTemp(limit: nat, inp: seq<byte>, lookAhead: nat, mode: Mode, carry: seq<byte>, total: nat, res: Outcome, goal: Parse)
      requires tempBufSize <= REQUIRED_INPUT_MAX == tempBuf.Length && lookAhead <= |inp|
      requires tempBufSize < REQUIRED_INPUT_MAX ==> lookAhead == |inp|
      requires Working(limit, Carry() + inp[lookAhead..], total, mode, res) && remainLen == 0
      requires LeadsHere(Carry(), goal) && goal.Short?
      requires |out| < total || (mode.FinishEnd? && code != 0)
      ensures Returned(Settle(res, carry, inp), limit, total, SzOk, lookAhead, NeedsMoreInput)
    {
      ShortIsShort(Carry(), Carry() + inp[lookAhead..], total, mode, res, goal);
      assert Carry() + inp[lookAhead..] == Carry();
      Starved(Carry(), total, mode, res, goal);
      Settles(limit, inp, lookAhead, carry, total, mode, res, NeedsMoreInput);
    }

    /** DecodeReal2 on the carry buffer, and the count of input bytes it used. */
    method DecodeCarried(limit: nat, inp: seq<byte>, size: nat, ahead: nat, ghost mode: Mode, ghost carry: seq<byte>,
                         ghost total: nat, ghost res: Outcome, ghost goal: Parse)
      returns (sres: SRes, from': nat)
      requires size == tempBufSize <= tempBuf.Length && ahead <= |inp| && ahead <= size
      requires Carry()[size - ahead..] == inp[..ahead]
      requires Working(limit, Carry() + inp[ahead..], total, mode, res) && remainLen == 0
      requires LeadsHere(Carry(), goal) && goal.Parsed? && |goal.rc.inp| < ahead
      requires dicPos < limit || (mode.FinishEnd? && code != 0 && goal.symbol.Match?)
      modifies this, probs, dic
      ensures old(dicPos) <= dicPos <= limit && from' <= |inp|
      ensures sres == SzOk || (sres == SzErrorData && Broken(res, NotSpecified) && |out| + (limit - dicPos) == total)
      ensures sres == SzOk ==> Turning(limit, inp, from', carry, total, mode, res)
      ensures sres == SzOk ==> remainLen == MATCH_SPEC_LEN_START || old(dicPos) < dicPos
    {
      var src := tempBuf[..size];
      var lookAhead: int, rem: int := ahead, size;
      from' := 0;
      buf := 0;
      assert src[0..] == src;
      sres := DecodeReal2(limit, src, 0, inp[ahead..], total, mode, res, goal);
      if sres == SzOk {
        var kkk := buf;
        UnusedInput(src, inp, ahead, kkk);
        rem := rem - kkk;
        if rem < 0 || lookAhead < rem {
          sres := SzErrorFail;
        } else {
          lookAhead := lookAhead - rem;
          from' := lookAhead;
          tempBufSize := 0;
          assert Carry() + inp[from'..] == src[kkk..] + inp[ahead..];
        }
      }
    }

    /** One turn of DecodeToDic's loop. */
    method Turn(limit: nat, inp: seq<byte>, from: nat, mode: Mode, ghost carry: seq<byte>, ghost total: nat, ghost res: Outcome)
      returns (done: bool, sres: SRes, from': nat, status: Status)
      requires Turning(limit, inp, from, carry, total, mode, res) && remainLen != MATCH_SPEC_LEN_START
      modifies this, probs, dic, tempBuf
      ensures old(dicPos) <= dicPos <= limit && from' <= |inp|
      ensures done ==> Returned(Settle(res, carry, inp), limit, total, sres, from', status)
      ensures !done ==> sres == SzOk && status == NotSpecified && Turning(limit, inp, from', carry, total, mode, res)
      ensures !done ==> remainLen == MATCH_SPEC_LEN_START || old(dicPos) < dicPos
    {
      var checkEndMarkNow := false;
      done, from' := false, from;
      if dicPos >= limit {
        done, sres, status := AtDicLimit(limit, inp, from, mode, carry, total, res);
        if done {
          return;
        }
        checkEndMarkNow := true;
      }
      if tempBufSize == 0 {
        done, sres, from', status := TurnFromInput(limit, inp, from, mode, checkEndMarkNow, carry, total, res);
      } else {
        done, sres, from', status := TurnFromCarry(limit, inp, mode, checkEndMarkNow, carry, total, res);
      }
    }

    /** The loop of DecodeToDic and what follows it. */
    method DecodeBody(limit: nat, inp: seq<byte>, mode: Mode, ghost carry: seq<byte>, ghost total: nat, ghost res: Outcome)
      returns (sres: SRes, from: nat, status: Status)
      requires Turning(limit, inp, 0, carry, total, mode, res)
      modifies this, probs, dic, tempBuf
      ensures old(dicPos) <= dicPos <= limit && from <= |inp|
      ensures Returned(Settle(res, carry, inp), limit, total, sres, from, status)
    {
      sres, from, status := SzOk, 0, NotSpecified;
      while remainLen != MATCH_SPEC_LEN_START
        invariant sres == SzOk && status == NotSpecified
        invariant Turning(limit, inp, from, carry, total, mode, res) && old(dicPos) <= dicPos
        decreases limit - dicPos, if remainLen == MATCH_SPEC_LEN_START then 0 else 1
      {
        var done;
        done, sres, from, status := Turn(limit, inp, from, mode, carry, total, res);
        if done {
          return;
        }
      }
      MarkReached(limit, inp, from, carry, total, mode, res);
      if code != 0 {
        sres := SzErrorData;
      } else {
        status := FinishedWithMark;
      }
    }

    lemma MarkReached(limit: nat, inp: seq<byte>, from: nat, carry: seq<byte>, total: nat, mode: Mode, res: Outcome)
      requires Turning(limit, inp, from, carry, total, mode, res) && remainLen == MATCH_SPEC_LEN_START
      ensures code != 0 ==> Returned(Settle(res, carry, inp), limit, total, SzErrorData, from, NotSpecified)
      ensures code == 0 ==> Returned(Settle(res, carry, inp), limit, total, SzOk, from, FinishedWithMark)
    {
      var rest := Carry() + inp[from..];
      IsAhead(rest, total, mode, res);
      MarkEnds(CoreNow(), rest, total, mode, res);
      if code == 0 {
        Settles(limit, inp, from, carry, total, mode, res, FinishedWithMark);
      }
    }

    /** A call on a decoder that is past its header. */
    method DecodeOn(limit: nat, inp: seq<byte>, mode: Mode, ghost total: nat)
      returns (sres: SRes, from: nat, status: Status)
      requires Valid() && Inside() && remainLen <= MATCH_SPEC_LEN_START
      requires dicPos <= limit <= dic.Length && |out| + (limit - dicPos) == total
      modifies this, probs, dic, tempBuf
      ensures old(dicPos) <= dicPos <= limit && from <= |inp|
      ensures Returned(CallBody(old(CoreNow()), old(Carry()), inp, total, mode), limit, total, sres, from, status)
    {
      ghost var carry, core := Carry(), CoreNow();
      ghost var res := Resume(core, carry + inp, total, mode);
      TowardFrom(core, carry + inp, total, mode, res);
      WriteRem(limit, carry + inp, total, mode, res);
      assert inp[0..] == inp;
      sres, from, status := DecodeBody(limit, inp, mode, carry, total, res);
    }

    /** The header bytes, as many as there are. */
    method TakeHeaderBytes(src: seq<byte>) returns (srcLen: nat)
      requires tempBufSize < RC_INIT_SIZE && Shape()
      modifies `tempBufSize, tempBuf
      ensures srcLen <= |src| && tempBufSize == old(tempBufSize) + srcLen <= RC_INIT_SIZE
      ensures Carry() == old(Carry()) + src[..srcLen]
      ensures tempBufSize < RC_INIT_SIZE ==> srcLen == |src|
    {
      srcLen := 0;
      while srcLen < |src| && tempBufSize < RC_INIT_SIZE
        invariant srcLen <= |src| && tempBufSize == old(tempBufSize) + srcLen <= RC_INIT_SIZE
        invariant Carry() == old(Carry()) + src[..srcLen]
      {
        tempBuf[tempBufSize] := src[srcLen];
        tempBufSize, srcLen := tempBufSize + 1, srcLen + 1;
      }
    }

    method InitProbs()
      requires Shape()
      modifies probs
      ensures probs[..] == InitialProbs(NumProbs(prop))
    {
      var numProbs := NumProbs(prop);
      for i := 0 to numProbs
        invariant forall k | 0 <= k < i :: probs[k] == INITIAL_PROB
      {
        probs[i] := BIT_MODEL_TOTAL / 2;
      }
      assert probs[..] == InitialProbs(numProbs);
    }

    /** The range coder and the model at the start of a stream. */
    method StartBody()
      requires Shape() && tempBufSize == RC_INIT_SIZE && AtStart()
      modifies `code, `range, `tempBufSize, `reps, `state, `remainLen, probs
      ensures remainLen == 0 && tempBufSize == 0 && Valid() && Inside()
      ensures CoreNow() == InitialCore(prop, old(Carry()))
    {
      code := ShiftedWord(tempBuf[1], tempBuf[2], tempBuf[3], tempBuf[4]);
      range := INITIAL_RANGE;
      tempBufSize := 0;
      if remainLen > MATCH_SPEC_LEN_START + 1 {
        InitProbs();
        reps := Reps(1, 1, 1, 1);
        state := 0;
      }
      remainLen := 0;
      assert CoreNow() == InitialCore(prop, old(Carry()));
      assert Mirrors(dic[..], 0, []);
    }

    /** DecodeToDic does exactly what the reference machine's call does: the same
        failure, or the same decoder state, input use, output and status. */
    method DecodeToDic(dicLimit: nat, src: seq<byte>, mode: Mode, ghost total: nat, ghost whole: CallResult)
      returns (sres: SRes, srcLen: nat, status: Status)
      requires Valid() && dicPos <= dicLimit <= dic.Length
      requires total == |out| + (dicLimit - dicPos) && CallIs(Abstract(), src, total, mode, whole)
      modifies this, probs, dic, tempBuf
      ensures old(dicPos) <= dicPos <= dicLimit && srcLen <= |src|
      ensures Returned(whole, dicLimit, total, sres, srcLen, status)
    {
      CallIsCall(Abstract(), src, total, mode, whole);
      srcLen, status := 0, NotSpecified;
      IsInside();
      if remainLen > MATCH_SPEC_LEN_START {
        var done;
        done, sres, srcLen, status := DecodeHeader(src, dicLimit, mode, total, whole);
        if done {
          return;
        }
      }
      ghost var r := CallBody(CoreNow(), Carry(), src[srcLen..], total, mode);
      assert whole == AfterTaking(srcLen, r);
      var used;
      sres, used, status := DecodeOn(dicLimit, src[srcLen..], mode, total);
      ReturnedLater(r, srcLen, dicLimit, total, sres, used, status);
      srcLen := srcLen + used;
    }

    lemma ReturnedLater(r: CallResult, n: nat, limit: nat, total: nat, sres: SRes, srcLen: nat, status: Status)
      requires Returned(r, limit, total, sres, srcLen, status)
      ensures Returned(AfterTaking(n, r), limit, total, sres, n + srcLen, status)
    {
      HowItEnds(r, limit, total, sres, srcLen, status);
    }

    /** The part of a call that deals with the header. */
    method DecodeHeader(src: seq<byte>, ghost limit: nat, ghost mode: Mode, ghost total: nat, ghost whole: CallResult)
      returns (done: bool, sres: SRes, srcLen: nat, status: Status)
      requires Valid() && Inside() && remainLen > MATCH_SPEC_LEN_START && total == limit
      requires whole == Call(Abstract(), src, total, mode)
      modifies this, probs, tempBuf
      ensures srcLen <= |src| && dicPos == old(dicPos) && out == old(out)
      ensures done ==> Returned(whole, limit, total, sres, srcLen, status)
      ensures !done ==> Valid() && Inside() && remainLen == 0
      ensures !done ==> whole == AfterTaking(srcLen, CallBody(CoreNow(), Carry(), src[srcLen..], total, mode))
    {
      done, sres, status := true, SzOk, NotSpecified;
      ghost var carry := Carry();
      srcLen := TakeHeaderBytes(src);
      HeaderTaken(carry, src, srcLen, Carry());
      if tempBufSize != 0 && tempBuf[0] != 0 {
        sres := SzErrorData;
      } else if tempBufSize < RC_INIT_SIZE {
        status := NeedsMoreInput;
      } else {
        done := false;
        StartBody();
      }
    }

    /** A full dictionary is written again from its start. */
    method Rewind()
      requires Valid() && dicPos == dic.Length && prop.dicSize <= dic.Length
      modifies `dicPos
      ensures Valid() && Abstract() == old(Abstract()) && dicPos == 0
    {
      IsInside();
      WrapMirrors(dic[..], out);
      dicPos := 0;
    }

    /** LzmaDec_Init. */
    method Init()
      requires Shape()
      modifies this
      ensures Valid() && Abstract() == Header(prop, []) && out == [] && dicPos == 0
    {
      dicPos := 0;
      tempBufSize := 0;
      processedPos := 0;
      checkDicSize := 0;
      remainLen := NEED_INIT_STATE;
      out := [];
    }

    /** LzmaDec_Allocate, on a machine whose size type holds values below wordSize. */
    constructor Allocate(props: Props, wordSize: nat)
      requires props.Valid() && U32 <= wordSize
      ensures Shape() && prop == props && fresh(probs) && fresh(dic) && fresh(tempBuf)
      ensures props.dicSize <= dic.Length < wordSize && dic.Length == DicBufSize(props.dicSize, wordSize)
    {
      prop := props;
      probs := new Prob[NumProbs(props)];
      dic := new byte[DicBufSize(props.dicSize, wordSize)];
      tempBuf := new byte[REQUIRED_INPUT_MAX];
      reps := Reps(1, 1, 1, 1);
    }

    /** LzmaDec_AllocateProbs; the caller's buffer is the dictionary. */
    constructor AllocateProbs(props: Props, dest: array<byte>)
      requires props.Valid()
      ensures Shape() && prop == props && dic == dest && fresh(this) && fresh(probs) && fresh(tempBuf)
    {
      prop := props;
      probs := new Prob[NumProbs(props)];
      dic := dest;
      tempBuf := new byte[REQUIRED_INPUT_MAX];
      reps := Reps(1, 1, 1, 1);
    }

    /** The local registers go back into the fields. */
    method Store(r: Regs, c: Coder, ghost o: seq<byte>)
      modifies this
      ensures Registers() == r && Coder(range, code, buf) == c && out == o
      ensures tempBufSize == old(tempBufSize) && Env() == old(Env())
    {
      range, code, buf := c.range, c.code, c.buf;
      dicPos, remainLen, processedPos, reps, state := r.dicPos, r.len, r.processedPos, r.reps, r.state;
      out := o;
    }
  }

  /** The next symbol is whole in the input, and there is a place for it. */
  ghost predicate NextIs(env: Settings, probs: seq<Prob>, r: Regs, out: seq<byte>, n: Rc, goal: Parse,
                         limit: nat, total: nat, mode: Mode)
  {
    && env.prop.Valid() && r.len == 0 && Checked(env, out) && goal.Parsed?
    && r.state < NUM_STATES && (|out| > 0 ==> r.reps.Within(Min(|out|, env.prop.dicSize))) && (|out| == 0 ==> r.state == 0)
    && Leads(CtxOf(env, r, out), AtIsMatch, n, probs, true, goal)
    && (|out| == 0 ==> !ClassOf(Done(goal.symbol)).OfRep?)
    && (r.dicPos < limit || (Ending(r, limit, out, n, total, mode) && goal.symbol.Match?))
  }

  /** One round of the main loop, and whether there is another. */
  method NextRound(env: Settings, probs: array<Prob>, dic: array<byte>, r0: Regs, c0: Coder, src: seq<byte>,
                   limit: nat, bufLimit: nat, ghost tail: seq<byte>, ghost out: seq<byte>, ghost n0: Rc,
                   ghost total: nat, ghost mode: Mode, ghost res: Outcome, ghost goal: Parse)
    returns (sres: SRes, more: bool, r: Regs, c: Coder, ghost o: seq<byte>, ghost n: Rc, ghost g: Parse)
    requires BetweenSymbols(env, probs[..], dic[..], r0, c0, src, tail, out, n0, total, mode, res)
    requires NextIs(env, probs[..], r0, out, n0, goal, limit, total, mode)
    requires r0.dicPos <= limit <= dic.Length && |out| + (limit - r0.dicPos) <= total
    requires env.checkDicSize == 0 ==> |out| + (limit - r0.dicPos) <= env.prop.dicSize
    requires bufLimit <= c0.buf || bufLimit + REQUIRED_INPUT_MAX <= |src|
    modifies probs, dic
    ensures sres == SzOk || (sres == SzErrorData && res == Fail(NotSpecified, o) && Mirrors(dic[..], r.dicPos, o))
    ensures r0.dicPos <= r.dicPos <= limit && n == goal.rc && |o| - r.dicPos == |out| - r0.dicPos
    ensures sres == SzOk ==> BetweenSymbols(env, probs[..], dic[..], r, c, src, tail, o, n, total, mode, res)
    ensures sres == SzOk ==> c0.buf <= c.buf
    ensures sres == SzOk ==> r.len == MATCH_SPEC_LEN_START || (|out| < |o| && (r.len == 0 || r.dicPos == limit))
    ensures more ==> sres == SzOk && r0.dicPos < r.dicPos && c.buf < bufLimit && NextIs(env, probs[..], r, o, n, g, limit, total, mode)
  {
    var err;
    more, g := false, goal;
    IsBetween(env, probs[..], dic[..], r0, c0, src, tail, out, n0, total, mode, res);
    err, r, c, o, n := Round(env, probs, dic, r0, c0, src, limit, tail, out, n0, total, mode, res, goal);
    if err {
      sres := SzErrorData;
    } else {
      sres := SzOk;
      more := r.len != MATCH_SPEC_LEN_START && r.dicPos < limit && c.buf < bufLimit;
      if more {
        IsBetween(env, probs[..], dic[..], r, c, src, tail, o, n, total, mode, res);
        g := NextSymbolParses(env, probs[..], dic[..], r, o, n);
      }
    }
  }

  /** The loop of DecodeReal on local copies of the registers, with the
      normalisation that follows it. */
  method MainLoop(env: Settings, probs: array<Prob>, dic: array<byte>, r0: Regs, c0: Coder, src: seq<byte>,
                  limit: nat, bufLimit: nat, ghost tail: seq<byte>, ghost out: seq<byte>, ghost total: nat, ghost mode: Mode,
                  ghost res: Outcome, ghost goal: Parse)
    returns (sres: SRes, r: Regs, c: Coder, ghost o: seq<byte>)
    requires c0.buf <= |src| && Placed(env, dic[..], r0, out) && Checked(env, out) && r0.len == 0
    requires Toward(CoreWith(env, View(c0, src), probs[..], r0, out), src[c0.buf..] + tail, total, mode, res)
    requires Leads(CtxOf(env, r0, out), AtIsMatch, View(c0, src), probs[..], true, goal) && goal.Parsed?
    requires |out| == 0 ==> !ClassOf(Done(goal.symbol)).OfRep?
    requires r0.dicPos <= limit <= dic.Length && |out| + (limit - r0.dicPos) <= total
    requires env.checkDicSize == 0 ==> |out| + (limit - r0.dicPos) <= env.prop.dicSize
    requires bufLimit <= c0.buf || bufLimit + REQUIRED_INPUT_MAX <= |src|
    requires r0.dicPos < limit || (Ending(r0, limit, out, View(c0, src), total, mode) && goal.symbol.Match?)
    modifies probs, dic
    ensures sres == SzOk || (sres == SzErrorData && res == Fail(NotSpecified, o) && Mirrors(dic[..], r.dicPos, o))
    ensures r0.dicPos <= r.dicPos <= limit && |o| - r.dicPos == |out| - r0.dicPos
    ensures sres == SzOk ==>
              && Placed(env, dic[..], r, o) && c0.buf <= c.buf <= |src|
              && Toward(CoreWith(env, View(c, src), probs[..], r, o), src[c.buf..] + tail, total, mode, res)
              && (r.len == MATCH_SPEC_LEN_START || (|o| > |out| && (r.len == 0 || r.dicPos == limit)))
              && (bufLimit <= c0.buf ==> src[c.buf..] == goal.rc.inp)
  {
    ghost var n, g := View(c0, src), goal;
    sres, r, c, o := SzOk, r0, c0, out;
    var more := true;
    while more
      invariant sres == SzOk
      invariant BetweenSymbols(env, probs[..], dic[..], r, c, src, tail, o, n, total, mode, res)
      invariant c0.buf <= c.buf && r0.dicPos <= r.dicPos <= limit && |o| - r.dicPos == |out| - r0.dicPos
      invariant more ==> NextIs(env, probs[..], r, o, n, g, limit, total, mode)
      invariant !more ==> r.len == MATCH_SPEC_LEN_START || (|o| > |out| && (r.len == 0 || r.dicPos == limit))
      invariant bufLimit <= c0.buf ==> n == if more then View(c0, src) else goal.rc
      invariant bufLimit <= c0.buf && more ==> g == goal
      decreases if more then 1 + limit - r.dicPos else 0
    {
      sres, more, r, c, o, n, g := NextRound(env, probs, dic, r, c, src, limit, bufLimit, tail, o, n, total, mode, res, g);
      if sres != SzOk {
        return;
      }
    }
    IsBetween(env, probs[..], dic[..], r, c, src, tail, o, n, total, mode, res);
    c := Shift(c, src);
  }

  /** With twenty bytes left, the next symbol needs no check. */
  lemma NextSymbolParses(env: Settings, probs: seq<Prob>, dic: seq<byte>, r: Regs, out: seq<byte>, n: Rc)
    returns (goal: Parse)
    requires Placed(env, dic, r, out) && |probs| == NumProbs(env.prop)
    requires n.Normalized() && |n.inp| >= REQUIRED_INPUT_MAX
    ensures Leads(CtxOf(env, r, out), AtIsMatch, n, probs, true, goal) && goal.Parsed?
  {
    ContextOfValid(env.prop, r.state, r.reps.r0, out);
    SymbolFitsLookahead(CtxOf(env, r, out), n, probs, true);
    goal := Run(CtxOf(env, r, out), AtIsMatch, n, probs, true);
  }

  lemma CheckReached(env: Settings, processedPos: int, before: nat, produced: nat)
    requires env.prop.Valid() && processedPos == produced % U32 && before <= produced
    requires env.checkDicSize == if before >= env.prop.dicSize then env.prop.dicSize else 0
    requires env.checkDicSize == 0 ==> produced <= env.prop.dicSize
    ensures (if env.checkDicSize == 0 && processedPos >= env.prop.dicSize then env.prop.dicSize else env.checkDicSize)
         == if produced >= env.prop.dicSize then env.prop.dicSize else 0
  {
  }

  /** The check of the first code word: it fails exactly the streams whose first
      symbol would repeat a match before there is one. */
  lemma FirstSymbol(c: Core, inp: seq<byte>, tail: seq<byte>, limit: nat, mode: Mode, res: Outcome, goal: Parse)
    requires Toward(c, inp + tail, limit, mode, res) && c.rem == 0 && |c.out| == 0
    requires Leads(c.Context(), AtIsMatch, c.Coder(inp), c.probs, true, goal) && goal.Parsed?
    requires limit > 0 || goal.symbol.Match?
    ensures c.code >= BAD_REP_CODE ==> res == Fail(NotSpecified, c.out)
    ensures c.code < BAD_REP_CODE ==> !ClassOf(Done(goal.symbol)).OfRep?
  {
    FirstGoal(c.Context(), c.Coder(inp), c.probs, goal);
    if c.code >= BAD_REP_CODE {
      LeadsExtend(c.Context(), c.Coder(inp), c.probs, goal, tail);
      assert c.Coder(inp).Extend(tail) == c.Coder(inp + tail);
      TowardStep(c, inp + tail, limit, mode, res, Parsed(goal.symbol, goal.rc.Extend(tail), goal.probs));
    }
  }

  lemma FirstGoal(ctx: Ctx, rc: Rc, probs: seq<Prob>, goal: Parse)
    requires Leads(ctx, AtIsMatch, rc, probs, true, goal) && goal.Parsed?
    requires rc.range == INITIAL_RANGE && Fresh(probs)
    ensures goal.symbol.Valid()
    ensures rc.code >= BAD_REP_CODE <==> ClassOf(Done(goal.symbol)).OfRep?
  {
    LeadsTo(ctx, AtIsMatch, rc, probs, true, goal);
    FirstSymbolIsNotRep(ctx, rc, probs);
  }

  // ---- The end of a call, on the reference ----

  lemma LimitReached(c: Core, inp: seq<byte>, limit: nat, mode: Mode, res: Outcome)
    requires Toward(c, inp, limit, mode, res) && |c.out| == limit && !c.Finished()
    ensures c.rem == 0 && c.code == 0 ==> res == Stop(c, inp, MaybeFinishedWithoutMark)
    ensures (c.rem != 0 || c.code != 0) && mode.FinishAny? ==> res == Stop(c, inp, NotFinished)
    ensures c.rem != 0 && mode.FinishEnd? ==> res == Fail(NotFinished, c.out)
  {
    TowardIs(c, inp, limit, mode, res);
    NothingToFlush(c, limit);
  }

  lemma NothingToFlush(c: Core, limit: nat)
    requires c.Valid() && |c.out| == limit
    ensures Flush(c, limit) == c
  {
  }

  lemma ShortStops(c: Core, inp: seq<byte>, limit: nat, mode: Mode, res: Outcome, goal: Parse)
    requires Toward(c, inp, limit, mode, res) && c.rem == 0 && goal.Short?
    requires Leads(c.Context(), AtIsMatch, c.Coder(inp), c.probs, true, goal)
    requires |c.out| < limit || (|c.out| == limit && mode.FinishEnd? && c.code != 0)
    ensures res == Stop(c, inp, NeedsMoreInput) && Starving(c, inp)
  {
    LeadsTo(c.Context(), AtIsMatch, c.Coder(inp), c.probs, true, goal);
    if |c.out| < limit {
      TowardStep(c, inp, limit, mode, res, goal);
    } else {
      TowardEnd(c, inp, limit, res, goal);
    }
  }

  lemma ShortNeedsFew(ctx: Ctx, rc: Rc, probs: seq<Prob>, goal: Parse)
    requires Leads(ctx, AtIsMatch, rc, probs, true, goal) && goal.Short? && rc.Normalized()
    ensures |rc.inp| < REQUIRED_INPUT_MAX
  {
    LeadsTo(ctx, AtIsMatch, rc, probs, true, goal);
    SymbolFitsLookahead(ctx, rc, probs, true);
  }

  lemma MarkEnds(c: Core, inp: seq<byte>, limit: nat, mode: Mode, res: Outcome)
    requires Toward(c, inp, limit, mode, res) && c.Finished()
    ensures res == if c.code != 0 then Fail(NotSpecified, c.out) else Stop(c, inp, FinishedWithMark)
  {
    TowardIs(c, inp, limit, mode, res);
  }

  lemma TopUp(carried: seq<byte>, inp: seq<byte>, ahead: nat, src: seq<byte>)
    requires ahead <= |inp| && src == carried + inp[..ahead]
    ensures carried + inp[0..] == src + inp[ahead..]
    ensures src[|src| - ahead..] == inp[..ahead]
  {
  }

  /** A symbol that was too long for the carried bytes ends in the added ones. */
  lemma CarryUsed(c: Core, carried: seq<byte>, ahead: seq<byte>, goal: Parse)
    requires c.Valid() && Starving(c, carried) && goal.Parsed?
    requires Leads(c.Context(), AtIsMatch, c.Coder(carried + ahead), c.probs, true, goal)
    ensures |goal.rc.inp| < |ahead|
  {
    LeadsTo(c.Context(), AtIsMatch, c.Coder(carried + ahead), c.probs, true, goal);
    ShortRun(c, carried);
    RunExtend(c.Context(), AtIsMatch, c.Coder(carried), c.probs, true, ahead);
    assert c.Coder(carried).Extend(ahead) == c.Coder(carried + ahead);
  }

  lemma ShortRun(c: Core, inp: seq<byte>)
    requires c.Valid() && Starving(c, inp)
    ensures c.Context().Valid()
    ensures Run(c.Context(), AtIsMatch, c.Coder(inp), c.probs, true).Short?
  {
    ContextValid(c);
  }

  lemma UnusedInput(src: seq<byte>, inp: seq<byte>, ahead: nat, kkk: nat)
    requires ahead <= |src| && ahead <= |inp| && src[|src| - ahead..] == inp[..ahead]
    requires kkk <= |src| && |src| - kkk <= ahead
    ensures src[kkk..] + inp[ahead..] == inp[ahead - (|src| - kkk)..]
  {
    var d := kkk - (|src| - ahead);
    assert src[kkk..] == inp[..ahead][d..];
  }

  lemma HeaderTaken(carry: seq<byte>, src: seq<byte>, n: nat, taken: seq<byte>)
    requires |carry| < RC_INIT_SIZE && n <= |src| && taken == carry + src[..n] && |taken| <= RC_INIT_SIZE
    requires |taken| < RC_INIT_SIZE ==> n == |src|
    ensures TakeHeader(carry, src)
         == if taken != [] && taken[0] != 0 then BadHeader
            else if |taken| < RC_INIT_SIZE then Partial(taken)
            else Complete(taken, src[n..])
  {
    assert carry + src == taken + src[n..];
  }

  /** Four bytes shifted into their places and joined. */
  function ShiftedWord(a: int, b: int, c: int, d: int): (w: int)
    ensures w == BigEndian(a, b, c, d)
  {
    a * 0x100_0000 + b * 0x1_0000 + c * 0x100 + d
  }
}
