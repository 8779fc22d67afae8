/** Sequences of calls on the reference machine: however the input is cut into
    chunks and the output into limits, the decoder ends in the same state. */
module LzmaCalls {
  import opened Words
  import opened LzmaLayout
  import opened LzmaRangeCoder
  import opened LzmaSymbol
  import opened LzmaParse
  import opened LzmaStream

  // ---- More input, higher limits ----

  lemma StepExtend(c: Core, inp: seq<byte>, more: seq<byte>)
    requires c.Valid() && c.rem == 0
    ensures var r := Step(c, inp);
            var r' := Step(c, inp + more);
            && (r.Next? ==> r' == Next(r.core, r.rest + more, r.symbol))
            && (r.Bad? ==> r'.Bad?)
            && (r.NeedInput? && r'.Next? ==> |r'.rest| < |more|)
  {
    ContextValid(c);
    RunExtend(c.Context(), AtIsMatch, c.Coder(inp), c.probs, true, more);
    assert c.Coder(inp).Extend(more) == c.Coder(inp + more);
  }

  lemma StepShrinks(c: Core, inp: seq<byte>)
    requires c.Valid() && c.rem == 0
    ensures Step(c, inp).Next? ==> IsSuffix(Step(c, inp).rest, inp)
  {
    ContextValid(c);
    RunShrinks(c.Context(), AtIsMatch, c.Coder(inp), c.probs, true);
  }

  lemma FlushInTwo(c: Core, l1: nat, l2: nat)
    requires c.Valid() && |c.out| <= l1 <= l2
    ensures Flush(Flush(c, l1), l2) == Flush(c, l2)
  {
    if c.Copying() {
      var n1 := Min(c.rem, l1 - |c.out|);
      EmitInTwo(c, n1, Min(c.rem, l2 - |c.out|) - n1);
    }
  }

  lemma EmitInTwo(c: Core, m: nat, n: nat)
    requires c.Valid() && c.Copying() && m + n <= c.rem
    ensures var e := Emit(c, m);
            (e.Copying() ==> Emit(e, n) == Emit(c, m + n)) && (!e.Copying() ==> n == 0)
  {
    CopyInTwo(c.out, c.reps.r0, m, n);
  }

  /** What one symbol contributes to a call. */
  lemma ResumeStep(c: Core, inp: seq<byte>, limit: nat, mode: Mode)
    requires c.Valid() && c.rem == 0 && |c.out| < limit
    ensures var s := Step(c, inp);
            && (s.NeedInput? ==> Resume(c, inp, limit, mode) == Stop(c, inp, NeedsMoreInput))
            && (s.Bad? ==> Resume(c, inp, limit, mode) == Fail(NotSpecified, c.out))
            && (s.Next? ==> |s.core.out| <= limit
                            && Resume(c, inp, limit, mode) == Resume(s.core, s.rest, limit, mode))
  {
    StepProgress(c, inp);
    var s := Step(c, inp);
    if s.Next? {
      assert Drive(c, inp, limit, mode)
          == if s.core.Finished() then AtEndMark(s.core, s.rest) else Drive(Flush(s.core, limit), s.rest, limit, mode);
    }
  }

  lemma StepProgress(c: Core, inp: seq<byte>)
    requires c.Valid() && c.rem == 0
    ensures var s := Step(c, inp);
            s.Next? ==> |c.out| <= |s.core.out| <= |c.out| + 1
                        && (s.core.Finished() || s.core.Copying() || |s.core.out| == |c.out| + 1)
  {
  }

  lemma ResumeFlushed(c: Core, inp: seq<byte>, l1: nat, l2: nat, mode: Mode)
    requires c.Valid() && |c.out| <= l1 <= l2
    ensures Resume(c, inp, l2, mode) == Resume(Flush(c, l1), inp, l2, mode)
  {
    FlushInTwo(c, l1, l2);
  }

  /** Stopping at a lower limit on a shorter input and resuming is the same as
      going on directly; an error is not hidden by either. */
  lemma {:induction false} ResumeCompose(c: Core, a: seq<byte>, b: seq<byte>, l1: nat, l2: nat, mode: Mode)
    requires c.Valid() && |c.out| <= l1 <= l2
    ensures var r := Resume(c, a, l1, FinishAny);
            && (r.Fail? ==> Resume(c, a + b, l2, mode) == r)
            && (r.Stop? ==> Resume(c, a + b, l2, mode) == Resume(r.core, r.rest + b, l2, mode))
    decreases l1 - |Flush(c, l1).out|
  {
    var f := Flush(c, l1);
    ResumeFlushed(c, a + b, l1, l2, mode);
    ResumeFlushed(c, a, l1, l1, FinishAny);
    if !f.Finished() && |f.out| < l1 {
      var s := Step(f, a);
      StepExtend(f, a, b);
      ResumeStep(f, a, l1, FinishAny);
      ResumeStep(f, a + b, l2, mode);
      if s.Next? && !s.core.Finished() {
        StepProgress(f, a);
        ResumeCompose(s.core, s.rest, b, l1, l2, mode);
      }
    }
  }

  lemma AtLimitShrinks(c: Core, inp: seq<byte>, mode: Mode)
    requires c.Valid() && !c.Finished()
    ensures var r := AtLimit(c, inp, mode);
            r.Stop? ==> IsSuffix(r.rest, inp)
  {
    ContextValid(c);
    RunShrinks(c.Context(), AtIsMatch, c.Coder(inp), c.probs, true);
  }

  lemma {:induction false} ResumeShrinks(c: Core, inp: seq<byte>, limit: nat, mode: Mode)
    requires c.Valid() && |c.out| <= limit
    ensures var r := Resume(c, inp, limit, mode);
            r.Stop? ==> IsSuffix(r.rest, inp)
    decreases limit - |Flush(c, limit).out|
  {
    var f := Flush(c, limit);
    ResumeFlushed(c, inp, limit, limit, mode);
    if f.Finished() {
    } else if |f.out| == limit {
      AtLimitShrinks(f, inp, mode);
    } else {
      var s := Step(f, inp);
      StepShrinks(f, inp);
      ResumeStep(f, inp, limit, mode);
      if s.Next? && !s.core.Finished() {
        StepProgress(f, inp);
        ResumeShrinks(s.core, s.rest, limit, mode);
        var r := Resume(c, inp, limit, mode);
        if r.Stop? {
          SuffixTransitive(r.rest, s.rest, inp);
        }
      }
    }
  }

  // ---- One call ----

  /** The decoder between two calls, with the input bytes it has taken but not
      used: at most a part of the 5-byte header, or of one symbol. */
  datatype Decoder = Header(props: Props, carry: seq<byte>) | Body(core: Core, carry: seq<byte>) {
    ghost predicate Valid() {
      match this
      case Header(props, carry) => props.Valid() && |carry| < RC_INIT_SIZE && (carry != [] ==> carry[0] == 0)
      case Body(core, carry) => core.Valid() && (carry != [] ==> Starving(core, carry))
    }

    function Produced(): nat {
      if Header? then 0 else |core.out|
    }
  }

  /** The carried bytes are too few for a symbol. */
  ghost predicate Starving(core: Core, carry: seq<byte>)
    requires core.Valid()
  {
    core.rem == 0 && Step(core, carry).NeedInput?
  }

  function BigEndian(a: int, b: int, c: int, d: int): int {
    ((a * 256 + b) * 256 + c) * 256 + d
  }

  function InitialProbs(n: nat): (probs: seq<Prob>)
    ensures |probs| == n && Fresh(probs)
  {
    seq(n, _ => INITIAL_PROB)
  }

  /** The range coder starts from bytes 1 to 4 of the header. */
  function InitialCore(props: Props, header: seq<byte>): (c: Core)
    requires props.Valid() && |header| == RC_INIT_SIZE
    ensures c.Valid()
  {
    Core(props, INITIAL_RANGE, BigEndian(header[1], header[2], header[3], header[4]),
         InitialProbs(NumProbs(props)), 0, Reps(1, 1, 1, 1), [], 0)
  }

  datatype CallResult = Failed(status: Status, out: seq<byte>) | Called(dec: Decoder, consumed: nat, status: Status)

  /** What a call keeps and takes, given how far it got: bytes already taken and
      never used stay carried, bytes of this call that were not used stay with the
      caller, unless they are the start of a symbol that needs more. */
  function Settle(o: Outcome, carry: seq<byte>, src: seq<byte>): (r: CallResult)
    ensures r.Called? ==> r.consumed <= |src|
  {
    match o
    case Fail(status, out) => Failed(status, out)
    case Stop(core, rest, status) =>
      if status == NeedsMoreInput then Called(Body(core, rest), |src|, status)
      else if |rest| > |src| then Called(Body(core, carry), 0, status)
      else Called(Body(core, []), |src| - |rest|, status)
  }

  function CallBody(core: Core, carry: seq<byte>, src: seq<byte>, limit: nat, mode: Mode): (r: CallResult)
    requires core.Valid() && |core.out| <= limit
    ensures r.Called? ==> r.consumed <= |src|
  {
    Settle(Resume(core, carry + src, limit, mode), carry, src)
  }

  /** The 5-byte header, collected over as many calls as it takes; its first byte
      must be zero. */
  datatype HeaderStep = BadHeader | Partial(carry: seq<byte>) | Complete(header: seq<byte>, rest: seq<byte>)

  function TakeHeader(carry: seq<byte>, src: seq<byte>): (r: HeaderStep)
    requires |carry| < RC_INIT_SIZE
    ensures r.Complete? ==> |r.header| == RC_INIT_SIZE && |r.rest| <= |src|
    ensures r.Partial? ==> |r.carry| < RC_INIT_SIZE && (r.carry != [] ==> r.carry[0] == 0)
  {
    var all := carry + src;
    if all != [] && all[0] != 0 then BadHeader
    else if |all| < RC_INIT_SIZE then Partial(all)
    else Complete(all[..RC_INIT_SIZE], all[RC_INIT_SIZE..])
  }

  function AfterTaking(n: nat, r: CallResult): CallResult {
    match r
    case Failed(_, _) => r
    case Called(dec, consumed, status) => Called(dec, n + consumed, status)
  }

  function Call(d: Decoder, src: seq<byte>, limit: nat, mode: Mode): (r: CallResult)
    requires d.Valid() && d.Produced() <= limit
    ensures r.Called? ==> r.consumed <= |src|
  {
    match d
    case Body(core, carry) => CallBody(core, carry, src, limit, mode)
    case Header(props, carry) =>
      match TakeHeader(carry, src)
      case BadHeader => Failed(NotSpecified, [])
      case Partial(carry') => Called(Header(props, carry'), |src|, NeedsMoreInput)
      case Complete(header, rest) =>
        AfterTaking(|src| - |rest|, CallBody(InitialCore(props, header), [], rest, limit, mode))
  }

  predicate AskedCall(key: Key, d: Decoder, src: seq<byte>) {
    true
  }

  /** The call gives `r`. Like Leads, it unfolds only on request. */
  ghost predicate CallIs(d: Decoder, src: seq<byte>, limit: nat, mode: Mode, r: CallResult) {
    && (r.Called? ==> r.consumed <= |src|)
    && forall key {:trigger AskedCall(key, d, src)} :: AskedCall(key, d, src) ==>
         d.Valid() && d.Produced() <= limit && Call(d, src, limit, mode) == r
  }

  lemma CallIsCall(d: Decoder, src: seq<byte>, limit: nat, mode: Mode, r: CallResult)
    requires CallIs(d, src, limit, mode, r)
    ensures d.Valid() && d.Produced() <= limit && Call(d, src, limit, mode) == r
  {
    assert AskedCall(Key, d, src);
  }

  /** Either nothing is decoded, or the first symbol uses up all carried bytes. */
  lemma CarryIsUsedUp(core: Core, carry: seq<byte>, src: seq<byte>, limit: nat, mode: Mode)
    requires Body(core, carry).Valid() && |core.out| <= limit
    ensures var r := Resume(core, carry + src, limit, mode);
            && (r.Stop? ==> IsSuffix(r.rest, carry + src))
            && (r.Stop? && |r.rest| > |src| ==>
                  r.core == core && r.rest == carry + src && (|core.out| < limit ==> r.status == NeedsMoreInput))
  {
    var inp := carry + src;
    ResumeShrinks(core, inp, limit, mode);
    if carry != [] {
      if |core.out| < limit {
        StepExtend(core, carry, src);
        ResumeStep(core, inp, limit, mode);
        var s := Step(core, inp);
        if s.Next? {
          ResumeShrinks(s.core, s.rest, limit, mode);
        }
      } else {
        CarryAtLimit(core, carry, src, mode);
      }
    }
  }

  lemma CarryAtLimit(core: Core, carry: seq<byte>, src: seq<byte>, mode: Mode)
    requires core.Valid() && Starving(core, carry)
    ensures var r := AtLimit(core, carry + src, mode);
            r.Stop? && |r.rest| > |src| ==> r.core == core && r.rest == carry + src
  {
    ContextValid(core);
    RunExtend(core.Context(), AtIsMatch, core.Coder(carry), core.probs, true, src);
    assert core.Coder(carry).Extend(src) == core.Coder(carry + src);
  }

  /** When a call asks for more input, one more symbol is wanted and the bytes kept
      are too few for it. */
  lemma {:induction false} ResumeStarves(c: Core, inp: seq<byte>, limit: nat, mode: Mode)
    requires c.Valid() && |c.out| <= limit
    ensures var r := Resume(c, inp, limit, mode);
            r.Stop? && r.status == NeedsMoreInput ==>
              && Starving(r.core, r.rest)
              && (mode.FinishAny? ==> |r.core.out| < limit)
    decreases limit - |Flush(c, limit).out|
  {
    var f := Flush(c, limit);
    ResumeFlushed(c, inp, limit, limit, mode);
    if !f.Finished() && |f.out| < limit {
      var s := Step(f, inp);
      ResumeStep(f, inp, limit, mode);
      if s.Next? && !s.core.Finished() {
        StepProgress(f, inp);
        ResumeStarves(s.core, s.rest, limit, mode);
      }
    }
  }

  /** What a finished call leaves: a valid decoder, and every input byte either
      used, carried, or still with the caller. */
  ghost predicate Kept(core: Core, carry: seq<byte>, src: seq<byte>, limit: nat, o: Outcome, r: CallResult) {
    && o.Stop? && r.Called? && r.dec.Body? && r.dec.core == o.core && r.status == o.status
    && o.core.Valid() && |core.out| <= |o.core.out| <= limit
    && r.consumed <= |src| && r.dec.carry + src[r.consumed..] == o.rest
    && (r.dec.carry != [] ==> Starving(o.core, r.dec.carry))
    && (r.dec.carry != [] && r.status != NeedsMoreInput ==>
          o.core == core && r.dec.carry == carry && r.consumed == 0 && |core.out| == limit)
  }

  lemma CallBodyKeeps(core: Core, carry: seq<byte>, src: seq<byte>, limit: nat, mode: Mode)
    requires Body(core, carry).Valid() && |core.out| <= limit
    ensures var o := Resume(core, carry + src, limit, mode);
            o.Stop? ==> Kept(core, carry, src, limit, o, Settle(o, carry, src))
  {
    var o := Resume(core, carry + src, limit, mode);
    if o.Stop? {
      CarryIsUsedUp(core, carry, src, limit, mode);
      ResumeStarves(core, carry + src, limit, mode);
      SettleKeeps(core, carry, src, limit, o);
    }
  }

  lemma SettleKeeps(core: Core, carry: seq<byte>, src: seq<byte>, limit: nat, o: Outcome)
    requires Body(core, carry).Valid()
    requires o.Stop? && o.core.Valid() && |core.out| <= |o.core.out| <= limit
    requires IsSuffix(o.rest, carry + src)
    requires |o.rest| > |src| ==> o.core == core && o.rest == carry + src && (|core.out| < limit ==> o.status == NeedsMoreInput)
    requires o.status == NeedsMoreInput ==> Starving(o.core, o.rest)
    ensures Kept(core, carry, src, limit, o, Settle(o, carry, src))
  {
    SettleRest(o, carry, src);
  }

  lemma SettleRest(o: Outcome, carry: seq<byte>, src: seq<byte>)
    requires o.Stop? && IsSuffix(o.rest, carry + src)
    requires |o.rest| > |src| ==> o.rest == carry + src
    ensures var r := Settle(o, carry, src);
            r.dec.carry + src[r.consumed..] == o.rest
  {
    if o.status == NeedsMoreInput {
      assert o.rest + src[|src|..] == o.rest;
    } else if |o.rest| > |src| {
      assert src[0..] == src;
    } else {
      var n := |src| - |o.rest|;
      assert (carry + src)[|carry| + n..] == src[n..];
      assert [] + src[n..] == src[n..];
    }
  }

  /** The bytes settle the same way whether or not an earlier call took some. */
  lemma SettleInTwo(o: Outcome, carry: seq<byte>, carry1: seq<byte>, n: nat, a: seq<byte>, b: seq<byte>)
    requires n <= |a|
    requires o.Stop? && o.status != NeedsMoreInput && |o.rest| > |a[n..] + b| ==> carry1 == carry && n == 0
    ensures Settle(o, carry, a + b) == AfterTaking(n, Settle(o, carry1, a[n..] + b))
  {
    assert |a[n..] + b| + n == |a + b|;
  }

  /** The second of two calls in a row, on what the first left and on b. */
  function Second(first: CallResult, a: seq<byte>, b: seq<byte>, limit: nat, mode: Mode): CallResult
    requires Resumable(first, |a|, limit)
  {
    match first
    case Failed(_, _) => first
    case Called(dec, consumed, _) => Call(dec, a[consumed..] + b, limit, mode)
  }

  ghost predicate Resumable(first: CallResult, n: nat, limit: nat) {
    first.Called? ==> first.consumed <= n && first.dec.Valid() && first.dec.Produced() <= limit
  }

  /** The result `one` of a single call, against the results of two calls in a row. */
  ghost predicate Agree(first: CallResult, second: CallResult, one: CallResult) {
    one == match first
           case Failed(_, _) => first
           case Called(_, consumed, _) => AfterTaking(consumed, second)
  }

  /** One cut does not matter: a call on the first part of the input up to the
      first limit, followed by a call on all the rest, is the same as one call. */
  lemma BodyCallsCompose(core: Core, carry: seq<byte>, a: seq<byte>, b: seq<byte>, l1: nat, l2: nat, mode: Mode)
    requires Body(core, carry).Valid() && |core.out| <= l1 <= l2
    ensures var first := CallBody(core, carry, a, l1, FinishAny);
            && Resumable(first, |a|, l1)
            && Agree(first, Second(first, a, b, l2, mode), CallBody(core, carry, a + b, l2, mode))
  {
    ResumeCompose(core, carry + a, b, l1, l2, mode);
    assert carry + (a + b) == (carry + a) + b;
    var o1 := Resume(core, carry + a, l1, FinishAny);
    if o1.Stop? {
      var r1 := Settle(o1, carry, a);
      CallBodyKeeps(core, carry, a, l1, FinishAny);
      RestJoined(r1.dec.carry, a[r1.consumed..], b, o1.rest);
      SecondCallSettles(core, carry, a, b, l1, l2, mode, o1, r1);
    }
  }

  lemma RestJoined(x: seq<byte>, y: seq<byte>, b: seq<byte>, rest: seq<byte>)
    requires x + y == rest
    ensures x + (y + b) == rest + b
  {
  }

  lemma SecondCallSettles(core: Core, carry: seq<byte>, a: seq<byte>, b: seq<byte>, l1: nat, l2: nat, mode: Mode,
                          o1: Outcome, r1: CallResult)
    requires core.Valid() && |core.out| <= l1 <= l2
    requires o1 == Resume(core, carry + a, l1, FinishAny) && Kept(core, carry, a, l1, o1, r1)
    requires Resume(core, carry + (a + b), l2, mode) == Resume(o1.core, r1.dec.carry + (a[r1.consumed..] + b), l2, mode)
    ensures Agree(r1, CallBody(o1.core, r1.dec.carry, a[r1.consumed..] + b, l2, mode),
                  CallBody(core, carry, a + b, l2, mode))
  {
    var o := Resume(core, carry + (a + b), l2, mode);
    var src1 := a[r1.consumed..] + b;
    if o.Stop? && o.status != NeedsMoreInput && |o.rest| > |src1| {
      CarryIsUsedUp(o1.core, r1.dec.carry, src1, l2, mode);
      StillAtFirstLimit(core, carry, a, l1, l2, o1, r1);
    }
    SettleInTwo(o, carry, r1.dec.carry, r1.consumed, a, b);
  }

  lemma StillAtFirstLimit(core: Core, carry: seq<byte>, a: seq<byte>, l1: nat, l2: nat, o1: Outcome, r1: CallResult)
    requires core.Valid() && |core.out| <= l1 <= l2
    requires o1 == Resume(core, carry + a, l1, FinishAny) && Kept(core, carry, a, l1, o1, r1)
    requires r1.dec.carry != [] && |o1.core.out| == l2
    ensures r1.dec.carry == carry && r1.consumed == 0
  {
    ResumeStarves(core, carry + a, l1, FinishAny);
  }

  /** The bytes of the header do not depend on where the input is cut. */
  lemma HeaderInTwo(carry: seq<byte>, a: seq<byte>, b: seq<byte>)
    requires |carry| < RC_INIT_SIZE
    ensures match TakeHeader(carry, a)
            case BadHeader => TakeHeader(carry, a + b).BadHeader?
            case Partial(carry') => TakeHeader(carry, a + b) == TakeHeader(carry', b)
            case Complete(header, rest) => TakeHeader(carry, a + b) == Complete(header, rest + b)
  {
    assert carry + (a + b) == (carry + a) + b;
  }

  lemma HeaderCallsCompose(d: Decoder, a: seq<byte>, b: seq<byte>, l1: nat, l2: nat, mode: Mode)
    requires d.Valid() && d.Header? && l1 <= l2
    ensures var first := Call(d, a, l1, FinishAny);
            && Resumable(first, |a|, l1)
            && Agree(first, Second(first, a, b, l2, mode), Call(d, a + b, l2, mode))
  {
    HeaderInTwo(d.carry, a, b);
    var h := TakeHeader(d.carry, a);
    match h
    case BadHeader =>
    case Partial(_) => PartialHeaderCompose(d, a, b, l1, l2, mode);
    case Complete(_, _) => CompleteHeaderCompose(d, a, b, l1, l2, mode);
  }

  lemma PartialHeaderCompose(d: Decoder, a: seq<byte>, b: seq<byte>, l1: nat, l2: nat, mode: Mode)
    requires d.Valid() && d.Header? && l1 <= l2 && TakeHeader(d.carry, a).Partial?
    ensures var first := Call(d, a, l1, FinishAny);
            && Resumable(first, |a|, l1)
            && Agree(first, Second(first, a, b, l2, mode), Call(d, a + b, l2, mode))
  {
    HeaderInTwo(d.carry, a, b);
    var next := Header(d.props, TakeHeader(d.carry, a).carry);
    assert Call(d, a, l1, FinishAny) == Called(next, |a|, NeedsMoreInput);
    HeaderJoined(d, next, a, b, l2, mode);
    assert a[|a|..] + b == b;
  }

  lemma HeaderJoined(d: Decoder, next: Decoder, a: seq<byte>, b: seq<byte>, limit: nat, mode: Mode)
    requires d.Valid() && d.Header? && next.Valid() && next.Header? && next.props == d.props
    requires TakeHeader(d.carry, a + b) == TakeHeader(next.carry, b)
    ensures Call(d, a + b, limit, mode) == AfterTaking(|a|, Call(next, b, limit, mode))
  {
  }

  lemma CompleteHeaderCompose(d: Decoder, a: seq<byte>, b: seq<byte>, l1: nat, l2: nat, mode: Mode)
    requires d.Valid() && d.Header? && l1 <= l2 && TakeHeader(d.carry, a).Complete?
    ensures var first := Call(d, a, l1, FinishAny);
            && Resumable(first, |a|, l1)
            && Agree(first, Second(first, a, b, l2, mode), Call(d, a + b, l2, mode))
  {
    HeaderInTwo(d.carry, a, b);
    RestOfHeader(d.carry, a, b);
    var h := TakeHeader(d.carry, a);
    var core := InitialCore(d.props, h.header);
    var first, one := CallBody(core, [], h.rest, l1, FinishAny), CallBody(core, [], h.rest + b, l2, mode);
    HeaderCompletes(d, a, h, core, l1, FinishAny);
    HeaderCompletes(d, a + b, TakeHeader(d.carry, a + b), core, l2, mode);
    BodyCallsCompose(core, [], h.rest, b, l1, l2, mode);
    AddHeader(d, |a| - |h.rest|, first, one, a, b, l1, l2, mode);
  }

  /** A call that gets the whole header goes on with a fresh core. */
  lemma HeaderCompletes(d: Decoder, src: seq<byte>, h: HeaderStep, core: Core, limit: nat, mode: Mode)
    requires d.Valid() && d.Header? && h == TakeHeader(d.carry, src) && h.Complete? && core == InitialCore(d.props, h.header)
    ensures Call(d, src, limit, mode) == AfterTaking(|src| - |h.rest|, CallBody(core, [], h.rest, limit, mode))
  {
  }

  lemma AddHeader(d: Decoder, n: nat, first: CallResult, one: CallResult,
                  a: seq<byte>, b: seq<byte>, l1: nat, l2: nat, mode: Mode)
    requires d.Valid() && d.Produced() <= l1 <= l2 && n <= |a|
    requires Call(d, a, l1, FinishAny) == AfterTaking(n, first)
    requires Call(d, a + b, l2, mode) == AfterTaking(n, one)
    requires Resumable(first, |a[n..]|, l1) && Agree(first, Second(first, a[n..], b, l2, mode), one)
    ensures var first := Call(d, a, l1, FinishAny);
            && Resumable(first, |a|, l1)
            && Agree(first, Second(first, a, b, l2, mode), Call(d, a + b, l2, mode))
  {
    SecondAfterTaking(n, first, a, b, l1);
  }

  lemma RestOfHeader(carry: seq<byte>, a: seq<byte>, b: seq<byte>)
    requires |carry| < RC_INIT_SIZE
    ensures var h := TakeHeader(carry, a);
            h.Complete? ==> h.rest == a[|a| - |h.rest|..] && |a + b| - |h.rest + b| == |a| - |h.rest|
  {
  }

  lemma SecondAfterTaking(n: nat, first: CallResult, a: seq<byte>, b: seq<byte>, limit: nat)
    requires n <= |a| && Resumable(first, |a[n..]|, limit)
    ensures Resumable(AfterTaking(n, first), |a|, limit)
    ensures first.Called? ==>
              a[AfterTaking(n, first).consumed..] + b == a[n..][first.consumed..] + b
  {
    if first.Called? {
      DropTwice(a, n, first.consumed);
    }
  }

  lemma DropTwice(a: seq<byte>, n: nat, m: nat)
    requires n + m <= |a|
    ensures a[n..][m..] == a[n + m..]
  {
  }

  lemma CallsCompose(d: Decoder, a: seq<byte>, b: seq<byte>, l1: nat, l2: nat, mode: Mode)
    requires d.Valid() && d.Produced() <= l1 <= l2
    ensures var first := Call(d, a, l1, FinishAny);
            && Resumable(first, |a|, l1)
            && Agree(first, Second(first, a, b, l2, mode), Call(d, a + b, l2, mode))
  {
    if d.Header? {
      HeaderCallsCompose(d, a, b, l1, l2, mode);
    } else {
      BodyCallsCompose(d.core, d.carry, a, b, l1, l2, mode);
    }
  }

  // ---- Distances ----

  /** No back-reference before history: every distance a symbol uses is at least 1
      and at most the bytes produced so far, and never beyond the dictionary. In
      particular the first symbol of a stream with a small enough first code word
      cannot repeat a match, and any other is refused. */
  lemma DistancesStayInHistory(c: Core, inp: seq<byte>)
    requires c.Valid() && c.rem == 0
    ensures var s := Step(c, inp);
            && (s.Next? && s.symbol.ShortRep? ==> 1 <= c.reps.r0 <= c.Window())
            && (s.Next? && s.core.Copying() ==> 1 <= s.core.reps.r0 <= c.Window())
            && (s.Next? && c.out == [] ==> !ClassOf(Done(s.symbol)).OfRep? && c.code < BAD_REP_CODE)
  {
    ContextValid(c);
    var p := Run(c.Context(), AtIsMatch, c.Coder(inp), c.probs, true);
    if p.Parsed? {
      AppliedDistance(c.(range := p.rc.range, code := p.rc.code, probs := p.probs), p.symbol);
      if c.out == [] {
        FirstSymbolIsNotRep(c.Context(), c.Coder(inp), c.probs);
      }
    }
  }

  lemma AppliedDistance(c: Core, symbol: Symbol)
    requires c.rem == 0 && symbol.Valid() && (|c.out| > 0 ==> c.reps.Within(c.Window()))
    ensures var a := Apply(c, symbol);
            && (a.Applied? && symbol.ShortRep? ==> 1 <= c.reps.r0 <= c.Window())
            && (a.Applied? && a.core.Copying() ==> 1 <= a.core.reps.r0 <= c.Window())
            && (a.Applied? && c.out == [] ==> !ClassOf(Done(symbol)).OfRep?)
  {
  }

  // ---- Any number of calls ----

  /** What a caller does: bring a chunk of input, ask for output up to a limit. */
  datatype Piece = Piece(chunk: seq<byte>, limit: nat)

  ghost predicate Nondecreasing(pieces: seq<Piece>, from: nat) {
    pieces != [] ==> from <= pieces[0].limit && Nondecreasing(pieces[1..], pieces[0].limit)
  }

  function Chunks(pieces: seq<Piece>): seq<byte> {
    if pieces == [] then [] else pieces[0].chunk + Chunks(pieces[1..])
  }

  function LastLimit(pieces: seq<Piece>, from: nat): nat {
    if pieces == [] then from else LastLimit(pieces[1..], pieces[0].limit)
  }

  datatype FeedResult = FeedFailed(status: Status, out: seq<byte>) | Fed(dec: Decoder, unread: seq<byte>, status: Status)

  function Outcome1(r: CallResult, src: seq<byte>): FeedResult
    requires r.Called? ==> r.consumed <= |src|
  {
    match r
    case Failed(status, out) => FeedFailed(status, out)
    case Called(dec, consumed, status) => Fed(dec, src[consumed..], status)
  }

  lemma CallValid(d: Decoder, src: seq<byte>, limit: nat, mode: Mode)
    requires d.Valid() && d.Produced() <= limit
    ensures var r := Call(d, src, limit, mode);
            r.Called? ==> r.dec.Valid() && r.dec.Produced() <= limit
  {
    match d
    case Body(core, carry) => CallBodyKeeps(core, carry, src, limit, mode);
    case Header(props, carry) =>
      var h := TakeHeader(carry, src);
      if h.Complete? {
        CallBodyKeeps(InitialCore(props, h.header), [], h.rest, limit, mode);
      }
  }

  /** A run of calls: what a call leaves unread is offered again with the next
      chunk; every call but the last may finish anywhere. */
  function Feed(d: Decoder, unread: seq<byte>, pieces: seq<Piece>, mode: Mode): (r: FeedResult)
    requires d.Valid() && pieces != [] && Nondecreasing(pieces, d.Produced())
    decreases |pieces|
  {
    var src := unread + pieces[0].chunk;
    if |pieces| == 1 then Outcome1(Call(d, src, pieces[0].limit, mode), src)
    else
      match Call(d, src, pieces[0].limit, FinishAny)
      case Failed(status, out) => FeedFailed(status, out)
      case Called(dec, consumed, _) =>
        CallValid(d, src, pieces[0].limit, FinishAny);
        LimitsStayAbove(pieces[1..], pieces[0].limit, dec.Produced());
        Feed(dec, src[consumed..], pieces[1..], mode)
  }

  lemma LimitsStayAbove(pieces: seq<Piece>, from: nat, lower: nat)
    requires Nondecreasing(pieces, from) && lower <= from
    ensures Nondecreasing(pieces, lower)
  {
  }

  lemma {:induction false} LastLimitAbove(pieces: seq<Piece>, from: nat)
    requires Nondecreasing(pieces, from)
    ensures from <= LastLimit(pieces, from)
    ensures pieces != [] ==> pieces[0].limit <= LastLimit(pieces, from)
  {
    if pieces != [] {
      LastLimitAbove(pieces[1..], pieces[0].limit);
    }
  }

  /** Streaming invariance. However a stream is cut into chunks and its output into
      limits, the run of calls fails exactly when the single call on the whole
      stream fails; otherwise both end in the same decoder state, with the same
      output, the same carried and unread bytes and the same status. */
  lemma {:induction false} StreamingInvariance(d: Decoder, unread: seq<byte>, pieces: seq<Piece>, mode: Mode)
    requires d.Valid() && pieces != [] && Nondecreasing(pieces, d.Produced())
    ensures d.Produced() <= LastLimit(pieces, d.Produced())
    ensures var whole := unread + Chunks(pieces);
            Feed(d, unread, pieces, mode)
            == Outcome1(Call(d, whole, LastLimit(pieces, d.Produced()), mode), whole)
    decreases |pieces|
  {
    LastLimitAbove(pieces, d.Produced());
    var src := unread + pieces[0].chunk;
    var tail := pieces[1..];
    assert unread + Chunks(pieces) == src + Chunks(tail);
    if |pieces| == 1 {
      assert Chunks(tail) == [];
      assert src + [] == src;
    } else {
      var l1 := pieces[0].limit;
      LastLimitAbove(tail, l1);
      CallsCompose(d, src, Chunks(tail), l1, LastLimit(tail, l1), mode);
      CallValid(d, src, l1, FinishAny);
      var r := Call(d, src, l1, FinishAny);
      if r.Called? {
        LimitsStayAbove(tail, l1, r.dec.Produced());
        StreamingInvariance(r.dec, src[r.consumed..], tail, mode);
        SameUnread(r.consumed, src, Chunks(tail), Call(r.dec, src[r.consumed..] + Chunks(tail), LastLimit(tail, l1), mode));
      }
    }
  }

  lemma SameUnread(n: nat, src: seq<byte>, more: seq<byte>, second: CallResult)
    requires n <= |src| && (second.Called? ==> second.consumed <= |src[n..] + more|)
    ensures second.Called? ==> n + second.consumed <= |src + more|
    ensures Outcome1(second, src[n..] + more) == Outcome1(AfterTaking(n, second), src + more)
  {
    assert (src + more)[n..] == src[n..] + more;
  }

  /** Every state that a run of calls reaches is valid: its distances lie within the
      history and the dictionary, its state is one of the twelve, and what it carries
      is less than a symbol. */
  lemma {:induction false} FeedValid(d: Decoder, unread: seq<byte>, pieces: seq<Piece>, mode: Mode)
    requires d.Valid() && pieces != [] && Nondecreasing(pieces, d.Produced())
    ensures var r := Feed(d, unread, pieces, mode);
            r.Fed? ==> r.dec.Valid() && r.dec.Produced() <= LastLimit(pieces, d.Produced())
    decreases |pieces|
  {
    var whole := unread + Chunks(pieces);
    StreamingInvariance(d, unread, pieces, mode);
    CallValid(d, whole, LastLimit(pieces, d.Produced()), mode);
  }
}
