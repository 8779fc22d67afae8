/** Decoding into the caller's buffer: calls into the circular dictionary, one per
    wrap, add up to one call of the reference machine. */
module LzmaToBuf {
  import opened Words
  import opened LzmaLayout
  import opened LzmaStream
  import opened LzmaCalls
  import opened LzmaDictionary
  import opened LzmaDecoder

  // ---- Output only grows ----

  lemma {:induction false} CopyAppends(out: seq<byte>, dist: int, n: nat)
    requires 1 <= dist <= |out|
    ensures out <= Copy(out, dist, n)
  {
    if n > 0 {
      CopyAppends(out, dist, n - 1);
    }
  }

  lemma StepAppends(c: Core, inp: seq<byte>)
    requires c.Valid() && c.rem == 0
    ensures Step(c, inp).Next? ==> c.out <= Step(c, inp).core.out
  {
    if |c.out| > 0 {
      CopyAppends(c.out, c.reps.r0, 1);
    }
  }

  lemma FlushAppends(c: Core, limit: nat)
    requires c.Valid() && |c.out| <= limit
    ensures c.out <= Flush(c, limit).out
  {
    if c.Copying() {
      CopyAppends(c.out, c.reps.r0, Min(c.rem, limit - |c.out|));
    }
  }

  /** What has been produced stays. */
  lemma {:induction false} ResumeAppends(c: Core, inp: seq<byte>, limit: nat, mode: Mode)
    requires c.Valid() && |c.out| <= limit
    ensures var r := Resume(c, inp, limit, mode);
            c.out <= if r.Fail? then r.out else r.core.out
    decreases limit - |Flush(c, limit).out|
  {
    var f := Flush(c, limit);
    FlushAppends(c, limit);
    ResumeFlushed(c, inp, limit, limit, mode);
    if !f.Finished() && |f.out| < limit {
      var s := Step(f, inp);
      StepAppends(f, inp);
      ResumeStep(f, inp, limit, mode);
      if s.Next? && !s.core.Finished() {
        StepProgress(f, inp);
        ResumeAppends(s.core, s.rest, limit, mode);
      }
    }
  }

  function Output(d: Decoder): seq<byte> {
    if d.Header? then [] else d.core.out
  }

  lemma CallAppends(d: Decoder, src: seq<byte>, limit: nat, mode: Mode)
    requires d.Valid() && d.Produced() <= limit
    ensures var r := Call(d, src, limit, mode);
            Output(d) <= if r.Failed? then r.out else Output(r.dec)
  {
    if d.Body? {
      ResumeAppends(d.core, d.carry + src, limit, mode);
    }
  }

  // ---- A call that stopped short has nothing more to do ----

  lemma {:induction false} ResumeAgain(c: Core, inp: seq<byte>, limit: nat, mode: Mode, limit2: nat, mode2: Mode)
    requires c.Valid() && |c.out| <= limit
    ensures var r := Resume(c, inp, limit, mode);
            r.Stop? && |r.core.out| < limit && |r.core.out| < limit2 ==>
              && Resume(r.core, r.rest, limit2, mode2) == r
              && (r.status == NeedsMoreInput || (r.status == FinishedWithMark && r.core.Finished()))
    decreases limit - |Flush(c, limit).out|
  {
    var f := Flush(c, limit);
    ResumeFlushed(c, inp, limit, limit, mode);
    if !f.Finished() && |f.out| < limit {
      var s := Step(f, inp);
      ResumeStep(f, inp, limit, mode);
      if |f.out| < limit2 {
        ResumeStep(f, inp, limit2, mode2);
      }
      if s.Next? && !s.core.Finished() {
        StepProgress(f, inp);
        ResumeAgain(s.core, s.rest, limit, mode, limit2, mode2);
      }
    }
  }

  lemma BodyCallAgain(core: Core, carry: seq<byte>, src: seq<byte>, limit: nat, mode: Mode, limit2: nat, mode2: Mode)
    requires Body(core, carry).Valid() && |core.out| <= limit
    ensures var r := CallBody(core, carry, src, limit, mode);
            r.Called? && r.dec.Produced() < limit && r.dec.Produced() < limit2 ==>
              r.dec.Valid() && Call(r.dec, src[r.consumed..], limit2, mode2) == Called(r.dec, 0, r.status)
  {
    var o := Resume(core, carry + src, limit, mode);
    var r := CallBody(core, carry, src, limit, mode);
    if r.Called? && r.dec.Produced() < limit && r.dec.Produced() < limit2 {
      CallBodyKeeps(core, carry, src, limit, mode);
      ResumeAgain(core, carry + src, limit, mode, limit2, mode2);
      SettleAgain(o, r.dec.carry, src[r.consumed..]);
    }
  }

  lemma SettleAgain(o: Outcome, carry: seq<byte>, rest: seq<byte>)
    requires o.Stop? && carry + rest == o.rest
    requires o.status == NeedsMoreInput ==> rest == []
    requires o.status != NeedsMoreInput ==> carry == []
    ensures Settle(o, carry, rest) == Called(Body(o.core, carry), 0, o.status)
  {
    assert carry + [] == carry && [] + rest == rest;
  }

  lemma CallAgain(d: Decoder, src: seq<byte>, limit: nat, mode: Mode, limit2: nat, mode2: Mode)
    requires d.Valid() && d.Produced() <= limit
    ensures var r := Call(d, src, limit, mode);
            r.Called? && r.dec.Produced() < limit && r.dec.Produced() < limit2 ==>
              r.dec.Valid() && Call(r.dec, src[r.consumed..], limit2, mode2) == Called(r.dec, 0, r.status)
  {
    match d
    case Body(core, carry) => BodyCallAgain(core, carry, src, limit, mode, limit2, mode2);
    case Header(props, carry) => HeaderCallAgain(props, carry, src, limit, mode, limit2, mode2);
  }

  lemma HeaderCallAgain(props: Props, carry: seq<byte>, src: seq<byte>, limit: nat, mode: Mode, limit2: nat, mode2: Mode)
    requires Header(props, carry).Valid()
    ensures var r := Call(Header(props, carry), src, limit, mode);
            r.Called? && r.dec.Produced() < limit && r.dec.Produced() < limit2 ==>
              r.dec.Valid() && Call(r.dec, src[r.consumed..], limit2, mode2) == Called(r.dec, 0, r.status)
  {
    var h := TakeHeader(carry, src);
    match h
    case BadHeader =>
    case Partial(carry') => assert carry' + src[|src|..] == carry';
    case Complete(header, rest) => CompleteCallAgain(props, carry, src, header, rest, limit, mode, limit2, mode2);
  }

  lemma CompleteCallAgain(props: Props, carry: seq<byte>, src: seq<byte>, header: seq<byte>, rest: seq<byte>,
                          limit: nat, mode: Mode, limit2: nat, mode2: Mode)
    requires Header(props, carry).Valid() && TakeHeader(carry, src) == Complete(header, rest)
    ensures var r := AfterTaking(|src| - |rest|, CallBody(InitialCore(props, header), [], rest, limit, mode));
            r.Called? && r.dec.Produced() < limit && r.dec.Produced() < limit2 ==>
              r.dec.Valid() && r.consumed <= |src| && Call(r.dec, src[r.consumed..], limit2, mode2) == Called(r.dec, 0, r.status)
  {
    var core := InitialCore(props, header);
    BodyCallAgain(core, [], rest, limit, mode, limit2, mode2);
    RestOfHeader(carry, src, []);
    AgainAfterTaking(CallBody(core, [], rest, limit, mode), src, |src| - |rest|);
  }

  lemma AgainAfterTaking(r: CallResult, src: seq<byte>, n: nat)
    requires n <= |src| && (r.Called? ==> r.consumed <= |src[n..]|)
    ensures r.Called? ==> src[n..][r.consumed..] == src[AfterTaking(n, r).consumed..]
  {
    if r.Called? {
      DropTwice(src, n, r.consumed);
    }
  }

  // ---- The loop over the dictionary ----

  /** Whether a call up to `limit` may stand for a part of the call up to `whole`. */
  predicate PartLimit(produced: nat, limit: nat, curMode: Mode, whole: nat, mode: Mode) {
    produced <= limit <= whole
    && ((limit == whole && curMode == mode) || (curMode.FinishAny? && produced < limit < whole))
  }

  /** A call up to the end of the dictionary, or up to the caller's limit, against
      the one call that asks for everything. */
  lemma PartOfWhole(d: Decoder, src: seq<byte>, l1: nat, m1: Mode, r: CallResult, limit: nat, mode: Mode, whole: CallResult)
    returns (next: CallResult)
    requires CallIs(d, src, l1, m1, r) && CallIs(d, src, limit, mode, whole)
    requires PartLimit(d.Produced(), l1, m1, limit, mode)
    ensures r.Failed? ==> whole == r
    ensures r.Called? && (r.dec.Produced() == d.Produced() || r.dec.Produced() == limit) ==> whole == r
    ensures r.Called? && r.dec.Produced() != d.Produced() && r.dec.Produced() != limit ==>
              whole == AfterTaking(r.consumed, next) && CallIs(r.dec, src[r.consumed..], limit, mode, next)
  {
    CallIsCall(d, src, l1, m1, r);
    CallIsCall(d, src, limit, mode, whole);
    CallValid(d, src, l1, m1);
    CallAgain(d, src, l1, m1, limit, mode);
    next := if r.Called? then Call(r.dec, src[r.consumed..], limit, mode) else r;
    if l1 < limit {
      PartThenRest(d, src, l1, r, limit, mode, whole);
    }
  }

  lemma PartThenRest(d: Decoder, src: seq<byte>, l1: nat, r: CallResult, limit: nat, mode: Mode, whole: CallResult)
    requires d.Valid() && d.Produced() <= l1 <= limit
    requires r == Call(d, src, l1, FinishAny) && whole == Call(d, src, limit, mode)
    ensures Resumable(r, |src|, l1)
    ensures whole == if r.Failed? then r else AfterTaking(r.consumed, Call(r.dec, src[r.consumed..], limit, mode))
  {
    CallsCompose(d, src, [], l1, limit, mode);
    assert src + [] == src;
    if r.Called? {
      assert src[r.consumed..] + [] == src[r.consumed..];
    }
  }

  /** memcpy out of the dictionary. */
  method CopyOut(dest: array<byte>, at: nat, dic: array<byte>, from: nat, n: nat)
    requires dest != dic && at + n <= dest.Length && from + n <= dic.Length
    modifies dest
    ensures dest[..at] == old(dest[..at]) && dest[at..at + n] == dic[from..from + n]
  {
    for i := 0 to n
      invariant dest[..at] == old(dest[..at]) && dest[at..at + i] == dic[from..from + i]
    {
      dest[at + i] := dic[from + i];
    }
  }

  /** One call into the dictionary: up to its end, or for all that is wanted. */
  method DecodeToEnd(p: LzmaDec, outSize: nat, src: seq<byte>, mode: Mode, ghost d: Decoder)
    returns (sres: SRes, dicPos: nat, srcLen: nat, status: Status, ghost r: CallResult, ghost limit: nat, curMode: Mode)
    requires p.Valid() && p.prop.dicSize <= p.dic.Length && d == p.Abstract()
    modifies p, p.probs, p.dic, p.tempBuf
    ensures srcLen <= |src| && dicPos <= p.dicPos <= p.dic.Length && p.dicPos - dicPos <= outSize
    ensures PartLimit(d.Produced(), limit, curMode, d.Produced() + outSize, mode)
    ensures CallIs(d, src, limit, curMode, r)
    ensures r.Failed? ==> sres == SzErrorData && r == Failed(status, p.out)
    ensures r.Called? ==> sres == SzOk && p.Valid() && r == Called(p.Abstract(), srcLen, status)
    ensures p.out == old(p.out) + p.dic[dicPos..p.dicPos]
  {
    if p.dicPos == p.dic.Length {
      p.Rewind();
    }
    dicPos := p.dicPos;
    var outSizeCur;
    if outSize > p.dic.Length - dicPos {
      outSizeCur := p.dic.Length;
      curMode := FinishAny;
    } else {
      outSizeCur := dicPos + outSize;
      curMode := mode;
    }
    limit := |p.out| + (outSizeCur - dicPos);
    p.IsInside();
    r := TheCall(d, src, limit, curMode);
    ghost var before := p.out;
    sres, srcLen, status := p.DecodeToDic(outSizeCur, src, curMode, limit, r);
    CallEnded(p, r, outSizeCur, limit, sres, srcLen, status, before, dicPos);
  }

  /** What a call has left in the decoder and its dictionary. */
  lemma CallEnded(p: LzmaDec, r: CallResult, end: nat, limit: nat, sres: SRes, srcLen: nat, status: Status,
                  before: seq<byte>, dicPos: nat)
    requires p.Returned(r, end, limit, sres, srcLen, status) && dicPos <= p.dicPos <= p.dic.Length
    requires before <= (if r.Failed? then r.out else Output(r.dec)) && limit == |before| + (end - dicPos)
    ensures r.Failed? ==> sres == SzErrorData && r == Failed(status, p.out)
    ensures r.Called? ==> sres == SzOk && p.Valid() && r == Called(p.Abstract(), srcLen, status)
    ensures p.out == before + p.dic[dicPos..p.dicPos]
  {
    p.HowItEnds(r, end, limit, sres, srcLen, status);
    if r.Called? {
      MirrorsOutput(p);
    }
    OutputSince(p.dic[..], p.dicPos, p.out, before, p.dicPos - dicPos);
  }

  lemma TheCall(d: Decoder, src: seq<byte>, limit: nat, mode: Mode) returns (r: CallResult)
    requires d.Valid() && d.Produced() <= limit
    ensures CallIs(d, src, limit, mode, r)
    ensures Output(d) <= if r.Failed? then r.out else Output(r.dec)
  {
    r := Call(d, src, limit, mode);
    CallAppends(d, src, limit, mode);
  }

  /** One round of DecodeToBuf's loop: a call into the dictionary, and what it
      produced copied to `dest`; `next` is the call that is left. */
  method DecodePart(p: LzmaDec, dest: array<byte>, at: nat, src: seq<byte>, mode: Mode,
                    ghost d: Decoder, ghost total: nat, ghost whole: CallResult)
    returns (sres: SRes, got: nat, srcLen: nat, status: Status, ghost d': Decoder, ghost rest: seq<byte>, ghost next: CallResult)
    requires p.Valid() && p.prop.dicSize <= p.dic.Length && at <= dest.Length
    requires dest != p.dic && dest != p.tempBuf
    requires d == p.Abstract() && total == d.Produced() + (dest.Length - at) && CallIs(d, src, total, mode, whole)
    modifies p, p.probs, p.dic, p.tempBuf, dest
    ensures srcLen <= |src| && at + got <= dest.Length && dest[..at] == old(dest[..at])
    ensures sres == SzOk || (sres == SzErrorData && whole == Failed(status, p.out))
    ensures p.out == old(p.out) + dest[at..at + got]
    ensures sres == SzOk ==> p.Valid() && d' == p.Abstract()
    ensures sres == SzOk && (got == 0 || at + got == dest.Length) ==> whole == Called(d', srcLen, status)
    ensures sres == SzOk && got != 0 && at + got != dest.Length ==>
              whole == AfterTaking(srcLen, next) && rest == src[srcLen..] && CallIs(d', rest, total, mode, next)
  {
    var dicPos, curMode;
    ghost var r, limit;
    sres, dicPos, srcLen, status, r, limit, curMode := DecodeToEnd(p, dest.Length - at, src, mode, d);
    next := PartOfWhole(d, src, limit, curMode, r, total, mode, whole);
    d', rest := if r.Called? then r.dec else d, src[srcLen..];
    got := p.dicPos - dicPos;
    CopyOut(dest, at, p.dic, dicPos, got);
  }

  /** DecodeToBuf: for a dictionary at least as large as the stream asks for, the
      calls it makes add up to the reference machine's one call for everything,
      `whole`, and `dest` receives exactly the bytes produced. */
  method DecodeToBuf(p: LzmaDec, dest: array<byte>, src: seq<byte>, mode: Mode, ghost total: nat, ghost whole: CallResult)
    returns (sres: SRes, destLen: nat, srcLen: nat, status: Status)
    requires p.Valid() && p.prop.dicSize <= p.dic.Length
    requires dest != p.dic && dest != p.tempBuf
    requires total == p.Abstract().Produced() + dest.Length && CallIs(p.Abstract(), src, total, mode, whole)
    modifies p, p.probs, p.dic, p.tempBuf, dest
    ensures srcLen <= |src| && destLen <= dest.Length
    ensures whole.Failed? ==> sres == SzErrorData && whole == Failed(status, p.out)
    ensures whole.Called? ==> sres == SzOk && p.Valid() && whole == Called(p.Abstract(), srcLen, status)
    ensures p.out == old(p.out) + dest[..destLen]
  {
    ghost var d, unread, rest := p.Abstract(), src, whole;
    sres, status, srcLen, destLen := SzOk, NotSpecified, 0, 0;
    var more := true;
    while more
      invariant srcLen <= |src| && destLen <= dest.Length
      invariant sres == SzOk || (sres == SzErrorData && whole == Failed(status, p.out) && !more)
      invariant p.out == old(p.out) + dest[..destLen]
      invariant sres == SzOk ==> p.Valid() && d == p.Abstract()
      invariant sres == SzOk && !more ==> whole == Called(d, srcLen, status)
      invariant more ==> unread == src[srcLen..] && CallIs(d, unread, total, mode, rest) && whole == AfterTaking(srcLen, rest)
      decreases if more then 1 + dest.Length - destLen else 0
    {
      var n, got;
      ghost var before, at, start := srcLen, destLen, dest[..destLen];
      sres, got, n, status, d, unread, rest := DecodePart(p, dest, destLen, src[srcLen..], mode, d, total, rest);
      srcLen, destLen := srcLen + n, destLen + got;
      DropTwice(src, before, n);
      OutputJoined(old(p.out), start, dest[..], at, got);
      more := sres == SzOk && got != 0 && destLen != dest.Length;
    }
  }

  lemma OutputJoined(before: seq<byte>, start: seq<byte>, dest: seq<byte>, at: nat, got: nat)
    requires at + got <= |dest| && start == dest[..at]
    ensures (before + start) + dest[at..at + got] == before + dest[..at + got]
  {
    assert dest[..at + got] == start + dest[at..at + got];
  }

  lemma OutputSince(dic: seq<byte>, dicPos: nat, out: seq<byte>, before: seq<byte>, got: nat)
    requires Mirrors(dic, dicPos, out) && before <= out && |out| == |before| + got && got <= dicPos
    ensures out == before + dic[dicPos - got..dicPos]
  {
    ProducedBytes(dic, dicPos, out, got);
  }

  lemma MirrorsOutput(p: LzmaDec)
    requires p.Valid()
    ensures Mirrors(p.dic[..], p.dicPos, p.out)
  {
    p.IsInside();
  }
}
