/** What the status of a call says about the decoder it leaves. */
module LzmaStatus {
  import opened Words
  import opened LzmaLayout
  import opened LzmaStream
  import opened LzmaCalls

  /** A call that does not fail says that the stream is finished exactly if the end mark has
      been read, and then the code is used up; that it may be finished exactly if the limit
      is reached between two symbols with the code used up; that it is not finished if the
      limit is reached in any other way and may be; and that it needs input if a symbol is
      wanted that the input does not hold. */
  ghost predicate Says(o: Outcome, limit: nat, mode: Mode) {
    o.Stop? ==>
      && o.core.Valid() && o.status != NotSpecified
      && (o.status == FinishedWithMark <==> o.core.Finished())
      && (o.core.Finished() ==> o.core.code == 0)
      && (o.status == MaybeFinishedWithoutMark <==> |o.core.out| == limit && o.core.rem == 0 && o.core.code == 0)
      && (o.status == NotFinished <==> |o.core.out| == limit && mode.FinishAny? && !o.core.Finished() && (o.core.rem != 0 || o.core.code != 0))
      && (o.status == NeedsMoreInput ==> Starving(o.core, o.rest) && (mode.FinishAny? ==> |o.core.out| < limit))
      && (|o.core.out| < limit ==> o.status == FinishedWithMark || o.status == NeedsMoreInput)
  }

  /** A call fails for want of the end only if the caller has said that the stream ends at
      the limit, and then all the output is there. */
  ghost predicate FailsFor(o: Outcome, limit: nat, mode: Mode) {
    o.Fail? ==> (o.status == NotFinished ==> mode.FinishEnd? && |o.out| == limit) && (o.status == NotFinished || o.status == NotSpecified)
  }

  lemma {:induction false} StatusMeans(c: Core, inp: seq<byte>, limit: nat, mode: Mode)
    requires c.Valid() && |c.out| <= limit
    ensures Says(Resume(c, inp, limit, mode), limit, mode) && FailsFor(Resume(c, inp, limit, mode), limit, mode)
    decreases limit - |Flush(c, limit).out|
  {
    var f := Flush(c, limit);
    ResumeFlushed(c, inp, limit, limit, mode);
    if f.Finished() {
    } else if |f.out| == limit {
      LimitMeans(f, inp, mode);
    } else {
      var s := Step(f, inp);
      ResumeStep(f, inp, limit, mode);
      if s.Next? && !s.core.Finished() {
        StepProgress(f, inp);
        StatusMeans(s.core, s.rest, limit, mode);
      }
    }
  }

  lemma LimitMeans(c: Core, inp: seq<byte>, mode: Mode)
    requires c.Valid() && !c.Finished()
    ensures Says(AtLimit(c, inp, mode), |c.out|, mode) && FailsFor(AtLimit(c, inp, mode), |c.out|, mode)
  {
    ContextValid(c);
  }

  /** A stream is refused for its header exactly if its first byte is not zero; fewer bytes
      than the header are kept. */
  lemma HeaderMeans(props: Props, src: seq<byte>, limit: nat, mode: Mode)
    requires props.Valid()
    ensures var r := Call(Header(props, []), src, limit, mode);
            && (src != [] && src[0] != 0 ==> r == Failed(NotSpecified, []))
            && (|src| < 5 && (src != [] ==> src[0] == 0) ==> r == Called(Header(props, src), |src|, NeedsMoreInput))
            && (|src| >= 5 && src[0] == 0 && r.Called? ==> r.dec.Body? && 5 <= r.consumed)
  {
    assert [] + src == src;
    if |src| >= 5 && src[0] == 0 {
      assert TakeHeader([], src) == Complete(src[..5], src[5..]);
      CallSettlesInBody(InitialCore(props, src[..5]), src[5..], limit, mode);
    }
  }

  lemma CallSettlesInBody(c: Core, src: seq<byte>, limit: nat, mode: Mode)
    requires c.Valid() && |c.out| <= limit
    ensures CallBody(c, [], src, limit, mode).Called? ==> CallBody(c, [], src, limit, mode).dec.Body?
  {
  }
}
