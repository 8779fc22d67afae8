/** Decoding what an encoder writes: for every sequence of symbols that can follow one
    another, the decoder gives back their text. The encoder knows nothing of the decoder:
    it looks at the history of symbols, names its probabilities and counts in unbounded
    numbers. */
module LzmaRoundTrip {
  import opened Words
  import opened LzmaLayout
  import opened LzmaRangeCoder
  import opened LzmaSymbol
  import opened LzmaParse
  import opened LzmaStream
  import opened LzmaCalls
  import opened LzmaHistory
  import opened LzmaWalk
  import opened LzmaEncoder
  import opened LzmaStates

  // ---- The encoder ----

  /** The interval after more symbols. */
  function EncodeFrom(props: Props, past: seq<Symbol>, model: Model, e: Enc, rest: seq<Symbol>): (Enc, Model)
    requires props.lc <= 8
    decreases |rest|
  {
    if rest == [] then (e, model)
    else
      var (e', model') := PutAll(e, model, SymbolEvents(SettingOf(props, past, TextOf(past)), rest[0]));
      EncodeFrom(props, past + [rest[0]], model', Shifted(e'), rest[1..])
  }

  const WHOLE := Enc(0, 0xFFFF_FFFF, 0)

  /** The stream of a number: a zero byte and its digits. */
  function StreamOf(e: Enc): (s: seq<byte>)
    ensures |s| == e.shifts + 5
  {
    [0] + Digits(e.low, e.shifts + 4)
  }

  /** The stream of a sequence of symbols; the end mark may be one of them. */
  function Encoded(props: Props, symbols: seq<Symbol>): seq<byte>
    requires props.lc <= 8
  {
    StreamOf(EncodeFrom(props, [], map[], WHOLE, symbols).0)
  }

  const END_MARK := Match(0, END_MARK_DISTANCE)

  // ---- One symbol ----

  function Coders(props: Props): nat {
    Pow2(props.lc + props.lp)
  }

  /** A decoder between two symbols that has followed the encoder so far. */
  ghost predicate InStep(c: Core, inp: seq<byte>, past: seq<Symbol>, model: Model, e: Enc, v: nat, total: nat) {
    && c.Valid() && c.rem == 0 && Remembers(c, past) && Follows(Coders(c.props), model, c.probs)
    && Tuned(c.Coder(inp), e, v, total)
  }

  lemma {:induction false} ShrIsAbove(x: nat, k: nat)
    ensures Shr(x, k) == Above(x, k)
  {
    if k > 0 {
      ShrIsAbove(x / 2, k - 1);
    }
  }

  lemma CoderIsBase(props: Props, past: seq<Symbol>, text: seq<byte>)
    requires props.Valid()
    ensures LiteralBase(props, |text|, Last(text)) == LIT_SIZE * SettingOf(props, past, text).coder
    ensures SettingOf(props, past, text).coder < Coders(props)
  {
    ShlIsTimes(|text| % Pow2(props.lp), props.lc);
    ShrIsAbove(Last(text), 8 - props.lc);
    LiteralBaseBound(props, |text|, Last(text));
  }

  /** The decoder's context is the setting that the encoder sees. */
  lemma ContextFits(c: Core, past: seq<Symbol>)
    requires c.Valid() && c.rem == 0 && Remembers(c, past)
    ensures Fits(c.Context(), Coders(c.props), SettingOf(c.props, past, c.out))
  {
    ContextValid(c);
    CoderIsBase(c.props, past, c.out);
    assert Recent(c.reps)[0] == c.reps.r0;
  }

  /** The bits of a symbol parse as that symbol. */
  lemma ParseReads(c: Core, inp: seq<byte>, past: seq<Symbol>, model: Model, e: Enc, v: nat, total: nat, symbol: Symbol)
    returns (e': Enc, model': Model)
    requires InStep(c, inp, past, model, e, v, total) && symbol.Valid()
    requires Holds(Shifted(PutAll(e, model, SymbolEvents(SettingOf(c.props, past, c.out), symbol)).0), v, total)
    ensures (e', model') == PutAll(e, model, SymbolEvents(SettingOf(c.props, past, c.out), symbol)) && c.Context().Valid()
    ensures var p := Run(c.Context(), AtIsMatch, c.Coder(inp), c.probs, true);
            p.Parsed? && p.symbol == symbol && Tuned(p.rc, Shifted(e'), v, total) && Follows(Coders(c.props), model', p.probs)
  {
    var s := SettingOf(c.props, past, c.out);
    var ctx, coders := c.Context(), Coders(c.props);
    var put := PutAll(e, model, SymbolEvents(s, symbol));
    e', model' := put.0, put.1;
    ContextFits(c, past);
    SymbolWalk(ctx, coders, s, symbol);
    IsThrough(ctx, coders, AtIsMatch, SymbolEvents(s, symbol), Done(symbol));
    RunReads(ctx, coders, AtIsMatch, SymbolEvents(s, symbol), symbol, c.Coder(inp), c.probs, e, model, v, total);
  }

  /** One symbol is read back, and the decoder stays in step. */
  lemma SymbolReads(c: Core, inp: seq<byte>, past: seq<Symbol>, model: Model, e: Enc, v: nat, total: nat, symbol: Symbol)
    requires InStep(c, inp, past, model, e, v, total) && symbol.Valid()
    requires CanFollow(past, c.out, c.props.dicSize, symbol) || symbol.EndMark()
    requires Holds(Shifted(PutAll(e, model, SymbolEvents(SettingOf(c.props, past, c.out), symbol)).0), v, total)
    ensures var put := PutAll(e, model, SymbolEvents(SettingOf(c.props, past, c.out), symbol));
            var s := Step(c, inp);
            && s.Next? && s.symbol == symbol && s.core.props == c.props && (s.core.Finished() <==> symbol.EndMark())
            && (!symbol.EndMark() ==> InStep(Settled(s.core), s.rest, past + [symbol], put.1, Shifted(put.0), v, total))
            && Tuned(s.core.Coder(s.rest), Shifted(put.0), v, total) && (symbol.EndMark() ==> s.core.out == c.out)
  {
    var e', model' := ParseReads(c, inp, past, model, e, v, total, symbol);
    var p, c1 := StepApplies(c, inp);
    AppliedFollows(c1, past, symbol);
  }

  // ---- A whole stream ----

  lemma {:induction false} EncodeHolds(props: Props, past: seq<Symbol>, model: Model, e: Enc, rest: seq<Symbol>, v: nat, total: nat)
    requires props.lc <= 8 && Usable(e) && Sane(model)
    ensures Usable(EncodeFrom(props, past, model, e, rest).0) && Sane(EncodeFrom(props, past, model, e, rest).1)
    ensures Holds(EncodeFrom(props, past, model, e, rest).0, v, total) ==> Holds(e, v, total)
    decreases |rest|
  {
    if rest != [] {
      var events := SymbolEvents(SettingOf(props, past, TextOf(past)), rest[0]);
      var (e', model') := PutAll(e, model, events);
      PutAllHolds(e, model, events, v, total);
      EncodeHolds(props, past + [rest[0]], model', Shifted(e'), rest[1..], v, total);
      if Holds(Shifted(e'), v, total) {
        ShiftHolds(e', v, total);
      }
    }
  }

  /** The rest of the symbols can follow the history. */
  predicate Continues(past: seq<Symbol>, rest: seq<Symbol>, dicSize: nat)
    decreases |rest|
  {
    rest != [] ==> CanFollow(past, TextOf(past), dicSize, rest[0]) && Continues(past + [rest[0]], rest[1..], dicSize)
  }

  /** What the first symbol leaves holds the number as well. */
  lemma FirstHolds(props: Props, past: seq<Symbol>, model: Model, e: Enc, rest: seq<Symbol>, v: nat, total: nat)
    requires props.lc <= 8 && Usable(e) && Sane(model) && rest != []
    requires Holds(EncodeFrom(props, past, model, e, rest).0, v, total)
    ensures var put := PutAll(e, model, SymbolEvents(SettingOf(props, past, TextOf(past)), rest[0]));
            && Usable(Shifted(put.0)) && Sane(put.1) && Holds(Shifted(put.0), v, total)
            && EncodeFrom(props, past, model, e, rest) == EncodeFrom(props, past + [rest[0]], put.1, Shifted(put.0), rest[1..])
  {
    var events := SymbolEvents(SettingOf(props, past, TextOf(past)), rest[0]);
    var (e', model') := PutAll(e, model, events);
    PutAllHolds(e, model, events, v, total);
    EncodeHolds(props, past + [rest[0]], model', Shifted(e'), rest[1..], v, total);
  }

  /** A call decodes a symbol and copies it whole, if its limit allows. */
  lemma StepSettles(c: Core, inp: seq<byte>, s: StepResult, settled: Core, limit: nat, mode: Mode)
    requires c.Valid() && c.rem == 0 && s == Step(c, inp) && s.Next? && !s.core.Finished()
    requires settled == Settled(s.core) && |settled.out| <= limit
    ensures |c.out| < |settled.out| && settled.props == s.core.props
    ensures Resume(c, inp, limit, mode) == Resume(settled, s.rest, limit, mode)
  {
    StepProgress(c, inp);
    ResumeStep(c, inp, limit, mode);
    ResumeFlushed(s.core, s.rest, |settled.out|, limit, mode);
  }

  /** The first of the remaining symbols is read and copied; the rest of the call is a call
      on what it leaves. */
  lemma FirstReads(c: Core, inp: seq<byte>, past: seq<Symbol>, model: Model, e: Enc, rest: seq<Symbol>, v: nat, total: nat)
    returns (c1: Core, inp1: seq<byte>, e1: Enc, model1: Model)
    requires InStep(c, inp, past, model, e, v, total) && rest != [] && Continues(past, rest, c.props.dicSize)
    requires Holds(EncodeFrom(c.props, past, model, e, rest).0, v, total)
    ensures InStep(c1, inp1, past + [rest[0]], model1, e1, v, total) && c1.props == c.props && |c.out| < |c1.out|
    ensures EncodeFrom(c.props, past, model, e, rest) == EncodeFrom(c.props, past + [rest[0]], model1, e1, rest[1..])
    ensures forall limit, mode | |c1.out| <= limit :: Resume(c, inp, limit, mode) == Resume(c1, inp1, limit, mode)
  {
    FirstHolds(c.props, past, model, e, rest, v, total);
    SymbolReads(c, inp, past, model, e, v, total, rest[0]);
    var put := PutAll(e, model, SymbolEvents(SettingOf(c.props, past, TextOf(past)), rest[0]));
    var s := Step(c, inp);
    c1, inp1, e1, model1 := Settled(s.core), s.rest, Shifted(put.0), put.1;
    StepSettles(c, inp, s, c1, |c1.out|, FinishAny);
    forall limit: nat, mode: Mode | |c1.out| <= limit
      ensures Resume(c, inp, limit, mode) == Resume(c1, inp1, limit, mode)
    {
      StepSettles(c, inp, s, c1, limit, mode);
    }
  }

  lemma MoveFirst(past: seq<Symbol>, rest: seq<Symbol>)
    requires rest != []
    ensures (past + [rest[0]]) + rest[1..] == past + rest
  {
  }

  /** All the rest is read back: a call goes on as from the end of it. */
  lemma {:induction false} RestReads(c: Core, inp: seq<byte>, past: seq<Symbol>, model: Model, e: Enc, rest: seq<Symbol>,
                                     v: nat, total: nat, limit: nat, mode: Mode)
    returns (c': Core, inp': seq<byte>)
    requires InStep(c, inp, past, model, e, v, total) && Continues(past, rest, c.props.dicSize)
    requires Holds(EncodeFrom(c.props, past, model, e, rest).0, v, total) && |TextOf(past + rest)| <= limit
    ensures var put := EncodeFrom(c.props, past, model, e, rest);
            InStep(c', inp', past + rest, put.1, put.0, v, total) && c'.props == c.props
    ensures |c.out| <= |c'.out| <= limit && Resume(c, inp, limit, mode) == Resume(c', inp', limit, mode)
    decreases |rest|
  {
    if rest == [] {
      c', inp' := c, inp;
      assert past + rest == past;
    } else {
      MoveFirst(past, rest);
      var c1, inp1, e1, model1 := FirstReads(c, inp, past, model, e, rest, v, total);
      c', inp' := RestReads(c1, inp1, past + [rest[0]], model1, e1, rest[1..], v, total, limit, mode);
    }
  }

  // ---- The header ----

  lemma FourPlaces(x0: nat, x1: nat, x2: nat, x3: nat, x4: nat, d0: byte, d1: byte, d2: byte, d3: byte)
    requires x0 == 256 * x1 + d0 && x1 == 256 * x2 + d1 && x2 == 256 * x3 + d2 && x3 == 256 * x4 + d3 && x0 < U32
    ensures BigEndian(d3, d2, d1, d0) == x0
  {
  }

  lemma FirstDigit(v: nat, m: nat) returns (x: nat, y: nat, d: byte)
    ensures x == v / Pow256(m) && y == v / Pow256(m + 1) && x == 256 * y + d && Digits(v, m + 1) == [d] + Digits(v, m)
  {
    NextDigit(v, m + 1);
    x, y, d := v / Pow256(m), v / Pow256(m + 1), (v / Pow256(m)) % 256;
  }

  /** The first four digits are the number's head. */
  lemma HeadOfDigits(v: nat, total: nat)
    requires v / Pow256(total) < U32
    ensures var d := Digits(v, total + 4);
            BigEndian(d[0], d[1], d[2], d[3]) == v / Pow256(total) && d[4..] == Digits(v, total)
  {
    var x0, y0, d0 := FirstDigit(v, total);
    var x1, y1, d1 := FirstDigit(v, total + 1);
    var x2, y2, d2 := FirstDigit(v, total + 2);
    var x3, y3, d3 := FirstDigit(v, total + 3);
    FourPlaces(x0, x1, x2, x3, y3, d0, d1, d2, d3);
    FourDigits(Digits(v, total), Digits(v, total + 4), d0, d1, d2, d3);
  }

  lemma FourDigits(rest: seq<byte>, all: seq<byte>, d0: byte, d1: byte, d2: byte, d3: byte)
    requires all == [d3] + ([d2] + ([d1] + ([d0] + rest)))
    ensures all[0] == d3 && all[1] == d2 && all[2] == d1 && all[3] == d0 && all[4..] == rest
  {
  }

  /** A new decoder follows a new encoder. */
  lemma StartsInStep(props: Props, header: seq<byte>, v: nat, total: nat)
    requires props.Valid() && Holds(WHOLE, v, total) && |header| == RC_INIT_SIZE
    requires header[1..] == Digits(v, total + 4)[..4]
    ensures InStep(InitialCore(props, header), Digits(v, total), [], map[], WHOLE, v, total)
  {
    HeadOfDigits(v, total);
    var d := Digits(v, total + 4);
    assert header[1] == d[..4][0] && header[2] == d[..4][1] && header[3] == d[..4][2] && header[4] == d[..4][3];
    var c := InitialCore(props, header);
    NothingYet(c);
    forall name | NameOk(Coders(props), name)
      ensures SameChance(map[], c.probs, name)
    {
      PlaceFits(Coders(props), name);
    }
  }

  // ---- Decoding what was encoded ----

  lemma {:induction false} ProperParts(past: seq<Symbol>, rest: seq<Symbol>, dicSize: nat)
    requires Proper(past + rest, dicSize)
    ensures Proper(past, dicSize)
    ensures rest != [] ==> CanFollow(past, TextOf(past), dicSize, rest[0])
    decreases |rest|
  {
    var all := past + rest;
    if rest == [] {
      assert all == past;
    } else {
      var n := |rest| - 1;
      assert all[..|all| - 1] == past + rest[..n];
      ProperParts(past, rest[..n], dicSize);
      if n == 0 {
        assert past + rest[..n] == past;
      }
    }
  }

  lemma {:induction false} ProperContinues(past: seq<Symbol>, rest: seq<Symbol>, dicSize: nat)
    requires Proper(past + rest, dicSize)
    ensures Continues(past, rest, dicSize)
    decreases |rest|
  {
    if rest != [] {
      MoveFirst(past, rest);
      ProperParts(past, rest, dicSize);
      ProperContinues(past + [rest[0]], rest[1..], dicSize);
    }
  }

  /** A call on a stream reads its header and goes on in step with the encoder. */
  lemma StreamStarts(props: Props, symbols: seq<Symbol>, limit: nat, mode: Mode) returns (e: Enc, c: Core, inp: seq<byte>)
    requires props.Valid()
    ensures e == EncodeFrom(props, [], map[], WHOLE, symbols).0 && Holds(e, e.low, e.shifts)
    ensures InStep(c, inp, [], map[], WHOLE, e.low, e.shifts) && c.props == props && c.out == []
    ensures |Encoded(props, symbols)| == RC_INIT_SIZE + |inp|
    ensures Call(Header(props, []), Encoded(props, symbols), limit, mode) == AfterTaking(RC_INIT_SIZE, CallBody(c, [], inp, limit, mode))
  {
    e := FinalHolds(props, symbols);
    var header, rest := StreamParts(e.low, e.shifts);
    StartsInStep(props, header, e.low, e.shifts);
    c, inp := InitialCore(props, header), rest;
    CallStarts(props, StreamOf(e), header, rest, c, limit, mode);
  }

  lemma FinalHolds(props: Props, symbols: seq<Symbol>) returns (e: Enc)
    requires props.Valid()
    ensures e == EncodeFrom(props, [], map[], WHOLE, symbols).0 && Holds(e, e.low, e.shifts) && Holds(WHOLE, e.low, e.shifts)
  {
    e := EncodeFrom(props, [], map[], WHOLE, symbols).0;
    EncodeHolds(props, [], map[], WHOLE, symbols, e.low, e.shifts);
  }

  lemma CallStarts(props: Props, src: seq<byte>, header: seq<byte>, rest: seq<byte>, c: Core, limit: nat, mode: Mode)
    requires props.Valid() && TakeHeader([], src) == Complete(header, rest) && c == InitialCore(props, header)
    ensures Call(Header(props, []), src, limit, mode) == AfterTaking(|src| - |rest|, CallBody(c, [], rest, limit, mode))
  {
  }

  lemma StreamParts(v: nat, total: nat) returns (header: seq<byte>, rest: seq<byte>)
    requires v / Pow256(total) < U32
    ensures |header| == RC_INIT_SIZE && header[0] == 0 && header[1..] == Digits(v, total + 4)[..4] && rest == Digits(v, total)
    ensures TakeHeader([], [0] + Digits(v, total + 4)) == Complete(header, rest)
  {
    HeadOfDigits(v, total);
    header, rest := CutHeader(Digits(v, total + 4));
  }

  lemma CutHeader(d: seq<byte>) returns (header: seq<byte>, rest: seq<byte>)
    requires |d| >= 4
    ensures |header| == RC_INIT_SIZE && header[0] == 0 && header[1..] == d[..4] && rest == d[4..]
    ensures TakeHeader([], [0] + d) == Complete(header, rest)
  {
    var s: seq<byte> := [0] + d;
    header, rest := s[..RC_INIT_SIZE], s[RC_INIT_SIZE..];
    assert [] + s == s;
  }

  lemma UsedUp(rc: Rc, e: Enc)
    requires Tuned(rc, e, e.low, e.shifts)
    ensures rc.code == 0 && rc.inp == []
  {
  }

  /** A call that reads a stream to the end gives what its symbols give. */
  lemma CallSettles(d: Decoder, src: seq<byte>, c: Core, inp: seq<byte>, o: Outcome, limit: nat, mode: Mode)
    requires d.Valid() && d.Header? && c.Valid() && |c.out| <= limit && |src| == RC_INIT_SIZE + |inp|
    requires Call(d, src, limit, mode) == AfterTaking(RC_INIT_SIZE, CallBody(c, [], inp, limit, mode))
    requires o == Resume(c, inp, limit, mode) && o.Stop? && o.rest == [] && o.status != NeedsMoreInput
    ensures Call(d, src, limit, mode) == Called(Body(o.core, []), |src|, o.status)
  {
    assert [] + inp == inp;
  }

  /** A call on a stream comes to the end of its symbols, still in step. */
  lemma AllReads(props: Props, symbols: seq<Symbol>, e: Enc, c: Core, inp: seq<byte>, limit: nat, mode: Mode)
    returns (c': Core, inp': seq<byte>)
    requires props.Valid() && Proper(symbols, props.dicSize) && |TextOf(symbols)| <= limit
    requires InStep(c, inp, [], map[], WHOLE, e.low, e.shifts) && c.props == props && c.out == []
    requires Holds(EncodeFrom(props, [], map[], WHOLE, symbols).0, e.low, e.shifts)
    ensures var put := EncodeFrom(props, [], map[], WHOLE, symbols);
            InStep(c', inp', symbols, put.1, put.0, e.low, e.shifts) && c'.props == props
    ensures |c'.out| <= limit && Resume(c, inp, limit, mode) == Resume(c', inp', limit, mode)
  {
    assert [] + symbols == symbols;
    ProperContinues([], symbols, props.dicSize);
    c', inp' := RestReads(c, inp, [], map[], WHOLE, symbols, e.low, e.shifts, limit, mode);
  }

  /** At the end of a stream its number is used up. */
  lemma NothingLeft(c: Core, inp: seq<byte>, past: seq<Symbol>, model: Model, e: Enc, limit: nat, mode: Mode)
    requires InStep(c, inp, past, model, e, e.low, e.shifts) && limit == |TextOf(past)|
    ensures Resume(c, inp, limit, mode) == Stop(c, [], MaybeFinishedWithoutMark) && c.out == TextOf(past)
  {
    UsedUp(c.Coder(inp), e);
    assert Resume(c, inp, limit, mode) == AtLimit(c, inp, mode);
  }

  lemma AllDecodes(props: Props, symbols: seq<Symbol>, e: Enc, c: Core, inp: seq<byte>, limit: nat, mode: Mode)
    requires props.Valid() && Proper(symbols, props.dicSize) && limit == |TextOf(symbols)|
    requires InStep(c, inp, [], map[], WHOLE, e.low, e.shifts) && c.props == props && c.out == []
    requires e == EncodeFrom(props, [], map[], WHOLE, symbols).0 && Holds(e, e.low, e.shifts)
    ensures var o := Resume(c, inp, limit, mode);
            o.Stop? && o.rest == [] && o.status == MaybeFinishedWithoutMark && o.core.out == TextOf(symbols)
  {
    var (e1, model1) := EncodeFrom(props, [], map[], WHOLE, symbols);
    var c', inp' := AllReads(props, symbols, e, c, inp, limit, mode);
    NothingLeft(c', inp', symbols, model1, e, limit, mode);
  }

  /** A call gets the text, has read the stream to its end and says how it ends. */
  ghost predicate Decodes(props: Props, src: seq<byte>, limit: nat, mode: Mode, text: seq<byte>, status: Status)
    requires props.Valid()
  {
    var r := Call(Header(props, []), src, limit, mode);
    r.Called? && r.dec.Body? && r.dec.core.out == text && r.dec.carry == [] && r.consumed == |src| && r.status == status
  }

  lemma EveryTextIsLong(past: seq<Symbol>, dicSize: nat)
    requires Proper(past, dicSize) && past != []
    ensures TextOf(past) != []
  {
  }

  lemma NothingDecodes(props: Props, src: seq<byte>, limit: nat, mode: Mode)
    requires props.Valid() && src == Encoded(props, []) && limit == 0
    ensures Decodes(props, src, limit, mode, [], MaybeFinishedWithoutMark)
  {
    ZeroDigits(4);
    NothingCalled(props, src, limit, mode);
  }

  lemma {:induction false} ZeroDigits(m: nat)
    ensures forall i | 0 <= i < m :: Digits(0, m)[i] == 0
  {
    if m > 0 {
      ZeroDigits(m - 1);
    }
  }

  lemma NothingCalled(props: Props, src: seq<byte>, limit: nat, mode: Mode)
    requires props.Valid() && |src| == RC_INIT_SIZE && (forall i | 0 <= i < 5 :: src[i] == 0) && limit == 0
    ensures Call(Header(props, []), src, limit, mode) == Called(Body(InitialCore(props, src), []), |src|, MaybeFinishedWithoutMark)
  {
    assert [] + src == src && src[..RC_INIT_SIZE] == src && src[RC_INIT_SIZE..] == [];
    NothingSettles(InitialCore(props, src), 0, mode);
  }

  lemma NothingSettles(c: Core, limit: nat, mode: Mode)
    requires c.Valid() && c.rem == 0 && c.code == 0 && |c.out| == limit
    ensures CallBody(c, [], [], limit, mode) == Called(Body(c, []), 0, MaybeFinishedWithoutMark)
  {
    assert Resume(c, [] + [], limit, mode) == AtLimit(c, [] + [], mode);
  }

  lemma SomethingDecodes(props: Props, symbols: seq<Symbol>, limit: nat, mode: Mode)
    requires props.Valid() && Proper(symbols, props.dicSize) && limit == |TextOf(symbols)| > 0
    ensures Decodes(props, Encoded(props, symbols), limit, mode, TextOf(symbols), MaybeFinishedWithoutMark)
  {
    var e, c, inp := StreamStarts(props, symbols, limit, mode);
    AllDecodes(props, symbols, e, c, inp, limit, mode);
    CallSettles(Header(props, []), Encoded(props, symbols), c, inp, Resume(c, inp, limit, mode), limit, mode);
  }

  /** What has been encoded decodes to its text: a call on the stream that asks for so many
      bytes gets exactly these, has read the stream to its end and says that it may be
      finished. */
  lemma DecodeOfEncode(props: Props, symbols: seq<Symbol>, mode: Mode)
    requires props.Valid() && Proper(symbols, props.dicSize)
    ensures Decodes(props, Encoded(props, symbols), |TextOf(symbols)|, mode, TextOf(symbols), MaybeFinishedWithoutMark)
  {
    if symbols == [] {
      NothingDecodes(props, Encoded(props, symbols), 0, mode);
    } else {
      EveryTextIsLong(symbols, props.dicSize);
      SomethingDecodes(props, symbols, |TextOf(symbols)|, mode);
    }
  }

  lemma {:induction false} EncodeLast(props: Props, past: seq<Symbol>, model: Model, e: Enc, rest: seq<Symbol>, last: Symbol)
    requires props.lc <= 8
    ensures var (e', model') := EncodeFrom(props, past, model, e, rest);
            var put := PutAll(e', model', SymbolEvents(SettingOf(props, past + rest, TextOf(past + rest)), last));
            EncodeFrom(props, past, model, e, rest + [last]) == (Shifted(put.0), put.1)
    decreases |rest|
  {
    if rest == [] {
      assert past + rest == past && [last][1..] == [] && rest + [last] == [last];
    } else {
      var (e', model') := PutAll(e, model, SymbolEvents(SettingOf(props, past, TextOf(past)), rest[0]));
      MoveFirst(past, rest);
      assert (rest + [last])[1..] == rest[1..] + [last];
      EncodeLast(props, past + [rest[0]], model', Shifted(e'), rest[1..], last);
    }
  }

  /** The end mark after some symbols. */
  lemma MarkReads(c: Core, inp: seq<byte>, past: seq<Symbol>, model: Model, e1: Enc, e: Enc, limit: nat, mode: Mode)
    requires InStep(c, inp, past, model, e1, e.low, e.shifts) && |c.out| < limit && Holds(e, e.low, e.shifts)
    requires e == Shifted(PutAll(e1, model, SymbolEvents(SettingOf(c.props, past, TextOf(past)), END_MARK)).0)
    ensures var o := Resume(c, inp, limit, mode);
            o.Stop? && o.rest == [] && o.status == FinishedWithMark && o.core.out == c.out
  {
    SymbolReads(c, inp, past, model, e1, e.low, e.shifts, END_MARK);
    var s := Step(c, inp);
    UsedUp(s.core.Coder(s.rest), e);
    ResumeStep(c, inp, limit, mode);
    assert Resume(s.core, s.rest, limit, mode) == AtEndMark(s.core, s.rest);
  }

  /** With an end mark, a call that asks for more gets the text and finds the mark. */
  lemma DecodeOfEncodeWithMark(props: Props, symbols: seq<Symbol>, limit: nat, mode: Mode)
    requires props.Valid() && Proper(symbols, props.dicSize) && |TextOf(symbols)| < limit
    ensures Decodes(props, Encoded(props, symbols + [END_MARK]), limit, mode, TextOf(symbols), FinishedWithMark)
  {
    var e, c, inp := StreamStarts(props, symbols + [END_MARK], limit, mode);
    EncodeLast(props, [], map[], WHOLE, symbols, END_MARK);
    assert [] + symbols == symbols;
    var (e1, model1) := EncodeFrom(props, [], map[], WHOLE, symbols);
    BeforeLast(props, symbols, END_MARK, e.low, e.shifts);
    var c', inp' := AllReads(props, symbols, e, c, inp, limit, mode);
    MarkReads(c', inp', symbols, model1, e1, e, limit, mode);
    CallSettles(Header(props, []), Encoded(props, symbols + [END_MARK]), c, inp, Resume(c, inp, limit, mode), limit, mode);
  }

  lemma BeforeLast(props: Props, symbols: seq<Symbol>, last: Symbol, v: nat, total: nat)
    requires props.lc <= 8 && Holds(EncodeFrom(props, [], map[], WHOLE, symbols + [last]).0, v, total)
    ensures Holds(EncodeFrom(props, [], map[], WHOLE, symbols).0, v, total)
  {
    var (e1, model1) := EncodeFrom(props, [], map[], WHOLE, symbols);
    EncodeHolds(props, [], map[], WHOLE, symbols, v, total);
    EncodeLast(props, [], map[], WHOLE, symbols, last);
    var events := SymbolEvents(SettingOf(props, [] + symbols, TextOf([] + symbols)), last);
    ShiftHolds(PutAll(e1, model1, events).0, v, total);
    PutAllHolds(e1, model1, events, v, total);
  }
  // ---- A stream that must end at the limit ----

  /** At the limit, for a caller who says that the stream ends there: it may be finished if
      the code is used up; otherwise the end mark must follow, and what follows instead
      decides the error. */
  lemma EndDecides(c: Core, inp: seq<byte>, past: seq<Symbol>, model: Model, e1: Enc, e: Enc, next: Symbol, limit: nat)
    requires InStep(c, inp, past, model, e1, e.low, e.shifts) && limit == |TextOf(past)| && next.Valid() && Holds(e, e.low, e.shifts)
    requires e == Shifted(PutAll(e1, model, SymbolEvents(SettingOf(c.props, past, TextOf(past)), next)).0)
    ensures var o := Resume(c, inp, limit, FinishEnd);
            if c.code == 0 then o == Stop(c, inp, MaybeFinishedWithoutMark)
            else if next.EndMark() then o.Stop? && o.rest == [] && o.status == FinishedWithMark && o.core.out == c.out
            else o == Fail(if next.Match? then NotSpecified else NotFinished, c.out)
  {
    var e', model' := ParseReads(c, inp, past, model, e1, e.low, e.shifts, next);
    var p := Run(c.Context(), AtIsMatch, c.Coder(inp), c.probs, true);
    UsedUp(p.rc, e);
    LimitDecides(c, inp, p, limit);
  }

  lemma LimitDecides(c: Core, inp: seq<byte>, p: Parse, limit: nat)
    requires c.Valid() && c.rem == 0 && limit == |c.out| && c.Context().Valid()
    requires p == Run(c.Context(), AtIsMatch, c.Coder(inp), c.probs, true) && p.Parsed? && p.rc.code == 0
    ensures var o := Resume(c, inp, limit, FinishEnd);
            if c.code == 0 then o == Stop(c, inp, MaybeFinishedWithoutMark)
            else if p.symbol.EndMark() then o.Stop? && o.rest == p.rc.inp && o.status == FinishedWithMark && o.core.out == c.out
            else o == Fail(if p.symbol.Match? then NotSpecified else NotFinished, c.out)
  {
    assert Resume(c, inp, limit, FinishEnd) == AtLimit(c, inp, FinishEnd);
  }

  /** How such a call ends on an encoded stream: with the text and the mark, with the text
      and a code that happens to be used up before the next symbol, or with the error of a
      match or of any other symbol that follows. */
  ghost predicate EndsFor(r: CallResult, next: Symbol, text: seq<byte>, n: nat) {
    if r.Called? then
      && r.dec.Body? && r.dec.core.out == text && r.consumed <= n
      && (r.status == MaybeFinishedWithoutMark || (next.EndMark() && r.status == FinishedWithMark && r.consumed == n))
    else !next.EndMark() && r == Failed(if next.Match? then NotSpecified else NotFinished, text)
  }

  lemma DecodeToTheEnd(props: Props, symbols: seq<Symbol>, next: Symbol, limit: nat)
    requires props.Valid() && Proper(symbols, props.dicSize) && next.Valid() && limit == |TextOf(symbols)|
    ensures var src := Encoded(props, symbols + [next]);
            EndsFor(Call(Header(props, []), src, limit, FinishEnd), next, TextOf(symbols), |src|)
  {
    var e, c, inp := StreamStarts(props, symbols + [next], limit, FinishEnd);
    EncodeLast(props, [], map[], WHOLE, symbols, next);
    assert [] + symbols == symbols;
    var (e1, model1) := EncodeFrom(props, [], map[], WHOLE, symbols);
    BeforeLast(props, symbols, next, e.low, e.shifts);
    var c', inp' := AllReads(props, symbols, e, c, inp, limit, FinishEnd);
    EndDecides(c', inp', symbols, model1, e1, e, next, limit);
    OutcomeEndsFor(c, inp, Resume(c, inp, limit, FinishEnd), next, TextOf(symbols), limit);
  }

  lemma OutcomeEndsFor(c: Core, inp: seq<byte>, o: Outcome, next: Symbol, text: seq<byte>, limit: nat)
    requires c.Valid() && |c.out| <= limit && o == Resume(c, inp, limit, FinishEnd)
    requires if o.Stop? then
               && o.core.out == text
               && (o.status == MaybeFinishedWithoutMark || (next.EndMark() && o.status == FinishedWithMark && o.rest == []))
             else !next.EndMark() && o == Fail(if next.Match? then NotSpecified else NotFinished, text)
    ensures EndsFor(AfterTaking(RC_INIT_SIZE, CallBody(c, [], inp, limit, FinishEnd)), next, text, RC_INIT_SIZE + |inp|)
  {
    assert [] + inp == inp;
    ResumeShrinks(c, inp, limit, FinishEnd);
  }
}
