/** What calls answer, told from the calls before them alone: a story follows one handle
    through a run, and the object in the table agrees with it. */
module SyncHistory {
  import opened SyncModel
  import opened SyncRuns
  import opened SyncAccounts
  import opened SyncSleep

  // ---- The story of a handle ----

  /** How the handle's object was created, whether it was set or kicked after it was last
      reset, pulsed or passed, and the exit codes it was given. */
  datatype Story = Nothing | Story(what: Creation, on: bool, exits: seq<int>)

  /** A wait that has returned this took the object h. */
  predicate Took(w: Wait, out: Outcome, h: int) {
    && out.Returns?
    && match w
       case Single(g) => g == h && out.rv == 0
       case Many(handles, all) => 0 <= out.rv < |handles| <= 64 && if all then h in handles else handles[out.rv] == h
       case _ => false
  }

  ghost predicate Takes(s: State, a: Action, h: int)
    requires s.Ok() && Enabled(s, a)
  {
    var out := Step(s, a).out;
    match a
    case WaitSingle(_, g, _) => Took(Single(g), out, h)
    case WaitMultiple(_, handles, all, _) => Took(Many(handles, all), out, h)
    case Resume(tid) => Took(s.phases[tid].wait, out, h)
    case Expire(tid) => Took(s.phases[tid].wait, out, h)
    case _ => false
  }

  /** A kick reaches the event h: a thread waits for it alone, and it is not spared. */
  ghost predicate Kicks(s: State, a: Action, h: int, manual: bool) {
    match a
    case KickWorkers(everyone, manuals, _) =>
      (manuals || !manual) && exists t | t in s.phases :: s.phases[t].wait == Single(h) && (everyone || t != 1)
    case KickTid(tid) => !manual && tid in s.phases && s.phases[tid].wait == Single(h)
    case _ => false
  }

  ghost predicate SetAfter(s: State, a: Action, h: int, manual: bool, on: bool)
    requires s.Ok() && Enabled(s, a)
  {
    if a == SetEvent(h) || Kicks(s, a, h, manual) then true
    else if a == ResetEvent(h) || a == PulseEvent(h) then false
    else on && (manual || !Takes(s, a, h))
  }

  ghost function Later(s: State, a: Action, h: int, st: Story): Story
    requires s.Ok() && Enabled(s, a)
  {
    if a.Create? && Step(s, a).out == Returns(h) then Story(a.what, a.what.NewEvent? && a.what.signalled, [])
    else if a == Close(h) || st.Nothing? then Nothing
    else if a.ThreadExit? && a.h == h then st.(exits := st.exits + [a.code])
    else if st.what.NewEvent? then st.(on := SetAfter(s, a, h, st.what.manual, st.on))
    else st
  }

  ghost function StoryOf(s: State, run: seq<Action>, h: int, st: Story): Story
    requires s.Ok() && Allowed(s, run)
    decreases |run|
  {
    if run == [] then st else StoryOf(Step(s, run[0]).s, run[1..], h, Later(s, run[0], h, st))
  }

  /** The object agrees with the story. */
  predicate Fits(o: Obj, st: Story) {
    match st
    case Nothing => o.kind.Free?
    case Story(what, on, exits) =>
      match what
      case NewEvent(manual, _) => o.kind.Event? && o.manual == manual && o.signalled == on
      case NewMutex(_, _) => o.kind.Mutex?
      case NewSemaphore(_, max) => o.kind.Semaphore? && o.max == max
      case NewThread(_) => o.kind.Thread? && (o.exited <==> exits != []) && (exits != [] ==> o.exitCode == exits[0])
      case NewCondVar => o.kind.CondVar?
  }

  // ---- Every step goes on with it ----

  /** No wait has more handles than wait_multiple takes. */
  ghost predicate SmallWaits(s: State) {
    forall t | t in s.phases && s.phases[t].wait.Many? :: 0 < |s.phases[t].wait.handles| <= MAX_HANDLES
  }

  /** Two objects that differ at most in what a wait may change. */
  predicate Alike(o: Obj, p: Obj) {
    o.kind == p.kind && o.manual == p.manual && o.max == p.max && o.exited == p.exited && o.exitCode == p.exitCode
  }

  /** o after a wait, which may have taken it. */
  predicate Passed(o: Obj, p: Obj, took: bool) {
    Alike(o, p) && p.signalled == (o.signalled && !(took && o.kind.Event? && !o.manual))
  }

  lemma {:induction false} AcquireAllPasses(s: State, handles: seq<int>, tid: nat, h: int)
    requires s.Ok() && InTable(h) && forall k | 0 <= k < |handles| :: InTable(handles[k])
    ensures Passed(s.At(h), AcquireAll(s, handles, tid).At(h), h in handles)
  {
    if handles != [] {
      var n := |handles| - 1;
      AcquireAllPasses(s, handles[..n], tid, h);
      assert handles == handles[..n] + [handles[n]];
    }
  }

  lemma ManyPasses(s: State, tid: nat, handles: seq<int>, all: bool, timeout: Timeout, h: int)
    requires s.Ok() && InTable(h) && 0 < |handles| <= MAX_HANDLES
    ensures var r := TryMany(s, tid, handles, all, timeout);
            Passed(s.At(h), r.s.At(h), Took(Many(handles, all), r.out, h))
  {
    if AllLive(s, handles) && all {
      AcquireAllPasses(s, handles, tid, h);
    }
  }

  lemma SinglePasses(s: State, tid: nat, g: int, timeout: Timeout, h: int)
    requires s.Ok() && InTable(h)
    ensures var r := TrySingle(s, tid, g, timeout); Passed(s.At(h), r.s.At(h), Took(Single(g), r.out, h))
    ensures var r := ExpireSingle(s, tid, g); Passed(s.At(h), r.s.At(h), Took(Single(g), r.out, h))
  {
  }

  /** Sleeping and coming back change a mutex at most. */
  lemma SleepPasses(s: State, tid: nat, cv: int, mtx: int, gen: int, saved: int, timeout: Timeout, rv: int, h: int)
    requires s.Ok() && InTable(h)
    ensures Passed(s.At(h), TryRegain(s, tid, mtx, saved, rv).s.At(h), false)
    ensures Passed(s.At(h), TrySleep(s, tid, cv, mtx, gen, saved, timeout).s.At(h), false)
    ensures Passed(s.At(h), ExpireSleep(s, tid, cv, mtx, gen, saved).s.At(h), false)
  {
  }

  lemma PassPasses(s: State, tid: nat, h: int)
    requires s.Ok() && SmallWaits(s) && tid in s.phases && InTable(h)
    ensures Passed(s.At(h), DoResume(s, tid).s.At(h), Took(s.phases[tid].wait, DoResume(s, tid).out, h))
    ensures Passed(s.At(h), DoExpire(s, tid).s.At(h), Took(s.phases[tid].wait, DoExpire(s, tid).out, h))
  {
    var timeout := if s.phases[tid].timed then Finite else Infinite;
    match s.phases[tid].wait
    case Single(g) => SinglePasses(s, tid, g, timeout, h);
    case Many(handles, all) => ManyPasses(s, tid, handles, all, timeout, h);
    case Sleep(cv, mtx, gen, saved) => SleepPasses(s, tid, cv, mtx, gen, saved, timeout, 0, h);
    case Regain(mtx, saved, rv) => SleepPasses(s, tid, 0, mtx, 0, saved, timeout, rv, h);
  }

  predicate Waits(a: Action) {
    a.WaitSingle? || a.WaitMultiple? || a.CvSleep? || a.Resume? || a.Expire?
  }

  lemma StartPasses(s: State, tid: nat, cv: int, mtx: int, timeout: Timeout, h: int)
    requires s.Ok() && InTable(h)
    ensures Passed(s.At(h), StartSleep(s, tid, cv, mtx, timeout).s.At(h), false)
  {
    if s.Is(cv, CondVar) && s.Is(mtx, Mutex) {
      SleepPasses(GiveUp(s, mtx), tid, cv, mtx, s.At(cv).count, Saved(s.At(mtx)), timeout, 0, h);
    }
  }

  lemma WaitPasses(s: State, a: Action, h: int)
    requires s.Ok() && SmallWaits(s) && Enabled(s, a) && InTable(h) && Waits(a)
    ensures Passed(s.At(h), Step(s, a).s.At(h), Takes(s, a, h))
  {
    match a
    case WaitSingle(tid, g, timeout) => SinglePasses(s, tid, g, timeout, h);
    case WaitMultiple(tid, handles, all, timeout) =>
      if 0 < |handles| <= MAX_HANDLES {
        ManyPasses(s, tid, handles, all, timeout, h);
      }
    case CvSleep(tid, cv, mtx, timeout) => StartPasses(s, tid, cv, mtx, timeout, h);
    case Resume(tid) => PassPasses(s, tid, h);
    case Expire(tid) => PassPasses(s, tid, h);
  }

  lemma KickFits(s: State, a: Action, h: int, st: Story)
    requires s.Ok() && InTable(h) && a.KickWorkers? && Fits(s.At(h), st)
    ensures Fits(Step(s, a).s.At(h), Later(s, a, h, st))
  {
    var objs := seq(SYNC_MAX, i requires 0 <= i < SYNC_MAX => KickedObj(s, i, a));
    assert objs[h - SYNC_BASE] == KickedObj(s, h - SYNC_BASE, a);
    if Changes(s.objs, objs, SYNC_MAX) == 0 {
      assert s.objs[..SYNC_MAX][h - SYNC_BASE] == objs[..SYNC_MAX][h - SYNC_BASE];
    }
    if st.Story? && st.what.NewEvent? {
      assert WaitedOn(s, h, a.everyone) <==> exists t | t in s.phases :: s.phases[t].wait == Single(h) && (a.everyone || t != 1);
    }
  }

  predicate Signals(a: Action) {
    a.SetEvent? || a.ResetEvent? || a.PulseEvent? || a.KickTid?
  }

  lemma SignalFits(s: State, a: Action, h: int, st: Story)
    requires s.Ok() && Enabled(s, a) && InTable(h) && Signals(a) && Fits(s.At(h), st)
    ensures Fits(Step(s, a).s.At(h), Later(s, a, h, st))
  {
  }

  /** Making and closing an object. */
  lemma MakingFits(s: State, a: Action, h: int, st: Story)
    requires s.Ok() && InTable(h) && (a.Create? || a.Close?) && Fits(s.At(h), st)
    ensures Fits(Step(s, a).s.At(h), Later(s, a, h, st))
  {
  }

  lemma CallFits(s: State, a: Action, h: int, st: Story)
    requires s.Ok() && Enabled(s, a) && InTable(h) && Fits(s.At(h), st)
    requires a.ReleaseMutex? || a.ReleaseSemaphore? || a.ThreadExit? || a.CvWake?
    ensures Fits(Step(s, a).s.At(h), Later(s, a, h, st))
  {
  }

  lemma StepFits(s: State, a: Action, h: int, st: Story)
    requires s.Ok() && SmallWaits(s) && Enabled(s, a) && InTable(h) && Fits(s.At(h), st)
    ensures Fits(Step(s, a).s.At(h), Later(s, a, h, st))
  {
    if Waits(a) {
      WaitPasses(s, a, h);
    } else if a.KickWorkers? {
      KickFits(s, a, h, st);
    } else if Signals(a) {
      SignalFits(s, a, h, st);
    } else if a.Create? || a.Close? {
      MakingFits(s, a, h, st);
    } else {
      CallFits(s, a, h, st);
    }
  }

  lemma WaitsStaySmall(s: State, a: Action)
    requires s.Ok() && SmallWaits(s) && Enabled(s, a)
    ensures SmallWaits(Step(s, a).s)
  {
    var r := Step(s, a).s;
    forall t | t in r.phases && r.phases[t].wait.Many?
      ensures 0 < |r.phases[t].wait.handles| <= MAX_HANDLES
    {
      if t != Actor(a) {
        WaitsBefore(s, a, t);
      }
    }
  }

  /** Over every run: each object is as its story tells. */
  lemma {:induction false} RunFits(s: State, run: seq<Action>, h: int, st: Story)
    requires s.Ok() && SmallWaits(s) && Allowed(s, run) && InTable(h) && Fits(s.At(h), st)
    ensures Fits(After(s, run).At(h), StoryOf(s, run, h, st)) && SmallWaits(After(s, run))
    decreases |run|
  {
    if run != [] {
      StepFits(s, run[0], h, st);
      WaitsStaySmall(s, run[0]);
      RunFits(Step(s, run[0]).s, run[1..], h, Later(s, run[0], h, st));
    }
  }

  // ---- What waits answer ----

  ghost function Told(run: seq<Action>, h: int): Story
    requires Allowed(Initial(), run)
  {
    if InTable(h) then StoryOf(Initial(), run, h, Nothing) else Nothing
  }

  ghost function BookOf(run: seq<Action>, h: int): Account
    requires ProperRun(Initial(), run)
  {
    if InTable(h) then Entry(Books(Initial(), NoBooks(), run), h) else EMPTY
  }

  /** A wait of tid would succeed: the event is set, nobody else holds the mutex, the
      semaphore has units left, the thread has exited. */
  ghost predicate Ready(st: Story, acc: Account, tid: nat) {
    st.Story? && match st.what
                 case NewEvent(_, _) => st.on
                 case NewMutex(_, _) => forall t: nat | t != 0 && t != tid :: Held(acc, t) == 0
                 case NewSemaphore(_, _) => acc.added - acc.dropped - acc.taken > 0
                 case NewThread(_) => st.exits != []
                 case NewCondVar => false
  }

  lemma ReadyMeans(o: Obj, st: Story, acc: Account, tid: nat)
    requires Fits(o, st) && Balanced(o, acc) && tid != 0
    ensures Satisfied(o, tid) <==> Ready(st, acc, tid)
  {
    if o.kind.Mutex? && o.owner != 0 && o.owner != tid {
      assert Held(acc, o.owner) != 0;
    }
  }

  /** After a run from the empty table. */
  lemma RunTells(run: seq<Action>, h: int)
    requires ProperRun(Initial(), run)
    ensures Allowed(Initial(), run)
    ensures var s := After(Initial(), run);
            && (s.Live(h) <==> Told(run, h).Story?) && (InTable(h) ==> Fits(s.At(h), Told(run, h)) && Balanced(s.At(h), BookOf(run, h)))
            && SmallWaits(s)
  {
    LawsFromTheStart(run);
    RunFits(Initial(), run, if InTable(h) then h else SYNC_BASE, Nothing);
  }

  lemma RunReady(run: seq<Action>, h: int, tid: nat)
    requires ProperRun(Initial(), run) && tid != 0
    ensures Allowed(Initial(), run)
    ensures var s := After(Initial(), run);
            && (s.Live(h) <==> Told(run, h).Story?)
            && (InTable(h) ==> (Satisfied(s.At(h), tid) <==> Ready(Told(run, h), BookOf(run, h), tid)))
            && (!InTable(h) ==> !Ready(Told(run, h), BookOf(run, h), tid))
  {
    RunTells(run, h);
    if InTable(h) {
      ReadyMeans(After(Initial(), run).At(h), Told(run, h), BookOf(run, h), tid);
    }
  }

  /** The answer when nothing can be had. */
  function NotNow(timeout: Timeout): Outcome {
    if timeout.Zero? then Returns(0x102) else Parks
  }

  ghost function AnswerOne(run: seq<Action>, tid: nat, h: int, timeout: Timeout): Outcome
    requires ProperRun(Initial(), run) && Allowed(Initial(), run)
  {
    if Told(run, h).Nothing? then Returns(0xFFFF_FFFF)
    else if Ready(Told(run, h), BookOf(run, h), tid) then Returns(0)
    else NotNow(timeout)
  }

  lemma SingleIsSingle(s: State, tid: nat, h: int, timeout: Timeout)
    requires s.Ok() && tid != 0
    ensures tid !in s.phases ==> Step(s, WaitSingle(tid, h, timeout)) == TrySingle(s, tid, h, timeout)
    ensures tid in s.phases && s.phases[tid].wait == Single(h) ==>
              && Step(s, Resume(tid)) == TrySingle(s, tid, h, if s.phases[tid].timed then Finite else Infinite)
              && (s.phases[tid].timed ==> Step(s, Expire(tid)) == ExpireSingle(s, tid, h))
  {
  }

  lemma SingleAnswers(s: State, tid: nat, h: int, timeout: Timeout, live: bool, ready: bool)
    requires s.Ok() && tid != 0 && (s.Live(h) <==> live) && (ready <==> InTable(h) && Satisfied(s.At(h), tid))
    ensures TrySingle(s, tid, h, timeout).out
         == if !live then Returns(WAIT_FAILED) else if ready then Returns(WAIT_OBJECT_0) else NotNow(timeout)
    ensures ExpireSingle(s, tid, h).out == Returns(if ready then WAIT_OBJECT_0 else WAIT_TIMEOUT)
  {
  }

  /** Everything that wait_single answers, when it is called, when it wakes and when its
      deadline passes. */
  lemma WaitSingleAnswers(run: seq<Action>, tid: nat, h: int, timeout: Timeout, a: Action)
    requires ProperRun(Initial(), run) && Allowed(Initial(), run) && tid != 0 && Enabled(After(Initial(), run), a)
    requires var s := After(Initial(), run);
             a == WaitSingle(tid, h, timeout)
             || (a.Resume? && a.tid == tid && s.phases[tid].wait == Single(h) && timeout == if s.phases[tid].timed then Finite else Infinite)
             || (a == Expire(tid) && s.phases[tid].wait == Single(h))
    ensures var s := After(Initial(), run);
            Step(s, a).out == if a.Expire? then Returns(if Ready(Told(run, h), BookOf(run, h), tid) then 0 else 0x102)
                              else AnswerOne(run, tid, h, timeout)
  {
    RunReady(run, h, tid);
    var s := After(Initial(), run);
    SingleIsSingle(s, tid, h, timeout);
    SingleAnswers(s, tid, h, timeout, Told(run, h).Story?, Ready(Told(run, h), BookOf(run, h), tid));
  }

  /** What wait_multiple answers: a bad count or a dead handle fails, a wait for all needs
      all, a wait for any gets the lowest index that is ready. */
  ghost predicate AnswersMany(run: seq<Action>, tid: nat, handles: seq<int>, all: bool, timeout: Timeout, out: Outcome)
    requires ProperRun(Initial(), run) && Allowed(Initial(), run)
  {
    if |handles| == 0 || |handles| > 64 || exists k | 0 <= k < |handles| :: Told(run, handles[k]).Nothing? then
      out == Returns(0xFFFF_FFFF)
    else if all then
      out == if forall k | 0 <= k < |handles| :: Ready(Told(run, handles[k]), BookOf(run, handles[k]), tid)
             then Returns(0) else NotNow(timeout)
    else if exists k | 0 <= k < |handles| :: Ready(Told(run, handles[k]), BookOf(run, handles[k]), tid) then
      && out.Returns? && 0 <= out.rv < |handles| && Ready(Told(run, handles[out.rv]), BookOf(run, handles[out.rv]), tid)
      && forall j | 0 <= j < out.rv :: !Ready(Told(run, handles[j]), BookOf(run, handles[j]), tid)
    else out == NotNow(timeout)
  }

  /** Waits that start and waits that go on pass through the same loop. */
  lemma ManyIsMany(s: State, tid: nat, handles: seq<int>, all: bool, timeout: Timeout)
    requires s.Ok() && SmallWaits(s) && tid != 0
    ensures tid !in s.phases ==> Step(s, WaitMultiple(tid, handles, all, timeout)) == StartMany(s, tid, handles, all, timeout)
    ensures tid in s.phases && s.phases[tid].wait == Many(handles, all) ==>
              Step(s, Resume(tid)) == StartMany(s, tid, handles, all, if s.phases[tid].timed then Finite else Infinite)
  {
  }

  lemma WaitMultipleAnswers(run: seq<Action>, tid: nat, handles: seq<int>, all: bool, timeout: Timeout, a: Action)
    requires ProperRun(Initial(), run) && Allowed(Initial(), run) && tid != 0 && Enabled(After(Initial(), run), a)
    requires var s := After(Initial(), run);
             a == WaitMultiple(tid, handles, all, timeout)
             || (a == Resume(tid) && s.phases[tid].wait == Many(handles, all) && timeout == if s.phases[tid].timed then Finite else Infinite)
    ensures AnswersMany(run, tid, handles, all, timeout, Step(After(Initial(), run), a).out)
  {
    var s := After(Initial(), run);
    RunTells(run, SYNC_BASE);
    ManyIsMany(s, tid, handles, all, timeout);
    var out := Step(s, a).out;
    assert out == StartMany(s, tid, handles, all, timeout).out;
    ManyAnswers(run, tid, handles, all, timeout, out);
  }

  lemma ManyAnswers(run: seq<Action>, tid: nat, handles: seq<int>, all: bool, timeout: Timeout, out: Outcome)
    requires ProperRun(Initial(), run) && Allowed(Initial(), run) && tid != 0
    requires out == StartMany(After(Initial(), run), tid, handles, all, timeout).out
    ensures AnswersMany(run, tid, handles, all, timeout, out)
  {
    var s := After(Initial(), run);
    forall k | 0 <= k < |handles|
      ensures s.Live(handles[k]) <==> Told(run, handles[k]).Story?
      ensures InTable(handles[k]) ==>
                (Satisfied(s.At(handles[k]), tid) <==> Ready(Told(run, handles[k]), BookOf(run, handles[k]), tid))
    {
      RunReady(run, handles[k], tid);
    }
    if !all && 0 < |handles| <= MAX_HANDLES && AllLive(s, handles) {
      var hit := FirstHit(s, handles, tid, 0);
      assert hit >= 0 ==> Ready(Told(run, handles[hit]), BookOf(run, handles[hit]), tid);
    }
  }

  // ---- What the other calls answer ----

  predicate IsEvent(st: Story) {
    st.Story? && st.what.NewEvent?
  }

  predicate IsMutex(st: Story) {
    st.Story? && st.what.NewMutex?
  }

  /** The lowest handle that is not in use is handed out, or 0. */
  ghost predicate HandsOut(run: seq<Action>, out: Outcome)
    requires Allowed(Initial(), run)
  {
    if forall h | 0x9_0000 <= h < 0x9_2000 :: Told(run, h).Story? then out == Returns(0)
    else
      && out.Returns? && 0x9_0000 <= out.rv < 0x9_2000 && Told(run, out.rv).Nothing?
      && forall h | 0x9_0000 <= h < out.rv :: Told(run, h).Story?
  }

  lemma CallsAnswer(run: seq<Action>, h: int, tid: nat, n: int)
    requires ProperRun(Initial(), run) && tid != 0
    ensures Allowed(Initial(), run)
    ensures var s, st := After(Initial(), run), Told(run, h);
            && Step(s, SetEvent(h)).out == Flag(IsEvent(st))
            && Step(s, ResetEvent(h)).out == Flag(IsEvent(st))
            && Step(s, PulseEvent(h)).out == Flag(IsEvent(st))
            && Step(s, ReleaseMutex(h, tid)).out == Flag(IsMutex(st) && Held(BookOf(run, h), tid) > 0)
            && Step(s, ReleaseSemaphore(h, n)).out == Flag(st.Story? && st.what.NewSemaphore?)
            && Step(s, Close(h)).out == Flag(st.Story?)
  {
    RunTells(run, h);
  }

  /** A directed kick counts if its thread waits for an auto-reset event that is not set. */
  lemma KickAnswers(run: seq<Action>, t: nat)
    requires ProperRun(Initial(), run)
    ensures Allowed(Initial(), run)
    ensures var s := After(Initial(), run);
            var counts := t in s.phases && s.phases[t].wait.Single?
                          && var st := Told(run, s.phases[t].wait.h); IsEvent(st) && !st.what.manual && !st.on;
            Step(s, KickTid(t)).out == Returns(if counts then 1 else 0)
  {
    ProperIsAllowed(Initial(), run);
    var s := After(Initial(), run);
    if t in s.phases && s.phases[t].wait.Single? {
      RunTells(run, s.phases[t].wait.h);
    }
  }

  /** The slots of the table that differ. */
  function Differing(a: seq<Obj>, b: seq<Obj>, n: nat): set<nat>
    requires |a| == |b| && n <= |a|
  {
    set i: nat | i < n && a[i] != b[i]
  }

  lemma {:induction false} ChangesCount(a: seq<Obj>, b: seq<Obj>, n: nat)
    requires |a| == |b| && n <= |a|
    ensures Changes(a, b, n) == |Differing(a, b, n)|
  {
    if n == 0 {
      assert Differing(a, b, 0) == {};
    } else {
      ChangesCount(a, b, n - 1);
      if a[n - 1] != b[n - 1] {
        assert Differing(a, b, n) == Differing(a, b, n - 1) + {n - 1};
      } else {
        assert Differing(a, b, n) == Differing(a, b, n - 1);
      }
    }
  }

  /** The kick of the workers returns how many objects it has changed. */
  lemma WorkersAnswer(s: State, a: Action)
    requires s.Ok() && a.KickWorkers?
    ensures Step(s, a).out == Returns(|Differing(s.objs, Step(s, a).s.objs, SYNC_MAX)|)
  {
    var objs := seq(SYNC_MAX, i requires 0 <= i < SYNC_MAX => KickedObj(s, i, a));
    ChangesCount(s.objs, objs, SYNC_MAX);
    if Changes(s.objs, objs, SYNC_MAX) == 0 {
      assert s.objs[..SYNC_MAX] == s.objs && objs[..SYNC_MAX] == objs;
    }
  }

  lemma CreateAnswers(run: seq<Action>, what: Creation)
    requires ProperRun(Initial(), run)
    ensures Allowed(Initial(), run) && HandsOut(run, Step(After(Initial(), run), Create(what)).out)
  {
    ProperIsAllowed(Initial(), run);
    var s := After(Initial(), run);
    forall h | InTable(h)
      ensures s.Live(h) <==> Told(run, h).Story?
    {
      RunTells(run, h);
    }
    var i := FirstFree(s.objs, 0);
    forall h | InTable(h) && (i == -1 || h < SYNC_BASE + i)
      ensures Told(run, h).Story?
    {
      assert !s.objs[h - SYNC_BASE].kind.Free?;
    }
    if i != -1 {
      assert !s.Live(SYNC_BASE + i);
      assert Told(run, SYNC_BASE + i).Nothing?;
    }
  }

  // ---- Threads and events, told by their calls ----

  /** Nothing takes a live object's handle but closing it. */
  lemma StoryGoesOn(s: State, a: Action, h: int, st: Story)
    requires s.Ok() && SmallWaits(s) && Enabled(s, a) && InTable(h) && Fits(s.At(h), st) && st.Story? && a != Close(h)
    ensures Later(s, a, h, st).Story? && Later(s, a, h, st).what == st.what
  {
  }

  ghost predicate Exited(run: seq<Action>, h: int) {
    exists i | 0 <= i < |run| :: run[i].ThreadExit? && run[i].h == h
  }

  lemma {:induction false} ExitsSince(s: State, run: seq<Action>, h: int, st: Story)
    requires s.Ok() && SmallWaits(s) && Allowed(s, run) && InTable(h) && StaysOpen(run, h)
    requires Fits(s.At(h), st) && st.Story? && st.what.NewThread?
    ensures var e := StoryOf(s, run, h, st);
            e.Story? && e.what == st.what && (e.exits != [] <==> st.exits != [] || Exited(run, h))
    decreases |run|
  {
    if run != [] {
      StoryGoesOn(s, run[0], h, st);
      StepFits(s, run[0], h, st);
      WaitsStaySmall(s, run[0]);
      assert StaysOpen(run[1..], h);
      ExitsSince(Step(s, run[0]).s, run[1..], h, Later(s, run[0], h, st));
      if Exited(run[1..], h) {
        var i :| 0 <= i < |run[1..]| && run[1..][i].ThreadExit? && run[1..][i].h == h;
        assert run[i + 1].ThreadExit?;
      }
      if Exited(run, h) && !(run[0].ThreadExit? && run[0].h == h) {
        var i :| 0 <= i < |run| && run[i].ThreadExit? && run[i].h == h;
        assert run[1..][i - 1].ThreadExit?;
      }
    }
  }

  /** A wait on a thread succeeds exactly if the thread has exited since its object was
      created. */
  lemma ThreadWaits(before: seq<Action>, s: State, w: nat, h: int, since: seq<Action>, tid: nat, timeout: Timeout)
    requires Allowed(Initial(), before) && s == After(Initial(), before)
    requires InTable(h) && Step(s, Create(NewThread(w))).out == Returns(h)
    requires var s1 := Step(s, Create(NewThread(w))).s;
             Allowed(s1, since) && Enabled(After(s1, since), WaitSingle(tid, h, timeout))
    requires StaysOpen(since, h)
    ensures var s2 := After(Step(s, Create(NewThread(w))).s, since);
            Step(s2, WaitSingle(tid, h, timeout)).out == Returns(WAIT_OBJECT_0) <==> Exited(since, h)
  {
    RunFits(Initial(), before, h, Nothing);
    var s1 := Step(s, Create(NewThread(w))).s;
    var st := Story(NewThread(w), false, []);
    ExitsSince(s1, since, h, st);
    RunFits(s1, since, h, st);
  }
  /** The last set, kick, reset or pulse of a manual-reset event in the run was a set or a
      kick; `was`, if there is none. */
  ghost predicate SetLast(s: State, run: seq<Action>, h: int, was: bool)
    requires s.Ok() && Allowed(s, run)
    decreases |run|
  {
    if run == [] then was
    else
      var on := if run[0] == SetEvent(h) || Kicks(s, run[0], h, true) then true
                else if run[0] == ResetEvent(h) || run[0] == PulseEvent(h) then false
                else was;
      SetLast(Step(s, run[0]).s, run[1..], h, on)
  }

  lemma {:induction false} SetSince(s: State, run: seq<Action>, h: int, st: Story)
    requires s.Ok() && SmallWaits(s) && Allowed(s, run) && InTable(h) && StaysOpen(run, h)
    requires Fits(s.At(h), st) && IsEvent(st) && st.what.manual
    ensures var e := StoryOf(s, run, h, st); e.Story? && e.what == st.what && e.on == SetLast(s, run, h, st.on)
    decreases |run|
  {
    if run != [] {
      StoryGoesOn(s, run[0], h, st);
      StepFits(s, run[0], h, st);
      WaitsStaySmall(s, run[0]);
      assert StaysOpen(run[1..], h);
      SetSince(Step(s, run[0]).s, run[1..], h, Later(s, run[0], h, st));
    }
  }

  /** A wait on a manual-reset event succeeds exactly if the event was created set or its
      last set or kick came after its last reset or pulse. */
  lemma ManualWaits(before: seq<Action>, s: State, signalled: bool, h: int, since: seq<Action>, tid: nat, timeout: Timeout)
    requires Allowed(Initial(), before) && s == After(Initial(), before)
    requires InTable(h) && Step(s, Create(NewEvent(true, signalled))).out == Returns(h)
    requires var s1 := Step(s, Create(NewEvent(true, signalled))).s;
             Allowed(s1, since) && Enabled(After(s1, since), WaitSingle(tid, h, timeout))
    requires StaysOpen(since, h)
    ensures var s1 := Step(s, Create(NewEvent(true, signalled))).s;
            Step(After(s1, since), WaitSingle(tid, h, timeout)).out == Returns(WAIT_OBJECT_0) <==> SetLast(s1, since, h, signalled)
  {
    RunFits(Initial(), before, h, Nothing);
    var s1 := Step(s, Create(NewEvent(true, signalled))).s;
    var st := Story(NewEvent(true, signalled), signalled, []);
    SetSince(s1, since, h, st);
    RunFits(s1, since, h, st);
  }

  // ---- Who is inside a wait ----

  /** What a step that does not return leaves its thread waiting for. */
  ghost predicate ParkedFor(s: State, a: Action, p: Phase) {
    match a
    case WaitSingle(_, h, timeout) => p.wait == Single(h) && p.timed == timeout.Finite?
    case WaitMultiple(_, handles, all, timeout) => p.wait == Many(handles, all) && p.timed == timeout.Finite?
    case CvSleep(_, cv, mtx, timeout) =>
      p.wait.Regain? || (p.wait.Sleep? && p.wait.cv == cv && p.wait.mtx == mtx && p.timed == timeout.Finite?)
    case _ => Actor(a) in s.phases && if p.wait.Regain? then ComesBackTo(s.phases[Actor(a)].wait, p.wait.mtx) && !p.timed
                                      else p.wait == s.phases[Actor(a)].wait && p.timed == s.phases[Actor(a)].timed
  }

  /** A thread is inside a wait exactly from a call that does not return to the step that
      does, and waits for what it called for. */
  lemma InsideTells(s: State, a: Action, t: nat)
    requires s.Ok() && Enabled(s, a) && t != 0
    ensures var r := Step(s, a);
            if t != Actor(a) then t in r.s.phases <==> t in s.phases
            else if r.out.Returns? then t !in r.s.phases
            else t in r.s.phases && ParkedFor(s, a, r.s.phases[t])
  {
    match a
    case Resume(tid) => PassTells(s, tid, t);
    case Expire(tid) => PassTells(s, tid, t);
    case _ =>
  }

  lemma PassTells(s: State, tid: nat, t: nat)
    requires s.Ok() && tid in s.phases
    ensures t != tid ==> (t in DoResume(s, tid).s.phases <==> t in s.phases) && (t in DoExpire(s, tid).s.phases <==> t in s.phases)
    ensures var r := DoResume(s, tid);
            if r.out.Returns? then tid !in r.s.phases else tid in r.s.phases && ParkedFor(s, Resume(tid), r.s.phases[tid])
    ensures var r := DoExpire(s, tid);
            if r.out.Returns? then tid !in r.s.phases else tid in r.s.phases && ParkedFor(s, Expire(tid), r.s.phases[tid])
  {
  }
}
