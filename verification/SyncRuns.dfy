/** Runs of the monitor, and the wakeup theorem over all of them. */
module SyncRuns {
  import opened SyncModel
  import opened SyncWakeups

  function Initial(): (s: State)
    ensures s.Ok()
  {
    State(seq(SYNC_MAX, _ => BLANK), map[])
  }

  ghost predicate Allowed(s: State, run: seq<Action>)
    requires s.Ok()
    decreases |run|
  {
    run != [] ==> Enabled(s, run[0]) && Allowed(Step(s, run[0]).s, run[1..])
  }

  ghost function After(s: State, run: seq<Action>): (r: State)
    requires s.Ok() && Allowed(s, run)
    ensures r.Ok()
    decreases |run|
  {
    if run == [] then s else After(Step(s, run[0]).s, run[1..])
  }

  /** The wakeup theorem: in every state that any run reaches, a parked thread that
      is not notified waits on live handles for something that is still false, or
      sleeps on a handle that is no longer a condition variable but a semaphore. */
  lemma {:induction false} NoWakeupIsLost(s: State, run: seq<Action>)
    requires NoLostWakeup(s) && Allowed(s, run)
    ensures NoLostWakeup(After(s, run))
    decreases |run|
  {
    if run != [] {
      StepKeeps(s, run[0]);
      NoWakeupIsLost(Step(s, run[0]).s, run[1..]);
    }
  }

  lemma InitialIsQuiet()
    ensures NoLostWakeup(Initial())
  {
  }

  lemma QuietFromTheStart(run: seq<Action>)
    requires Allowed(Initial(), run)
    ensures NoLostWakeup(After(Initial(), run))
  {
    InitialIsQuiet();
    NoWakeupIsLost(Initial(), run);
  }

  // ---- When the exception matters ----

  ghost predicate FullyQuiet(s: State) {
    && NoLostWakeup(s)
    && forall t | t in s.phases && !s.phases[t].notified :: Blocked(s, t, s.phases[t].wait)
  }

  /** A handle that some thread sleeps on is handed out again, as a semaphore. */
  predicate ReusesSleptOn(s: State, a: Action)
    requires s.Ok()
  {
    && a.Create? && a.what.NewSemaphore? && FirstFree(s.objs, 0) != -1
    && exists t | t in s.phases :: s.phases[t].wait.Sleep? && s.phases[t].wait.cv == SYNC_BASE + FirstFree(s.objs, 0)
  }

  predicate NobodyMisled(s: State)
    requires s.Ok()
  {
    forall t | t in s.phases :: !Misled(s, s.phases[t].wait)
  }

  ghost predicate NeverReuses(s: State, run: seq<Action>)
    requires s.Ok() && Allowed(s, run)
    decreases |run|
  {
    run != [] ==> !ReusesSleptOn(s, run[0]) && NeverReuses(Step(s, run[0]).s, run[1..])
  }

  /** Kinds only change by creation and closing. */
  lemma SemaphoresAreCreated(s: State, a: Action, h: int)
    requires s.Ok() && Enabled(s, a) && InTable(h)
    ensures Step(s, a).s.Is(h, Semaphore) && !s.Is(h, Semaphore) ==>
              a.Create? && a.what.NewSemaphore? && FirstFree(s.objs, 0) != -1 && h == SYNC_BASE + FirstFree(s.objs, 0)
  {
    if !a.Create? && a != Close(h) {
      KindKept(s, a, h);
    }
  }

  /** Only creation and closing change an object's kind. */
  lemma KindKept(s: State, a: Action, h: int)
    requires s.Ok() && Enabled(s, a) && InTable(h) && !a.Create? && a != Close(h)
    ensures Step(s, a).s.At(h).kind == s.At(h).kind
  {
    match a
    case Resume(tid) => PassKeepsKinds(s, tid, h);
    case Expire(tid) => PassKeepsKinds(s, tid, h);
    case WaitMultiple(_, _, _, _) => StartKeepsKinds(s, a, h);
    case WaitSingle(_, _, _) => StartKeepsKinds(s, a, h);
    case CvSleep(_, _, _, _) => StartKeepsKinds(s, a, h);
    case _ => CallKeepsKinds(s, a, h);
  }

  lemma StartKeepsKinds(s: State, a: Action, h: int)
    requires s.Ok() && Enabled(s, a) && InTable(h) && (a.WaitSingle? || a.WaitMultiple? || a.CvSleep?)
    ensures Step(s, a).s.At(h).kind == s.At(h).kind
  {
    match a
    case WaitMultiple(tid, handles, all, timeout) =>
      TryKeepsKinds(s, tid, handles, all, timeout, h);
    case _ =>
  }

  lemma TryKeepsKinds(s: State, tid: nat, handles: seq<int>, all: bool, timeout: Timeout, h: int)
    requires s.Ok() && InTable(h)
    ensures TryMany(s, tid, handles, all, timeout).s.At(h).kind == s.At(h).kind
  {
    ManyKeepsKinds(s, tid, handles, h);
  }

  lemma CallKeepsKinds(s: State, a: Action, h: int)
    requires s.Ok() && Enabled(s, a) && InTable(h) && !a.Create? && a != Close(h)
    requires !a.WaitSingle? && !a.WaitMultiple? && !a.CvSleep? && !a.Resume? && !a.Expire?
    ensures Step(s, a).s.At(h).kind == s.At(h).kind
  {
    if a.KickWorkers? {
      KickKeepsKinds(s, a, h);
    }
  }

  lemma KickKeepsKinds(s: State, a: Action, h: int)
    requires s.Ok() && a.KickWorkers? && InTable(h)
    ensures DoKickWorkers(s, a).s.At(h).kind == s.At(h).kind
  {
  }

  lemma PassKeepsKinds(s: State, tid: nat, h: int)
    requires s.Ok() && tid in s.phases && InTable(h)
    ensures DoResume(s, tid).s.At(h).kind == s.At(h).kind
    ensures DoExpire(s, tid).s.At(h).kind == s.At(h).kind
  {
    if s.phases[tid].wait.Many? {
      ManyKeepsKinds(s, tid, s.phases[tid].wait.handles, h);
    }
  }

  lemma ManyKeepsKinds(s: State, tid: nat, handles: seq<int>, h: int)
    requires s.Ok() && InTable(h)
    ensures AllLive(s, handles) ==> AcquireAll(s, handles, tid).At(h).kind == s.At(h).kind
  {
    if AllLive(s, handles) {
      AcquireAllKinds(s, handles, tid, h);
    }
  }

  lemma {:induction false} AcquireAllKinds(s: State, handles: seq<int>, tid: nat, h: int)
    requires s.Ok() && InTable(h) && forall k | 0 <= k < |handles| :: InTable(handles[k])
    ensures AcquireAll(s, handles, tid).At(h).kind == s.At(h).kind
  {
    if handles != [] {
      AcquireAllKinds(s, handles[..|handles| - 1], tid, h);
    }
  }

  lemma MisledByCreation(s: State, a: Action)
    requires s.Ok() && Enabled(s, a) && NobodyMisled(s) && !ReusesSleptOn(s, a)
    ensures NobodyMisled(Step(s, a).s)
  {
    var s' := Step(s, a).s;
    forall t | t in s'.phases
      ensures !Misled(s', s'.phases[t].wait)
    {
      var w := s'.phases[t].wait;
      if Misled(s', w) {
        SleepersBefore(s, a, t);
        SemaphoresAreCreated(s, a, w.cv);
      }
    }
  }

  /** A sleeper was asleep on the same handle before, or has just begun, on a
      condition variable. */
  lemma SleepersBefore(s: State, a: Action, t: nat)
    requires s.Ok() && Enabled(s, a) && t in Step(s, a).s.phases && Step(s, a).s.phases[t].wait.Sleep?
    ensures var w := Step(s, a).s.phases[t].wait;
            (t in s.phases && s.phases[t].wait == w)
            || (a.CvSleep? && a.tid == t && w.cv == a.cv && s.Is(w.cv, CondVar))
  {
    match a
    case Resume(tid) => PassedOn(s, tid, t);
    case Expire(tid) => PassedOn(s, tid, t);
    case _ =>
  }

  lemma PassedOn(s: State, tid: nat, t: nat)
    requires s.Ok() && tid in s.phases
    ensures t in DoResume(s, tid).s.phases && DoResume(s, tid).s.phases[t].wait.Sleep? ==>
              t in s.phases && s.phases[t].wait == DoResume(s, tid).s.phases[t].wait
    ensures t in DoExpire(s, tid).s.phases && DoExpire(s, tid).s.phases[t].wait.Sleep? ==>
              t in s.phases && s.phases[t].wait == DoExpire(s, tid).s.phases[t].wait
  {
  }

  /** The wakeup theorem without the exception, for every run in which no semaphore
      is given the handle of a closed condition variable that a thread has not yet
      woken from. */
  lemma {:induction false} NoWakeupIsLostAtAll(s: State, run: seq<Action>)
    requires NoLostWakeup(s) && NobodyMisled(s) && Allowed(s, run) && NeverReuses(s, run)
    ensures FullyQuiet(After(s, run))
    decreases |run|
  {
    if run == [] {
      forall t | t in s.phases && !s.phases[t].notified
        ensures Blocked(s, t, s.phases[t].wait)
      {
        assert Waiting(s, t);
      }
    } else {
      StepKeeps(s, run[0]);
      MisledByCreation(s, run[0]);
      NoWakeupIsLostAtAll(Step(s, run[0]).s, run[1..]);
    }
  }

  // ---- The exception is real ----

  /** A run that loses a wakeup: thread 1 sleeps on a condition variable in its
      generation 1; the variable is closed and its slot handed out as a semaphore of
      count 1; thread 1 looks, takes the count for its generation and parks again; a
      wait by thread 2 takes the count to 0 without telling anybody. */
  const FALL_ASLEEP: seq<Action> :=
    [Create(NewCondVar), Create(NewMutex(true, 1)), CvWake(SYNC_BASE), CvSleep(1, SYNC_BASE, SYNC_BASE + 1, Infinite)]

  const MISLEAD: seq<Action> :=
    [Close(SYNC_BASE), Create(NewSemaphore(1, 5)), Resume(1), WaitSingle(2, SYNC_BASE, Infinite)]

  predicate Asleep(s: State, cv: Obj) {
    && s.Ok() && s.At(SYNC_BASE) == cv && s.phases.Keys == {1}
    && s.phases[1].wait == Sleep(SYNC_BASE, SYNC_BASE + 1, 1, 1)
  }

  lemma FallAsleep()
    ensures Allowed(Initial(), FALL_ASLEEP)
    ensures Asleep(After(Initial(), FALL_ASLEEP), Made(NewCondVar).(count := 1))
  {
    var s1 := Step(Initial(), FALL_ASLEEP[0]).s;
    var s2 := Step(s1, FALL_ASLEEP[1]).s;
    assert FirstFree(s1.objs, 0) == FirstFree(s1.objs, 1) == 1;
    var s3 := Step(s2, FALL_ASLEEP[2]).s;
    var s4 := Step(s3, FALL_ASLEEP[3]).s;
    Chain(s3, FALL_ASLEEP[3..], s4);
    Chain(s2, FALL_ASLEEP[2..], s3);
    Chain(s1, FALL_ASLEEP[1..], s2);
    Chain(Initial(), FALL_ASLEEP, s1);
  }

  lemma ReuseSlot(s: State) returns (s2: State)
    requires Asleep(s, Made(NewCondVar).(count := 1))
    ensures Asleep(s2, Made(NewSemaphore(1, 5)))
    ensures Allowed(s, MISLEAD[..2]) && After(s, MISLEAD[..2]) == s2
  {
    var s1 := Step(s, MISLEAD[0]).s;
    s2 := Step(s1, MISLEAD[1]).s;
    assert FirstFree(s1.objs, 0) == 0;
    Chain(s1, MISLEAD[1..2], s2);
    assert MISLEAD[..2][1..] == MISLEAD[1..2];
    Chain(s, MISLEAD[..2], s1);
  }

  lemma TakeCount(s: State) returns (s2: State)
    requires Asleep(s, Made(NewSemaphore(1, 5)))
    ensures Asleep(s2, Made(NewSemaphore(1, 5)).(count := 0)) && !s2.phases[1].notified
    ensures Allowed(s, MISLEAD[2..]) && After(s, MISLEAD[2..]) == s2
  {
    var s1 := SleepOn(s);
    s2 := TakeUnit(s1);
    Chain(s1, MISLEAD[3..], s2);
    assert MISLEAD[2..][1..] == MISLEAD[3..];
    Chain(s, MISLEAD[2..], s1);
  }

  /** Thread 1 looks, takes the count for its generation and parks again. */
  lemma SleepOn(s: State) returns (s1: State)
    requires Asleep(s, Made(NewSemaphore(1, 5)))
    ensures s1 == Step(s, Resume(1)).s && Asleep(s1, Made(NewSemaphore(1, 5))) && !s1.phases[1].notified
  {
    s1 := Step(s, Resume(1)).s;
    assert s1.phases.Keys == {1};
  }

  /** Thread 2 takes the semaphore's unit, and nobody is told. */
  lemma TakeUnit(s: State) returns (s1: State)
    requires Asleep(s, Made(NewSemaphore(1, 5))) && !s.phases[1].notified
    ensures Enabled(s, WaitSingle(2, SYNC_BASE, Infinite)) && s1 == Step(s, WaitSingle(2, SYNC_BASE, Infinite)).s
    ensures Asleep(s1, Made(NewSemaphore(1, 5)).(count := 0)) && !s1.phases[1].notified
  {
    s1 := Step(s, WaitSingle(2, SYNC_BASE, Infinite)).s;
    NobodyLeaves(s.Put(SYNC_BASE, Acquire(s.At(SYNC_BASE), 2)), 2);
  }

  lemma NobodyLeaves(s: State, tid: nat)
    requires tid !in s.phases
    ensures s.Leave(tid) == s
  {
    assert s.phases - {tid} == s.phases;
  }

  lemma Chain(s: State, run: seq<Action>, s1: State)
    requires s.Ok() && run != [] && Enabled(s, run[0]) && s1 == Step(s, run[0]).s
    ensures Allowed(s1, run[1..]) ==> Allowed(s, run) && After(s, run) == After(s1, run[1..])
    ensures |run| == 1 ==> Allowed(s, run) && After(s, run) == s1
  {
  }

  lemma {:induction false} InTwoParts(s: State, a: seq<Action>, b: seq<Action>)
    requires s.Ok() && Allowed(s, a) && Allowed(After(s, a), b)
    ensures Allowed(s, a + b) && After(s, a + b) == After(After(s, a), b)
    decreases |a|
  {
    if a == [] {
      assert a + b == b;
    } else {
      InTwoParts(Step(s, a[0]).s, a[1..], b);
      assert (a + b)[1..] == a[1..] + b;
    }
  }

  /** The exception is real: after this run thread 1 is parked and not notified
      although its count has moved on. */
  lemma AWakeupCanBeLost()
    ensures Allowed(Initial(), FALL_ASLEEP + MISLEAD)
    ensures var s := After(Initial(), FALL_ASLEEP + MISLEAD);
            1 in s.phases && !s.phases[1].notified && !Blocked(s, 1, s.phases[1].wait)
  {
    FallAsleep();
    var s := After(Initial(), FALL_ASLEEP);
    var s2 := ReuseSlot(s);
    var s4 := TakeCount(s2);
    InTwoParts(s, MISLEAD[..2], MISLEAD[2..]);
    assert MISLEAD[..2] + MISLEAD[2..] == MISLEAD;
    InTwoParts(Initial(), FALL_ASLEEP, MISLEAD);
  }

  // ---- Exactly when a wakeup is lost ----

  predicate DrawsMany(s: State, tid: nat, handles: seq<int>, all: bool, h: int)
    requires s.Ok()
  {
    && AllLive(s, handles)
    && if all then AllSatisfied(s, handles, tid) && h in handles
       else FirstHit(s, handles, tid, 0) >= 0 && handles[FirstHit(s, handles, tid, 0)] == h
  }

  predicate DrawsWait(s: State, tid: nat, w: Wait, h: int)
    requires s.Ok() && s.Live(h)
  {
    match w
    case Single(h1) => h1 == h && Satisfied(s.At(h), tid)
    case Many(handles, all) => DrawsMany(s, tid, handles, all, h)
    case Sleep(_, _, _, _) => false
    case Regain(_, _, _) => false
  }

  /** The step is a wait, started or woken, that succeeds on object h. */
  predicate Draws(s: State, a: Action, h: int)
    requires s.Ok() && Enabled(s, a) && s.Live(h)
  {
    match a
    case WaitSingle(tid, h1, _) => DrawsWait(s, tid, Single(h1), h)
    case WaitMultiple(tid, handles, all, _) => 0 < |handles| <= MAX_HANDLES && DrawsMany(s, tid, handles, all, h)
    case Resume(tid) => DrawsWait(s, tid, s.phases[tid].wait, h)
    case Expire(tid) => s.phases[tid].wait.Single? && DrawsWait(s, tid, s.phases[tid].wait, h)
    case _ => false
  }

  predicate Moves(a: Action, t: nat) {
    (a.Resume? || a.Expire?) && a.tid == t
  }

  /** The step takes from a semaphore whose handle a thread is asleep on. */
  ghost predicate DrawsUnderSleeper(s: State, a: Action)
    requires s.Ok() && Enabled(s, a)
  {
    exists t | t in s.phases && Misled(s, s.phases[t].wait) ::
      !Moves(a, t) && !s.phases[t].notified && Draws(s, a, s.phases[t].wait.cv)
  }

  lemma {:induction false} AcquireAllCounts(s: State, handles: seq<int>, tid: nat, h: int)
    requires s.Ok() && s.Is(h, Semaphore) && forall k | 0 <= k < |handles| :: InTable(handles[k])
    ensures AcquireAll(s, handles, tid).Is(h, Semaphore)
    ensures AcquireAll(s, handles, tid).At(h).count <= s.At(h).count
    ensures h in handles <==> AcquireAll(s, handles, tid).At(h).count != s.At(h).count
  {
    if handles != [] {
      var n := |handles| - 1;
      AcquireAllCounts(s, handles[..n], tid, h);
      assert handles == handles[..n] + [handles[n]];
    }
  }

  lemma ManyCounts(s: State, tid: nat, handles: seq<int>, all: bool, timeout: Timeout, h: int)
    requires s.Ok() && s.Is(h, Semaphore)
    ensures DrawsMany(s, tid, handles, all, h) <==> TryMany(s, tid, handles, all, timeout).s.At(h).count != s.At(h).count
  {
    if AllLive(s, handles) {
      AcquireAllCounts(s, handles, tid, h);
    }
  }

  lemma WaitCounts(s: State, tid: nat, h: int)
    requires s.Ok() && tid in s.phases && s.Is(h, Semaphore)
    ensures DrawsWait(s, tid, s.phases[tid].wait, h) <==> DoResume(s, tid).s.At(h).count != s.At(h).count
    ensures s.phases[tid].wait.Single? && DrawsWait(s, tid, s.phases[tid].wait, h)
            <==> DoExpire(s, tid).s.At(h).count != s.At(h).count
  {
    var timeout := if s.phases[tid].timed then Finite else Infinite;
    match s.phases[tid].wait
    case Many(handles, all) => ManyCounts(s, tid, handles, all, timeout, h);
    case _ =>
  }

  /** A step that leaves some other parked thread unnotified changes a semaphore's
      count exactly if it draws from it. */
  lemma SilentCounts(s: State, a: Action, t: nat, h: int)
    requires s.Ok() && Enabled(s, a) && s.Is(h, Semaphore)
    requires t in s.phases && !Moves(a, t) && !s.phases[t].notified
    ensures var s' := Step(s, a).s;
            && t in s'.phases && s'.phases[t].wait == s.phases[t].wait
            && (Draws(s, a, h) ==> !s'.phases[t].notified && s'.At(h).count != s.At(h).count)
            && (!Draws(s, a, h) && !s'.phases[t].notified ==> s'.Is(h, Semaphore) && s'.At(h).count == s.At(h).count)
  {
    match a
    case WaitMultiple(tid, handles, all, timeout) =>
      ManyCounts(s, tid, handles, all, timeout, h);
      ManyKeepsKinds(s, tid, handles, h);
    case Resume(tid) =>
      WaitCounts(s, tid, h);
      PassKeepsKinds(s, tid, h);
      OthersStay(s, tid, t);
    case Expire(tid) =>
      WaitCounts(s, tid, h);
      PassKeepsKinds(s, tid, h);
      OthersStay(s, tid, t);
    case WaitSingle(_, _, _) =>
    case _ => SignalsAreHeard(s, a, t, h);
  }

  lemma SignalsAreHeard(s: State, a: Action, t: nat, h: int)
    requires s.Ok() && Enabled(s, a) && s.Is(h, Semaphore) && t in s.phases
    requires !a.WaitSingle? && !a.WaitMultiple? && !a.Resume? && !a.Expire?
    ensures var s' := Step(s, a).s;
            && t in s'.phases && s'.phases[t].wait == s.phases[t].wait
            && (!s'.phases[t].notified ==> s'.Is(h, Semaphore) && s'.At(h).count == s.At(h).count)
  {
  }

  /** From a state in which nothing is lost, a step loses a wakeup exactly if it takes
      from a semaphore whose handle a thread is still asleep on. */
  lemma LostExactlyWhen(s: State, a: Action)
    requires FullyQuiet(s) && Enabled(s, a)
    ensures FullyQuiet(Step(s, a).s) <==> !DrawsUnderSleeper(s, a)
  {
    var s' := Step(s, a).s;
    StepKeeps(s, a);
    forall t | t in s.phases && Misled(s, s.phases[t].wait) && !Moves(a, t) && !s.phases[t].notified
      ensures Draws(s, a, s.phases[t].wait.cv) ==> !FullyQuiet(s')
    {
      SilentCounts(s, a, t, s.phases[t].wait.cv);
    }
    forall t | t in s'.phases && !s'.phases[t].notified
      ensures DrawsUnderSleeper(s, a) || Blocked(s', t, s'.phases[t].wait)
    {
      QuietOrDrawn(s, a, t);
    }
  }

  /** Some step of the run takes from a semaphore whose handle a thread is asleep on. */
  ghost predicate DrawsInRun(s: State, run: seq<Action>)
    requires s.Ok() && Allowed(s, run)
    decreases |run|
  {
    run != [] && (DrawsUnderSleeper(s, run[0]) || DrawsInRun(Step(s, run[0]).s, run[1..]))
  }

  ghost predicate AlwaysQuiet(s: State, run: seq<Action>)
    requires s.Ok() && Allowed(s, run)
    decreases |run|
  {
    FullyQuiet(s) && (run != [] ==> AlwaysQuiet(Step(s, run[0]).s, run[1..]))
  }

  /** Over whole runs: no wakeup is lost at any point of a run if and only if none of its
      steps takes from a semaphore whose handle a thread is still asleep on. */
  lemma {:induction false} LostInRunsExactlyWhen(s: State, run: seq<Action>)
    requires FullyQuiet(s) && Allowed(s, run)
    ensures AlwaysQuiet(s, run) <==> !DrawsInRun(s, run)
    decreases |run|
  {
    if run != [] {
      LostExactlyWhen(s, run[0]);
      var r := Step(s, run[0]).s;
      if FullyQuiet(r) {
        LostInRunsExactlyWhen(r, run[1..]);
      } else {
        assert !AlwaysQuiet(r, run[1..]);
      }
    }
  }

  lemma QuietOrDrawn(s: State, a: Action, t: nat)
    requires FullyQuiet(s) && Enabled(s, a) && NoLostWakeup(Step(s, a).s)
    requires t in Step(s, a).s.phases && !Step(s, a).s.phases[t].notified
    ensures DrawsUnderSleeper(s, a) || Blocked(Step(s, a).s, t, Step(s, a).s.phases[t].wait)
  {
    var s' := Step(s, a).s;
    var w := s'.phases[t].wait;
    assert Waiting(s', t);
    if Misled(s', w) && !Blocked(s', t, w) {
      SleepersBefore(s, a, t);
      SemaphoresAreCreated(s, a, w.cv);
      if Moves(a, t) {
        ReparkedIsBlocked(s, t);
      } else {
        UnmovedBefore(s, a, t);
        assert Blocked(s, t, w);
        SilentCounts(s, a, t, w.cv);
      }
    }
  }

  lemma ReparkedIsBlocked(s: State, t: nat)
    requires s.Ok() && t in s.phases
    ensures var r := DoResume(s, t).s; t in r.phases && r.phases[t].wait.Sleep? ==> Blocked(r, t, r.phases[t].wait)
    ensures var r := DoExpire(s, t).s; t in r.phases && r.phases[t].wait.Sleep? ==> Blocked(r, t, r.phases[t].wait)
  {
  }

  lemma UnmovedBefore(s: State, a: Action, t: nat)
    requires s.Ok() && Enabled(s, a) && !Moves(a, t)
    ensures var s' := Step(s, a).s;
            t in s'.phases && t in s.phases && !s'.phases[t].notified ==> s'.phases[t] == s.phases[t]
  {
    match a
    case Resume(tid) => OthersStay(s, tid, t);
    case Expire(tid) => OthersStay(s, tid, t);
    case _ =>
  }

  lemma OthersStay(s: State, tid: nat, t: nat)
    requires s.Ok() && tid in s.phases && t != tid
    ensures t in DoResume(s, tid).s.phases <==> t in s.phases
    ensures t in DoExpire(s, tid).s.phases <==> t in s.phases
    ensures t in s.phases ==> DoResume(s, tid).s.phases[t] == s.phases[t] && DoExpire(s, tid).s.phases[t] == s.phases[t]
  {
  }

  /** Only its own passes change what a parked thread waits for, or take it out. */
  lemma ParkedStays(s: State, a: Action, t: nat)
    requires s.Ok() && Enabled(s, a) && t in s.phases && !Moves(a, t)
    ensures var r := Step(s, a).s;
            && t in r.phases && r.phases[t].wait == s.phases[t].wait && r.phases[t].timed == s.phases[t].timed
            && (s.phases[t].notified ==> r.phases[t].notified)
  {
    match a
    case Resume(tid) => OthersStay(s, tid, t);
    case Expire(tid) => OthersStay(s, tid, t);
    case _ =>
  }
}
