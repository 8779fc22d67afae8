/** The laws of the books over whole runs, and the two promises of cv_sleep: it comes
    back with the mutex at the depth it gave up, and it misses no wake. */
module SyncSleep {
  import opened SyncModel
  import opened SyncRuns
  import opened SyncAccounts

  // ---- The laws over runs ----

  lemma MutexStays(s: State, a: Action, h: int)
    requires s.Ok() && Enabled(s, a) && s.Is(h, Mutex) && a != Close(h)
    ensures Step(s, a).s.Is(h, Mutex)
  {
    KindStays(s, a, h);
  }

  /** Only closing takes an object's kind away. */
  lemma KindStays(s: State, a: Action, h: int)
    requires s.Ok() && Enabled(s, a) && s.Live(h) && a != Close(h)
    ensures Step(s, a).s.At(h).kind == s.At(h).kind
  {
    if !a.Create? {
      KindKept(s, a, h);
    }
  }

  /** What a thread waits for after a step is what it waited for before, unless it
      took the step: then it is a wait it has just begun or one that follows from the
      old one. */
  lemma WaitsBefore(s: State, a: Action, t: nat)
    requires s.Ok() && Enabled(s, a) && t in Step(s, a).s.phases && t != Actor(a)
    ensures t in s.phases && Step(s, a).s.phases[t].wait == s.phases[t].wait
  {
    match a
    case Resume(tid) => OthersStay(s, tid, t);
    case Expire(tid) => OthersStay(s, tid, t);
    case _ =>
  }

  function Actor(a: Action): nat {
    match a
    case WaitSingle(tid, _, _) => tid
    case WaitMultiple(tid, _, _, _) => tid
    case CvSleep(tid, _, _, _) => tid
    case Resume(tid) => tid
    case Expire(tid) => tid
    case _ => 0
  }

  lemma ActorParksWell(s: State, l: Ledger, a: Action)
    requires InOrder(s, l) && Proper(s, a) && Actor(a) in Step(s, a).s.phases
    ensures WellParked(Step(s, a).s, Step(s, a).s.phases[Actor(a)].wait)
  {
    match a
    case Resume(tid) => ReparksWell(s, l, tid);
    case Expire(tid) => ReparksWell(s, l, tid);
    case CvSleep(tid, cv, mtx, timeout) => MutexStays(s, a, mtx);
    case _ =>
  }

  lemma ReparksWell(s: State, l: Ledger, tid: nat)
    requires InOrder(s, l) && tid in s.phases
    ensures var r := DoResume(s, tid).s; tid in r.phases ==> WellParked(r, r.phases[tid].wait)
    ensures var r := DoExpire(s, tid).s; tid in r.phases ==> WellParked(r, r.phases[tid].wait)
  {
    assert WellParked(s, s.phases[tid].wait);
  }

  lemma StepInOrder(s: State, l: Ledger, a: Action)
    requires InOrder(s, l) && Proper(s, a)
    ensures InOrder(Step(s, a).s, Book(s, l, a))
  {
    StepBooks(s, l, a);
    var r := Step(s, a).s;
    forall t | t in r.phases
      ensures t != 0 && WellParked(r, r.phases[t].wait)
    {
      if t == Actor(a) {
        if a.Resume? || a.Expire? { assert t in s.phases; }
        ActorParksWell(s, l, a);
      } else {
        WaitsBefore(s, a, t);
        var w := s.phases[t].wait;
        assert WellParked(s, w);
        if w.Sleep? || w.Regain? {
          MutexStays(s, a, w.mtx);
        }
      }
    }
  }

  ghost predicate ProperRun(s: State, run: seq<Action>)
    requires s.Ok()
    decreases |run|
  {
    run != [] ==> Proper(s, run[0]) && ProperRun(Step(s, run[0]).s, run[1..])
  }

  lemma {:induction false} ProperIsAllowed(s: State, run: seq<Action>)
    requires s.Ok() && ProperRun(s, run)
    ensures Allowed(s, run)
    decreases |run|
  {
    if run != [] {
      ProperIsAllowed(Step(s, run[0]).s, run[1..]);
    }
  }

  ghost function Books(s: State, l: Ledger, run: seq<Action>): (l': Ledger)
    requires s.Ok() && ProperRun(s, run) && |l| == SYNC_MAX
    ensures |l'| == SYNC_MAX
    decreases |run|
  {
    if run == [] then l else Books(Step(s, run[0]).s, Book(s, l, run[0]), run[1..])
  }

  /** Over all interleavings of calls that keep their side: every mutex has at most
      one holder, whose depth is its outstanding acquisitions; every semaphore's count
      plus its successful waits is what was added less what was dropped, between 0 and
      its maximum; no auto-reset event has let more waits pass than it got signals. */
  lemma {:induction false} LawsHold(s: State, l: Ledger, run: seq<Action>)
    requires InOrder(s, l) && ProperRun(s, run)
    ensures Allowed(s, run) && InOrder(After(s, run), Books(s, l, run))
    decreases |run|
  {
    ProperIsAllowed(s, run);
    if run != [] {
      StepInOrder(s, l, run[0]);
      LawsHold(Step(s, run[0]).s, Book(s, l, run[0]), run[1..]);
    }
  }

  /** The books before the first call. */
  function NoBooks(): (l: Ledger)
    ensures |l| == SYNC_MAX
  {
    seq(SYNC_MAX, _ => EMPTY)
  }

  lemma InitiallyInOrder()
    ensures InOrder(Initial(), NoBooks())
  {
  }

  /** So in every run from the empty table. */
  lemma LawsFromTheStart(run: seq<Action>)
    requires ProperRun(Initial(), run)
    ensures Allowed(Initial(), run) && InOrder(After(Initial(), run), Books(Initial(), NoBooks(), run))
  {
    InitiallyInOrder();
    LawsHold(Initial(), NoBooks(), run);
  }

  /** In particular: no two threads hold one mutex. */
  lemma MutualExclusion(s: State, l: Ledger, h: int, t1: nat, t2: nat)
    requires InOrder(s, l) && s.Is(h, Mutex) && t1 != 0 && t2 != 0
    requires Held(Entry(l, h), t1) > 0 && Held(Entry(l, h), t2) > 0
    ensures t1 == t2 == s.At(h).owner && Held(Entry(l, h), t1) == s.At(h).recursion
  {
    BalancedAt(s, l, h);
  }

  /** At no point of a run from the empty table. */
  lemma OneHolder(run: seq<Action>, h: int, t1: nat, t2: nat)
    requires ProperRun(Initial(), run) && Allowed(Initial(), run)
    requires var l := Books(Initial(), NoBooks(), run);
             After(Initial(), run).Is(h, Mutex) && t1 != 0 && t2 != 0 && Held(Entry(l, h), t1) > 0 && Held(Entry(l, h), t2) > 0
    ensures t1 == t2 == After(Initial(), run).At(h).owner
  {
    LawsFromTheStart(run);
    MutualExclusion(After(Initial(), run), Books(Initial(), NoBooks(), run), h, t1, t2);
  }

  // ---- cv_sleep gives the mutex up and gets it back ----

  ghost predicate Inside(s: State, t: nat, mtx: int, depth: int)
    requires s.Ok()
  {
    && t in s.phases && ComesBackTo(s.phases[t].wait, mtx)
    && s.phases[t].wait.saved == depth
  }

  ghost predicate HasBack(s: State, t: nat, mtx: int, depth: int)
    requires s.Ok()
  {
    t !in s.phases && s.Is(mtx, Mutex) && s.At(mtx).owner == t && s.At(mtx).recursion == depth
  }

  /** An owner at any depth gives the mutex up entirely: it is parked with that depth
      to come back to and nobody owns the mutex, or it has it back already. */
  lemma SleepGivesUp(s: State, l: Ledger, tid: nat, cv: int, mtx: int, timeout: Timeout)
    requires InOrder(s, l) && Proper(s, CvSleep(tid, cv, mtx, timeout)) && s.Is(cv, CondVar) && s.Is(mtx, Mutex)
    ensures var r := Step(s, CvSleep(tid, cv, mtx, timeout)).s;
            if timeout.Zero? then HasBack(r, tid, mtx, s.At(mtx).recursion)
            else Inside(r, tid, mtx, s.At(mtx).recursion) && r.At(mtx).owner == 0 && r.At(mtx).recursion == 0
  {
  }

  lemma InsideStep(s: State, l: Ledger, a: Action, t: nat, mtx: int, depth: int)
    requires InOrder(s, l) && Proper(s, a) && Inside(s, t, mtx, depth)
    ensures Inside(Step(s, a).s, t, mtx, depth) || (Moves(a, t) && HasBack(Step(s, a).s, t, mtx, depth))
  {
    assert WellParked(s, s.phases[t].wait);
    match a
    case Resume(tid) => OthersStay(s, tid, if tid == t then t + 1 else t);
    case Expire(tid) => OthersStay(s, tid, if tid == t then t + 1 else t);
    case _ => InsideCall(s, l, a, t, mtx, depth);
  }

  lemma InsideCall(s: State, l: Ledger, a: Action, t: nat, mtx: int, depth: int)
    requires InOrder(s, l) && Proper(s, a) && Inside(s, t, mtx, depth) && !a.Resume? && !a.Expire?
    ensures Inside(Step(s, a).s, t, mtx, depth)
  {
    assert WellParked(s, s.phases[t].wait);
  }

  /** When t leaves cv_sleep in this run, it then owns the mutex at `depth`. */
  ghost predicate ComesBackHolding(s: State, run: seq<Action>, t: nat, mtx: int, depth: int)
    requires s.Ok() && Allowed(s, run)
    decreases |run|
  {
    && run != []
    && var r := Step(s, run[0]).s;
       if t in r.phases then ComesBackHolding(r, run[1..], t, mtx, depth) else HasBack(r, t, mtx, depth)
  }

  /** Whatever the other threads do meanwhile, a thread inside cv_sleep stays there or
      comes back holding the mutex at exactly the depth it gave up. */
  lemma {:induction false} SleepRestores(s: State, l: Ledger, run: seq<Action>, t: nat, mtx: int, depth: int)
    requires InOrder(s, l) && ProperRun(s, run) && Inside(s, t, mtx, depth)
    ensures Allowed(s, run)
    ensures Inside(After(s, run), t, mtx, depth) || ComesBackHolding(s, run, t, mtx, depth)
    decreases |run|
  {
    ProperIsAllowed(s, run);
    if run != [] {
      var r := Step(s, run[0]).s;
      InsideStep(s, l, run[0], t, mtx, depth);
      StepInOrder(s, l, run[0]);
      if t in r.phases {
        SleepRestores(r, Book(s, l, run[0]), run[1..], t, mtx, depth);
      }
    }
  }

  // ---- No wake is missed ----

  /** Thread t is in cv_sleep's first loop on an open condition variable that has been
      woken n times since t gave up the mutex. */
  ghost predicate Dozing(s: State, t: nat, cv: int, n: nat)
    requires s.Ok()
  {
    && t in s.phases && s.phases[t].wait.Sleep? && s.phases[t].wait.cv == cv
    && s.Is(cv, CondVar) && s.At(cv).count == s.phases[t].wait.gen + n
    && (n > 0 ==> s.phases[t].notified)
  }

  function WakesOf(a: Action, cv: int): nat {
    if a == CvWake(cv) || (a.KickWorkers? && a.condVars) then 1 else 0
  }

  /** A condition variable's generation counts its wakes. */
  lemma GenerationCounts(s: State, a: Action, cv: int)
    requires s.Ok() && Enabled(s, a) && s.Is(cv, CondVar) && a != Close(cv)
    ensures Step(s, a).s.Is(cv, CondVar) && Step(s, a).s.At(cv).count == s.At(cv).count + WakesOf(a, cv)
    ensures WakesOf(a, cv) > 0 ==> forall t | t in s.phases :: t in Step(s, a).s.phases && Step(s, a).s.phases[t].notified
  {
    KindStays(s, a, cv);
    match a
    case KickWorkers(_, _, _) => KickCounts(s, a, cv);
    case Resume(tid) => PassCountStays(s, tid, cv);
    case Expire(tid) => PassCountStays(s, tid, cv);
    case WaitSingle(_, _, _) => StartCounts(s, a, cv);
    case WaitMultiple(_, _, _, _) => StartCounts(s, a, cv);
    case CvSleep(_, _, _, _) => StartCounts(s, a, cv);
    case _ => CallCounts(s, a, cv);
  }

  lemma StartCounts(s: State, a: Action, cv: int)
    requires s.Ok() && Enabled(s, a) && s.Is(cv, CondVar) && (a.WaitSingle? || a.WaitMultiple? || a.CvSleep?)
    ensures Step(s, a).s.At(cv).count == s.At(cv).count
  {
    if a.WaitMultiple? {
      ManyCountStays(s, a.tid, a.handles, cv);
    }
  }

  lemma CallCounts(s: State, a: Action, cv: int)
    requires s.Ok() && Enabled(s, a) && s.Is(cv, CondVar) && a != Close(cv)
    requires !a.KickWorkers? && !a.WaitSingle? && !a.WaitMultiple? && !a.CvSleep? && !a.Resume? && !a.Expire?
    ensures Step(s, a).s.At(cv).count == s.At(cv).count + WakesOf(a, cv)
    ensures WakesOf(a, cv) > 0 ==> forall t | t in s.phases :: t in Step(s, a).s.phases && Step(s, a).s.phases[t].notified
  {
  }

  lemma KickCounts(s: State, a: Action, cv: int)
    requires s.Ok() && a.KickWorkers? && s.Is(cv, CondVar)
    ensures DoKickWorkers(s, a).s.At(cv).count == s.At(cv).count + WakesOf(a, cv)
    ensures a.condVars ==> forall t | t in s.phases :: t in DoKickWorkers(s, a).s.phases && DoKickWorkers(s, a).s.phases[t].notified
  {
    var i := cv - SYNC_BASE;
    var objs := seq(SYNC_MAX, i requires 0 <= i < SYNC_MAX => KickedObj(s, i, a));
    assert objs[i] == KickedObj(s, i, a);
    if Changes(s.objs, objs, SYNC_MAX) == 0 {
      assert s.objs[..SYNC_MAX][i] == objs[..SYNC_MAX][i];
    }
  }

  lemma {:induction false} AcquireAllCv(s: State, handles: seq<int>, tid: nat, cv: int)
    requires s.Ok() && s.Is(cv, CondVar) && forall k | 0 <= k < |handles| :: InTable(handles[k])
    ensures AcquireAll(s, handles, tid).At(cv) == s.At(cv)
  {
    if handles != [] {
      AcquireAllCv(s, handles[..|handles| - 1], tid, cv);
    }
  }

  lemma ManyCountStays(s: State, tid: nat, handles: seq<int>, cv: int)
    requires s.Ok() && s.Is(cv, CondVar)
    ensures AllLive(s, handles) ==> AcquireAll(s, handles, tid).At(cv) == s.At(cv)
  {
    if AllLive(s, handles) {
      AcquireAllCv(s, handles, tid, cv);
    }
  }

  lemma PassCountStays(s: State, tid: nat, cv: int)
    requires s.Ok() && tid in s.phases && s.Is(cv, CondVar)
    ensures DoResume(s, tid).s.At(cv).count == s.At(cv).count
    ensures DoExpire(s, tid).s.At(cv).count == s.At(cv).count
  {
    if s.phases[tid].wait.Many? {
      ManyCountStays(s, tid, s.phases[tid].wait.handles, cv);
    }
  }

  /** The value with which a step takes t out of the first loop: kept while it waits
      for the mutex, returned at once otherwise. */
  ghost function LoopResult(s: State, a: Action, t: nat): int
    requires s.Ok() && Enabled(s, a)
  {
    var r := Step(s, a);
    if t in r.s.phases && r.s.phases[t].wait.Regain? then r.s.phases[t].wait.rv
    else if r.out.Returns? then r.out.rv
    else -1
  }

  ghost predicate StillAsleep(s: State, t: nat) {
    t in s.phases && s.phases[t].wait.Sleep?
  }

  lemma DozeStep(s: State, a: Action, t: nat, cv: int, n: nat)
    requires s.Ok() && Enabled(s, a) && Dozing(s, t, cv, n) && a != Close(cv)
    ensures var r := Step(s, a).s;
            if StillAsleep(r, t) then Dozing(r, t, cv, n + WakesOf(a, cv))
            else LoopResult(s, a, t) == if n > 0 then WAIT_OBJECT_0 else WAIT_TIMEOUT
  {
    GenerationCounts(s, a, cv);
    if Moves(a, t) {
      DozerMoves(s, a, t, cv, n);
    } else {
      ParkedStays(s, a, t);
    }
  }

  /** In its own pass the sleeper compares the generations. */
  lemma DozerMoves(s: State, a: Action, t: nat, cv: int, n: nat)
    requires s.Ok() && Enabled(s, a) && Dozing(s, t, cv, n) && Moves(a, t)
    ensures var r := Step(s, a).s;
            if StillAsleep(r, t) then Dozing(r, t, cv, n)
            else LoopResult(s, a, t) == if n > 0 then WAIT_OBJECT_0 else WAIT_TIMEOUT
  {
  }

  ghost predicate StaysOpen(run: seq<Action>, cv: int) {
    forall i | 0 <= i < |run| :: run[i] != Close(cv)
  }

  /** t is still asleep after the run, with all n + (wakes of the run) wakes counted,
      or left the loop with WAIT_OBJECT_0 exactly if a wake came before that. */
  ghost predicate NoWakeMissed(s: State, run: seq<Action>, t: nat, cv: int, n: nat)
    requires s.Ok() && Allowed(s, run)
    decreases |run|
  {
    if run == [] then Dozing(s, t, cv, n)
    else
      var r := Step(s, run[0]).s;
      if StillAsleep(r, t) then NoWakeMissed(r, run[1..], t, cv, n + WakesOf(run[0], cv))
      else LoopResult(s, run[0], t) == if n > 0 then WAIT_OBJECT_0 else WAIT_TIMEOUT
  }

  /** A sleeper sees every wake that comes after it gave the mutex up: with the
      condition variable left open, its wait ends as woken exactly if there was one. */
  lemma {:induction false} EveryWakeIsSeen(s: State, run: seq<Action>, t: nat, cv: int, n: nat)
    requires s.Ok() && Allowed(s, run) && Dozing(s, t, cv, n) && StaysOpen(run, cv)
    ensures NoWakeMissed(s, run, t, cv, n)
    decreases |run|
  {
    if run != [] {
      var r := Step(s, run[0]).s;
      DozeStep(s, run[0], t, cv, n);
      if StillAsleep(r, t) {
        EveryWakeIsSeen(r, run[1..], t, cv, n + WakesOf(run[0], cv));
      }
    }
  }

  /** A thread that has just fallen asleep has missed nothing. */
  lemma FallsAsleepDozing(s: State, tid: nat, cv: int, mtx: int, timeout: Timeout)
    requires s.Ok() && Enabled(s, CvSleep(tid, cv, mtx, timeout))
    requires s.Is(cv, CondVar) && s.Is(mtx, Mutex) && !timeout.Zero?
    ensures Dozing(Step(s, CvSleep(tid, cv, mtx, timeout)).s, tid, cv, 0)
  {
  }

  /** The result of the first loop is what cv_sleep returns once it has the mutex. */
  lemma ResultIsKept(s: State, a: Action, t: nat)
    requires s.Ok() && Enabled(s, a) && t in s.phases && s.phases[t].wait.Regain?
    ensures var r := Step(s, a);
            (t in r.s.phases && r.s.phases[t].wait == s.phases[t].wait)
            || (Moves(a, t) && t !in r.s.phases && r.out == Returns(s.phases[t].wait.rv))
  {
    match a
    case Resume(tid) => OthersStay(s, tid, if tid == t then t + 1 else t);
    case Expire(tid) => OthersStay(s, tid, if tid == t then t + 1 else t);
    case _ =>
  }

  // ---- The whole call ----

  /** t waits for its mutex to the end of the run, or gets it and returns rv. */
  ghost predicate ComesBackWith(s: State, run: seq<Action>, t: nat, rv: int)
    requires s.Ok() && Allowed(s, run)
    decreases |run|
  {
    && t in s.phases && s.phases[t].wait.Regain? && s.phases[t].wait.rv == rv
    && (run != [] ==>
          var r := Step(s, run[0]);
          if t in r.s.phases then ComesBackWith(r.s, run[1..], t, rv)
          else Moves(run[0], t) && r.out == Returns(rv))
  }

  lemma {:induction false} KeepsItsResult(s: State, run: seq<Action>, t: nat, rv: int)
    requires s.Ok() && Allowed(s, run)
    requires t in s.phases && s.phases[t].wait.Regain? && s.phases[t].wait.rv == rv
    ensures ComesBackWith(s, run, t, rv)
    decreases |run|
  {
    if run != [] {
      ResultIsKept(s, run[0], t);
      if t in Step(s, run[0]).s.phases {
        KeepsItsResult(Step(s, run[0]).s, run[1..], t, rv);
      }
    }
  }

  /** The call of a thread that is asleep with n wakes behind it: it sleeps on to the end
      of the run, or its loop ends, and what the call then returns, at once or when it
      has the mutex again, is WAIT_OBJECT_0 exactly if a wake came before that. */
  ghost predicate Answers(s: State, run: seq<Action>, t: nat, cv: int, n: nat)
    requires s.Ok() && Allowed(s, run)
    decreases |run|
  {
    && Dozing(s, t, cv, n)
    && (run != [] ==>
          var r := Step(s, run[0]);
          var rv := if n > 0 then WAIT_OBJECT_0 else WAIT_TIMEOUT;
          if StillAsleep(r.s, t) then Answers(r.s, run[1..], t, cv, n + WakesOf(run[0], cv))
          else if t in r.s.phases then ComesBackWith(r.s, run[1..], t, rv)
          else Moves(run[0], t) && r.out == Returns(rv))
  }

  lemma LeavesSleep(s: State, a: Action, t: nat)
    requires s.Ok() && Enabled(s, a) && StillAsleep(s, t) && !StillAsleep(Step(s, a).s, t)
    ensures Moves(a, t)
    ensures var r := Step(s, a).s; t in r.phases ==> r.phases[t].wait.Regain?
  {
    if !Moves(a, t) {
      ParkedStays(s, a, t);
    }
  }

  lemma {:induction false} SleepAnswers(s: State, run: seq<Action>, t: nat, cv: int, n: nat)
    requires s.Ok() && Allowed(s, run) && Dozing(s, t, cv, n) && StaysOpen(run, cv)
    ensures Answers(s, run, t, cv, n)
    decreases |run|
  {
    if run != [] {
      var r := Step(s, run[0]).s;
      DozeStep(s, run[0], t, cv, n);
      if StillAsleep(r, t) {
        SleepAnswers(r, run[1..], t, cv, n + WakesOf(run[0], cv));
      } else {
        LeavesSleep(s, run[0], t);
        if t in r.phases {
          KeepsItsResult(r, run[1..], t, if n > 0 then WAIT_OBJECT_0 else WAIT_TIMEOUT);
        }
      }
    }
  }

  /** From the call of cv_sleep to its return, whatever happens in between. */
  lemma SleepTellsTheTruth(s: State, tid: nat, cv: int, mtx: int, timeout: Timeout, run: seq<Action>)
    requires s.Ok() && Enabled(s, CvSleep(tid, cv, mtx, timeout)) && s.Is(cv, CondVar) && s.Is(mtx, Mutex) && !timeout.Zero?
    requires Allowed(Step(s, CvSleep(tid, cv, mtx, timeout)).s, run) && StaysOpen(run, cv)
    ensures Answers(Step(s, CvSleep(tid, cv, mtx, timeout)).s, run, tid, cv, 0)
  {
    FallsAsleepDozing(s, tid, cv, mtx, timeout);
    SleepAnswers(Step(s, CvSleep(tid, cv, mtx, timeout)).s, run, tid, cv, 0);
  }
}
