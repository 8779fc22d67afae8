/** What a multiple wait misses when its deadline passes, and which step it has missed. */
module SyncDeadlines {
  import opened SyncModel
  import opened SyncWakeups
  import opened SyncRuns
  import opened SyncWaits

  /** A multiple wait that times out although it could pass has been notified: the
      deadline fell between the signal and the thread's next look. Had it resumed
      instead, it would have taken what was there. */
  lemma MissedAtDeadline(s: State, tid: nat)
    requires NoLostWakeup(s) && tid in s.phases && s.phases[tid].timed && s.phases[tid].wait.Many?
    requires var w := s.phases[tid].wait; Passable(s, tid, w.handles, w.all)
    ensures var w := s.phases[tid].wait;
            && s.phases[tid].notified && DoExpire(s, tid).out == Returns(WAIT_TIMEOUT)
            && DoResume(s, tid).out == Returns(WAIT_OBJECT_0 + if w.all then 0 else FirstHit(s, w.handles, tid, 0))
  {
    var w := s.phases[tid].wait;
    assert Waiting(s, tid);
    assert DoResume(s, tid) == TryMany(s, tid, w.handles, w.all, Finite);
  }

  // ---- Which step was missed ----

  /** The step can make object h available: it signals or releases h, gives it up, or
      creates an object in its slot. */
  ghost predicate Offers(s: State, a: Action, h: int)
    requires s.Ok()
  {
    match a
    case Create(_) => FirstFree(s.objs, 0) != -1 && h == SYNC_BASE + FirstFree(s.objs, 0)
    case SetEvent(h1) => h1 == h
    case ReleaseMutex(h1, _) => h1 == h
    case ReleaseSemaphore(h1, _) => h1 == h
    case ThreadExit(h1, _) => h1 == h
    case CvSleep(_, _, mtx, _) => mtx == h
    case KickTid(tid) => tid in s.phases && s.phases[tid].wait == Single(h)
    case KickWorkers(everyone, manuals, _) => Kickable(s, h, everyone, manuals)
    case _ => false
  }

  ghost predicate OffersSome(s: State, a: Action, handles: seq<int>)
    requires s.Ok()
  {
    exists k | 0 <= k < |handles| :: Offers(s, a, handles[k])
  }

  /** No object becomes available to t without such a step. */
  lemma NothingOffered(s: State, a: Action, t: nat, h: int)
    requires s.Ok() && 0 !in s.phases && Enabled(s, a) && t in s.phases && !Moves(a, t) && InTable(h) && !Offers(s, a, h)
    ensures Satisfied(Step(s, a).s.At(h), t) ==> Satisfied(s.At(h), t)
    ensures Step(s, a).s.Live(h) ==> s.Live(h)
  {
    if !a.Create? && a != Close(h) {
      KindKept(s, a, h);
    }
    match a
    case Resume(tid) => PassOffersNothing(s, tid, t, h);
    case Expire(tid) => PassOffersNothing(s, tid, t, h);
    case WaitMultiple(tid, handles, all, timeout) => ManyOffersNothing(s, tid, t, handles, all, timeout, h);
    case WaitSingle(_, _, _) =>
    case CvSleep(_, _, _, _) =>
    case _ => CallOffersNothing(s, a, t, h);
  }

  lemma CallOffersNothing(s: State, a: Action, t: nat, h: int)
    requires s.Ok() && Enabled(s, a) && InTable(h) && !Offers(s, a, h)
    requires !a.WaitSingle? && !a.WaitMultiple? && !a.CvSleep? && !a.Resume? && !a.Expire?
    ensures Satisfied(Step(s, a).s.At(h), t) ==> Satisfied(s.At(h), t)
  {
    if a.KickWorkers? {
      assert KickedObj(s, h - SYNC_BASE, a).signalled == s.At(h).signalled;
    }
  }

  lemma PassOffersNothing(s: State, tid: nat, t: nat, h: int)
    requires s.Ok() && tid in s.phases && tid != 0 && tid != t && InTable(h)
    ensures Satisfied(DoResume(s, tid).s.At(h), t) ==> Satisfied(s.At(h), t)
    ensures Satisfied(DoExpire(s, tid).s.At(h), t) ==> Satisfied(s.At(h), t)
  {
    match s.phases[tid].wait
    case Many(handles, all) =>
      ManyOffersNothing(s, tid, t, handles, all, if s.phases[tid].timed then Finite else Infinite, h);
    case _ =>
  }

  lemma ManyOffersNothing(s: State, tid: nat, t: nat, handles: seq<int>, all: bool, timeout: Timeout, h: int)
    requires s.Ok() && tid != 0 && tid != t && InTable(h)
    ensures Satisfied(TryMany(s, tid, handles, all, timeout).s.At(h), t) ==> Satisfied(s.At(h), t)
  {
    if AllLive(s, handles) {
      ManyKeepsKinds(s, tid, handles, h);
      AcquireAllIsCalm(s, handles, tid);
      if s.Live(h) {
        CalmAt(s, AcquireAll(s, handles, tid), tid, h);
      }
    }
  }

  /** So a multiple wait only becomes passable by a step that offers one of its objects. */
  lemma OnlyOffersHelp(s: State, a: Action, t: nat, handles: seq<int>, all: bool)
    requires s.Ok() && 0 !in s.phases && Enabled(s, a) && t in s.phases && !Moves(a, t)
    requires !Passable(s, t, handles, all) && Passable(Step(s, a).s, t, handles, all)
    ensures OffersSome(s, a, handles)
  {
    if !OffersSome(s, a, handles) {
      var r := Step(s, a).s;
      forall k | 0 <= k < |handles|
        ensures s.Live(handles[k]) && (Satisfied(r.At(handles[k]), t) ==> Satisfied(s.At(handles[k]), t))
      {
        NothingOffered(s, a, t, handles[k]);
      }
      PassableBefore(s, r, t, handles, all);
    }
  }

  lemma PassableBefore(s: State, r: State, t: nat, handles: seq<int>, all: bool)
    requires s.Ok() && r.Ok() && Passable(r, t, handles, all)
    requires forall k | 0 <= k < |handles| ::
               s.Live(handles[k]) && (Satisfied(r.At(handles[k]), t) ==> Satisfied(s.At(handles[k]), t))
    ensures Passable(s, t, handles, all)
  {
    if !all {
      assert Satisfied(r.At(handles[FirstHit(r, handles, t, 0)]), t);
    }
  }

  // ---- Over runs ----

  ghost predicate NeverMoves(run: seq<Action>, t: nat) {
    forall i | 0 <= i < |run| :: !Moves(run[i], t)
  }

  ghost predicate StaysPassable(s: State, run: seq<Action>, t: nat, handles: seq<int>, all: bool)
    requires s.Ok() && Allowed(s, run)
    decreases |run|
  {
    Passable(s, t, handles, all) && (run != [] ==> StaysPassable(Step(s, run[0]).s, run[1..], t, handles, all))
  }

  /** Some step of the run offers one of the objects and thereby makes the wait passable,
      and it stays so to the end of the run. */
  ghost predicate MissesAStep(s: State, run: seq<Action>, t: nat, handles: seq<int>, all: bool)
    requires s.Ok() && Allowed(s, run)
    decreases |run|
  {
    && run != []
    && var r := Step(s, run[0]).s;
       || (!Passable(s, t, handles, all) && OffersSome(s, run[0], handles) && StaysPassable(r, run[1..], t, handles, all))
       || MissesAStep(r, run[1..], t, handles, all)
  }

  lemma {:induction false} PassableAtTheEnd(s: State, run: seq<Action>, t: nat, handles: seq<int>, all: bool)
    requires NoLostWakeup(s) && Allowed(s, run) && t in s.phases && NeverMoves(run, t)
    ensures var e := After(s, run);
            t in e.phases && e.phases[t].wait == s.phases[t].wait && e.phases[t].timed == s.phases[t].timed
    ensures Passable(After(s, run), t, handles, all) <==> StaysPassable(s, run, t, handles, all) || MissesAStep(s, run, t, handles, all)
    decreases |run|
  {
    if run != [] {
      var r := Step(s, run[0]).s;
      assert forall i | 0 <= i < |run| - 1 :: run[1..][i] == run[i + 1];
      StepKeeps(s, run[0]);
      ParkedStays(s, run[0], t);
      PassableAtTheEnd(r, run[1..], t, handles, all);
      StaysAreTheEnd(r, run[1..], t, handles, all);
      if !Passable(s, t, handles, all) && Passable(r, t, handles, all) {
        OnlyOffersHelp(s, run[0], t, handles, all);
      }
    }
  }

  lemma {:induction false} StaysAreTheEnd(s: State, run: seq<Action>, t: nat, handles: seq<int>, all: bool)
    requires s.Ok() && Allowed(s, run)
    ensures StaysPassable(s, run, t, handles, all) ==> Passable(s, t, handles, all) && Passable(After(s, run), t, handles, all)
    decreases |run|
  {
    if run != [] {
      StaysAreTheEnd(Step(s, run[0]).s, run[1..], t, handles, all);
    }
  }

  /** From any reached state in which t has looked and not been told of anything since,
      over any run in which it does not look again: when its deadline then passes, it
      leaves behind what it waited for if and only if a step of that run offered it and no
      later one took it away. */
  lemma MissedInRuns(past: seq<Action>, run: seq<Action>, t: nat)
    requires Allowed(Initial(), past) && Allowed(After(Initial(), past), run) && NeverMoves(run, t)
    requires var s := After(Initial(), past);
             t in s.phases && s.phases[t].timed && s.phases[t].wait.Many? && !s.phases[t].notified
    ensures var s := After(Initial(), past);
            var w, e := s.phases[t].wait, After(s, run);
            && Enabled(e, Expire(t)) && e.phases[t].wait == w
            && DoExpire(e, t).out == Returns(WAIT_TIMEOUT)
            && (Passable(e, t, w.handles, w.all) <==> MissesAStep(s, run, t, w.handles, w.all))
  {
    QuietFromTheStart(past);
    var s := After(Initial(), past);
    var w := s.phases[t].wait;
    assert Waiting(s, t);
    PassableAtTheEnd(s, run, t, w.handles, w.all);
  }

  const SET_IN_TIME: seq<Action> :=
    [Create(NewEvent(false, false)), WaitMultiple(1, [SYNC_BASE], false, Finite), SetEvent(SYNC_BASE)]

  /** It happens: the event is set before the deadline, and the wait still times out. */
  lemma ADeadlineIsMissed()
    ensures Allowed(Initial(), SET_IN_TIME)
    ensures var s := After(Initial(), SET_IN_TIME);
            && Enabled(s, Expire(1)) && Passable(s, 1, [SYNC_BASE], false)
            && Step(s, Expire(1)).out == Returns(WAIT_TIMEOUT) && Satisfied(Step(s, Expire(1)).s.At(SYNC_BASE), 1)
  {
    var s1 := Step(Initial(), SET_IN_TIME[0]).s;
    assert s1.At(SYNC_BASE) == Made(NewEvent(false, false));
    var s2 := Step(s1, SET_IN_TIME[1]).s;
    var s3 := Step(s2, SET_IN_TIME[2]).s;
    Chain(s2, SET_IN_TIME[2..], s3);
    Chain(s1, SET_IN_TIME[1..], s2);
    Chain(Initial(), SET_IN_TIME, s1);
  }
}
