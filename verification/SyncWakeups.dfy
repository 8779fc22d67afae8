/** No wakeup is lost: a parked thread that has not been notified has nothing to
    wake up for. */
module SyncWakeups {
  import opened SyncModel

  /** The wait's handles are live and its predicate is false. */
  ghost predicate Blocked(s: State, tid: nat, w: Wait)
    requires s.Ok()
  {
    match w
    case Single(h) => s.Live(h) && !Satisfied(s.At(h), tid)
    case Many(handles, all) =>
      && AllLive(s, handles)
      && if all then !AllSatisfied(s, handles, tid) else FirstHit(s, handles, tid, 0) == -1
    case Sleep(cv, _, gen, _) => s.Live(cv) && s.At(cv).count == gen
    case Regain(mtx, _, _) => s.Live(mtx) && s.At(mtx).owner != 0 && s.At(mtx).owner != tid
  }

  /** The one way out: the condition variable was closed and its slot became a
      semaphore, whose count the sleeper takes for a generation. */
  predicate Misled(s: State, w: Wait)
    requires s.Ok()
  {
    w.Sleep? && s.Is(w.cv, Semaphore)
  }

  ghost predicate Waiting(s: State, tid: nat)
    requires s.Ok() && tid in s.phases
  {
    s.phases[tid].notified || Blocked(s, tid, s.phases[tid].wait) || Misled(s, s.phases[tid].wait)
  }

  ghost predicate NoLostWakeup(s: State) {
    s.Ok() && 0 !in s.phases && forall t | t in s.phases :: Waiting(s, t)
  }

  // ---- Changes nobody has to be told about ----

  /** A change of a live object that makes no wait of any thread but `me` satisfied. */
  ghost predicate Calm(o: Obj, o': Obj, me: nat) {
    && o'.kind == o.kind
    && (o.kind != Semaphore ==> o'.count == o.count)
    && (forall t: nat | t != me :: Satisfied(o', t) ==> Satisfied(o, t))
    && (o.owner != 0 && o.owner != me ==> o'.owner == o.owner || o'.owner == me)
    && (o.owner != 0 && o.owner == me ==> o'.owner == me)
  }

  ghost predicate CalmTable(s: State, s': State, me: nat) {
    s.Ok() && s'.Ok() && forall i | 0 <= i < SYNC_MAX && !s.objs[i].kind.Free? :: Calm(s.objs[i], s'.objs[i], me)
  }

  lemma StillBlocked(s: State, s': State, me: nat, tid: nat, w: Wait)
    requires CalmTable(s, s', me) && me != 0 && tid != me && tid != 0
    requires Blocked(s, tid, w)
    ensures Blocked(s', tid, w) || Misled(s', w)
  {
    match w
    case Single(h) => CalmAt(s, s', me, h);
    case Many(handles, all) => StillBlockedMany(s, s', me, tid, handles, all);
    case Sleep(cv, _, _, _) => CalmAt(s, s', me, cv);
    case Regain(mtx, _, _) => CalmAt(s, s', me, mtx);
  }

  lemma CalmAt(s: State, s': State, me: nat, h: int)
    requires CalmTable(s, s', me) && s.Live(h)
    ensures s'.Live(h) && Calm(s.At(h), s'.At(h), me)
  {
    assert Calm(s.objs[h - SYNC_BASE], s'.objs[h - SYNC_BASE], me);
  }

  lemma StillBlockedMany(s: State, s': State, me: nat, tid: nat, handles: seq<int>, all: bool)
    requires CalmTable(s, s', me) && tid != me
    requires Blocked(s, tid, Many(handles, all))
    ensures Blocked(s', tid, Many(handles, all))
  {
    forall k | 0 <= k < |handles|
      ensures s'.Live(handles[k]) && (!Satisfied(s.At(handles[k]), tid) ==> !Satisfied(s'.At(handles[k]), tid))
    {
      CalmAt(s, s', me, handles[k]);
    }
  }

  /** Nothing becomes lost when only `me` moves and all changes are calm. */
  lemma CalmStep(s: State, s': State, me: nat)
    requires NoLostWakeup(s) && CalmTable(s, s', me) && me != 0
    requires forall t | t in s'.phases && t != me :: t in s.phases && s'.phases[t] == s.phases[t]
    requires me in s'.phases ==> Waiting(s', me)
    ensures NoLostWakeup(s')
  {
    forall t | t in s'.phases
      ensures Waiting(s', t)
    {
      if t != me {
        assert Waiting(s, t);
        var w := s.phases[t].wait;
        if !s.phases[t].notified {
          if Blocked(s, t, w) {
            StillBlocked(s, s', me, t, w);
          } else {
            CalmAt(s, s', me, w.cv);
          }
        }
      }
    }
  }

  /** After a broadcast everybody is notified. */
  lemma Told(s: State)
    requires s.Ok() && 0 !in s.phases
    ensures NoLostWakeup(s.Broadcast())
  {
  }

  lemma AcquireIsCalm(o: Obj, me: nat)
    requires me != 0
    ensures Calm(o, Acquire(o, me), me)
  {
  }

  lemma PutIsCalm(s: State, h: int, o: Obj, me: nat)
    requires s.Ok() && InTable(h) && (s.Live(h) ==> Calm(s.At(h), o, me))
    ensures CalmTable(s, s.Put(h, o), me)
  {
  }

  lemma {:induction false} AcquireAllIsCalm(s: State, handles: seq<int>, me: nat)
    requires s.Ok() && me != 0 && forall k | 0 <= k < |handles| :: InTable(handles[k])
    ensures CalmTable(s, AcquireAll(s, handles, me), me)
  {
    if handles != [] {
      var n := |handles| - 1;
      var done := AcquireAll(s, handles[..n], me);
      AcquireAllIsCalm(s, handles[..n], me);
      AcquireIsCalm(done.At(handles[n]), me);
    }
  }

  // ---- Every step ----

  lemma CreateKeeps(s: State, c: Creation)
    requires NoLostWakeup(s)
    ensures NoLostWakeup(DoCreate(s, c).s)
  {
    var i := FirstFree(s.objs, 0);
    if i != -1 {
      var me := Stranger(s);
      PutIsCalm(s, SYNC_BASE + i, Made(c), me);
      CalmStep(s, DoCreate(s, c).s, me);
    }
  }

  /** A thread that is not parked: steps of nobody in particular count as its steps. */
  lemma Stranger(s: State) returns (me: nat)
    ensures me != 0 && me !in s.phases
  {
    me := LargerThanAll(s.phases.Keys);
  }

  lemma {:induction false} LargerThanAll(keys: set<nat>) returns (n: nat)
    ensures n > 0 && forall k | k in keys :: k < n
    decreases |keys|
  {
    n := 1;
    if keys != {} {
      var k :| k in keys;
      var m := LargerThanAll(keys - {k});
      n := if m <= k then k + 1 else m;
      forall x | x in keys
        ensures x < n
      {
        assert x == k || x in keys - {k};
      }
    }
  }

  lemma QuietPut(s: State, h: int, o: Obj)
    requires NoLostWakeup(s) && s.Live(h) && o.kind == s.At(h).kind && o.owner == s.At(h).owner && o.count == s.At(h).count
    requires forall t: nat :: Satisfied(o, t) ==> Satisfied(s.At(h), t)
    ensures NoLostWakeup(s.Put(h, o))
  {
    var me := Stranger(s);
    PutIsCalm(s, h, o, me);
    CalmStep(s, s.Put(h, o), me);
  }

  /** Creation, signalling, releasing, waking, closing, and the two kicks. */
  lemma SignalKeeps(s: State, a: Action)
    requires NoLostWakeup(s) && Enabled(s, a)
    requires !a.WaitSingle? && !a.WaitMultiple? && !a.CvSleep? && !a.Resume? && !a.Expire?
    ensures NoLostWakeup(Step(s, a).s)
  {
    match a
    case Create(c) => CreateKeeps(s, c);
    case ResetEvent(h) =>
      if s.Is(h, Event) {
        QuietPut(s, h, s.At(h).(signalled := false));
      }
    case ReleaseMutex(h, tid) => ReleaseMutexKeeps(s, h, tid);
    case KickWorkers(_, _, _) => KickKeeps(s, a);
    case _ => OthersKeep(s, a);
  }

  lemma ReleaseMutexKeeps(s: State, h: int, tid: nat)
    requires NoLostWakeup(s)
    ensures NoLostWakeup(DoReleaseMutex(s, h, tid).s)
  {
    if s.Live(h) && Holds(s.At(h), tid) {
      var o := s.At(h);
      if o.recursion > 1 {
        QuietPut(s, h, o.(recursion := o.recursion - 1));
      } else {
        Told(s.Put(h, o.(owner := 0, recursion := 0)));
      }
    }
  }

  lemma KickKeeps(s: State, a: Action)
    requires NoLostWakeup(s) && a.KickWorkers?
    ensures NoLostWakeup(DoKickWorkers(s, a).s)
  {
    var r := DoKickWorkers(s, a).s;
    if r != s {
      Told(s.(objs := r.objs));
    }
  }

  lemma OthersKeep(s: State, a: Action)
    requires NoLostWakeup(s)
    requires a.SetEvent? || a.PulseEvent? || a.ReleaseSemaphore? || a.ThreadExit? || a.CvWake? || a.Close? || a.KickTid?
    ensures NoLostWakeup(Step(s, a).s)
  {
    var r := Step(s, a).s;
    if r != s {
      Told(s.(objs := r.objs));
      assert r == s.(objs := r.objs).Broadcast();
    }
  }

  lemma LeaveKeeps(s: State, tid: nat)
    requires NoLostWakeup(s)
    ensures NoLostWakeup(s.Leave(tid))
  {
    forall t | t in s.Leave(tid).phases
      ensures Waiting(s.Leave(tid), t)
    {
      assert Waiting(s, t);
      SameTable(s, s.Leave(tid), t, s.phases[t].wait);
    }
  }

  lemma SameTable(s: State, s': State, tid: nat, w: Wait)
    requires s.Ok() && s'.objs == s.objs
    ensures Blocked(s, tid, w) == Blocked(s', tid, w)
    ensures Misled(s, w) == Misled(s', w)
  {
  }

  lemma ParkKeeps(s: State, tid: nat, w: Wait, timed: bool)
    requires NoLostWakeup(s) && tid != 0 && Blocked(s, tid, w)
    ensures NoLostWakeup(s.Park(tid, w, timed))
  {
    var p := s.Park(tid, w, timed);
    forall t | t in p.phases
      ensures Waiting(p, t)
    {
      if t != tid {
        assert Waiting(s, t);
      }
      SameTable(s, p, t, p.phases[t].wait);
    }
  }

  /** A thread that takes what it waited for. */
  lemma TakeKeeps(s: State, s1: State, tid: nat)
    requires NoLostWakeup(s) && tid != 0 && CalmTable(s, s1, tid) && s1.phases == s.phases
    ensures NoLostWakeup(s1.Leave(tid))
  {
    CalmStep(s, s1.Leave(tid), tid);
  }

  lemma SingleKeeps(s: State, tid: nat, h: int, timeout: Timeout)
    requires NoLostWakeup(s) && tid != 0
    ensures NoLostWakeup(TrySingle(s, tid, h, timeout).s)
    ensures NoLostWakeup(ExpireSingle(s, tid, h).s)
  {
    LeaveKeeps(s, tid);
    if InTable(h) {
      AcquireIsCalm(s.At(h), tid);
      PutIsCalm(s, h, Acquire(s.At(h), tid), tid);
      TakeKeeps(s, s.Put(h, Acquire(s.At(h), tid)), tid);
      if s.Live(h) && !Satisfied(s.At(h), tid) {
        ParkKeeps(s, tid, Single(h), timeout.Finite?);
      }
    }
  }

  lemma ManyKeeps(s: State, tid: nat, handles: seq<int>, all: bool, timeout: Timeout)
    requires NoLostWakeup(s) && tid != 0
    ensures NoLostWakeup(TryMany(s, tid, handles, all, timeout).s)
  {
    LeaveKeeps(s, tid);
    if AllLive(s, handles) {
      if all && AllSatisfied(s, handles, tid) {
        AcquireAllIsCalm(s, handles, tid);
        TakeKeeps(s, AcquireAll(s, handles, tid), tid);
      } else if !all && FirstHit(s, handles, tid, 0) >= 0 {
        var h := handles[FirstHit(s, handles, tid, 0)];
        AcquireIsCalm(s.At(h), tid);
        PutIsCalm(s, h, Acquire(s.At(h), tid), tid);
        TakeKeeps(s, s.Put(h, Acquire(s.At(h), tid)), tid);
      } else {
        ParkKeeps(s, tid, Many(handles, all), timeout.Finite?);
      }
    }
  }

  lemma RegainKeeps(s: State, tid: nat, mtx: int, saved: int, rv: int)
    requires NoLostWakeup(s) && tid != 0
    ensures NoLostWakeup(TryRegain(s, tid, mtx, saved, rv).s)
    ensures NoLostWakeup(StartRegain(s, tid, mtx, saved, rv).s)
  {
    LeaveKeeps(s, tid);
    if s.Live(mtx) {
      var o := s.At(mtx);
      if o.owner != 0 && o.owner != tid {
        ParkKeeps(s, tid, Regain(mtx, saved, rv), false);
      } else {
        PutIsCalm(s, mtx, o.(owner := tid, recursion := saved), tid);
        TakeKeeps(s, s.Put(mtx, o.(owner := tid, recursion := saved)), tid);
      }
    }
  }

  lemma SleepKeeps(s: State, tid: nat, cv: int, mtx: int, gen: int, saved: int, timeout: Timeout)
    requires NoLostWakeup(s) && tid != 0
    ensures NoLostWakeup(TrySleep(s, tid, cv, mtx, gen, saved, timeout).s)
    ensures NoLostWakeup(ExpireSleep(s, tid, cv, mtx, gen, saved).s)
  {
    RegainKeeps(s, tid, mtx, saved, WAIT_FAILED);
    RegainKeeps(s, tid, mtx, saved, WAIT_OBJECT_0);
    RegainKeeps(s, tid, mtx, saved, WAIT_TIMEOUT);
    if s.Live(cv) && s.At(cv).count == gen {
      ParkKeeps(s, tid, Sleep(cv, mtx, gen, saved), timeout.Finite?);
    }
  }

  lemma StartSleepKeeps(s: State, tid: nat, cv: int, mtx: int, timeout: Timeout)
    requires NoLostWakeup(s) && tid != 0
    ensures NoLostWakeup(StartSleep(s, tid, cv, mtx, timeout).s)
  {
    if s.Is(cv, CondVar) && s.Is(mtx, Mutex) {
      Told(s.Put(mtx, s.At(mtx).(owner := 0, recursion := 0)));
      SleepKeeps(GiveUp(s, mtx), tid, cv, mtx, s.At(cv).count, Saved(s.At(mtx)), timeout);
    }
  }

  lemma StepKeeps(s: State, a: Action)
    requires NoLostWakeup(s) && Enabled(s, a)
    ensures NoLostWakeup(Step(s, a).s)
  {
    match a
    case WaitSingle(tid, h, timeout) => SingleKeeps(s, tid, h, timeout);
    case WaitMultiple(tid, handles, all, timeout) => ManyKeeps(s, tid, handles, all, timeout);
    case CvSleep(tid, cv, mtx, timeout) => StartSleepKeeps(s, tid, cv, mtx, timeout);
    case Resume(tid) => WakeKeeps(s, tid, if s.phases[tid].timed then Finite else Infinite);
    case Expire(tid) => WakeKeeps(s, tid, Finite);
    case _ => SignalKeeps(s, a);
  }

  lemma WakeKeeps(s: State, tid: nat, timeout: Timeout)
    requires NoLostWakeup(s) && tid in s.phases
    requires timeout == if s.phases[tid].timed then Finite else Infinite
    ensures NoLostWakeup(DoResume(s, tid).s)
    ensures NoLostWakeup(DoExpire(s, tid).s)
  {
    match s.phases[tid].wait
    case Single(h) => SingleKeeps(s, tid, h, timeout);
    case Many(handles, all) =>
      ManyKeeps(s, tid, handles, all, timeout);
      LeaveKeeps(s, tid);
    case Sleep(cv, mtx, gen, saved) => SleepKeeps(s, tid, cv, mtx, gen, saved, timeout);
    case Regain(mtx, saved, rv) => RegainKeeps(s, tid, mtx, saved, rv);
  }
}
