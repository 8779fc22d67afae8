/** The monitor as it runs: a table of objects changed in place. Each method is one
    stretch that holds the lock, and does exactly the step of the model. */
module SyncMonitor {
  import opened SyncModel

  class Monitor {
    const objs: array<Obj>
    /** Threads inside a wait: their local variables and whether the condition variable
        has woken them. */
    var phases: map<nat, Phase>
    /** The table of live single waits, by thread. */
    var waitq: map<nat, int>

    function Now(): State
      reads this, objs
    {
      State(objs[..], phases)
    }

    ghost predicate Valid()
      reads this, objs
    {
      && objs.Length == SYNC_MAX
      && waitq == map t | t in phases && phases[t].wait.Single? :: phases[t].wait.h
    }

    constructor ()
      ensures Valid() && Now() == State(seq(SYNC_MAX, _ => BLANK), map[]) && fresh(objs)
    {
      objs := new Obj[SYNC_MAX](_ => BLANK);
      phases := map[];
      waitq := map[];
    }

    // ---- The table ----

    method Store(h: int, o: Obj)
      requires objs.Length == SYNC_MAX && InTable(h)
      modifies objs
      ensures Now() == old(Now()).Put(h, o)
    {
      objs[h - SYNC_BASE] := o;
    }

    method Find(h: int) returns (o: Obj)
      requires objs.Length == SYNC_MAX
      ensures o.kind.Free? <==> !Now().Live(h)
      ensures Now().Live(h) ==> o == Now().At(h)
    {
      o := if InTable(h) then objs[h - SYNC_BASE] else BLANK;
    }

    method Broadcast()
      modifies `phases
      ensures Now() == old(Now()).Broadcast()
    {
      phases := map t | t in phases :: phases[t].(notified := true);
    }

    /** pthread_cond_wait, as far as the lock is held. */
    method CondWait(tid: nat, wait: Wait, timed: bool)
      modifies `phases
      ensures Now() == old(Now()).Park(tid, wait, timed)
    {
      phases := phases[tid := Parked(wait, timed, false)];
    }

    /** The thread goes on outside the monitor. */
    method Unlock(tid: nat)
      modifies this
      ensures Now() == old(Now()).Leave(tid) && waitq == old(waitq) - {tid}
    {
      phases := phases - {tid};
      waitq := waitq - {tid};
    }

    method Create(c: Creation) returns (h: int)
      requires Valid()
      modifies this, objs
      ensures Valid() && Turn(Now(), Returns(h)) == DoCreate(old(Now()), c)
    {
      h := 0;
      var i := 0;
      while i < SYNC_MAX && !objs[i].kind.Free?
        invariant i <= SYNC_MAX && FirstFree(objs[..], 0) == FirstFree(objs[..], i)
      {
        i := i + 1;
      }
      if i < SYNC_MAX {
        h := SYNC_BASE + i;
        Store(h, Made(c));
      }
    }

    // ---- Signalling ----

    method SetEvent(h: int) returns (ok: bool)
      requires Valid()
      modifies this, objs
      ensures Valid() && Turn(Now(), Flag(ok)) == DoSetEvent(old(Now()), h)
    {
      var o := Find(h);
      ok := o.kind == Event;
      if ok {
        Store(h, o.(signalled := true));
        Broadcast();
      }
    }

    method ResetEvent(h: int) returns (ok: bool)
      requires Valid()
      modifies this, objs
      ensures Valid() && Turn(Now(), Flag(ok)) == DoResetEvent(old(Now()), h)
    {
      var o := Find(h);
      ok := o.kind == Event;
      if ok {
        Store(h, o.(signalled := false));
      }
    }

    method PulseEvent(h: int) returns (ok: bool)
      requires Valid()
      modifies this, objs
      ensures Valid() && Turn(Now(), Flag(ok)) == DoPulseEvent(old(Now()), h)
      ensures ok ==> Now().Is(h, Event) && !Now().At(h).signalled && forall t | t in phases :: phases[t].notified
    {
      var o := Find(h);
      ok := o.kind == Event;
      if ok {
        Store(h, o.(signalled := true));
        Broadcast();
        Store(h, o.(signalled := false));
        assert objs[..] == old(objs[..])[h - SYNC_BASE := o.(signalled := false)];
      }
    }

    method ReleaseMutex(h: int, tid: nat) returns (ok: bool)
      requires Valid()
      modifies this, objs
      ensures Valid() && Turn(Now(), Flag(ok)) == DoReleaseMutex(old(Now()), h, tid)
    {
      var o := Find(h);
      ok := o.kind == Mutex && o.owner == tid && o.recursion > 0;
      if ok {
        var left := o.(recursion := o.recursion - 1);
        if left.recursion == 0 {
          Store(h, left.(owner := 0));
          Broadcast();
        } else {
          Store(h, left);
        }
      }
    }

    method ReleaseSemaphore(h: int, n: int) returns (ok: bool, prev: int)
      requires Valid()
      modifies this, objs
      ensures Valid() && Turn(Now(), Flag(ok)) == DoReleaseSemaphore(old(Now()), h, n)
      ensures ok ==> prev == old(Now()).At(h).count
    {
      var o := Find(h);
      ok, prev := o.kind == Semaphore, o.count;
      if ok {
        var count := o.count + n;
        if o.max > 0 && count > o.max {
          count := o.max;
        }
        Store(h, o.(count := count));
        Broadcast();
      }
    }

    method ThreadExit(h: int, code: int)
      requires Valid()
      modifies this, objs
      ensures Valid() && Turn(Now(), Returns(0)) == DoThreadExit(old(Now()), h, code)
    {
      var o := Find(h);
      if o.kind == Thread && !o.exited {
        Store(h, o.(exited := true, exitCode := code));
        Broadcast();
      }
    }

    method CvWake(h: int)
      requires Valid()
      modifies this, objs
      ensures Valid() && Turn(Now(), Returns(0)) == DoCvWake(old(Now()), h)
    {
      var o := Find(h);
      if o.kind == CondVar {
        Store(h, o.(count := o.count + 1));
        Broadcast();
      }
    }

    method Close(h: int) returns (ok: bool)
      requires Valid()
      modifies this, objs
      ensures Valid() && Turn(Now(), Flag(ok)) == DoClose(old(Now()), h)
    {
      var o := Find(h);
      ok := !o.kind.Free?;
      if ok {
        Store(h, o.(kind := Free));
        Broadcast();
      }
    }

    // ---- Waiting ----

    /** The body of wait_single's loop. */
    method SinglePass(tid: nat, h: int, timeout: Timeout) returns (out: Outcome)
      requires objs.Length == SYNC_MAX
      requires waitq == (map t | t in phases && phases[t].wait.Single? :: phases[t].wait.h)[tid := h]
      modifies this, objs
      ensures Valid() && Turn(Now(), out) == TrySingle(old(Now()), tid, h, timeout)
    {
      var o := Find(h);
      if o.kind.Free? {
        out := Returns(WAIT_FAILED);
        Unlock(tid);
      } else if Satisfied(o, tid) {
        Store(h, Acquire(o, tid));
        out := Returns(WAIT_OBJECT_0);
        Unlock(tid);
      } else if timeout == Zero {
        out := Returns(WAIT_TIMEOUT);
        Unlock(tid);
      } else {
        out := Parks;
        CondWait(tid, Single(h), timeout == Finite);
      }
    }

    method WaitSingle(tid: nat, h: int, timeout: Timeout) returns (out: Outcome)
      requires Valid() && Enabled(Now(), Action.WaitSingle(tid, h, timeout))
      modifies this, objs
      ensures Valid() && Turn(Now(), out) == TrySingle(old(Now()), tid, h, timeout)
    {
      var o := Find(h);
      if o.kind.Free? {
        return Returns(WAIT_FAILED);
      }
      waitq := waitq[tid := h];
      out := SinglePass(tid, h, timeout);
    }

    /** The body of wait_multiple's loop. */
    method ManyPass(tid: nat, handles: seq<int>, all: bool, timeout: Timeout) returns (out: Outcome)
      requires Valid() && (tid in phases ==> !phases[tid].wait.Single?)
      modifies this, objs
      ensures Valid() && Turn(Now(), out) == TryMany(old(Now()), tid, handles, all, timeout)
    {
      var allOk := Resolve(handles);
      if !allOk {
        out := Returns(WAIT_FAILED);
        Unlock(tid);
        return;
      }
      var rv := TakeMany(tid, handles, all);
      if rv >= 0 {
        out := Returns(rv);
        Unlock(tid);
      } else if timeout == Zero {
        out := Returns(WAIT_TIMEOUT);
        Unlock(tid);
      } else {
        out := Parks;
        CondWait(tid, Many(handles, all), timeout == Finite);
      }
    }

    /** Takes all of the objects, or the first satisfied one, or gives -1. */
    method TakeMany(tid: nat, handles: seq<int>, all: bool) returns (rv: int)
      requires objs.Length == SYNC_MAX && AllLive(Now(), handles)
      modifies objs
      ensures all && AllSatisfied(old(Now()), handles, tid) ==>
                rv == WAIT_OBJECT_0 && Now() == AcquireAll(old(Now()), handles, tid)
      ensures !all && FirstHit(old(Now()), handles, tid, 0) >= 0 ==>
                && rv == WAIT_OBJECT_0 + FirstHit(old(Now()), handles, tid, 0)
                && Now() == old(Now()).Put(handles[rv], Acquire(old(Now()).At(handles[rv]), tid))
      ensures rv >= 0 || Now() == old(Now())
      ensures rv >= 0 <==> if all then AllSatisfied(old(Now()), handles, tid) else FirstHit(old(Now()), handles, tid, 0) >= 0
    {
      rv := -1;
      if all {
        var every := EverySatisfied(handles, tid);
        if every {
          TakeAll(handles, tid);
          rv := WAIT_OBJECT_0;
        }
      } else {
        var hit := Hit(handles, tid);
        if hit >= 0 {
          var o := Find(handles[hit]);
          Store(handles[hit], Acquire(o, tid));
          rv := WAIT_OBJECT_0 + hit;
        }
      }
    }

    method Resolve(handles: seq<int>) returns (ok: bool)
      requires objs.Length == SYNC_MAX
      ensures ok <==> AllLive(Now(), handles)
    {
      ok := true;
      for i := 0 to |handles|
        invariant ok && AllLive(Now(), handles[..i])
      {
        var o := Find(handles[i]);
        if o.kind.Free? {
          return false;
        }
      }
      assert handles[..|handles|] == handles;
    }

    method EverySatisfied(handles: seq<int>, tid: nat) returns (every: bool)
      requires objs.Length == SYNC_MAX && AllLive(Now(), handles)
      ensures every <==> AllSatisfied(Now(), handles, tid)
    {
      every := true;
      for i := 0 to |handles|
        invariant every && forall k | 0 <= k < i :: Satisfied(Now().At(handles[k]), tid)
      {
        var o := Find(handles[i]);
        if !Satisfied(o, tid) {
          return false;
        }
      }
    }

    method Hit(handles: seq<int>, tid: nat) returns (hit: int)
      requires objs.Length == SYNC_MAX && AllLive(Now(), handles)
      ensures hit == FirstHit(Now(), handles, tid, 0)
    {
      for i := 0 to |handles|
        invariant FirstHit(Now(), handles, tid, 0) == FirstHit(Now(), handles, tid, i)
      {
        var o := Find(handles[i]);
        if Satisfied(o, tid) {
          return i;
        }
      }
      hit := -1;
    }

    method TakeAll(handles: seq<int>, tid: nat)
      requires objs.Length == SYNC_MAX && forall k | 0 <= k < |handles| :: InTable(handles[k])
      modifies objs
      ensures Now() == AcquireAll(old(Now()), handles, tid)
    {
      for i := 0 to |handles|
        invariant Now() == AcquireAll(old(Now()), handles[..i], tid)
      {
        assert handles[..i + 1][..i] == handles[..i];
        Store(handles[i], Acquire(objs[handles[i] - SYNC_BASE], tid));
      }
      assert handles[..|handles|] == handles;
    }

    method WaitMultiple(tid: nat, handles: seq<int>, all: bool, timeout: Timeout) returns (out: Outcome)
      requires Valid() && Enabled(Now(), Action.WaitMultiple(tid, handles, all, timeout))
      modifies this, objs
      ensures Valid() && Turn(Now(), out) == StartMany(old(Now()), tid, handles, all, timeout)
    {
      if |handles| <= 0 || |handles| > MAX_HANDLES {
        return Returns(WAIT_FAILED);
      }
      out := ManyPass(tid, handles, all, timeout);
    }

    // ---- Condition variables ----

    method CvSleep(tid: nat, cv: int, mtx: int, timeout: Timeout) returns (out: Outcome)
      requires Valid() && Enabled(Now(), Action.CvSleep(tid, cv, mtx, timeout))
      modifies this, objs
      ensures Valid() && Turn(Now(), out) == StartSleep(old(Now()), tid, cv, mtx, timeout)
    {
      var c := Find(cv);
      var m := Find(mtx);
      if c.kind != CondVar || m.kind != Mutex {
        return Returns(WAIT_FAILED);
      }
      var saved := if m.recursion > 0 then m.recursion else 1;
      Store(mtx, m.(owner := 0, recursion := 0));
      Broadcast();
      assert Now() == GiveUp(old(Now()), mtx);
      out := SleepPass(tid, cv, mtx, c.count, saved, timeout);
    }

    /** The body of cv_sleep's first loop. */
    method SleepPass(tid: nat, cv: int, mtx: int, gen: int, saved: int, timeout: Timeout) returns (out: Outcome)
      requires Valid() && (tid in phases ==> !phases[tid].wait.Single?)
      modifies this, objs
      ensures Valid() && Turn(Now(), out) == TrySleep(old(Now()), tid, cv, mtx, gen, saved, timeout)
    {
      var c := Find(cv);
      if c.kind.Free? {
        out := RegainFirst(tid, mtx, saved, WAIT_FAILED);
      } else if c.count != gen {
        out := RegainFirst(tid, mtx, saved, WAIT_OBJECT_0);
      } else if timeout == Zero {
        out := RegainFirst(tid, mtx, saved, WAIT_TIMEOUT);
      } else {
        out := Parks;
        CondWait(tid, Sleep(cv, mtx, gen, saved), timeout == Finite);
      }
    }

    method RegainFirst(tid: nat, mtx: int, saved: int, rv: int) returns (out: Outcome)
      requires Valid() && (tid in phases ==> !phases[tid].wait.Single?)
      modifies this, objs
      ensures Valid() && Turn(Now(), out) == StartRegain(old(Now()), tid, mtx, saved, rv)
    {
      var m := Find(mtx);
      if m.kind == Mutex {
        out := RegainPass(tid, mtx, saved, rv);
      } else {
        out := Returns(rv);
        Unlock(tid);
      }
    }

    /** The body of cv_sleep's second loop. */
    method RegainPass(tid: nat, mtx: int, saved: int, rv: int) returns (out: Outcome)
      requires Valid() && (tid in phases ==> !phases[tid].wait.Single?)
      modifies this, objs
      ensures Valid() && Turn(Now(), out) == TryRegain(old(Now()), tid, mtx, saved, rv)
    {
      var m := Find(mtx);
      if m.kind.Free? {
        out := Returns(rv);
        Unlock(tid);
      } else if m.owner != 0 && m.owner != tid {
        out := Parks;
        CondWait(tid, Regain(mtx, saved, rv), false);
      } else {
        Store(mtx, m.(owner := tid, recursion := saved));
        out := Returns(rv);
        Unlock(tid);
      }
    }

    // ---- Back from the condition variable ----

    /** pthread_cond_wait returns: the thread makes another pass of its loop. */
    method Resume(tid: nat) returns (out: Outcome)
      requires Valid() && tid in phases
      modifies this, objs
      ensures Valid() && Turn(Now(), out) == DoResume(old(Now()), tid)
    {
      var timeout := if phases[tid].timed then Finite else Infinite;
      match phases[tid].wait
      case Single(h) => out := SinglePass(tid, h, timeout);
      case Many(handles, all) => out := ManyPass(tid, handles, all, timeout);
      case Sleep(cv, mtx, gen, saved) => out := SleepPass(tid, cv, mtx, gen, saved, timeout);
      case Regain(mtx, saved, rv) => out := RegainPass(tid, mtx, saved, rv);
    }

    /** pthread_cond_timedwait returns ETIMEDOUT. */
    method Expire(tid: nat) returns (out: Outcome)
      requires Valid() && tid in phases
      modifies this, objs
      ensures Valid() && Turn(Now(), out) == DoExpire(old(Now()), tid)
    {
      match phases[tid].wait
      case Single(h) =>
        out := Returns(WAIT_TIMEOUT);
        if InTable(h) {
          var o := objs[h - SYNC_BASE];
          if Satisfied(o, tid) {
            Store(h, Acquire(o, tid));
            out := Returns(WAIT_OBJECT_0);
          }
        }
        Unlock(tid);
      case Many(_, _) =>
        out := Returns(WAIT_TIMEOUT);
        Unlock(tid);
      case Sleep(cv, mtx, gen, saved) =>
        var moved := InTable(cv) && objs[cv - SYNC_BASE].count != gen;
        out := RegainFirst(tid, mtx, saved, if moved then WAIT_OBJECT_0 else WAIT_TIMEOUT);
      case Regain(mtx, saved, rv) =>
        out := RegainPass(tid, mtx, saved, rv);
    }

    // ---- Kicks ----

    /** Signals the auto-reset event that tid waits for. */
    method KickTid(tid: nat) returns (kicked: int)
      requires Valid() && 0 !in phases
      modifies this, objs
      ensures Valid() && Turn(Now(), Returns(kicked)) == DoKickTid(old(Now()), tid)
    {
      kicked := 0;
      if tid != 0 && tid in waitq {
        var h := waitq[tid];
        var o := Find(h);
        if o.kind == Event && !o.manual && !o.signalled {
          Store(h, o.(signalled := true));
          kicked := 1;
        }
      }
      if kicked > 0 {
        Broadcast();
      }
    }

    /** The deadlock breaker: signals the events that single waits are parked on and,
        when asked, moves every condition variable on. */
    method KickWorkers(everyone: bool, manuals: bool, condVars: bool) returns (kicked: int)
      requires Valid()
      modifies this, objs
      ensures Valid()
      ensures Turn(Now(), Returns(kicked)) == DoKickWorkers(old(Now()), Action.KickWorkers(everyone, manuals, condVars))
    {
      ghost var a := Action.KickWorkers(everyone, manuals, condVars);
      kicked := KickEvents(everyone, manuals, a);
      if condVars {
        var more := KickCondVars(a, Now().objs, old(Now()));
        kicked := kicked + more;
      }
      assert objs[..] == seq(SYNC_MAX, i requires 0 <= i < SYNC_MAX => KickedObj(old(Now()), i, a));
      NothingKicked(old(objs[..]), objs[..]);
      if kicked > 0 {
        Broadcast();
      }
    }

    ghost predicate EventKicked(s: State, i: nat, tids: set<nat>, a: Action)
      requires s.Ok() && i < SYNC_MAX && a.KickWorkers?
    {
      Kickable(s, SYNC_BASE + i, a.everyone, a.manuals)
      && exists t | t in tids && t in s.phases && s.phases[t].wait == Single(SYNC_BASE + i) :: a.everyone || t != 1
    }

    ghost function AfterEvents(s: State, i: nat, tids: set<nat>, a: Action): Obj
      requires s.Ok() && i < SYNC_MAX && a.KickWorkers?
    {
      if EventKicked(s, i, tids, a) then s.objs[i].(signalled := true) else s.objs[i]
    }

    method KickEvents(everyone: bool, manuals: bool, ghost a: Action) returns (kicked: int)
      requires Valid() && a.KickWorkers? && a.everyone == everyone && a.manuals == manuals
      modifies objs
      ensures kicked == Changes(old(objs[..]), objs[..], SYNC_MAX)
      ensures forall i | 0 <= i < SYNC_MAX :: objs[i] == AfterEvents(old(Now()), i, phases.Keys, a)
    {
      kicked := 0;
      NoChanges(objs[..], SYNC_MAX);
      ghost var done: set<nat> := {};
      var todo := waitq.Keys;
      while todo != {}
        invariant done + todo == waitq.Keys && done !! todo
        invariant kicked == Changes(old(objs[..]), objs[..], SYNC_MAX)
        invariant forall i | 0 <= i < SYNC_MAX :: objs[i] == AfterEvents(old(Now()), i, done, a)
        decreases |todo|
      {
        var t :| t in todo;
        todo := todo - {t};
        if everyone || t != 1 {
          kicked := KickEvent(t, manuals, old(Now()), done, a, kicked);
        }
        done := done + {t};
      }
    }

    /** One entry of the table of live waits. */
    method KickEvent(t: nat, manuals: bool, ghost s: State, ghost done: set<nat>, ghost a: Action, kicked0: int) returns (kicked: int)
      requires objs.Length == SYNC_MAX && t in waitq && a.KickWorkers? && a.manuals == manuals && (a.everyone || t != 1)
      requires s.Ok() && t in s.phases && s.phases[t].wait == Single(waitq[t])
      requires forall i | 0 <= i < SYNC_MAX :: objs[i] == AfterEvents(s, i, done, a)
      requires kicked0 == Changes(s.objs, objs[..], SYNC_MAX)
      modifies objs
      ensures kicked == Changes(s.objs, objs[..], SYNC_MAX)
      ensures forall i | 0 <= i < SYNC_MAX :: objs[i] == AfterEvents(s, i, done + {t}, a)
    {
      kicked := kicked0;
      var h := waitq[t];
      var o := Find(h);
      if o.kind == Event && (manuals || !o.manual) && !o.signalled {
        OneMoreChange(s.objs, objs[..], h - SYNC_BASE, o.(signalled := true), SYNC_MAX);
        Store(h, o.(signalled := true));
        kicked := kicked + 1;
      }
    }

    method KickCondVars(ghost a: Action, ghost mid: seq<Obj>, ghost s: State) returns (kicked: int)
      requires objs.Length == SYNC_MAX && a.KickWorkers? && a.condVars && s.Ok() && mid == objs[..]
      requires forall i | 0 <= i < SYNC_MAX :: objs[i] == AfterEvents(s, i, s.phases.Keys, a)
      modifies objs
      ensures Changes(s.objs, objs[..], SYNC_MAX) == Changes(s.objs, mid, SYNC_MAX) + kicked
      ensures forall i | 0 <= i < SYNC_MAX :: objs[i] == KickedObj(s, i, a)
    {
      kicked := 0;
      for i := 0 to SYNC_MAX
        invariant Changes(s.objs, objs[..], SYNC_MAX) == Changes(s.objs, mid, SYNC_MAX) + kicked
        invariant forall k | 0 <= k < i :: objs[k] == KickedObj(s, k, a)
        invariant forall k | i <= k < SYNC_MAX :: objs[k] == mid[k]
      {
        var o := objs[i];
        if o.kind == CondVar {
          OneMoreChange(s.objs, objs[..], i, o.(count := o.count + 1), SYNC_MAX);
          Store(SYNC_BASE + i, o.(count := o.count + 1));
          kicked := kicked + 1;
        }
      }
    }
  }

  lemma {:induction false} NoChanges(a: seq<Obj>, n: nat)
    requires n <= |a|
    ensures Changes(a, a, n) == 0
  {
    if n > 0 {
      NoChanges(a, n - 1);
    }
  }

  lemma NothingKicked(a: seq<Obj>, b: seq<Obj>)
    requires |a| == |b| == SYNC_MAX
    ensures Changes(a, b, SYNC_MAX) == 0 ==> a == b
  {
    assert a[..SYNC_MAX] == a && b[..SYNC_MAX] == b;
  }

  lemma {:induction false} OneMoreChange(a: seq<Obj>, b: seq<Obj>, i: nat, o: Obj, n: nat)
    requires |a| == |b| && n <= |a| && i < |a| && b[i] == a[i] && o != a[i]
    ensures Changes(a, b[i := o], n) == Changes(a, b, n) + (if i < n then 1 else 0)
  {
    if n > 0 {
      OneMoreChange(a, b, i, o, n - 1);
    }
  }
}
