/** The Win32 synchronisation objects behind one lock and one broadcast condition
    variable, as a transition system: every stretch of code that holds the lock is
    one step, and a thread inside a wait is parked, with or without a notification
    it has not acted on yet. */
module SyncModel {

  const SYNC_MAX: nat := 8192
  const SYNC_BASE := 0x9_0000

  const WAIT_OBJECT_0 := 0
  const WAIT_TIMEOUT := 0x102
  const WAIT_FAILED := 0xFFFF_FFFF
  const MAX_HANDLES := 64

  datatype Kind = Free | Event | Mutex | Semaphore | Thread | CondVar

  /** One record of the object table; which fields matter depends on the kind. */
  datatype Obj = Obj(kind: Kind, manual: bool, signalled: bool, owner: nat, recursion: int,
                     count: int, max: int, exited: bool, exitCode: int)

  const BLANK := Obj(Free, false, false, 0, 0, 0, 0, false, 0)

  /** What a parked thread waits for: an object, several objects, a condition
      variable's generation to move on, or the mutex it gave up for that. */
  datatype Wait =
    | Single(h: int)
    | Many(handles: seq<int>, all: bool)
    | Sleep(cv: int, mtx: int, gen: int, saved: int)
    | Regain(mtx: int, saved: int, rv: int)

  datatype Phase = Parked(wait: Wait, timed: bool, notified: bool)

  datatype Timeout = Zero | Finite | Infinite

  /** The object table, and the threads that are inside a wait. */
  datatype State = State(objs: seq<Obj>, phases: map<nat, Phase>) {
    predicate Ok() {
      |objs| == SYNC_MAX
    }

    predicate Live(h: int)
      requires Ok()
    {
      InTable(h) && At(h).kind != Free
    }

    function At(h: int): Obj
      requires Ok() && InTable(h)
    {
      objs[h - SYNC_BASE]
    }

    function Put(h: int, o: Obj): (s: State)
      requires Ok() && InTable(h)
      ensures s.Ok()
    {
      this.(objs := objs[h - SYNC_BASE := o])
    }

    predicate Is(h: int, kind: Kind)
      requires Ok() && kind != Free
    {
      InTable(h) && At(h).kind == kind
    }

    function Leave(tid: nat): State {
      this.(phases := phases - {tid})
    }

    function Park(tid: nat, wait: Wait, timed: bool): State {
      this.(phases := phases[tid := Parked(wait, timed, false)])
    }

    /** pthread_cond_broadcast. */
    function Broadcast(): State {
      this.(phases := map t | t in phases :: phases[t].(notified := true))
    }
  }

  predicate InTable(h: int) {
    SYNC_BASE <= h < SYNC_BASE + SYNC_MAX
  }

  // ---- Objects ----

  predicate Satisfied(o: Obj, tid: nat) {
    match o.kind
    case Event => o.signalled
    case Mutex => o.owner == 0 || o.owner == tid
    case Semaphore => o.count > 0
    case Thread => o.exited
    case CondVar => false
    case Free => false
  }

  function Acquire(o: Obj, tid: nat): Obj {
    match o.kind
    case Event => if o.manual then o else o.(signalled := false)
    case Mutex => o.(owner := tid, recursion := o.recursion + 1)
    case Semaphore => o.(count := o.count - 1)
    case Thread => o
    case CondVar => o
    case Free => o
  }

  /** The first free slot at or after i. */
  function FirstFree(objs: seq<Obj>, i: nat): (r: int)
    requires i <= |objs|
    ensures r == -1 || (i <= r < |objs| && objs[r].kind.Free?)
    ensures forall k | i <= k < (if r == -1 then |objs| else r) :: !objs[k].kind.Free?
    decreases |objs| - i
  {
    if i == |objs| then -1 else if objs[i].kind.Free? then i else FirstFree(objs, i + 1)
  }

  datatype Creation =
    | NewEvent(manual: bool, signalled: bool)
    | NewMutex(owned: bool, tid: nat)
    | NewSemaphore(initial: int, max: int)
    | NewThread(tid: nat)
    | NewCondVar

  function Made(c: Creation): (o: Obj)
    ensures !o.kind.Free?
  {
    match c
    case NewEvent(manual, signalled) => BLANK.(kind := Event, manual := manual, signalled := signalled)
    case NewMutex(owned, tid) =>
      BLANK.(kind := Mutex, owner := if owned then tid else 0, recursion := if owned then 1 else 0)
    case NewSemaphore(initial, max) => BLANK.(kind := Semaphore, count := initial, max := max)
    case NewThread(tid) => BLANK.(kind := Thread, owner := tid)
    case NewCondVar => BLANK.(kind := CondVar)
  }

  // ---- Steps ----

  datatype Outcome = Parks | Returns(rv: int)
  datatype Turn = Turn(s: State, out: Outcome)

  function Flag(ok: bool): Outcome {
    Returns(if ok then 1 else 0)
  }

  datatype Action =
    | Create(what: Creation)
    | SetEvent(h: int)
    | ResetEvent(h: int)
    | PulseEvent(h: int)
    | ReleaseMutex(h: int, tid: nat)
    | ReleaseSemaphore(h: int, n: int)
    | ThreadExit(h: int, code: int)
    | CvWake(h: int)
    | Close(h: int)
    | KickWorkers(everyone: bool, manuals: bool, condVars: bool)
    | KickTid(tid: nat)
    | WaitSingle(tid: nat, h: int, timeout: Timeout)
    | WaitMultiple(tid: nat, handles: seq<int>, all: bool, timeout: Timeout)
    | CvSleep(tid: nat, cv: int, mtx: int, timeout: Timeout)
    | Resume(tid: nat)
    | Expire(tid: nat)

  /** Only a running thread starts a wait; only a parked one wakes, on a notification
      or spuriously; only a timed wait expires. */
  predicate Enabled(s: State, a: Action) {
    match a
    case WaitSingle(tid, _, _) => tid != 0 && tid !in s.phases
    case WaitMultiple(tid, _, _, _) => tid != 0 && tid !in s.phases
    case CvSleep(tid, _, _, _) => tid != 0 && tid !in s.phases
    case Resume(tid) => tid in s.phases
    case Expire(tid) => tid in s.phases && s.phases[tid].timed
    case _ => true
  }

  function DoCreate(s: State, c: Creation): Turn
    requires s.Ok()
  {
    var i := FirstFree(s.objs, 0);
    if i == -1 then Turn(s, Returns(0)) else Turn(s.Put(SYNC_BASE + i, Made(c)), Returns(SYNC_BASE + i))
  }

  function DoSetEvent(s: State, h: int): Turn
    requires s.Ok()
  {
    if s.Is(h, Event) then Turn(s.Put(h, s.At(h).(signalled := true)).Broadcast(), Flag(true)) else Turn(s, Flag(false))
  }

  function DoResetEvent(s: State, h: int): Turn
    requires s.Ok()
  {
    if s.Is(h, Event) then Turn(s.Put(h, s.At(h).(signalled := false)), Flag(true)) else Turn(s, Flag(false))
  }

  /** Set, broadcast and reset happen under one lock hold: waiters only ever see the
      reset event. */
  function DoPulseEvent(s: State, h: int): Turn
    requires s.Ok()
  {
    if s.Is(h, Event) then Turn(s.Put(h, s.At(h).(signalled := false)).Broadcast(), Flag(true)) else Turn(s, Flag(false))
  }

  predicate Holds(o: Obj, tid: nat) {
    o.kind == Mutex && o.owner == tid && o.recursion > 0
  }

  function DoReleaseMutex(s: State, h: int, tid: nat): Turn
    requires s.Ok()
  {
    if s.Live(h) && Holds(s.At(h), tid) then
      var o := s.At(h);
      if o.recursion == 1 then Turn(s.Put(h, o.(owner := 0, recursion := 0)).Broadcast(), Flag(true))
      else Turn(s.Put(h, o.(recursion := o.recursion - 1)), Flag(true))
    else Turn(s, Flag(false))
  }

  function Clamped(count: int, max: int): int {
    if max > 0 && count > max then max else count
  }

  function DoReleaseSemaphore(s: State, h: int, n: int): Turn
    requires s.Ok()
  {
    if s.Is(h, Semaphore) then
      var o := s.At(h);
      Turn(s.Put(h, o.(count := Clamped(o.count + n, o.max))).Broadcast(), Flag(true))
    else Turn(s, Flag(false))
  }

  function DoThreadExit(s: State, h: int, code: int): Turn
    requires s.Ok()
  {
    if s.Is(h, Thread) && !s.At(h).exited then
      Turn(s.Put(h, s.At(h).(exited := true, exitCode := code)).Broadcast(), Returns(0))
    else Turn(s, Returns(0))
  }

  function DoCvWake(s: State, h: int): Turn
    requires s.Ok()
  {
    if s.Is(h, CondVar) then Turn(s.Put(h, s.At(h).(count := s.At(h).count + 1)).Broadcast(), Returns(0))
    else Turn(s, Returns(0))
  }

  function DoClose(s: State, h: int): Turn
    requires s.Ok()
  {
    if s.Live(h) then Turn(s.Put(h, s.At(h).(kind := Free)).Broadcast(), Flag(true)) else Turn(s, Flag(false))
  }

  /** Whether some thread that may be kicked waits for this single handle. */
  ghost predicate WaitedOn(s: State, h: int, everyone: bool) {
    exists t | t in s.phases && s.phases[t].wait == Single(h) :: everyone || t != 1
  }

  ghost predicate Kickable(s: State, h: int, everyone: bool, manuals: bool)
    requires s.Ok()
  {
    s.Is(h, Event) && WaitedOn(s, h, everyone) && (manuals || !s.At(h).manual) && !s.At(h).signalled
  }

  ghost function KickedObj(s: State, i: nat, a: Action): Obj
    requires s.Ok() && i < SYNC_MAX && a.KickWorkers?
  {
    var o := s.objs[i];
    if Kickable(s, SYNC_BASE + i, a.everyone, a.manuals) then o.(signalled := true)
    else if a.condVars && o.kind == CondVar then o.(count := o.count + 1)
    else o
  }

  /** How many of the first n slots differ. */
  function Changes(a: seq<Obj>, b: seq<Obj>, n: nat): (k: nat)
    requires |a| == |b| && n <= |a|
    ensures k == 0 ==> a[..n] == b[..n]
  {
    if n == 0 then 0 else Changes(a, b, n - 1) + (if a[n - 1] != b[n - 1] then 1 else 0)
  }

  ghost function DoKickWorkers(s: State, a: Action): Turn
    requires s.Ok() && a.KickWorkers?
  {
    var objs := seq(SYNC_MAX, i requires 0 <= i < SYNC_MAX => KickedObj(s, i, a));
    var kicked := Changes(s.objs, objs, SYNC_MAX);
    Turn(if kicked > 0 then s.(objs := objs).Broadcast() else s, Returns(kicked))
  }

  function DoKickTid(s: State, tid: nat): Turn
    requires s.Ok()
  {
    if tid in s.phases && s.phases[tid].wait.Single? then
      var h := s.phases[tid].wait.h;
      if s.Is(h, Event) && !s.At(h).manual && !s.At(h).signalled
      then Turn(s.Put(h, s.At(h).(signalled := true)).Broadcast(), Returns(1)) else Turn(s, Returns(0))
    else Turn(s, Returns(0))
  }

  /** One pass of wait_single's loop. */
  function TrySingle(s: State, tid: nat, h: int, timeout: Timeout): Turn
    requires s.Ok()
  {
    if !s.Live(h) then Turn(s.Leave(tid), Returns(WAIT_FAILED))
    else if Satisfied(s.At(h), tid) then Turn(s.Put(h, Acquire(s.At(h), tid)).Leave(tid), Returns(WAIT_OBJECT_0))
    else if timeout.Zero? then Turn(s.Leave(tid), Returns(WAIT_TIMEOUT))
    else Turn(s.Park(tid, Single(h), timeout.Finite?), Parks)
  }

  /** An expired single wait looks at the object's slot once more. */
  function ExpireSingle(s: State, tid: nat, h: int): Turn
    requires s.Ok()
  {
    if InTable(h) && Satisfied(s.At(h), tid) then Turn(s.Put(h, Acquire(s.At(h), tid)).Leave(tid), Returns(WAIT_OBJECT_0))
    else Turn(s.Leave(tid), Returns(WAIT_TIMEOUT))
  }

  predicate AllLive(s: State, handles: seq<int>)
    requires s.Ok()
  {
    forall k | 0 <= k < |handles| :: s.Live(handles[k])
  }

  predicate AllSatisfied(s: State, handles: seq<int>, tid: nat)
    requires s.Ok() && AllLive(s, handles)
  {
    forall k | 0 <= k < |handles| :: Satisfied(s.At(handles[k]), tid)
  }

  /** The index of the first satisfied object at or after i, or -1. */
  function FirstHit(s: State, handles: seq<int>, tid: nat, i: nat): (hit: int)
    requires s.Ok() && AllLive(s, handles) && i <= |handles|
    ensures hit == -1 || (i <= hit < |handles| && Satisfied(s.At(handles[hit]), tid))
    ensures forall k | i <= k < (if hit == -1 then |handles| else hit) :: !Satisfied(s.At(handles[k]), tid)
    decreases |handles| - i
  {
    if i == |handles| then -1
    else if Satisfied(s.At(handles[i]), tid) then i
    else FirstHit(s, handles, tid, i + 1)
  }

  function AcquireAll(s: State, handles: seq<int>, tid: nat): (r: State)
    requires s.Ok() && forall k | 0 <= k < |handles| :: InTable(handles[k])
    ensures r.Ok() && r.phases == s.phases
    decreases |handles|
  {
    if handles == [] then s
    else
      var n := |handles| - 1;
      var done := AcquireAll(s, handles[..n], tid);
      done.Put(handles[n], Acquire(done.At(handles[n]), tid))
  }

  /** One pass of wait_multiple's loop. */
  function TryMany(s: State, tid: nat, handles: seq<int>, all: bool, timeout: Timeout): Turn
    requires s.Ok()
  {
    if !AllLive(s, handles) then Turn(s.Leave(tid), Returns(WAIT_FAILED))
    else if all && AllSatisfied(s, handles, tid) then
      Turn(AcquireAll(s, handles, tid).Leave(tid), Returns(WAIT_OBJECT_0))
    else if !all && FirstHit(s, handles, tid, 0) >= 0 then
      var hit := FirstHit(s, handles, tid, 0);
      var h := handles[hit];
      Turn(s.Put(h, Acquire(s.At(h), tid)).Leave(tid), Returns(WAIT_OBJECT_0 + hit))
    else if timeout.Zero? then Turn(s.Leave(tid), Returns(WAIT_TIMEOUT))
    else Turn(s.Park(tid, Many(handles, all), timeout.Finite?), Parks)
  }

  function StartMany(s: State, tid: nat, handles: seq<int>, all: bool, timeout: Timeout): Turn
    requires s.Ok()
  {
    if |handles| == 0 || |handles| > MAX_HANDLES then Turn(s, Returns(WAIT_FAILED))
    else TryMany(s, tid, handles, all, timeout)
  }

  /** SleepConditionVariableCS gives the mutex up, whatever its depth, and tells
      everybody. */
  function GiveUp(s: State, mtx: int): State
    requires s.Ok() && InTable(mtx)
  {
    s.Put(mtx, s.At(mtx).(owner := 0, recursion := 0)).Broadcast()
  }

  function Saved(o: Obj): int {
    if o.recursion > 0 then o.recursion else 1
  }

  function StartSleep(s: State, tid: nat, cv: int, mtx: int, timeout: Timeout): Turn
    requires s.Ok()
  {
    if !s.Is(cv, CondVar) || !s.Is(mtx, Mutex) then Turn(s, Returns(WAIT_FAILED))
    else TrySleep(GiveUp(s, mtx), tid, cv, mtx, s.At(cv).count, Saved(s.At(mtx)), timeout)
  }

  /** One pass of cv_sleep's first loop. */
  function TrySleep(s: State, tid: nat, cv: int, mtx: int, gen: int, saved: int, timeout: Timeout): Turn
    requires s.Ok()
  {
    if !s.Live(cv) then StartRegain(s, tid, mtx, saved, WAIT_FAILED)
    else if s.At(cv).count != gen then StartRegain(s, tid, mtx, saved, WAIT_OBJECT_0)
    else if timeout.Zero? then StartRegain(s, tid, mtx, saved, WAIT_TIMEOUT)
    else Turn(s.Park(tid, Sleep(cv, mtx, gen, saved), timeout.Finite?), Parks)
  }

  function ExpireSleep(s: State, tid: nat, cv: int, mtx: int, gen: int, saved: int): Turn
    requires s.Ok()
  {
    StartRegain(s, tid, mtx, saved, if InTable(cv) && s.At(cv).count != gen then WAIT_OBJECT_0 else WAIT_TIMEOUT)
  }

  function StartRegain(s: State, tid: nat, mtx: int, saved: int, rv: int): Turn
    requires s.Ok()
  {
    if !s.Is(mtx, Mutex) then Turn(s.Leave(tid), Returns(rv)) else TryRegain(s, tid, mtx, saved, rv)
  }

  /** One pass of cv_sleep's second loop. */
  function TryRegain(s: State, tid: nat, mtx: int, saved: int, rv: int): Turn
    requires s.Ok()
  {
    if !s.Live(mtx) then Turn(s.Leave(tid), Returns(rv))
    else if s.At(mtx).owner != 0 && s.At(mtx).owner != tid then Turn(s.Park(tid, Regain(mtx, saved, rv), false), Parks)
    else Turn(s.Put(mtx, s.At(mtx).(owner := tid, recursion := saved)).Leave(tid), Returns(rv))
  }

  function DoResume(s: State, tid: nat): Turn
    requires s.Ok() && tid in s.phases
  {
    var timeout := if s.phases[tid].timed then Finite else Infinite;
    match s.phases[tid].wait
    case Single(h) => TrySingle(s, tid, h, timeout)
    case Many(handles, all) => TryMany(s, tid, handles, all, timeout)
    case Sleep(cv, mtx, gen, saved) => TrySleep(s, tid, cv, mtx, gen, saved, timeout)
    case Regain(mtx, saved, rv) => TryRegain(s, tid, mtx, saved, rv)
  }

  /** ETIMEDOUT: a single wait looks once more, a multiple wait does not. */
  function DoExpire(s: State, tid: nat): Turn
    requires s.Ok() && tid in s.phases
  {
    match s.phases[tid].wait
    case Single(h) => ExpireSingle(s, tid, h)
    case Many(_, _) => Turn(s.Leave(tid), Returns(WAIT_TIMEOUT))
    case Sleep(cv, mtx, gen, saved) => ExpireSleep(s, tid, cv, mtx, gen, saved)
    case Regain(mtx, saved, rv) => TryRegain(s, tid, mtx, saved, rv)
  }

  ghost function Step(s: State, a: Action): (r: Turn)
    requires s.Ok() && Enabled(s, a)
    ensures r.s.Ok()
  {
    match a
    case Create(c) => DoCreate(s, c)
    case SetEvent(h) => DoSetEvent(s, h)
    case ResetEvent(h) => DoResetEvent(s, h)
    case PulseEvent(h) => DoPulseEvent(s, h)
    case ReleaseMutex(h, tid) => DoReleaseMutex(s, h, tid)
    case ReleaseSemaphore(h, n) => DoReleaseSemaphore(s, h, n)
    case ThreadExit(h, code) => DoThreadExit(s, h, code)
    case CvWake(h) => DoCvWake(s, h)
    case Close(h) => DoClose(s, h)
    case KickWorkers(_, _, _) => DoKickWorkers(s, a)
    case KickTid(tid) => DoKickTid(s, tid)
    case WaitSingle(tid, h, timeout) => TrySingle(s, tid, h, timeout)
    case WaitMultiple(tid, handles, all, timeout) => StartMany(s, tid, handles, all, timeout)
    case CvSleep(tid, cv, mtx, timeout) => StartSleep(s, tid, cv, mtx, timeout)
    case Resume(tid) => DoResume(s, tid)
    case Expire(tid) => DoExpire(s, tid)
  }
}
