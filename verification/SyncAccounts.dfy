/** Books kept beside the monitor as its steps are taken, and the laws that tie the
    object table to them in every run: mutual exclusion with recursion, conservation of
    semaphore units, and no event passed more often than it was signalled. A step is
    booked by what it was called for and what it returned; the objects' kinds, a release's
    overflow, the events that a kick sets and the depth that a sleeper comes back to are
    read from the state before it. */
module SyncAccounts {
  import opened SyncModel

  /** One object's books: acquisitions each thread has not released; units added,
      dropped at the maximum and taken; signals given and waits passed. */
  datatype Account = Account(held: map<nat, int>, added: int, dropped: int, taken: int, signals: int, passed: int)

  const EMPTY := Account(map[], 0, 0, 0, 0, 0)

  function Held(acc: Account, tid: nat): int {
    if tid in acc.held then acc.held[tid] else 0
  }

  function Hold(acc: Account, tid: nat, n: int): Account {
    acc.(held := acc.held[tid := n])
  }

  function Opened(c: Creation): Account {
    match c
    case NewMutex(owned, tid) => if owned then Hold(EMPTY, tid, 1) else EMPTY
    case NewSemaphore(initial, _) => EMPTY.(added := initial)
    case NewEvent(_, signalled) => EMPTY.(signals := if signalled then 1 else 0)
    case _ => EMPTY
  }

  /** A wait of thread tid succeeded on an object of this kind. */
  function Grant(acc: Account, kind: Kind, tid: nat): Account {
    match kind
    case Mutex => Hold(acc, tid, Held(acc, tid) + 1)
    case Semaphore => acc.(taken := acc.taken + 1)
    case Event => acc.(passed := acc.passed + 1)
    case _ => acc
  }

  type Ledger = seq<Account>

  function Entry(l: Ledger, h: int): Account
    requires |l| == SYNC_MAX && InTable(h)
  {
    l[h - SYNC_BASE]
  }

  function Post(l: Ledger, h: int, acc: Account): Ledger
    requires |l| == SYNC_MAX && InTable(h)
  {
    l[h - SYNC_BASE := acc]
  }

  function Signalled(l: Ledger, h: int): Ledger
    requires |l| == SYNC_MAX && InTable(h)
  {
    Post(l, h, Entry(l, h).(signals := Entry(l, h).signals + 1))
  }

  function Granted(s: State, l: Ledger, h: int, tid: nat): Ledger
    requires s.Ok() && |l| == SYNC_MAX && InTable(h)
  {
    Post(l, h, Grant(Entry(l, h), s.At(h).kind, tid))
  }

  /** A wait on several objects got all of them, each once. */
  function GrantedAll(s: State, l: Ledger, handles: seq<int>, tid: nat): Ledger
    requires s.Ok() && |l| == SYNC_MAX
  {
    seq(SYNC_MAX, i requires 0 <= i < SYNC_MAX =>
      if SYNC_BASE + i in handles then Grant(l[i], s.objs[i].kind, tid) else l[i])
  }

  /** What the return value of a wait says was acquired. */
  function Received(s: State, l: Ledger, tid: nat, w: Wait, out: Outcome): Ledger
    requires s.Ok() && |l| == SYNC_MAX
  {
    if out.Parks? then l
    else match w
      case Single(h) => if out.rv == WAIT_OBJECT_0 && InTable(h) then Granted(s, l, h, tid) else l
      case Many(handles, all) =>
        if !(0 <= out.rv < |handles| <= MAX_HANDLES) then l
        else if all then GrantedAll(s, l, handles, tid)
        else if InTable(handles[out.rv]) then Granted(s, l, handles[out.rv], tid)
        else l
      case Sleep(_, mtx, _, saved) => if InTable(mtx) then Post(l, mtx, Hold(Entry(l, mtx), tid, saved)) else l
      case Regain(mtx, saved, _) => if InTable(mtx) then Post(l, mtx, Hold(Entry(l, mtx), tid, saved)) else l
  }

  /** What lies above a semaphore's maximum, if it has one. */
  function Overflow(sum: int, max: int): int {
    if 0 < max < sum then sum - max else 0
  }

  ghost function Book(s: State, l: Ledger, a: Action): (l': Ledger)
    requires s.Ok() && Enabled(s, a) && |l| == SYNC_MAX
    ensures |l'| == SYNC_MAX
  {
    var out := Step(s, a).out;
    var ok := out == Flag(true);
    match a
    case Create(c) => if out.rv != 0 then Post(l, out.rv, Opened(c)) else l
    case SetEvent(h) => if ok then Signalled(l, h) else l
    case KickTid(tid) => if out.rv == 1 then Signalled(l, s.phases[tid].wait.h) else l
    case KickWorkers(_, _, _) =>
      seq(SYNC_MAX, i requires 0 <= i < SYNC_MAX => if KickedObj(s, i, a).signalled && !s.objs[i].signalled
                                                    then l[i].(signals := l[i].signals + 1) else l[i])
    case ReleaseMutex(h, tid) => if ok then Post(l, h, Hold(Entry(l, h), tid, Held(Entry(l, h), tid) - 1)) else l
    case ReleaseSemaphore(h, n) =>
      if !ok then l
      else
        var e := Entry(l, h);
        Post(l, h, e.(added := e.added + n, dropped := e.dropped + Overflow(s.At(h).count + n, s.At(h).max)))
    case WaitSingle(tid, h, _) => Received(s, l, tid, Single(h), out)
    case WaitMultiple(tid, handles, all, _) => Received(s, l, tid, Many(handles, all), out)
    case CvSleep(tid, cv, mtx, _) =>
      if !s.Is(cv, CondVar) || !s.Is(mtx, Mutex) then l
      else Received(s, Post(l, mtx, Hold(Entry(l, mtx), tid, 0)), tid, Regain(mtx, Saved(s.At(mtx)), 0), out)
    case Resume(tid) => Received(s, l, tid, s.phases[tid].wait, out)
    case Expire(tid) => Received(s, l, tid, s.phases[tid].wait, out)
    case _ => l
  }

  // ---- The laws ----

  ghost predicate Balanced(o: Obj, acc: Account) {
    match o.kind
    case Mutex =>
      && (o.owner == 0 <==> o.recursion == 0) && o.recursion >= 0
      && forall t: nat | t != 0 :: Held(acc, t) == if t == o.owner then o.recursion else 0
    case Semaphore =>
      && o.count + acc.taken == acc.added - acc.dropped
      && 0 <= o.count && (o.max > 0 ==> o.count <= o.max)
    case Event => o.manual || acc.passed + (if o.signalled then 1 else 0) <= acc.signals
    case _ => true
  }

  predicate Distinct(handles: seq<int>) {
    forall i, j | 0 <= i < j < |handles| :: handles[i] != handles[j]
  }

  /** A thread inside cv_sleep waits for a mutex that still exists; a wait for all has
      distinct handles. */
  predicate WellParked(s: State, w: Wait)
    requires s.Ok()
  {
    match w
    case Single(h) => InTable(h)
    case Many(handles, all) => 0 < |handles| <= MAX_HANDLES && (all ==> Distinct(handles))
    case Sleep(_, mtx, _, saved) => s.Is(mtx, Mutex) && saved > 0
    case Regain(mtx, saved, _) => s.Is(mtx, Mutex) && saved > 0
  }

  ghost predicate AllBalanced(s: State, l: Ledger) {
    s.Ok() && |l| == SYNC_MAX && forall i | 0 <= i < SYNC_MAX :: Balanced(s.objs[i], l[i])
  }

  ghost predicate InOrder(s: State, l: Ledger) {
    && AllBalanced(s, l) && 0 !in s.phases
    && forall t | t in s.phases :: WellParked(s, s.phases[t].wait)
  }

  /** What the callers owe: positive release counts, semaphores created within their
      bounds, a mutex owned by its sleeper, no close of a mutex that a thread inside
      cv_sleep comes back to, distinct handles in a wait for all. */
  predicate Proper(s: State, a: Action)
    requires s.Ok()
  {
    && Enabled(s, a)
    && match a
       case Create(c) =>
         && (c.NewMutex? && c.owned ==> c.tid != 0)
         && (c.NewSemaphore? ==> 0 <= c.initial && (c.max > 0 ==> c.initial <= c.max))
       case ReleaseSemaphore(_, n) => n > 0
       case WaitMultiple(_, handles, all, _) => all ==> Distinct(handles)
       case CvSleep(tid, cv, mtx, _) => s.Is(cv, CondVar) && s.Is(mtx, Mutex) ==> Holds(s.At(mtx), tid)
       case Close(h) => forall t | t in s.phases :: !ComesBackTo(s.phases[t].wait, h)
       case _ => true
  }

  predicate ComesBackTo(w: Wait, h: int) {
    (w.Sleep? || w.Regain?) && w.mtx == h
  }

  // ---- Steps keep the laws ----

  lemma PutBalanced(s: State, l: Ledger, h: int, o: Obj, acc: Account)
    requires AllBalanced(s, l) && InTable(h) && Balanced(o, acc)
    ensures AllBalanced(s.Put(h, o), Post(l, h, acc))
  {
  }

  /** Unchanged books: a change the laws do not see. */
  lemma PutOnly(s: State, l: Ledger, h: int, o: Obj)
    requires AllBalanced(s, l) && InTable(h) && Balanced(o, Entry(l, h))
    ensures AllBalanced(s.Put(h, o), l)
  {
    PutBalanced(s, l, h, o, Entry(l, h));
    assert Post(l, h, Entry(l, h)) == l;
  }

  lemma BalancedAt(s: State, l: Ledger, h: int)
    requires AllBalanced(s, l) && InTable(h)
    ensures Balanced(s.At(h), Entry(l, h))
  {
  }

  lemma HeldAfter(acc: Account, tid: nat, n: int)
    ensures forall t: nat :: Held(Hold(acc, tid, n), t) == if t == tid then n else Held(acc, t)
  {
  }

  lemma AcquireBalanced(o: Obj, acc: Account, tid: nat)
    requires Balanced(o, acc) && Satisfied(o, tid) && tid != 0
    ensures Balanced(Acquire(o, tid), Grant(acc, o.kind, tid))
  {
    HeldAfter(acc, tid, Held(acc, tid) + 1);
  }

  lemma MadeBalanced(c: Creation)
    requires c.NewMutex? && c.owned ==> c.tid != 0
    requires c.NewSemaphore? ==> 0 <= c.initial && (c.max > 0 ==> c.initial <= c.max)
    ensures Balanced(Made(c), Opened(c))
  {
  }

  lemma GrantBalanced(s: State, l: Ledger, h: int, tid: nat)
    requires AllBalanced(s, l) && InTable(h) && Satisfied(s.At(h), tid) && tid != 0
    ensures AllBalanced(s.Put(h, Acquire(s.At(h), tid)), Granted(s, l, h, tid))
  {
    BalancedAt(s, l, h);
    AcquireBalanced(s.At(h), Entry(l, h), tid);
    PutBalanced(s, l, h, Acquire(s.At(h), tid), Grant(Entry(l, h), s.At(h).kind, tid));
  }

  lemma SingleBooks(s: State, l: Ledger, tid: nat, h: int, timeout: Timeout)
    requires AllBalanced(s, l) && tid != 0
    ensures var r := TrySingle(s, tid, h, timeout); AllBalanced(r.s, Received(s, l, tid, Single(h), r.out))
    ensures var r := ExpireSingle(s, tid, h); AllBalanced(r.s, Received(s, l, tid, Single(h), r.out))
  {
    if InTable(h) && Satisfied(s.At(h), tid) {
      GrantBalanced(s, l, h, tid);
    }
  }

  /** Acquiring distinct objects acquires each of them once. */
  lemma {:induction false} AcquireAllAt(s: State, handles: seq<int>, tid: nat, h: int)
    requires s.Ok() && InTable(h) && Distinct(handles) && forall k | 0 <= k < |handles| :: InTable(handles[k])
    ensures AcquireAll(s, handles, tid).At(h) == if h in handles then Acquire(s.At(h), tid) else s.At(h)
  {
    if handles != [] {
      var n := |handles| - 1;
      AcquireAllAt(s, handles[..n], tid, h);
      AcquireAllAt(s, handles[..n], tid, handles[n]);
      assert handles == handles[..n] + [handles[n]];
      assert handles[n] !in handles[..n];
    }
  }

  lemma GrantAllBalanced(s: State, l: Ledger, handles: seq<int>, tid: nat)
    requires AllBalanced(s, l) && tid != 0 && Distinct(handles)
    requires AllLive(s, handles) && AllSatisfied(s, handles, tid)
    ensures AllBalanced(AcquireAll(s, handles, tid), GrantedAll(s, l, handles, tid))
  {
    var r, l' := AcquireAll(s, handles, tid), GrantedAll(s, l, handles, tid);
    forall i | 0 <= i < SYNC_MAX
      ensures Balanced(r.objs[i], l'[i])
    {
      var h := SYNC_BASE + i;
      AcquireAllAt(s, handles, tid, h);
      assert r.At(h) == r.objs[i] && s.At(h) == s.objs[i];
      if h in handles {
        AcquireBalanced(s.objs[i], l[i], tid);
      }
    }
  }

  lemma ManyBooks(s: State, l: Ledger, tid: nat, handles: seq<int>, all: bool, timeout: Timeout)
    requires AllBalanced(s, l) && tid != 0 && 0 < |handles| <= MAX_HANDLES && (all ==> Distinct(handles))
    ensures var r := TryMany(s, tid, handles, all, timeout); AllBalanced(r.s, Received(s, l, tid, Many(handles, all), r.out))
  {
    if AllLive(s, handles) {
      if all && AllSatisfied(s, handles, tid) {
        GrantAllBalanced(s, l, handles, tid);
      } else if !all && FirstHit(s, handles, tid, 0) >= 0 {
        GrantBalanced(s, l, handles[FirstHit(s, handles, tid, 0)], tid);
      }
    }
  }

  lemma RegainBooks(s: State, l: Ledger, tid: nat, mtx: int, saved: int, rv: int)
    requires AllBalanced(s, l) && tid != 0 && s.Is(mtx, Mutex) && saved > 0
    ensures var r := TryRegain(s, tid, mtx, saved, rv); AllBalanced(r.s, Received(s, l, tid, Regain(mtx, saved, rv), r.out))
  {
    var o := s.At(mtx);
    if o.owner == 0 || o.owner == tid {
      BalancedAt(s, l, mtx);
      HeldAfter(Entry(l, mtx), tid, saved);
      PutBalanced(s, l, mtx, o.(owner := tid, recursion := saved), Hold(Entry(l, mtx), tid, saved));
    }
  }

  lemma SleepBooks(s: State, l: Ledger, tid: nat, cv: int, mtx: int, gen: int, saved: int, timeout: Timeout)
    requires AllBalanced(s, l) && tid != 0 && s.Is(mtx, Mutex) && saved > 0
    ensures var r := TrySleep(s, tid, cv, mtx, gen, saved, timeout);
            AllBalanced(r.s, Received(s, l, tid, Regain(mtx, saved, 0), r.out))
    ensures var r := ExpireSleep(s, tid, cv, mtx, gen, saved);
            AllBalanced(r.s, Received(s, l, tid, Regain(mtx, saved, 0), r.out))
  {
    RegainBooks(s, l, tid, mtx, saved, WAIT_FAILED);
    RegainBooks(s, l, tid, mtx, saved, WAIT_OBJECT_0);
    RegainBooks(s, l, tid, mtx, saved, WAIT_TIMEOUT);
  }

  lemma StartSleepBooks(s: State, l: Ledger, tid: nat, cv: int, mtx: int, timeout: Timeout)
    requires AllBalanced(s, l) && tid != 0 && s.Is(cv, CondVar) && s.Is(mtx, Mutex) && Holds(s.At(mtx), tid)
    ensures var r := StartSleep(s, tid, cv, mtx, timeout);
            AllBalanced(r.s, Received(s, Post(l, mtx, Hold(Entry(l, mtx), tid, 0)), tid, Regain(mtx, Saved(s.At(mtx)), 0), r.out))
  {
    var o := s.At(mtx);
    var acc := Hold(Entry(l, mtx), tid, 0);
    BalancedAt(s, l, mtx);
    HeldAfter(Entry(l, mtx), tid, 0);
    PutBalanced(s, l, mtx, o.(owner := 0, recursion := 0), acc);
    SleepBooks(GiveUp(s, mtx), Post(l, mtx, acc), tid, cv, mtx, s.At(cv).count, Saved(o), timeout);
  }

  lemma KickBooks(s: State, l: Ledger, a: Action)
    requires AllBalanced(s, l) && a.KickWorkers?
    ensures AllBalanced(DoKickWorkers(s, a).s, Book(s, l, a))
  {
    var objs := seq(SYNC_MAX, i requires 0 <= i < SYNC_MAX => KickedObj(s, i, a));
    var r, l' := DoKickWorkers(s, a).s, Book(s, l, a);
    assert Changes(s.objs, objs, SYNC_MAX) == 0 ==> s.objs[..SYNC_MAX] == objs[..SYNC_MAX];
    assert r.objs == objs;
    forall i | 0 <= i < SYNC_MAX
      ensures Balanced(r.objs[i], l'[i])
    {
      assert Balanced(s.objs[i], l[i]);
    }
  }

  lemma ReleaseMutexBooks(s: State, l: Ledger, h: int, tid: nat)
    requires AllBalanced(s, l)
    ensures AllBalanced(DoReleaseMutex(s, h, tid).s, Book(s, l, ReleaseMutex(h, tid)))
  {
    if s.Live(h) && Holds(s.At(h), tid) {
      BalancedAt(s, l, h);
      var o, e := s.At(h), Entry(l, h);
      var acc := Hold(e, tid, Held(e, tid) - 1);
      HeldAfter(e, tid, Held(e, tid) - 1);
      if o.recursion == 1 {
        PutBalanced(s, l, h, o.(owner := 0, recursion := 0), acc);
      } else {
        PutBalanced(s, l, h, o.(recursion := o.recursion - 1), acc);
      }
    }
  }

  lemma EventBooks(s: State, l: Ledger, h: int, signalled: bool)
    requires AllBalanced(s, l) && s.Is(h, Event)
    ensures AllBalanced(s.Put(h, s.At(h).(signalled := signalled)), Signalled(l, h))
    ensures AllBalanced(s.Put(h, s.At(h).(signalled := false)), l)
  {
    BalancedAt(s, l, h);
    var e := Entry(l, h);
    PutBalanced(s, l, h, s.At(h).(signalled := signalled), e.(signals := e.signals + 1));
    PutOnly(s, l, h, s.At(h).(signalled := false));
  }

  lemma SignalBooks(s: State, l: Ledger, a: Action)
    requires AllBalanced(s, l) && Proper(s, a)
    requires !a.WaitSingle? && !a.WaitMultiple? && !a.CvSleep? && !a.Resume? && !a.Expire?
    ensures AllBalanced(Step(s, a).s, Book(s, l, a))
  {
    match a
    case Create(c) =>
      MadeBalanced(c);
      if FirstFree(s.objs, 0) != -1 {
        PutBalanced(s, l, SYNC_BASE + FirstFree(s.objs, 0), Made(c), Opened(c));
      }
    case SetEvent(h) => if s.Is(h, Event) { EventBooks(s, l, h, true); }
    case ResetEvent(h) => if s.Is(h, Event) { EventBooks(s, l, h, false); }
    case PulseEvent(h) => if s.Is(h, Event) { EventBooks(s, l, h, false); }
    case KickTid(tid) =>
      if Step(s, a).out.rv == 1 { EventBooks(s, l, s.phases[tid].wait.h, true); }
    case KickWorkers(_, _, _) => KickBooks(s, l, a);
    case ReleaseMutex(h, tid) => ReleaseMutexBooks(s, l, h, tid);
    case ReleaseSemaphore(h, n) => ReleaseSemaphoreBooks(s, l, h, n);
    case _ => PlainBooks(s, l, a);
  }

  lemma ReleaseSemaphoreBooks(s: State, l: Ledger, h: int, n: int)
    requires AllBalanced(s, l) && n > 0
    ensures AllBalanced(DoReleaseSemaphore(s, h, n).s, Book(s, l, ReleaseSemaphore(h, n)))
  {
    if s.Is(h, Semaphore) {
      BalancedAt(s, l, h);
      var o, e := s.At(h), Entry(l, h);
      var sum := o.count + n;
      PutBalanced(s, l, h, o.(count := Clamped(sum, o.max)),
                  e.(added := e.added + n, dropped := e.dropped + Overflow(sum, o.max)));
    }
  }

  lemma PlainBooks(s: State, l: Ledger, a: Action)
    requires AllBalanced(s, l) && (a.ThreadExit? || a.CvWake? || a.Close?)
    ensures AllBalanced(Step(s, a).s, l)
  {
    if s.Live(a.h) {
      var r := Step(s, a).s;
      PutOnly(s, l, a.h, r.At(a.h));
      assert r.objs == s.Put(a.h, r.At(a.h)).objs;
    }
  }

  lemma WaitBooks(s: State, l: Ledger, tid: nat)
    requires InOrder(s, l) && tid in s.phases
    ensures var r := DoResume(s, tid); AllBalanced(r.s, Received(s, l, tid, s.phases[tid].wait, r.out))
    ensures var r := DoExpire(s, tid); AllBalanced(r.s, Received(s, l, tid, s.phases[tid].wait, r.out))
  {
    var timeout := if s.phases[tid].timed then Finite else Infinite;
    match s.phases[tid].wait
    case Single(h) => SingleBooks(s, l, tid, h, timeout);
    case Many(handles, all) => ManyBooks(s, l, tid, handles, all, timeout);
    case Sleep(cv, mtx, gen, saved) => SleepBooks(s, l, tid, cv, mtx, gen, saved, timeout);
    case Regain(mtx, saved, rv) => RegainBooks(s, l, tid, mtx, saved, rv);
  }

  lemma StepBooks(s: State, l: Ledger, a: Action)
    requires InOrder(s, l) && Proper(s, a)
    ensures AllBalanced(Step(s, a).s, Book(s, l, a))
  {
    match a
    case WaitSingle(tid, h, timeout) => SingleBooks(s, l, tid, h, timeout);
    case WaitMultiple(tid, handles, all, timeout) =>
      if 0 < |handles| <= MAX_HANDLES {
        ManyBooks(s, l, tid, handles, all, timeout);
      }
    case CvSleep(tid, cv, mtx, timeout) =>
      if s.Is(cv, CondVar) && s.Is(mtx, Mutex) {
        StartSleepBooks(s, l, tid, cv, mtx, timeout);
      }
    case Resume(tid) => WaitBooks(s, l, tid);
    case Expire(tid) => WaitBooks(s, l, tid);
    case _ => SignalBooks(s, l, a);
  }
}
