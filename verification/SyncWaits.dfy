/** What one successful or failed wait does to the objects, and what a pulse makes it
    miss. */
module SyncWaits {
  import opened SyncModel
  import opened SyncAccounts

  /** A wait for all of several distinct objects succeeds exactly when all are live and
      satisfied; it then takes each of them once and nothing else, and otherwise takes
      nothing at all. */
  lemma WaitAllIsAtomic(s: State, tid: nat, handles: seq<int>, timeout: Timeout)
    requires s.Ok() && handles != [] && Distinct(handles)
    ensures var r := TryMany(s, tid, handles, true, timeout);
            && (r.out == Returns(WAIT_OBJECT_0) <==> AllLive(s, handles) && AllSatisfied(s, handles, tid))
            && (r.out == Returns(WAIT_OBJECT_0) ==>
                  forall h | InTable(h) :: r.s.At(h) == if h in handles then Acquire(s.At(h), tid) else s.At(h))
            && (r.out != Returns(WAIT_OBJECT_0) ==> r.s.objs == s.objs)
  {
    if AllLive(s, handles) && AllSatisfied(s, handles, tid) {
      forall h | InTable(h)
        ensures AcquireAll(s, handles, tid).At(h) == if h in handles then Acquire(s.At(h), tid) else s.At(h)
      {
        AcquireAllAt(s, handles, tid, h);
      }
    }
  }

  /** A wait for any succeeds on index k exactly when k is the lowest satisfied index
      of live handles, and takes that object only. */
  lemma WaitAnyTakesLowest(s: State, tid: nat, handles: seq<int>, timeout: Timeout, k: nat)
    requires s.Ok() && k < |handles| <= MAX_HANDLES
    ensures var r := TryMany(s, tid, handles, false, timeout);
            && (r.out == Returns(WAIT_OBJECT_0 + k) <==>
                  AllLive(s, handles) && Satisfied(s.At(handles[k]), tid)
                  && forall j | 0 <= j < k :: !Satisfied(s.At(handles[j]), tid))
            && (r.out == Returns(WAIT_OBJECT_0 + k) ==>
                  r.s.objs == s.Put(handles[k], Acquire(s.At(handles[k]), tid)).objs)
  {
    if AllLive(s, handles) {
      var hit := FirstHit(s, handles, tid, 0);
      if Satisfied(s.At(handles[k]), tid) && forall j | 0 <= j < k :: !Satisfied(s.At(handles[j]), tid) {
        assert hit == k;
      }
    }
  }

  /** Every occurrence of a semaphore in the list takes a unit. */
  lemma {:induction false} EachOccurrenceTakes(s: State, handles: seq<int>, tid: nat, h: int)
    requires s.Ok() && s.Is(h, Semaphore) && forall k | 0 <= k < |handles| :: InTable(handles[k])
    ensures AcquireAll(s, handles, tid).Is(h, Semaphore)
    ensures AcquireAll(s, handles, tid).At(h).count == s.At(h).count - multiset(handles)[h]
  {
    if handles != [] {
      var n := |handles| - 1;
      EachOccurrenceTakes(s, handles[..n], tid, h);
      assert handles == handles[..n] + [handles[n]];
    }
  }

  /** With repeated handles a wait for all tests a semaphore once and takes from it as
      often as it is listed: a successful one leaves the count at or above zero exactly
      when the semaphore is listed no more often than its count. */
  lemma RepeatedHandles(s: State, tid: nat, handles: seq<int>, timeout: Timeout, h: int)
    requires s.Ok() && s.Is(h, Semaphore) && handles != []
    requires TryMany(s, tid, handles, true, timeout).out == Returns(WAIT_OBJECT_0)
    ensures TryMany(s, tid, handles, true, timeout).s.At(h).count >= 0 <==> multiset(handles)[h] <= s.At(h).count
  {
    EachOccurrenceTakes(s, handles, tid, h);
  }

  /** For instance, a semaphore of count 1 listed twice. */
  lemma OverdrawnTwice(s: State, tid: nat, h: int)
    requires s.Ok() && s.Is(h, Semaphore) && s.At(h).count == 1
    ensures var r := TryMany(s, tid, [h, h], true, Zero);
            r.out == Returns(WAIT_OBJECT_0) && r.s.At(h).count == -1
  {
    EachOccurrenceTakes(s, [h, h], tid, h);
  }

  /** When the deadline passes, a single wait still takes an object that has become
      available, a multiple wait never does. */
  lemma DeadlinePassed(s: State, tid: nat)
    requires s.Ok() && tid in s.phases && s.phases[tid].timed
    ensures s.phases[tid].wait.Single? && InTable(s.phases[tid].wait.h) ==>
              (DoExpire(s, tid).out == Returns(WAIT_OBJECT_0) <==> Satisfied(s.At(s.phases[tid].wait.h), tid))
    ensures s.phases[tid].wait.Many? ==> DoExpire(s, tid) == Turn(s.Leave(tid), Returns(WAIT_TIMEOUT))
  {
  }

  // ---- Multiple waits ----

  /** What a multiple wait would find if it looked now. */
  ghost predicate Passable(s: State, tid: nat, handles: seq<int>, all: bool)
    requires s.Ok()
  {
    AllLive(s, handles) && if all then AllSatisfied(s, handles, tid) else FirstHit(s, handles, tid, 0) >= 0
  }

  // ---- Pulses ----

  /** A pulse notifies a waiting thread and lets it find nothing: it parks again, or
      times out, where setting the event would have let it through. */
  lemma PulseReleasesNobody(s: State, h: int, t: nat)
    requires s.Ok() && s.Is(h, Event) && t in s.phases && s.phases[t].wait == Single(h)
    ensures var r := DoPulseEvent(s, h).s;
            && t in r.phases && r.phases[t].notified && r.phases[t].wait == Single(h) && !Satisfied(r.At(h), t)
            && DoResume(r, t).out.Parks? && DoExpire(r, t).out == Returns(WAIT_TIMEOUT)
    ensures DoResume(DoSetEvent(s, h).s, t).out == Returns(WAIT_OBJECT_0)
  {
  }

  /** Nor does it let a multiple wait through that could not pass before: a wait for any
      returns another object's index, a wait for all that lists the event parks. */
  lemma PulseReleasesNoneOfMany(s: State, h: int, t: nat)
    requires s.Ok() && s.Is(h, Event) && t in s.phases && s.phases[t].wait.Many?
    ensures var r := DoPulseEvent(s, h).s;
            var w := s.phases[t].wait;
            Passable(r, t, w.handles, w.all) ==>
              && Passable(s, t, w.handles, w.all) && (w.all ==> h !in w.handles)
              && (!w.all ==> w.handles[FirstHit(r, w.handles, t, 0)] != h)
  {
    var r := DoPulseEvent(s, h).s;
    var w := s.phases[t].wait;
    if Passable(r, t, w.handles, w.all) {
      assert forall k | 0 <= k < |w.handles| :: r.Live(w.handles[k]) && s.Live(w.handles[k]);
      if w.all {
        assert forall k | 0 <= k < |w.handles| :: Satisfied(r.At(w.handles[k]), t);
      } else {
        var hit := FirstHit(r, w.handles, t, 0);
        assert Satisfied(r.At(w.handles[hit]), t) && Satisfied(s.At(w.handles[hit]), t);
      }
    }
  }
}
