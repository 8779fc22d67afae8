/** No ready thread starves: it is picked after a bounded number of switches. */
module SchedFairness {
  import opened SchedModel

  /** Slots that can still come to run: exited threads never do. */
  function Alive(threads: seq<Thread>, n: nat): (k: nat)
    requires n <= |threads|
    ensures k <= n
  {
    if n == 0 then 0 else Alive(threads, n - 1) + (if threads[n - 1].state.Exited? then 0 else 1)
  }

  /** How far slot r is from where the scan starts, going round. */
  function Distance(start: int, r: int): (d: int)
    ensures 0 <= d < MAX_THREADS
  {
    (r - start) % MAX_THREADS
  }

  /** The measure: slots not exited first, then the distance from the scan start. An
      exit starts the scan over at slot 0, but uses up a slot for good. */
  function Rank(m: Machine, r: nat): (n: nat)
    requires m.Ok()
    ensures n < MAX_THREADS * (MAX_THREADS + 1)
  {
    MAX_THREADS * Alive(m.threads, MAX_THREADS) + Distance(ScanStart(m.current), r)
  }

  lemma {:induction false} AliveAfter(threads: seq<Thread>, i: nat, t: Thread, n: nat)
    requires n <= |threads| && i < |threads|
    ensures Alive(threads[i := t], n) == Alive(threads, n) +
              if i < n then (if threads[i].state.Exited? then 1 else 0) - (if t.state.Exited? then 1 else 0) else 0
  {
    if n > 0 {
      AliveAfter(threads, i, t, n - 1);
    }
  }

  lemma {:induction false} AliveSame(a: seq<Thread>, b: seq<Thread>, n: nat)
    requires |a| == |b| && n <= |a|
    requires forall i | 0 <= i < n :: a[i].state.Exited? == b[i].state.Exited?
    ensures Alive(a, n) == Alive(b, n)
  {
    if n > 0 {
      AliveSame(a, b, n - 1);
    }
  }

  lemma OffsetOf(start: int, r: nat)
    requires 0 <= start && r < MAX_THREADS
    ensures Slot(start, Distance(start, r)) == r
  {
  }

  /** Stopping short of r by a pick at offset k leaves r that much closer. */
  lemma Closer(start: nat, k: nat, r: nat)
    requires k < Distance(start, r) && r < MAX_THREADS
    ensures Distance(Slot(start, k) + 1, r) == Distance(start, r) - k - 1
  {
  }

  predicate IsReady(m: Machine, r: nat)
    requires m.Ok()
  {
    r < MAX_THREADS && m.threads[r].state.Ready?
  }

  /** A scan with r ready picks r, or a thread before it. */
  lemma ScanFinds(m: Machine, r: nat)
    requires m.Ok() && IsReady(m, r)
    ensures SwitchNext(m).1
    ensures var m' := SwitchNext(m).0;
            && Alive(m'.threads, MAX_THREADS) == Alive(m.threads, MAX_THREADS)
            && (m'.current == r || (IsReady(m', r)
                  && Distance(ScanStart(m'.current), r) < Distance(ScanStart(m.current), r)))
  {
    var start := ScanStart(m.current);
    OffsetOf(start, r);
    assert ReadyAt(m.threads, start, Distance(start, r));
    var k := Pick(m.threads, start, 0);
    var i := Slot(start, k);
    AliveAfter(m.threads, i, m.threads[i].(state := Running), MAX_THREADS);
    if k < Distance(start, r) {
      Closer(start, k, r);
    } else {
      assert k == Distance(start, r) && i == r;
    }
  }

  /** A switch: a yield, or the exit of a running thread. */
  predicate Switches(m: Machine, a: Action) {
    a.Yield? || (a.Exit? && m.current >= 0)
  }

  /** The running thread is the only one in state Running. */
  predicate OneRuns(m: Machine)
    requires m.Ok()
  {
    forall i | 0 <= i < MAX_THREADS :: m.threads[i].state.Running? <==> i == m.current
  }

  lemma EnterKeepsOne(m: Machine, i: nat)
    requires m.Ok() && i < MAX_THREADS && forall k | 0 <= k < MAX_THREADS :: !m.threads[k].state.Running?
    ensures OneRuns(Enter(m, i))
  {
  }

  lemma SwitchKeepsOne(m: Machine)
    requires m.Ok() && forall k | 0 <= k < MAX_THREADS :: !m.threads[k].state.Running?
    ensures var r := SwitchNext(m); if r.1 then OneRuns(r.0) else r.0 == m
  {
    var k := Pick(m.threads, ScanStart(m.current), 0);
    EnterKeepsOne(m, Slot(ScanStart(m.current), k));
  }

  /** At most one thread is in state Running, and it is the current one. */
  lemma OneRunsStep(m: Machine, a: Action)
    requires m.Ok() && Enabled(m, a) && OneRuns(m)
    ensures OneRuns(Step(m, a))
  {
    match a
    case Yield(reason) =>
      var saved := SaveCurrent(m, reason);
      SwitchKeepsOne(saved);
      if saved.current >= 0 {
        EnterKeepsOne(saved, saved.current);
      }
    case Exit(code) =>
      if m.current >= 0 {
        SwitchKeepsOne(m.With(m.current, m.threads[m.current].(state := Exited, exitCode := code)).(current := -1));
      }
    case _ =>
  }

  lemma YieldStep(m: Machine, reason: TState, r: nat)
    requires m.Ok() && OneRuns(m) && IsReady(m, r) && Enabled(m, Yield(reason))
    ensures var m' := DoYield(m, reason).0;
            m'.current == r || (IsReady(m', r) && Rank(m', r) < Rank(m, r))
  {
    var saved := SaveCurrent(m, reason);
    if m.current >= 0 {
      AliveAfter(m.threads, m.current, saved.threads[m.current], MAX_THREADS);
    }
    ScanFinds(saved, r);
  }

  lemma ExitStep(m: Machine, code: int, r: nat)
    requires m.Ok() && OneRuns(m) && IsReady(m, r) && m.current >= 0
    ensures var m' := DoExit(m, code);
            m'.current == r || (IsReady(m', r) && Rank(m', r) < Rank(m, r))
  {
    var gone := m.threads[m.current].(state := Exited, exitCode := code);
    AliveAfter(m.threads, m.current, gone, MAX_THREADS);
    ScanFinds(m.With(m.current, gone).(current := -1), r);
  }

  lemma OtherStep(m: Machine, a: Action, r: nat)
    requires m.Ok() && OneRuns(m) && IsReady(m, r) && Enabled(m, a) && !Switches(m, a)
    ensures IsReady(Step(m, a), r) && Rank(Step(m, a), r) == Rank(m, r)
  {
    AliveSame(Step(m, a).threads, m.threads, MAX_THREADS);
  }

  function CountSwitches(m: Machine, run: seq<Action>): nat
    requires m.Ok() && Allowed(m, run)
    decreases |run|
  {
    if run == [] then 0 else (if Switches(m, run[0]) then 1 else 0) + CountSwitches(Step(m, run[0]), run[1..])
  }

  /** Somewhere in the run a switch has picked r. */
  predicate PickedIn(m: Machine, run: seq<Action>, r: nat)
    requires m.Ok() && Allowed(m, run)
    decreases |run|
  {
    run != [] && (Step(m, run[0]).current == r || PickedIn(Step(m, run[0]), run[1..], r))
  }

  /** Starvation freedom: whatever the threads do, a run with more switches than the
      rank of a ready thread contains one that picks it; the rank is below 1056. */
  lemma {:induction false} NoStarvation(m: Machine, run: seq<Action>, r: nat)
    requires m.Ok() && Allowed(m, run) && OneRuns(m) && IsReady(m, r)
    requires CountSwitches(m, run) > Rank(m, r)
    ensures PickedIn(m, run, r)
    decreases |run|
  {
    var a := run[0];
    OneRunsStep(m, a);
    if Switches(m, a) {
      if a.Yield? {
        YieldStep(m, a.reason, r);
      } else {
        ExitStep(m, a.code, r);
      }
    } else {
      OtherStep(m, a, r);
    }
    if Step(m, a).current != r {
      NoStarvation(Step(m, a), run[1..], r);
    }
  }
}
