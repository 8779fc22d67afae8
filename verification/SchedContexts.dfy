/** Threads get their registers back: over all runs, a thread resumes with exactly the
    context it left, on a stack of its own. */
module SchedContexts {
  import opened Words
  import opened SchedModel
  import opened SchedFairness

  // ---- Contexts ----

  /** For every slot the registers of its last yield, or those it was created with. */
  function Note(m: Machine, left: seq<Regs>, a: Action): (r: seq<Regs>)
    requires m.Ok() && |left| == MAX_THREADS
    ensures |r| == MAX_THREADS
  {
    match a
    case Yield(_) => if m.current >= 0 then left[m.current := m.vm] else left
    case Create(start, param, flags) =>
      var slot := FreeSlot(m.threads, 0);
      if slot < 0 then left else left[slot := NewThread(m, start, param, flags).regs]
    case _ => left
  }

  predicate Suspendable(t: Thread) {
    t.state.Ready? || t.state.Waiting? || t.state.Suspended?
  }

  ghost predicate Kept(m: Machine, left: seq<Regs>) {
    && m.Ok() && OneRuns(m) && |left| == MAX_THREADS
    && forall i | 0 <= i < MAX_THREADS && Suspendable(m.threads[i]) :: m.threads[i].regs == left[i]
  }

  lemma SwitchRestores(m: Machine, left: seq<Regs>)
    requires m.Ok() && |left| == MAX_THREADS
    requires forall i | 0 <= i < MAX_THREADS :: !m.threads[i].state.Running?
    requires forall i | 0 <= i < MAX_THREADS && Suspendable(m.threads[i]) :: m.threads[i].regs == left[i]
    ensures var (r, ok) := SwitchNext(m);
            if ok then Kept(r, left) && r.current >= 0 && r.vm == left[r.current] else r == m
  {
    SwitchKeepsOne(m);
  }

  /** Every step keeps the saved contexts, and a switch or a yield that finds nobody
      else puts the machine back to what the thread it enters has left. */
  lemma StepRestores(m: Machine, left: seq<Regs>, a: Action)
    requires Kept(m, left) && Enabled(m, a)
    ensures var r, left' := Step(m, a), Note(m, left, a);
            && Kept(r, left')
            && (Switches(m, a) && r.current >= 0 ==> r.vm == left'[r.current])
  {
    OneRunsStep(m, a);
    match a
    case Yield(reason) => SwitchRestores(SaveCurrent(m, reason), Note(m, left, a));
    case Exit(code) =>
      if m.current >= 0 {
        SwitchRestores(m.With(m.current, m.threads[m.current].(state := Exited, exitCode := code)).(current := -1), left);
      }
    case _ =>
  }

  /** All switches of a run restore what was left. */
  ghost predicate AllRestored(m: Machine, left: seq<Regs>, run: seq<Action>)
    requires m.Ok() && Allowed(m, run) && |left| == MAX_THREADS
    decreases |run|
  {
    run != [] ==>
      var r, left' := Step(m, run[0]), Note(m, left, run[0]);
      && (Switches(m, run[0]) && r.current >= 0 ==> r.vm == left'[r.current])
      && AllRestored(r, left', run[1..])
  }

  /** Context integrity: in every run each thread resumes with all sixteen registers,
      instruction pointer, flags and segment bases as they were at its last yield, or
      as it was created. */
  lemma {:induction false} ContextIntegrity(m: Machine, left: seq<Regs>, run: seq<Action>)
    requires Kept(m, left) && Allowed(m, run)
    ensures AllRestored(m, left, run) && OneRuns(After(m, run))
    decreases |run|
  {
    if run != [] {
      StepRestores(m, left, run[0]);
      ContextIntegrity(Step(m, run[0]), Note(m, left, run[0]), run[1..]);
    }
  }

  lemma LoadedIsKept(teb: int, vm: Regs, left: seq<Regs>)
    requires |left| == MAX_THREADS
    ensures Kept(Loaded(teb, vm), left)
  {
  }

  /** So from the loading of the program on. */
  lemma ContextsFromLoad(teb: int, vm: Regs, left: seq<Regs>, run: seq<Action>)
    requires |left| == MAX_THREADS && Allowed(Loaded(teb, vm), run)
    ensures AllRestored(Loaded(teb, vm), left, run) && OneRuns(After(Loaded(teb, vm), run))
  {
    LoadedIsKept(teb, vm, left);
    ContextIntegrity(Loaded(teb, vm), left, run);
  }

  /** And nobody starves, wherever the run has come to. */
  lemma NobodyStarves(teb: int, vm: Regs, past: seq<Action>, run: seq<Action>, r: nat)
    requires Allowed(Loaded(teb, vm), past) && Allowed(After(Loaded(teb, vm), past), run)
    requires var m := After(Loaded(teb, vm), past); IsReady(m, r) && CountSwitches(m, run) > Rank(m, r)
    ensures PickedIn(After(Loaded(teb, vm), past), run, r)
  {
    ContextsFromLoad(teb, vm, seq(MAX_THREADS, _ => vm), past);
    NoStarvation(After(Loaded(teb, vm), past), run, r);
  }

  // ---- Stacks ----

  function Used(threads: seq<Thread>, n: nat): (k: nat)
    requires n <= |threads|
    ensures k <= n
  {
    if n == 0 then 0 else Used(threads, n - 1) + (if threads[n - 1].state.Free? then 0 else 1)
  }

  lemma {:induction false} UsedAfter(threads: seq<Thread>, i: nat, t: Thread, n: nat)
    requires n <= |threads| && i < |threads|
    ensures Used(threads[i := t], n) == Used(threads, n) +
              if i < n then (if threads[i].state.Free? then 1 else 0) - (if t.state.Free? then 1 else 0) else 0
  {
    if n > 0 {
      UsedAfter(threads, i, t, n - 1);
    }
  }

  lemma {:induction false} UsedSame(a: seq<Thread>, b: seq<Thread>, n: nat)
    requires |a| == |b| && n <= |a|
    requires forall i | 0 <= i < n :: a[i].state.Free? == b[i].state.Free?
    ensures Used(a, n) == Used(b, n)
  {
    if n > 0 {
      UsedSame(a, b, n - 1);
    }
  }

  predicate HasStack(t: Thread) {
    t.stackSize != 0
  }

  /** A stack with the gap behind it, below the next one to be given out. */
  predicate Placed(m: Machine, t: Thread) {
    && t.stackSize == THREAD_STACK && !t.state.Free?
    && STACKS <= t.stackBase && t.stackBase + STRIDE <= m.nextStack
  }

  predicate Apart(t: Thread, u: Thread) {
    t.stackBase + t.stackSize + GUARD <= u.stackBase || u.stackBase + u.stackSize + GUARD <= t.stackBase
  }

  ghost predicate StacksOk(m: Machine) {
    && m.Ok()
    && STACKS <= m.nextStack <= STACKS + STRIDE * Used(m.threads, MAX_THREADS) && m.nextStack % GUARD == 0
    && (forall i | 0 <= i < MAX_THREADS && HasStack(m.threads[i]) :: Placed(m, m.threads[i]))
    && (forall i, j | 0 <= i < j < MAX_THREADS && HasStack(m.threads[i]) && HasStack(m.threads[j]) ::
          Apart(m.threads[i], m.threads[j]))
  }

  /** At entry the stack pointer is 8 modulo 16, inside the thread's own stack. */
  lemma EntryIsAligned(base: int)
    requires STACKS <= base <= STACKS + STRIDE * MAX_THREADS && base % GUARD == 0
    ensures EntrySp(base) % 16 == 8
    ensures base <= EntrySp(base) && EntrySp(base) + 8 <= base + THREAD_STACK
  {
    var top := base + THREAD_STACK - 0x100;
    EntryTop(base, top);
    assert EntrySp(base) == (top - 8) % U32 == top - 8;
    Aligned(top, top / 16);
  }

  lemma EntryTop(base: int, top: int)
    requires STACKS <= base <= STACKS + STRIDE * MAX_THREADS && base % GUARD == 0 && top == base + THREAD_STACK - 0x100
    ensures 16 <= top < U32 && top % U32 == top && top % 16 == 0
  {
    Quotient(base, GUARD);
    Aligned(top, 256 * (base / GUARD) + 0xFFF0);
    InU32(top);
  }

  lemma InU32(n: int)
    requires 0 <= n < U32
    ensures n % U32 == n
  {
  }

  lemma Aligned(n: int, q: int)
    requires n == 16 * q
    ensures n % 16 == 0 && (n - 8) % 16 == 8
  {
  }

  lemma CreateKeepsStacks(m: Machine, start: int, param: int, flags: int)
    requires StacksOk(m)
    ensures StacksOk(DoCreate(m, start, param, flags))
    ensures var slot := FreeSlot(m.threads, 0);
            slot >= 0 ==>
              var t := DoCreate(m, start, param, flags).threads[slot];
              && t.regs.gpr[4] % 16 == 8 && t.stackBase <= t.regs.gpr[4] && t.regs.gpr[4] + 8 <= t.stackBase + t.stackSize
              && t.regs.rip == start && t.regs.gpr[1] == param
  {
    var slot := FreeSlot(m.threads, 0);
    if slot >= 0 {
      EntryIsAligned(m.nextStack);
      StackAdded(m, slot, NewThread(m, start, param, flags), DoCreate(m, start, param, flags));
    }
  }

  lemma StackAdded(m: Machine, slot: nat, t: Thread, r: Machine)
    requires StacksOk(m) && r.Ok() && slot < MAX_THREADS && m.threads[slot].state.Free? && !t.state.Free?
    requires t.stackBase == m.nextStack && t.stackSize == THREAD_STACK
    requires r.threads == m.threads[slot := t] && r.nextStack == (m.nextStack + STRIDE) % U32
    ensures StacksOk(r)
  {
    UsedAfter(m.threads, slot, t, MAX_THREADS);
  }

  lemma OthersKeepStacks(m: Machine, a: Action)
    requires StacksOk(m) && OneRuns(m) && Enabled(m, a) && !a.Create?
    ensures StacksOk(Step(m, a))
  {
    var r := Step(m, a);
    SameStacks(m, a);
    UsedSame(r.threads, m.threads, MAX_THREADS);
    forall i | 0 <= i < MAX_THREADS && HasStack(r.threads[i])
      ensures Placed(r, r.threads[i])
    {
      assert Placed(m, m.threads[i]);
    }
    forall i, j | 0 <= i < j < MAX_THREADS && HasStack(r.threads[i]) && HasStack(r.threads[j])
      ensures Apart(r.threads[i], r.threads[j])
    {
      assert Apart(m.threads[i], m.threads[j]);
    }
  }

  predicate SamePlace(t: Thread, u: Thread) {
    t.stackBase == u.stackBase && t.stackSize == u.stackSize && t.state.Free? == u.state.Free?
  }

  lemma SameStacks(m: Machine, a: Action)
    requires m.Ok() && OneRuns(m) && Enabled(m, a) && !a.Create?
    ensures Step(m, a).nextStack == m.nextStack
    ensures forall i | 0 <= i < MAX_THREADS :: SamePlace(Step(m, a).threads[i], m.threads[i])
  {
    match a
    case Exit(code) => ExitKeepsPlaces(m, code);
    case Yield(reason) => YieldKeepsPlaces(m, reason);
    case _ =>
  }

  lemma ExitKeepsPlaces(m: Machine, code: int)
    requires m.Ok() && OneRuns(m)
    ensures DoExit(m, code).nextStack == m.nextStack
    ensures forall i | 0 <= i < MAX_THREADS :: SamePlace(DoExit(m, code).threads[i], m.threads[i])
  {
  }

  lemma YieldKeepsPlaces(m: Machine, reason: TState)
    requires m.Ok() && OneRuns(m) && Enabled(m, Yield(reason))
    ensures DoYield(m, reason).0.nextStack == m.nextStack
    ensures forall i | 0 <= i < MAX_THREADS :: SamePlace(DoYield(m, reason).0.threads[i], m.threads[i])
  {
  }

  /** In every run the stacks given out stay disjoint, a guard gap apart, and below the
      32-bit limit. */
  lemma {:induction false} StacksStayDisjoint(m: Machine, run: seq<Action>)
    requires StacksOk(m) && OneRuns(m) && Allowed(m, run)
    ensures StacksOk(After(m, run))
    decreases |run|
  {
    if run != [] {
      OneRunsStep(m, run[0]);
      match run[0] {
        case Create(start, param, flags) => CreateKeepsStacks(m, start, param, flags);
        case _ => OthersKeepStacks(m, run[0]);
      }
      StacksStayDisjoint(Step(m, run[0]), run[1..]);
    }
  }

  lemma LoadedStacks(teb: int, vm: Regs)
    ensures StacksOk(Loaded(teb, vm)) && OneRuns(Loaded(teb, vm))
  {
  }

  lemma StacksFromLoad(teb: int, vm: Regs, run: seq<Action>)
    requires Allowed(Loaded(teb, vm), run)
    ensures StacksOk(After(Loaded(teb, vm), run))
  {
    LoadedStacks(teb, vm);
    StacksStayDisjoint(Loaded(teb, vm), run);
  }
}
