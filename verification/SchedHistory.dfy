/** What has become of each thread, told from what has happened since the program was
    loaded, and who comes next. */
module SchedHistory {
  import opened Words
  import opened SchedModel
  import opened SchedFairness

  // ---- The life of a slot ----

  datatype Doing = Runs | CouldRun | Sleeps | IsHeld | Over(code: int)

  /** Which thread it is, counted from 0 in the order of creation, -1 for the first one;
      the handle it has announced since it was last woken; and what it does. */
  datatype Life = Unborn | Life(number: int, sought: int, doing: Doing)

  function AfterYield(reason: TState): Doing {
    match reason
    case Ready => CouldRun
    case Waiting => Sleeps
    case _ => IsHeld
  }

  /** The lives after a step; `next` is the thread that runs then. */
  function Later(lives: seq<Life>, born: nat, current: int, a: Action, next: int): (r: seq<Life>)
    requires |lives| == MAX_THREADS && -1 <= current < MAX_THREADS
    ensures |r| == MAX_THREADS
  {
    seq(MAX_THREADS, i requires 0 <= i < MAX_THREADS => LifeAfter(lives, born, current, a, next, i))
  }

  /** The lowest slot that no thread has used. */
  predicate IsNext(lives: seq<Life>, i: nat) {
    i < |lives| && lives[i].Unborn? && forall k | 0 <= k < i :: lives[k].Life?
  }

  function LifeAfter(lives: seq<Life>, born: nat, current: int, a: Action, next: int, i: nat): Life
    requires i < |lives|
  {
    var life := lives[i];
    if a.Create? && IsNext(lives, i) then Life(born, 0, if (a.flags / 4) % 2 == 1 then IsHeld else CouldRun)
    else if life.Unborn? then life
    else if a.Wake? && life.doing.Sleeps? && life.sought == a.handle then life.(sought := 0, doing := CouldRun)
    else if a.Announce? && i == current then life.(sought := a.handle)
    else if (a.Yield? || a.Exit?) && i == next then life.(doing := Runs)
    else if a.Yield? && i == current then life.(doing := AfterYield(a.reason))
    else if a.Exit? && i == current then life.(doing := Over(a.code))
    else life
  }

  function BornAfter(lives: seq<Life>, born: nat, a: Action): nat {
    if a.Create? && exists i :: 0 <= i < |lives| && lives[i].Unborn? then born + 1 else born
  }

  /** The record of a slot agrees with its life. */
  predicate Agrees(t: Thread, life: Life) {
    match life
    case Unborn => t.state.Free?
    case Life(number, sought, doing) =>
      && t.waitHandle == sought
      && t.id == (if number < 0 then 1 else (0x1000 + number) % U32)
      && t.handle == (if number < 0 then 0x7000 else (0x7100 + number) % U32)
      && (number >= 0 ==> t.stackBase == (0x6000_0000 + 0x10_1000 * number) % U32 && t.stackSize == 0x10_0000)
      && t.exitCode == (if doing.Over? then doing.code else 259)
      && match doing
         case Runs => t.state.Running?
         case CouldRun => t.state.Ready?
         case Sleeps => t.state.Waiting?
         case IsHeld => t.state.Suspended?
         case Over(_) => t.state.Exited?
  }

  ghost predicate Tells(m: Machine, lives: seq<Life>, born: nat) {
    && m.Ok() && |lives| == MAX_THREADS && OneRuns(m)
    && m.nextId == (0x1000 + born) % U32 && m.nextHandle == (0x7100 + born) % U32
    && m.nextStack == (0x6000_0000 + 0x10_1000 * born) % U32 && m.count == born + 1
    && forall i | 0 <= i < MAX_THREADS :: Agrees(m.threads[i], lives[i])
  }

  // ---- Every step ----

  lemma CreateTells(m: Machine, lives: seq<Life>, born: nat, a: Action)
    requires Tells(m, lives, born) && a.Create?
    ensures Tells(Step(m, a), Later(lives, born, m.current, a, Step(m, a).current), BornAfter(lives, born, a))
  {
    OneRunsStep(m, a);
    var slot := FreeSlot(m.threads, 0);
    if slot >= 0 {
      FirstIsNext(m, lives, born, slot);
      BornTells(m, lives, born, a, slot);
    }
    forall i | 0 <= i < MAX_THREADS
      ensures Agrees(Step(m, a).threads[i], LifeAfter(lives, born, m.current, a, Step(m, a).current, i))
    {
      assert Agrees(m.threads[i], lives[i]);
    }
    assert forall i | 0 <= i < MAX_THREADS :: m.threads[i].state.Free? <==> Agrees(m.threads[i], lives[i]) && lives[i].Unborn?;
  }

  lemma BornTells(m: Machine, lives: seq<Life>, born: nat, a: Action, slot: nat)
    requires Tells(m, lives, born) && a.Create? && slot == FreeSlot(m.threads, 0) && IsNext(lives, slot)
    ensures var r := Step(m, a);
            && Agrees(r.threads[slot], LifeAfter(lives, born, m.current, a, r.current, slot))
            && r.nextId == (0x1000 + (born + 1)) % U32 && r.nextHandle == (0x7100 + (born + 1)) % U32
            && r.nextStack == (0x6000_0000 + 0x10_1000 * (born + 1)) % U32 && r.count == born + 2
  {
    WrapsOn(0x1000 + born, 1);
    WrapsOn(0x7100 + born, 1);
    WrapsOn(0x6000_0000 + 0x10_1000 * born, 0x10_1000);
    assert 0x6000_0000 + 0x10_1000 * (born + 1) == 0x6000_0000 + 0x10_1000 * born + 0x10_1000;
  }

  lemma WrapsOn(x: nat, n: nat)
    ensures (x % U32 + n) % U32 == (x + n) % U32
  {
    Quotient(x, U32);
    Quotient(x % U32 + n, U32);
    DivModUnique(x + n, U32, x / U32 + (x % U32 + n) / U32, (x % U32 + n) % U32);
  }

  lemma FirstIsNext(m: Machine, lives: seq<Life>, born: nat, slot: nat)
    requires Tells(m, lives, born) && slot == FreeSlot(m.threads, 0)
    ensures IsNext(lives, slot) && forall i | IsNext(lives, i) :: i == slot
  {
    FirstFree(m.threads, 0, slot);
    assert Agrees(m.threads[slot], lives[slot]);
    forall k | 0 <= k < slot
      ensures lives[k].Life?
    {
      assert Agrees(m.threads[k], lives[k]);
    }
  }

  lemma {:induction false} FirstFree(threads: seq<Thread>, i: nat, slot: nat)
    requires i <= |threads| && slot == FreeSlot(threads, i)
    ensures forall k | i <= k < slot :: !threads[k].state.Free?
    decreases |threads| - i
  {
    if i < |threads| && !threads[i].state.Free? {
      FirstFree(threads, i + 1, slot);
    }
  }

  /** A switch changes the state of the thread that gives way and of the one that comes,
      and the registers of the first. */
  predicate Switched(m: Machine, r: Machine, left: TState)
    requires m.Ok() && r.Ok()
  {
    && (r.nextId, r.nextHandle, r.nextStack, r.count) == (m.nextId, m.nextHandle, m.nextStack, m.count)
    && forall i | 0 <= i < MAX_THREADS ::
         && r.threads[i] == m.threads[i].(regs := r.threads[i].regs, state := r.threads[i].state, exitCode := r.threads[i].exitCode)
         && r.threads[i].state == if i == r.current then Running else if i == m.current then left else m.threads[i].state
  }

  lemma YieldSwitches(m: Machine, reason: TState)
    requires m.Ok() && OneRuns(m)
    ensures var r := DoYield(m, reason).0;
            Switched(m, r, reason) && forall i | 0 <= i < MAX_THREADS :: r.threads[i].exitCode == m.threads[i].exitCode
  {
    var saved := SaveCurrent(m, reason);
    SwitchKeepsState(saved);
  }

  lemma SwitchKeepsState(m: Machine)
    requires m.Ok()
    ensures var (r, ok) := SwitchNext(m);
            if ok then 0 <= r.current < MAX_THREADS && m.threads[r.current].state.Ready? && r == Enter(m, r.current) else r == m
  {
  }

  lemma ExitSwitches(m: Machine, code: int)
    requires m.Ok() && OneRuns(m) && m.current >= 0
    ensures var r := DoExit(m, code);
            && Switched(m, r, Exited)
            && forall i | 0 <= i < MAX_THREADS :: r.threads[i].exitCode == if i == m.current then code else m.threads[i].exitCode
    ensures DoExit(m, code).current != m.current
  {
    SwitchKeepsState(m.With(m.current, m.threads[m.current].(state := Exited, exitCode := code)).(current := -1));
  }

  lemma SwitchTells(m: Machine, lives: seq<Life>, born: nat, a: Action)
    requires Tells(m, lives, born) && Enabled(m, a) && (a.Yield? || a.Exit?)
    ensures Tells(Step(m, a), Later(lives, born, m.current, a, Step(m, a).current), born)
  {
    OneRunsStep(m, a);
    if a.Yield? {
      YieldSwitches(m, a.reason);
    } else if m.current >= 0 {
      ExitSwitches(m, a.code);
    }
    var r := Step(m, a);
    forall i | 0 <= i < MAX_THREADS
      ensures Agrees(r.threads[i], LifeAfter(lives, born, m.current, a, r.current, i))
    {
      assert Agrees(m.threads[i], lives[i]);
    }
  }

  lemma OtherTells(m: Machine, lives: seq<Life>, born: nat, a: Action)
    requires Tells(m, lives, born) && Enabled(m, a) && (a.Guest? || a.Announce? || a.Wake?)
    ensures Tells(Step(m, a), Later(lives, born, m.current, a, Step(m, a).current), born)
  {
    OneRunsStep(m, a);
    assert forall i | 0 <= i < MAX_THREADS :: Agrees(m.threads[i], lives[i]);
  }

  lemma StepTells(m: Machine, lives: seq<Life>, born: nat, a: Action)
    requires Tells(m, lives, born) && Enabled(m, a)
    ensures Tells(Step(m, a), Later(lives, born, m.current, a, Step(m, a).current), BornAfter(lives, born, a))
  {
    match a
    case Create(_, _, _) => CreateTells(m, lives, born, a);
    case Yield(_) => SwitchTells(m, lives, born, a);
    case Exit(_) => SwitchTells(m, lives, born, a);
    case _ => OtherTells(m, lives, born, a);
  }

  // ---- Every run ----

  function Lives(m: Machine, lives: seq<Life>, born: nat, run: seq<Action>): (r: (seq<Life>, nat))
    requires m.Ok() && Allowed(m, run) && |lives| == MAX_THREADS
    ensures |r.0| == MAX_THREADS
    decreases |run|
  {
    if run == [] then (lives, born)
    else
      var next := Step(m, run[0]);
      Lives(next, Later(lives, born, m.current, run[0], next.current), BornAfter(lives, born, run[0]), run[1..])
  }

  lemma {:induction false} RunTells(m: Machine, lives: seq<Life>, born: nat, run: seq<Action>)
    requires Tells(m, lives, born) && Allowed(m, run)
    ensures Tells(After(m, run), Lives(m, lives, born, run).0, Lives(m, lives, born, run).1)
    decreases |run|
  {
    if run != [] {
      var next := Step(m, run[0]);
      StepTells(m, lives, born, run[0]);
      RunTells(next, Later(lives, born, m.current, run[0], next.current), BornAfter(lives, born, run[0]), run[1..]);
    }
  }

  function OneLife(): (lives: seq<Life>)
    ensures |lives| == MAX_THREADS
  {
    [Life(-1, 0, Runs)] + seq(MAX_THREADS - 1, _ => Unborn)
  }

  /** From the loading of a program on, every record says what its thread has done: it
      waits exactly if it has yielded to wait and the handle it sought has not been woken
      since, it has exited with the code of its exit, and so on. */
  lemma RecordsTell(teb: int, vm: Regs, run: seq<Action>)
    requires Allowed(Loaded(teb, vm), run)
    ensures var (lives, born) := Lives(Loaded(teb, vm), OneLife(), 0, run);
            Tells(After(Loaded(teb, vm), run), lives, born)
  {
    RunTells(Loaded(teb, vm), OneLife(), 0, run);
  }
  /** A new thread starts at its entry with its parameter in RCX, both stack registers
      just below the top of its stack, the segment base of its creator and nothing else. */
  lemma EntryRegisters(m: Machine, start: int, param: int, flags: int)
    requires m.Ok() && m.nextStack % 16 == 0 && 0 <= m.nextStack <= U32 - 0x10_0000
    ensures var slot := FreeSlot(m.threads, 0);
            slot >= 0 ==>
              var t := DoCreate(m, start, param, flags).threads[slot];
              && t.startAddr == start == t.regs.rip && t.param == param && |t.regs.gpr| == 16
              && t.regs.gpr[4] == t.stackBase + 0xF_FEF8
              && (forall k | 0 <= k < 16 :: t.regs.gpr[k] == if k == 1 then param else if k == 4 || k == 5 then t.regs.gpr[4] else 0)
              && t.regs.flags == 0 && t.regs.gsBase == 0
              && t.regs.fsBase == (if m.current >= 0 then m.threads[m.current].regs.fsBase else 0)
  {
  }

  // ---- Sleeping and waking ----

  ghost predicate Asleep(m: Machine, lives: seq<Life>, born: nat, r: nat, handle: int) {
    Tells(m, lives, born) && r < MAX_THREADS && lives[r].Life? && lives[r].doing.Sleeps? && lives[r].sought == handle
  }

  lemma SleeperIsNotPicked(m: Machine, a: Action, r: nat)
    requires m.Ok() && OneRuns(m) && Enabled(m, a) && r < MAX_THREADS && m.threads[r].state.Waiting?
    ensures Step(m, a).current != r
  {
    match a
    case Yield(reason) => SwitchKeepsState(SaveCurrent(m, reason));
    case Exit(code) =>
      if m.current >= 0 {
        SwitchKeepsState(m.With(m.current, m.threads[m.current].(state := Exited, exitCode := code)).(current := -1));
      }
    case _ =>
  }

  /** Until its handle is woken, a sleeper sleeps on. */
  lemma {:induction false} SleepsOn(m: Machine, lives: seq<Life>, born: nat, r: nat, handle: int, run: seq<Action>)
    requires Asleep(m, lives, born, r, handle) && Allowed(m, run) && Wake(handle) !in run
    ensures var (lives', born') := Lives(m, lives, born, run); Asleep(After(m, run), lives', born', r, handle)
    ensures !PickedIn(m, run, r)
    decreases |run|
  {
    if run != [] {
      assert Agrees(m.threads[r], lives[r]);
      var next := Step(m, run[0]);
      SleeperIsNotPicked(m, run[0], r);
      StepTells(m, lives, born, run[0]);
      SleepsOn(next, Later(lives, born, m.current, run[0], next.current), BornAfter(lives, born, run[0]), r, handle, run[1..]);
    }
  }

  /** A wake of the handle makes exactly its sleepers ready, and changes nothing else. */
  lemma WakeReleases(m: Machine, lives: seq<Life>, born: nat, handle: int)
    requires Tells(m, lives, born)
    ensures var r := Step(m, Wake(handle));
            && r.(threads := m.threads) == m
            && forall i: nat | i < MAX_THREADS ::
                 r.threads[i] == if Asleep(m, lives, born, i, handle) then m.threads[i].(state := Ready, waitHandle := 0) else m.threads[i]
  {
    assert forall i | 0 <= i < MAX_THREADS :: Agrees(m.threads[i], lives[i]);
  }

  /** A thread that waits for a handle runs again only after the handle is woken, and then
      within as many switches as its rank says. */
  lemma WokenInTime(m: Machine, lives: seq<Life>, born: nat, r: nat, handle: int, nap: seq<Action>, rest: seq<Action>)
    requires Asleep(m, lives, born, r, handle) && Allowed(m, nap) && Wake(handle) !in nap
    requires var woken := Step(After(m, nap), Wake(handle));
             Allowed(woken, rest) && CountSwitches(woken, rest) > Rank(woken, r)
    ensures !PickedIn(m, nap, r) && After(m, nap).threads[r].state.Waiting?
    ensures var woken := Step(After(m, nap), Wake(handle));
            woken.threads[r].state.Ready? && PickedIn(woken, rest, r) && Rank(woken, r) < 1056
  {
    SleepsOn(m, lives, born, r, handle, nap);
    var m1 := After(m, nap);
    var (lives1, born1) := Lives(m, lives, born, nap);
    assert Agrees(m1.threads[r], lives1[r]);
    WakeReleases(m1, lives1, born1, handle);
    OneRunsStep(m1, Wake(handle));
    NoStarvation(Step(m1, Wake(handle)), rest, r);
  }

  // ---- Who comes next ----

  /** The thread could run after the step. */
  predicate Could(lives: seq<Life>, current: int, a: Action, i: nat)
    requires |lives| == MAX_THREADS && i < MAX_THREADS
  {
    if i == current then a.Yield? && a.reason.Ready? else lives[i].Life? && lives[i].doing.CouldRun?
  }

  /** The same, j slots on from a slot, going round the table. */
  predicate CouldOn(lives: seq<Life>, current: int, a: Action, start: nat, j: nat)
    requires |lives| == MAX_THREADS
  {
    Could(lives, current, a, Slot(start, j))
  }

  /** The table when the running thread has given way. */
  function Leaving(m: Machine, a: Action): (r: Machine)
    requires m.Ok() && Switches(m, a)
    ensures r.Ok()
  {
    if a.Yield? then SaveCurrent(m, a.reason)
    else m.With(m.current, m.threads[m.current].(state := Exited, exitCode := a.code)).(current := -1)
  }

  lemma LeavingReady(m: Machine, lives: seq<Life>, born: nat, a: Action, start: nat, j: nat)
    requires Tells(m, lives, born) && Enabled(m, a) && Switches(m, a)
    ensures ReadyAt(Leaving(m, a).threads, start, j) <==> CouldOn(lives, m.current, a, start, j)
  {
    var i := Slot(start, j);
    assert Agrees(m.threads[i], lives[i]);
  }

  lemma SwitchIsPick(m: Machine, a: Action, k: nat)
    requires m.Ok() && Enabled(m, a) && Switches(m, a)
    requires k == Pick(Leaving(m, a).threads, ScanStart(Leaving(m, a).current), 0)
    ensures Step(m, a).current == if k < 32 then (ScanStart(Leaving(m, a).current) + k) % 32 else if a.Yield? then m.current else -1
  {
  }

  /** A switch goes round the table, from the slot after the one that yields or from the
      beginning, to the first thread that could run, k slots on; without one a yield
      returns, and an exit leaves nobody running. */
  lemma SwitchGoesRound(m: Machine, lives: seq<Life>, born: nat, a: Action) returns (k: nat)
    requires Tells(m, lives, born) && Enabled(m, a) && Switches(m, a)
    ensures var start := if a.Yield? then m.current + 1 else 0;
            && k <= 32 && (forall j: nat | j < k :: !CouldOn(lives, m.current, a, start, j))
            && (k < 32 ==> CouldOn(lives, m.current, a, start, k))
            && Step(m, a).current == if k < 32 then (start + k) % 32 else if a.Yield? then m.current else -1
  {
    var left := Leaving(m, a);
    var start := if a.Yield? then m.current + 1 else 0;
    assert ScanStart(left.current) == start;
    k := Pick(left.threads, start, 0);
    SwitchIsPick(m, a, k);
    forall j: nat | j < k
      ensures !CouldOn(lives, m.current, a, start, j)
    {
      LeavingReady(m, lives, born, a, start, j);
    }
    if k < 32 {
      LeavingReady(m, lives, born, a, start, k);
    }
  }
}
