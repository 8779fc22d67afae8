/** The cooperative thread scheduler: a table of 32 threads, a round-robin pick, and
    one virtual machine whose registers belong to the running thread. */
module SchedModel {
  import opened Words

  const MAX_THREADS := 32
  const THREAD_STACK := 0x10_0000
  const GUARD := 0x1000
  const STRIDE := THREAD_STACK + GUARD
  const STACKS := 0x6000_0000
  const STILL_ACTIVE := 259
  const CREATE_SUSPENDED := 4

  datatype TState = Free | Running | Ready | Waiting | Suspended | Exited

  /** The whole context of a guest thread. */
  datatype Regs = Regs(gpr: seq<int>, rip: int, flags: int, fsBase: int, gsBase: int)

  const NUM_GPR := 16

  datatype Thread = Thread(state: TState, id: int, handle: int, stackBase: int, stackSize: int, teb: int,
                           startAddr: int, param: int, exitCode: int, waitHandle: int, regs: Regs)

  function NoRegs(): (r: Regs)
    ensures |r.gpr| == NUM_GPR
  {
    Regs(seq(NUM_GPR, _ => 0), 0, 0, 0, 0)
  }

  function NoThread(): Thread {
    Thread(Free, 0, 0, 0, 0, 0, 0, 0, 0, 0, NoRegs())
  }

  /** The scheduler and the machine's registers. */
  datatype Machine = Machine(threads: seq<Thread>, current: int, count: int, nextId: int, nextHandle: int,
                             nextStack: int, vm: Regs)
  {
    predicate Ok() {
      |threads| == MAX_THREADS && -1 <= current < MAX_THREADS
    }

    function With(i: int, t: Thread): Machine
      requires 0 <= i < |threads|
    {
      this.(threads := threads[i := t])
    }
  }

  // ---- Creation ----

  function FreeSlot(threads: seq<Thread>, i: nat): (r: int)
    requires i <= |threads|
    ensures r == -1 || (i <= r < |threads| && threads[r].state.Free?)
    ensures r == -1 ==> forall k | i <= k < |threads| :: !threads[k].state.Free?
    decreases |threads| - i
  {
    if i == |threads| then -1 else if threads[i].state.Free? then i else FreeSlot(threads, i + 1)
  }

  /** The stack pointer at a thread's entry: 16-byte aligned, less the return address. */
  function EntrySp(base: int): int {
    var top := (base + THREAD_STACK - 0x100) % U32;
    (top - top % 16 - 8) % U32
  }

  function EntryRegs(base: int, start: int, param: int, fsBase: int): (r: Regs)
    ensures |r.gpr| == NUM_GPR
  {
    var sp := EntrySp(base);
    Regs([0, param, 0, 0, sp, sp, 0, 0] + seq(8, _ => 0), start, 0, fsBase, 0)
  }

  /** Bit 2 of the creation flags. */
  predicate WantsSuspended(flags: int) {
    (flags / 4) % 2 == 1
  }

  function NewThread(m: Machine, start: int, param: int, flags: int): Thread
    requires m.Ok()
  {
    var fsBase := if m.current >= 0 then m.threads[m.current].regs.fsBase else 0;
    Thread(if WantsSuspended(flags) then Suspended else Ready, m.nextId, m.nextHandle, m.nextStack, THREAD_STACK,
           fsBase % U32, start, param, STILL_ACTIVE, 0, EntryRegs(m.nextStack, start, param, fsBase))
  }

  function DoCreate(m: Machine, start: int, param: int, flags: int): Machine
    requires m.Ok()
  {
    var slot := FreeSlot(m.threads, 0);
    if slot < 0 then m
    else m.With(slot, NewThread(m, start, param, flags))
          .(nextId := (m.nextId + 1) % U32, nextHandle := (m.nextHandle + 1) % U32,
            nextStack := (m.nextStack + STRIDE) % U32, count := m.count + 1)
  }

  // ---- Switching ----

  function SaveCurrent(m: Machine, reason: TState): (r: Machine)
    requires m.Ok()
    ensures r.Ok() && r.current == m.current && r.vm == m.vm
  {
    if m.current < 0 then m else m.With(m.current, m.threads[m.current].(regs := m.vm, state := reason))
  }

  function ScanStart(current: int): int {
    if current >= 0 then current + 1 else 0
  }

  /** Going round the table from `start`. */
  function Slot(start: nat, k: nat): (i: nat)
    ensures i < MAX_THREADS
  {
    (start + k) % MAX_THREADS
  }

  predicate ReadyAt(threads: seq<Thread>, start: nat, k: nat)
    requires |threads| == MAX_THREADS
  {
    threads[Slot(start, k)].state.Ready?
  }

  /** The first offset at or after i, going round from `start`, with a ready thread. */
  function Pick(threads: seq<Thread>, start: nat, i: nat): (k: nat)
    requires |threads| == MAX_THREADS && i <= MAX_THREADS
    ensures i <= k <= MAX_THREADS
    ensures k < MAX_THREADS ==> ReadyAt(threads, start, k)
    ensures forall j | i <= j < k :: !ReadyAt(threads, start, j)
    decreases MAX_THREADS - i
  {
    if i == MAX_THREADS then i
    else if ReadyAt(threads, start, i) then i
    else Pick(threads, start, i + 1)
  }

  function Enter(m: Machine, i: int): (r: Machine)
    requires m.Ok() && 0 <= i < MAX_THREADS
    ensures r.Ok()
  {
    m.With(i, m.threads[i].(state := Running)).(current := i, vm := m.threads[i].regs)
  }

  function SwitchNext(m: Machine): (r: (Machine, bool))
    requires m.Ok()
    ensures r.0.Ok()
  {
    var start := ScanStart(m.current);
    var k := Pick(m.threads, start, 0);
    if k == MAX_THREADS then (m, false) else (Enter(m, Slot(start, k)), true)
  }

  function DoYield(m: Machine, reason: TState): (r: (Machine, bool))
    requires m.Ok()
    ensures r.0.Ok()
  {
    var saved := SaveCurrent(m, reason);
    var (next, ok) := SwitchNext(saved);
    if ok then (next, true)
    else if saved.current >= 0 then (Enter(saved, saved.current), false)
    else (saved, false)
  }

  function DoExit(m: Machine, code: int): (r: Machine)
    requires m.Ok()
    ensures r.Ok()
  {
    if m.current < 0 then m
    else
      SwitchNext(m.With(m.current, m.threads[m.current].(state := Exited, exitCode := code)).(current := -1)).0
  }

  function Woken(t: Thread, handle: int): Thread {
    if t.state.Waiting? && t.waitHandle == handle then t.(state := Ready, waitHandle := 0) else t
  }

  function DoWake(m: Machine, handle: int): Machine
    requires m.Ok()
  {
    m.(threads := seq(MAX_THREADS, i requires 0 <= i < MAX_THREADS => Woken(m.threads[i], handle)))
  }

  // ---- Runs ----

  /** What happens to the machine: the running guest computes, or announces what it is
      going to wait for; threads are created, yield, are woken and exit. */
  datatype Action =
    | Guest(regs: Regs)
    | Announce(handle: int)
    | Create(start: int, param: int, flags: int)
    | Yield(reason: TState)
    | Wake(handle: int)
    | Exit(code: int)

  predicate Enabled(m: Machine, a: Action) {
    match a
    case Guest(regs) => m.current >= 0 && |regs.gpr| == NUM_GPR
    case Announce(_) => m.current >= 0
    case Yield(reason) => reason.Ready? || reason.Waiting? || reason.Suspended?
    case _ => true
  }

  function Step(m: Machine, a: Action): (r: Machine)
    requires m.Ok() && Enabled(m, a)
    ensures r.Ok()
  {
    match a
    case Guest(regs) => m.(vm := regs)
    case Announce(handle) => m.With(m.current, m.threads[m.current].(waitHandle := handle))
    case Create(start, param, flags) => DoCreate(m, start, param, flags)
    case Yield(reason) => DoYield(m, reason).0
    case Wake(handle) => DoWake(m, handle)
    case Exit(code) => DoExit(m, code)
  }

  predicate Allowed(m: Machine, run: seq<Action>)
    requires m.Ok()
    decreases |run|
  {
    run != [] ==> Enabled(m, run[0]) && Allowed(Step(m, run[0]), run[1..])
  }

  function After(m: Machine, run: seq<Action>): (r: Machine)
    requires m.Ok() && Allowed(m, run)
    ensures r.Ok()
    decreases |run|
  {
    if run == [] then m else After(Step(m, run[0]), run[1..])
  }

  /** The scheduler when a program is loaded: one running thread, in slot 0. */
  function Loaded(teb: int, vm: Regs): (m: Machine)
    ensures m.Ok()
  {
    var main := NoThread().(state := Running, id := 1, handle := 0x7000, exitCode := STILL_ACTIVE, teb := teb,
                            regs := NoRegs().(fsBase := teb));
    Machine([main] + seq(MAX_THREADS - 1, _ => NoThread()), 0, 1, 0x1000, 0x7100, STACKS, vm)
  }
}
