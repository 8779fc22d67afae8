/** The scheduler as it runs: a table changed in place and a machine whose registers
    are copied in and out. Every method does exactly the step of the model. */
module Scheduler {
  import opened Words
  import opened SchedModel

  /** The virtual machine, as far as the scheduler touches it. */
  class Vm {
    const gpr: array<int>
    var rip: int
    var flags: int
    var fsBase: int
    var gsBase: int

    function Context(): Regs
      reads this, gpr
    {
      Regs(gpr[..], rip, flags, fsBase, gsBase)
    }

    constructor ()
      ensures gpr.Length == NUM_GPR && fresh(gpr)
    {
      gpr := new int[NUM_GPR];
    }

    /** save_regs. */
    method Save() returns (regs: Regs)
      requires gpr.Length == NUM_GPR
      ensures regs == Context()
    {
      var saved: seq<int> := [];
      for i := 0 to NUM_GPR
        invariant saved == gpr[..i]
      {
        saved := saved + [gpr[i]];
      }
      regs := Regs(saved, rip, flags, fsBase, gsBase);
    }

    /** restore_regs. */
    method Restore(regs: Regs)
      requires gpr.Length == NUM_GPR == |regs.gpr|
      modifies this, gpr
      ensures Context() == regs
    {
      for i := 0 to NUM_GPR
        invariant gpr[..i] == regs.gpr[..i]
      {
        gpr[i] := regs.gpr[i];
      }
      rip, flags, fsBase, gsBase := regs.rip, regs.flags, regs.fsBase, regs.gsBase;
      assert gpr[..] == regs.gpr;
    }
  }

  lemma SwitchTakes(m: Machine, start: nat, i: nat)
    requires m.Ok() && start == ScanStart(m.current) && i == Pick(m.threads, start, 0)
    ensures SchedModel.SwitchNext(m)
         == if i < MAX_THREADS then (SchedModel.Enter(m, (start + i) % MAX_THREADS), true) else (m, false)
  {
  }

  class ThreadScheduler {
    const threads: array<Thread>
    const blink: Vm
    var current: int
    var count: int
    var nextId: int
    var nextHandle: int
    var nextStack: int

    function Now(): Machine
      reads this, threads, blink, blink.gpr
    {
      Machine(threads[..], current, count, nextId, nextHandle, nextStack, blink.Context())
    }

    ghost predicate Valid()
      reads this, threads, blink, blink.gpr
    {
      && threads.Length == MAX_THREADS && -1 <= current < MAX_THREADS && blink.gpr.Length == NUM_GPR
      && forall i | 0 <= i < MAX_THREADS :: |threads[i].regs.gpr| == NUM_GPR
    }

    constructor (vm: Vm)
      requires vm.gpr.Length == NUM_GPR
      ensures Valid() && blink == vm && fresh(threads)
      ensures Now() == Machine(seq(MAX_THREADS, _ => NoThread()), -1, 0, 0x1000, 0x7100, STACKS, vm.Context())
    {
      blink := vm;
      threads := new Thread[MAX_THREADS](_ => NoThread());
      current, count, nextId, nextHandle, nextStack := -1, 0, 0x1000, 0x7100, STACKS;
    }

    method Put(i: int, t: Thread)
      requires Valid() && 0 <= i < MAX_THREADS && |t.regs.gpr| == NUM_GPR
      modifies threads
      ensures Valid() && Now() == old(Now()).With(i, t)
    {
      threads[i] := t;
    }

    method CreateThread(start: int, param: int, flags: int) returns (handle: int, tid: int)
      requires Valid()
      modifies this, threads
      ensures Valid() && Now() == DoCreate(old(Now()), start, param, flags)
      ensures if FreeSlot(old(threads[..]), 0) < 0 then handle == 0
              else handle == old(nextHandle) && tid == old(nextId)
    {
      handle, tid := 0, 0;
      var slot := 0;
      while slot < MAX_THREADS && !threads[slot].state.Free?
        invariant slot <= MAX_THREADS && FreeSlot(threads[..], 0) == FreeSlot(threads[..], slot)
      {
        slot := slot + 1;
      }
      if slot < MAX_THREADS {
        var t := NoThread();
        tid, handle := nextId, nextHandle;
        t := t.(id := tid, handle := handle, startAddr := start, param := param, exitCode := STILL_ACTIVE,
                stackBase := nextStack, stackSize := THREAD_STACK);
        var sp := (t.stackBase + t.stackSize - 0x100) % U32;
        sp := sp - sp % 16;
        sp := (sp - 8) % U32;
        var gpr := NoRegs().gpr[1 := param][4 := sp][5 := sp];
        var fsBase := if current >= 0 then threads[current].regs.fsBase else 0;
        t := t.(regs := Regs(gpr, start, 0, fsBase, 0), teb := fsBase % U32,
                state := if (flags / CREATE_SUSPENDED) % 2 == 1 then Suspended else Ready);
        assert gpr == EntryRegs(nextStack, start, param, fsBase).gpr;
        Put(slot, t);
        nextId, nextHandle := (nextId + 1) % U32, (nextHandle + 1) % U32;
        nextStack := (nextStack + THREAD_STACK + GUARD) % U32;
        count := count + 1;
      }
    }

    method SaveCurrent(reason: TState)
      requires Valid()
      modifies threads
      ensures Valid() && Now() == SchedModel.SaveCurrent(old(Now()), reason)
    {
      if current < 0 {
        return;
      }
      var regs := blink.Save();
      Put(current, threads[current].(regs := regs, state := reason));
    }

    /** A thread becomes the running one. */
    method Enter(i: int)
      requires Valid() && 0 <= i < MAX_THREADS
      modifies `current, threads, blink, blink.gpr
      ensures Valid() && Now() == SchedModel.Enter(old(Now()), i)
    {
      current := i;
      var t := threads[i];
      Put(i, t.(state := Running));
      blink.Restore(t.regs);
    }

    method SwitchNext() returns (ok: bool)
      requires Valid()
      modifies `current, threads, blink, blink.gpr
      ensures Valid() && (Now(), ok) == SchedModel.SwitchNext(old(Now()))
    {
      ghost var m := Now();
      var start := if current >= 0 then current + 1 else 0;
      var i := Scan(start);
      ok := i < MAX_THREADS;
      SwitchTakes(m, start, i);
      if ok {
        Enter((start + i) % MAX_THREADS);
      }
    }

    /** The first ready thread, going round from `start`. */
    method Scan(start: nat) returns (i: nat)
      requires Valid()
      ensures i == Pick(threads[..], start, 0)
    {
      i := 0;
      while i < MAX_THREADS
        invariant i <= MAX_THREADS && Pick(threads[..], start, 0) == Pick(threads[..], start, i)
      {
        var idx := (start + i) % MAX_THREADS;
        assert ReadyAt(threads[..], start, i) == threads[idx].state.Ready?;
        if threads[idx].state.Ready? {
          return;
        }
        i := i + 1;
      }
    }

    method Yield(reason: TState) returns (switched: bool)
      requires Valid()
      modifies `current, threads, blink, blink.gpr
      ensures Valid() && (Now(), switched) == DoYield(old(Now()), reason)
    {
      SaveCurrent(reason);
      switched := SwitchNext();
      if !switched && current >= 0 {
        Enter(current);
      }
    }

    method Wake(handle: int)
      requires Valid()
      modifies threads
      ensures Valid() && Now() == DoWake(old(Now()), handle)
    {
      for i := 0 to MAX_THREADS
        invariant Valid()
        invariant forall k | 0 <= k < MAX_THREADS :: threads[k] == if k < i then Woken(old(threads[k]), handle) else old(threads[k])
      {
        var t := threads[i];
        if t.state.Waiting? && t.waitHandle == handle {
          Put(i, t.(state := Ready, waitHandle := 0));
        }
      }
      assert threads[..] == DoWake(old(Now()), handle).threads;
    }

    method ExitThread(code: int)
      requires Valid()
      modifies `current, threads, blink, blink.gpr
      ensures Valid() && Now() == DoExit(old(Now()), code)
    {
      if current < 0 {
        return;
      }
      Put(current, threads[current].(state := Exited, exitCode := code));
      current := -1;
      var _ := SwitchNext();
    }

    method OtherReady() returns (other: bool)
      requires Valid()
      ensures other <==> exists i | 0 <= i < MAX_THREADS :: i != current && threads[i].state.Ready?
    {
      for i := 0 to MAX_THREADS
        invariant forall k | 0 <= k < i :: k == current || !threads[k].state.Ready?
      {
        if i != current && threads[i].state.Ready? {
          return true;
        }
      }
      other := false;
    }
  }
}
