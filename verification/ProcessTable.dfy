/** The process table as the kernel keeps it: arrays updated in place by scanning loops.
    Each method is one section under sched_lock and is proved equal to a step of the
    state machine in Scheduler. */
module ProcessTable {
  import opened Scheduler

  class Table {
    const tasks: array<Task>
    const cur: array<Cur>
    const idleOn: array<bool>
    var ticks: nat
    ghost var rest: State

    ghost predicate Valid()
      reads this, tasks, cur, idleOn
    {
      tasks.Length == NTASK && cur.Length == NCPU && idleOn.Length == NCPU && |rest.pc| == NCPU && |rest.born| == NTASK &&
      ticks < U64
    }

    /** The state of the machine: the arrays, and what the machine only records. */
    ghost function S(): (s: State)
      requires Valid()
      reads this, tasks, cur, idleOn
      ensures Shaped(s)
    {
      rest.(tasks := tasks[..], cur := cur[..], idleOn := idleOn[..], ticks := ticks)
    }

    /** task64_init. */
    constructor ()
      ensures Valid() && S() == Init(0) && fresh(tasks) && fresh(cur) && fresh(idleOn)
    {
      tasks := new Task[NTASK](i => if i == 0 then Task(Running, 0, -1, -2, 0, 0, 0) else Task(Free, 0, -1, -2, 0, 0, -1));
      cur := new Cur[NCPU](i => if i == 0 then Slot(0) else NoTask);
      idleOn := new bool[NCPU](_ => false);
      ticks := 0;
      rest := Init(0);
      new;
      assert tasks[..] == Init(0).tasks;
      assert cur[..] == Init(0).cur;
      assert idleOn[..] == Init(0).idleOn;
    }

    /** alloc_slot: the first free slot above the boot context, or -1. */
    method AllocSlot(c: nat) returns (slot: int)
      requires Valid() && c < NCPU
      modifies this, tasks
      ensures Valid() && S() == DoAlloc(old(S()), c)
      ensures slot == (if FirstFree(old(tasks[..]), 1) == NTASK then -1 else FirstFree(old(tasks[..]), 1))
    {
      var i := 1;
      while i < NTASK
        invariant 1 <= i <= NTASK
        invariant FirstFree(tasks[..], 1) == FirstFree(tasks[..], i)
      {
        if tasks[i].state == Free {
          ghost var before := S();
          tasks[i] := Task(New, 0, -1, -2, 0, 0, -1);
          rest := DoAlloc(before, c);
          assert tasks[..] == before.tasks[i := Task(New, 0, -1, -2, 0, 0, -1)];
          return i;
        }
        i := i + 1;
      }
      slot := -1;
    }

    method Publish(c: nat, slot: nat)
      requires Valid() && c < NCPU && slot < NTASK && rest.pc[c] == Building(slot) && Can(S(), Scheduler.Publish(c))
      modifies this, tasks
      ensures Valid() && S() == Do(old(S()), Scheduler.Publish(c))
    {
      ghost var before := S();
      if tasks[slot].state == New {
        tasks[slot] := tasks[slot].(state := Ready);
      }
      rest := Do(before, Scheduler.Publish(c));
      assert tasks[..] == rest.tasks;
    }

    method Exit(c: nat, status: int) returns (reapNow: bool)
      requires Valid() && Calls(S(), c)
      modifies this, tasks
      ensures Valid() && S() == DoExit(old(S()), c, status)
      ensures reapNow == S().pc[c].Reaping?
    {
      ghost var before := S();
      var self := cur[c].i;
      tasks[self] := tasks[self].(exitCode := status, state := Zombie);
      ghost var z := tasks[..];
      var i := 1;
      while i < NTASK
        modifies tasks
        invariant 1 <= i <= NTASK && Valid()
        invariant forall k :: 0 <= k < NTASK ==> tasks[k] == if k < i then Orphaned(z[k], k, self) else z[k]
      {
        if tasks[i].parent == self && tasks[i].state != Free {
          tasks[i] := tasks[i].(parent := 0);
        }
        i := i + 1;
      }
      assert tasks[..] == Reparent(z, self);
      var p := tasks[self].parent;
      if 0 <= p < NTASK && tasks[p].state == Blocked && (tasks[p].waitingFor == self || tasks[p].waitingFor == -1) {
        tasks[p] := tasks[p].(state := Ready);
      }
      assert tasks[..] == Exited(before.tasks, self, status);
      reapNow := !(0 <= tasks[self].parent < NTASK) || tasks[tasks[self].parent].state == Free || tasks[self].parent == 0;
      rest := DoExit(before, c, status);
    }

    method Reap(c: nat)
      requires Valid() && c < NCPU && rest.pc[c].Reaping? && rest.pc[c].slot < NTASK && cur[c] == Slot(rest.pc[c].slot)
      modifies this, tasks
      ensures Valid() && S() == DoReap(old(S()), c)
    {
      ghost var before := S();
      var self := cur[c].i;
      tasks[self] := tasks[self].(cr3 := 0, state := Free);
      rest := DoReap(before, c);
      assert tasks[..] == rest.tasks;
    }

    /** waitpid: the child collected and its status, or why not. */
    method WaitPid(c: nat, pid: int, nohang: bool) returns (r: int, status: int, cr3: nat)
      requires Valid() && Calls(S(), c)
      modifies this, tasks
      ensures Valid() && S() == DoWait(old(S()), c, pid, nohang)
      ensures var z := FindZombie(old(tasks[..]), cur[c].i, pid, 1);
        if z < NTASK then r == z && S().delivered == old(S().delivered) + [(old(rest.born[z]), status)] && S().torn == old(S().torn) + [cr3]
        else if !HasChild(old(tasks[..]), cur[c].i, pid) then r == -10
        else r == 0
      ensures r > 0 <==> exists k :: 1 <= k < NTASK && old(tasks[k]).state == Zombie && old(tasks[k]).parent == old(cur[c].i) && (pid == -1 || k == pid)
      ensures r > 0 ==> r < NTASK && status == old(tasks[..])[r].exitCode && cr3 == old(tasks[..])[r].cr3
      ensures r > 0 ==> forall k :: 1 <= k < r ==> !(old(tasks[k]).state == Zombie && old(tasks[k]).parent == old(cur[c].i) && (pid == -1 || k == pid))
      ensures r == -10 <==> forall k :: 1 <= k < NTASK ==> !(old(tasks[k]).state != Free && old(tasks[k]).parent == old(cur[c].i) && (pid == -1 || k == pid))
      ensures r == 0 ==> (tasks[old(cur[c].i)].state == Blocked <==> !nohang)
    {
      ghost var before := S();
      var self := cur[c].i;
      var have, i := false, 1;
      status, cr3 := 0, 0;
      while i < NTASK
        invariant 1 <= i <= NTASK && S() == before
        invariant FindZombie(tasks[..], self, pid, 1) == FindZombie(tasks[..], self, pid, i)
        invariant have <==> exists k :: 1 <= k < i && IsChild(tasks[k], k, self, pid)
      {
        if IsChild(tasks[i], i, self, pid) {
          have := true;
          if tasks[i].state == Zombie {
            r, status, cr3 := i, tasks[i].exitCode, tasks[i].cr3;
            tasks[i] := tasks[i].(cr3 := 0, state := Free);
            rest := DoWait(before, c, pid, nohang);
            assert tasks[..] == rest.tasks;
            return;
          }
        }
        i := i + 1;
      }
      assert have <==> HasChild(before.tasks, self, pid);
      if !have {
        r := -10;
        return;
      }
      r := 0;
      if nohang {
        return;
      }
      tasks[self] := tasks[self].(waitingFor := pid, wakeup := 0, state := Blocked);
      rest := DoWait(before, c, pid, nohang);
      assert tasks[..] == rest.tasks;
    }

    method Sleep(c: nat, delta: nat) returns (done: bool)
      requires Valid() && Calls(S(), c)
      modifies this, tasks
      ensures Valid() && S() == DoSleep(old(S()), c, delta)
      ensures done <==> S().pc[c] == User
    {
      ghost var before := S();
      var self := cur[c].i;
      if tasks[self].wakeup == 0 {
        tasks[self] := tasks[self].(wakeup := (ticks + delta) % U64);
      }
      done := Passed(ticks, tasks[self].wakeup);
      if done {
        tasks[self] := tasks[self].(wakeup := 0);
      } else {
        tasks[self] := tasks[self].(state := Blocked);
      }
      rest := DoSleep(before, c, delta);
      assert tasks[..] == rest.tasks;
    }

    method OnTick()
      requires Valid()
      modifies this, tasks
      ensures Valid() && S() == DoTick(old(S()))
    {
      ghost var before := S();
      ticks := (ticks + 1) % U64;
      var i := 1;
      while i < NTASK
        modifies tasks
        invariant 1 <= i <= NTASK && Valid()
        invariant forall k :: 0 <= k < NTASK ==> tasks[k] == if k < i then Woken(before.tasks[k], k, ticks) else before.tasks[k]
      {
        if tasks[i].state == Blocked && tasks[i].wakeup != 0 && Passed(ticks, tasks[i].wakeup) {
          tasks[i] := tasks[i].(state := Ready);
        }
        i := i + 1;
      }
      assert tasks[..] == WakeSleepers(before.tasks, ticks);
      rest := DoTick(before);
    }

    /** The first READY slot after start, cyclically, or NTASK. */
    method Scan(start: nat) returns (n: nat)
      requires Valid()
      ensures n == PickReady(tasks[..], start, 1)
    {
      var i := 1;
      while i <= NTASK
        invariant 1 <= i <= NTASK + 1
        invariant PickReady(tasks[..], start, 1) == PickReady(tasks[..], start, i)
      {
        if tasks[Ring(start, i)].state == Ready {
          return Ring(start, i);
        }
        i := i + 1;
      }
      n := NTASK;
    }

    /** task64_schedule under the lock: revalidate the hint, demote, scan, run or idle. */
    method Schedule(c: nat)
      requires Valid() && c < NCPU && (cur[c].Slot? ==> cur[c].i < NTASK)
      modifies this, tasks, cur, idleOn
      ensures Valid() && S() == DoSchedule(old(S()), c)
    {
      ghost var before := S();
      var p := cur[c];
      if !(p.Slot? && tasks[p.i].state == Running && tasks[p.i].lastCpu == c) && !(p.Idle? && idleOn[c]) {
        p := NoTask;
      }
      if p.Slot? {
        tasks[p.i] := tasks[p.i].(state := Ready);
      }
      ghost var t := tasks[..];
      assert t == Demoted(before, Prev(before, c)) && (Prev(before, c) == p);
      hide PickReady;
      var n := Scan(Start(p, c));
      if n < NTASK {
        tasks[n] := tasks[n].(state := Running, lastCpu := c);
        cur[c], idleOn[c] := Slot(n), false;
      } else {
        cur[c], idleOn[c] := Idle, true;
      }
      rest := DoSchedule(before, c);
      assert tasks[..] == rest.tasks;
      assert cur[..] == rest.cur;
      assert idleOn[..] == rest.idleOn;
    }
  }
}
