/** The process table as a state machine.  Every section of code under sched_lock is
    one atomic step of one CPU; what a CPU has still to do between two sections of the
    same call is its `pc`.  Address spaces and task incarnations carry fresh numbers so
    that reaping can be counted. */
module Scheduler {

  const NTASK: nat := 32
  const NCPU: nat := 4
  const U64: nat := 0x1_0000_0000_0000_0000

  datatype Status = Free | New | Ready | Running | Blocked | Zombie

  /** task64_t, as far as scheduling goes; its id is its index. */
  datatype Task = Task(state: Status, cr3: nat, parent: int, waitingFor: int, wakeup: nat, exitCode: int, lastCpu: int)

  /** cur_cpu[c]: nothing, a slot of the table, or the CPU's own idle task. */
  datatype Cur = NoTask | Slot(i: nat) | Idle

  /** What a CPU owes: nothing, the construction of a reserved slot, the reaping of
      its own exited task, or a call of the scheduler. */
  datatype Pc = User | Building(slot: nat) | Reaping(slot: nat) | Leaving

  /** born and spaces number incarnations and address spaces; exits, delivered and torn
      record what happened to them; asleep marks tasks blocked by sleep. */
  datatype State = State(
    tasks: seq<Task>, cur: seq<Cur>, idleOn: seq<bool>, ticks: nat, pc: seq<Pc>,
    born: seq<nat>, nextBorn: nat, nextSpace: nat, asleep: set<nat>,
    exits: map<nat, int>, delivered: seq<(nat, int)>, torn: seq<nat>)

  predicate Shaped(s: State) {
    |s.tasks| == NTASK && |s.cur| == NCPU && |s.idleOn| == NCPU && |s.pc| == NCPU && |s.born| == NTASK
  }

  /** CPU c is executing task i of the table. */
  predicate On(s: State, c: nat, i: nat)
    requires Shaped(s) && c < NCPU && i < NTASK
  {
    s.cur[c] == Slot(i) && s.tasks[i].state == Running && s.tasks[i].lastCpu == c
  }

  // ---------------------------------------------------------------- table scans

  /** alloc_slot's scan. */
  function FirstFree(tasks: seq<Task>, i: nat): (r: nat)
    requires i <= |tasks|
    ensures i <= r <= |tasks| && (r < |tasks| ==> tasks[r].state == Free) && forall k :: i <= k < r ==> tasks[k].state != Free
    decreases |tasks| - i
  {
    if i == |tasks| || tasks[i].state == Free then i else FirstFree(tasks, i + 1)
  }

  function Ring(start: nat, k: nat): (j: nat)
    ensures j < NTASK
  {
    (start + k) % NTASK
  }

  /** The scheduler's scan: the first READY slot after start, cyclically. */
  function PickReady(tasks: seq<Task>, start: nat, i: nat): (r: nat)
    requires |tasks| == NTASK && 1 <= i <= NTASK + 1
    ensures r <= NTASK && (r < NTASK ==> tasks[r].state == Ready)
    ensures r == NTASK ==> forall k :: i <= k <= NTASK ==> tasks[Ring(start, k)].state != Ready
    decreases NTASK + 1 - i
  {
    if i == NTASK + 1 then NTASK
    else if tasks[Ring(start, i)].state == Ready then Ring(start, i)
    else PickReady(tasks, start, i + 1)
  }

  /** Every slot is met within one turn of the ring. */
  lemma RingHits(start: nat, j: nat) returns (k: nat)
    requires j < NTASK
    ensures 1 <= k <= NTASK && Ring(start, k) == j
  {
    var q, r := start / NTASK, start % NTASK;
    k := if j > r then j - r else j - r + NTASK;
    assert start + k == NTASK * q + j || start + k == NTASK * (q + 1) + j;
  }

  /** Nothing is picked only when nothing is READY. */
  lemma PickReadyComplete(tasks: seq<Task>, start: nat)
    requires |tasks| == NTASK
    ensures PickReady(tasks, start, 1) == NTASK <==> forall j :: 0 <= j < NTASK ==> tasks[j].state != Ready
  {
    if PickReady(tasks, start, 1) == NTASK {
      forall j: nat | j < NTASK ensures tasks[j].state != Ready {
        var k := RingHits(start, j);
      }
    }
  }

  predicate IsChild(t: Task, k: nat, self: nat, pid: int) {
    t.parent == self && t.state != Free && (pid == -1 || k == pid)
  }

  /** waitpid's scan: the first zombie child that matches, or NTASK. */
  function FindZombie(tasks: seq<Task>, self: nat, pid: int, i: nat): (r: nat)
    requires i <= |tasks|
    ensures i <= r <= |tasks|
    ensures r < |tasks| ==> IsChild(tasks[r], r, self, pid) && tasks[r].state == Zombie
    ensures forall k :: i <= k < r ==> !(IsChild(tasks[k], k, self, pid) && tasks[k].state == Zombie)
    decreases |tasks| - i
  {
    if i == |tasks| || (IsChild(tasks[i], i, self, pid) && tasks[i].state == Zombie) then i
    else FindZombie(tasks, self, pid, i + 1)
  }

  predicate HasChild(tasks: seq<Task>, self: nat, pid: int) {
    exists k :: 1 <= k < |tasks| && IsChild(tasks[k], k, self, pid)
  }

  function Orphaned(t: Task, k: nat, self: nat): Task {
    if k >= 1 && t.parent == self && t.state != Free then t.(parent := 0) else t
  }

  function Reparent(tasks: seq<Task>, self: nat): seq<Task> {
    seq(|tasks|, k requires 0 <= k < |tasks| => Orphaned(tasks[k], k, self))
  }

  /** The signed comparison (long)(ticks - w) >= 0 on 64-bit counters. */
  predicate Passed(ticks: nat, w: nat) { (ticks - w) % U64 < U64 / 2 }

  function Woken(t: Task, k: nat, ticks: nat): Task {
    if k >= 1 && t.state == Blocked && t.wakeup != 0 && Passed(ticks, t.wakeup) then t.(state := Ready) else t
  }

  function WakeSleepers(tasks: seq<Task>, ticks: nat): seq<Task> {
    seq(|tasks|, k requires 0 <= k < |tasks| => Woken(tasks[k], k, ticks))
  }

  // ---------------------------------------------------------------- steps

  datatype Op =
    | AllocSlot(cpu: nat)
    | Wire(cpu: nat, toBoot: bool)
    | Publish(cpu: nat)
    | Unreserve(cpu: nat)
    | Exec(cpu: nat)
    | Exit(cpu: nat, status: int)
    | Reap(cpu: nat)
    | WaitPid(cpu: nat, pid: int, nohang: bool)
    | Sleep(cpu: nat, delta: nat)
    | Tick
    | Schedule(cpu: nat)

  /** A system call of the task on this CPU (task 0 is the boot context and makes none
      that block, wait or exit). */
  predicate Calls(s: State, c: nat)
    requires Shaped(s)
  {
    c < NCPU && s.pc[c] == User && s.cur[c].Slot? && 1 <= s.cur[c].i < NTASK && On(s, c, s.cur[c].i)
  }

  predicate Can(s: State, op: Op)
    requires Shaped(s)
  {
    match op
    case AllocSlot(c) => c < NCPU && s.pc[c] == User && s.cur[c].Slot? && s.cur[c].i < NTASK && On(s, c, s.cur[c].i)
    case Wire(c, _) => c < NCPU && s.pc[c].Building? && s.pc[c].slot < NTASK && s.tasks[s.pc[c].slot].cr3 == 0 && s.cur[c].Slot?
    case Publish(c) => c < NCPU && s.pc[c].Building? && s.pc[c].slot < NTASK && s.tasks[s.pc[c].slot].cr3 != 0
    case Unreserve(c) => c < NCPU && s.pc[c].Building? && s.pc[c].slot < NTASK
    case Exec(c) => Calls(s, c)
    case Exit(c, _) => Calls(s, c)
    case Reap(c) => c < NCPU && s.pc[c].Reaping? && s.pc[c].slot < NTASK
    case WaitPid(c, _, _) => Calls(s, c)
    case Sleep(c, delta) => Calls(s, c) && delta != 0
    case Tick => true
    case Schedule(c) => c < NCPU && (s.pc[c] == User || s.pc[c] == Leaving)
  }

  /** alloc_slot. */
  function DoAlloc(s: State, c: nat): State
    requires Shaped(s) && c < NCPU
  {
    var r := FirstFree(s.tasks, 1);
    if r == NTASK then s
    else s.(tasks := s.tasks[r := Task(New, 0, -1, -2, 0, 0, -1)], pc := s.pc[c := Building(r)],
            born := s.born[r := s.nextBorn], nextBorn := s.nextBorn + 1, asleep := s.asleep - {r})
  }

  /** A fresh space and a parent for the reserved slot: the caller for fork, clone and
      spawn with arguments, the boot context for spawn of an image. */
  function DoWire(s: State, c: nat, toBoot: bool): State
    requires Shaped(s) && c < NCPU && s.pc[c].Building? && s.pc[c].slot < NTASK && s.cur[c].Slot?
  {
    var r := s.pc[c].slot;
    s.(tasks := s.tasks[r := s.tasks[r].(cr3 := s.nextSpace, parent := if toBoot then 0 else s.cur[c].i)], nextSpace := s.nextSpace + 1)
  }

  /** task_unreserve, after tearing down whatever space was built. */
  function DoUnreserve(s: State, c: nat): State
    requires Shaped(s) && c < NCPU && s.pc[c].Building? && s.pc[c].slot < NTASK
  {
    var r := s.pc[c].slot;
    s.(tasks := s.tasks[r := s.tasks[r].(state := if s.tasks[r].state == New then Free else s.tasks[r].state)],
       pc := s.pc[c := User], torn := if s.tasks[r].cr3 != 0 then s.torn + [s.tasks[r].cr3] else s.torn)
  }

  /** exec's commit: run on a fresh space, tear the old one down. */
  function DoExec(s: State, c: nat): State
    requires Shaped(s) && Calls(s, c)
  {
    var i := s.cur[c].i;
    s.(tasks := s.tasks[i := s.tasks[i].(cr3 := s.nextSpace)], nextSpace := s.nextSpace + 1, torn := s.torn + [s.tasks[i].cr3])
  }

  /** The table after task i exits: zombie, children handed to 0, a waiting parent woken. */
  function Exited(tasks: seq<Task>, i: nat, status: int): seq<Task>
    requires |tasks| == NTASK && i < NTASK
  {
    var z := Reparent(tasks[i := tasks[i].(exitCode := status, state := Zombie)], i);
    var p := z[i].parent;
    if 0 <= p < NTASK && z[p].state == Blocked && (z[p].waitingFor == i || z[p].waitingFor == -1)
    then z[p := z[p].(state := Ready)] else z
  }

  /** Nobody will wait for the zombie. */
  predicate ReapNow(tasks: seq<Task>, i: nat)
    requires |tasks| == NTASK && i < NTASK
  {
    var p := tasks[i].parent;
    !(0 <= p < NTASK) || tasks[p].state == Free || p == 0
  }

  function DoExit(s: State, c: nat, status: int): State
    requires Shaped(s) && Calls(s, c)
  {
    var i := s.cur[c].i;
    var t := Exited(s.tasks, i, status);
    s.(tasks := t, pc := s.pc[c := if ReapNow(t, i) then Reaping(i) else Leaving], exits := s.exits[s.born[i] := status])
  }

  /** The second section of exit: the space is gone, the slot is free. */
  function DoReap(s: State, c: nat): State
    requires Shaped(s) && c < NCPU && s.pc[c].Reaping? && s.pc[c].slot < NTASK
  {
    var i := s.pc[c].slot;
    s.(tasks := s.tasks[i := s.tasks[i].(cr3 := 0, state := Free)], pc := s.pc[c := Leaving], torn := s.torn + [s.tasks[i].cr3])
  }

  /** waitpid: claim a zombie child, or report, or block. */
  function DoWait(s: State, c: nat, pid: int, nohang: bool): State
    requires Shaped(s) && Calls(s, c)
  {
    var i := s.cur[c].i;
    var z := FindZombie(s.tasks, i, pid, 1);
    if z < NTASK then
      s.(tasks := s.tasks[z := s.tasks[z].(cr3 := 0, state := Free)],
         delivered := s.delivered + [(s.born[z], s.tasks[z].exitCode)], torn := s.torn + [s.tasks[z].cr3])
    else if !HasChild(s.tasks, i, pid) || nohang then s
    else s.(tasks := s.tasks[i := s.tasks[i].(waitingFor := pid, wakeup := 0, state := Blocked)],
            pc := s.pc[c := Leaving], asleep := s.asleep - {i})
  }

  function DoSleep(s: State, c: nat, delta: nat): State
    requires Shaped(s) && Calls(s, c)
  {
    var i := s.cur[c].i;
    var w := if s.tasks[i].wakeup == 0 then (s.ticks + delta) % U64 else s.tasks[i].wakeup;
    if Passed(s.ticks, w) then s.(tasks := s.tasks[i := s.tasks[i].(wakeup := 0)])
    else s.(tasks := s.tasks[i := s.tasks[i].(wakeup := w, state := Blocked)], pc := s.pc[c := Leaving], asleep := s.asleep + {i})
  }

  function DoTick(s: State): State
    requires Shaped(s)
  {
    var t := (s.ticks + 1) % U64;
    s.(ticks := t, tasks := WakeSleepers(s.tasks, t))
  }

  /** The slot CPU c gives up, if the hint in cur is still its own running task. */
  function Prev(s: State, c: nat): Cur
    requires Shaped(s) && c < NCPU
  {
    match s.cur[c]
    case Slot(i) => if i < NTASK && On(s, c, i) then Slot(i) else NoTask
    case Idle => if s.idleOn[c] then Idle else NoTask
    case NoTask => NoTask
  }

  function Demoted(s: State, p: Cur): seq<Task>
    requires Shaped(s) && (p.Slot? ==> p.i < NTASK)
  {
    if p.Slot? then s.tasks[p.i := s.tasks[p.i].(state := Ready)] else s.tasks
  }

  /** The scan begins after the task given up; idle tasks are numbered from 100. */
  function Start(p: Cur, c: nat): nat {
    match p case Slot(i) => i case Idle => 100 + c case NoTask => 0
  }

  function DoSchedule(s: State, c: nat): State
    requires Shaped(s) && c < NCPU
  {
    var p := Prev(s, c);
    var t := Demoted(s, p);
    var n := PickReady(t, Start(p, c), 1);
    if n < NTASK then
      s.(tasks := t[n := t[n].(state := Running, lastCpu := c)], cur := s.cur[c := Slot(n)],
         idleOn := s.idleOn[c := false], pc := s.pc[c := User])
    else
      s.(tasks := t, cur := s.cur[c := Idle], idleOn := s.idleOn[c := true], pc := s.pc[c := User])
  }

  function Do(s: State, op: Op): State
    requires Shaped(s) && Can(s, op)
  {
    match op
    case AllocSlot(c) => DoAlloc(s, c)
    case Wire(c, toBoot) => DoWire(s, c, toBoot)
    case Publish(c) => var r := s.pc[c].slot;
      s.(tasks := s.tasks[r := s.tasks[r].(state := if s.tasks[r].state == New then Ready else s.tasks[r].state)], pc := s.pc[c := User])
    case Unreserve(c) => DoUnreserve(s, c)
    case Exec(c) => DoExec(s, c)
    case Exit(c, status) => DoExit(s, c, status)
    case Reap(c) => DoReap(s, c)
    case WaitPid(c, pid, nohang) => DoWait(s, c, pid, nohang)
    case Sleep(c, delta) => DoSleep(s, c, delta)
    case Tick => DoTick(s)
    case Schedule(c) => DoSchedule(s, c)
  }

  // ---------------------------------------------------------------- invariants

  /** Running tasks are current on the CPU they last ran on; an idle task runs only
      where it is current. */
  ghost predicate Owned(tasks: seq<Task>, cur: seq<Cur>, idleOn: seq<bool>)
    requires |tasks| == NTASK && |cur| == NCPU && |idleOn| == NCPU
  {
    (forall i :: 0 <= i < NTASK && tasks[i].state == Running ==>
      0 <= tasks[i].lastCpu < NCPU && cur[tasks[i].lastCpu] == Slot(i)) &&
    (forall c :: 0 <= c < NCPU && idleOn[c] ==> cur[c] == Idle) &&
    (forall c :: 0 <= c < NCPU && cur[c].Slot? ==> cur[c].i < NTASK)
  }

  /** What a CPU is in the middle of. */
  predicate BusyAt(tasks: seq<Task>, cur: Cur, c: nat, pc: Pc)
    requires |tasks| == NTASK
  {
    match pc
    case Building(r) =>
      1 <= r < NTASK && tasks[r].state == New && cur.Slot? && cur.i < NTASK && cur.i != r &&
      tasks[cur.i].state == Running && tasks[cur.i].lastCpu == c &&
      (tasks[r].parent == -1 || tasks[r].parent == 0 || tasks[r].parent == cur.i)
    case Reaping(r) =>
      1 <= r < NTASK && tasks[r].state == Zombie && tasks[r].parent <= 0 && cur == Slot(r)
    case _ => true
  }

  /** No two CPUs build the same slot or reap the same task. */
  ghost predicate Busy(tasks: seq<Task>, cur: seq<Cur>, pc: seq<Pc>)
    requires |tasks| == NTASK && |cur| == NCPU && |pc| == NCPU
  {
    (forall c :: 0 <= c < NCPU ==> BusyAt(tasks, cur[c], c, pc[c])) &&
    (forall c, d :: 0 <= c < d < NCPU && (pc[c].Building? || pc[c].Reaping?) ==> pc[c] != pc[d])
  }

  predicate Alive(t: Task) { t.state == Ready || t.state == Running || t.state == Blocked }

  /** The boot context never blocks.  Parents are alive: a task's parent is none, the
      boot context, or a task that has neither exited nor been freed. */
  ghost predicate Parented(tasks: seq<Task>)
    requires |tasks| == NTASK
  {
    Alive(tasks[0]) && tasks[0].state != Blocked &&
    forall i :: 1 <= i < NTASK && tasks[i].state != Free ==>
      -1 <= tasks[i].parent < NTASK && tasks[i].parent != i && (tasks[i].parent >= 0 ==> Alive(tasks[tasks[i].parent]))
  }

  /** Task k is a child that waitpid(pid) of task i could still collect later. */
  predicate Awaited(tasks: seq<Task>, i: nat, pid: int, k: nat) {
    1 <= k < |tasks| && IsChild(tasks[k], k, i, pid) && tasks[k].state != Zombie
  }

  ghost predicate HasAwaited(tasks: seq<Task>, i: nat, pid: int) {
    exists k :: Awaited(tasks, i, pid, k)
  }

  /** A task blocked in waitpid has a child that has not exited. */
  ghost predicate Waits(tasks: seq<Task>, asleep: set<nat>) {
    forall i :: 0 <= i < |tasks| && tasks[i].state == Blocked && i !in asleep ==> HasAwaited(tasks, i, tasks[i].waitingFor)
  }

  /** Spaces in use are distinct and not torn down; none is torn down twice. */
  ghost predicate Spaces(tasks: seq<Task>, next: nat, torn: seq<nat>) {
    next > 0 &&
    (forall i :: 1 <= i < |tasks| && tasks[i].state != Free ==> tasks[i].cr3 < next && tasks[i].cr3 !in torn) &&
    (forall i :: 1 <= i < |tasks| && tasks[i].state != Free && tasks[i].state != New ==> tasks[i].cr3 != 0) &&
    (forall i, j :: 1 <= i < j < |tasks| && tasks[i].state != Free && tasks[j].state != Free ==>
      tasks[i].cr3 == 0 || tasks[i].cr3 != tasks[j].cr3) &&
    (forall k :: 0 <= k < |torn| ==> 0 < torn[k] < next) &&
    (forall k, l :: 0 <= k < l < |torn| ==> torn[k] != torn[l])
  }

  ghost predicate Delivered(log: seq<(nat, int)>, b: nat) {
    exists k :: 0 <= k < |log| && log[k].0 == b
  }

  /** Incarnations in use are distinct and undelivered; each status is delivered once
      and is the one its task exited with. */
  ghost predicate Deliveries(tasks: seq<Task>, born: seq<nat>, next: nat, exits: map<nat, int>, log: seq<(nat, int)>)
    requires |tasks| == |born|
  {
    (forall i :: 1 <= i < |tasks| && tasks[i].state != Free ==> born[i] < next && !Delivered(log, born[i])) &&
    (forall i, j :: 1 <= i < j < |tasks| && tasks[i].state != Free && tasks[j].state != Free ==> born[i] != born[j]) &&
    (forall i :: 1 <= i < |tasks| && tasks[i].state == Zombie ==> born[i] in exits && exits[born[i]] == tasks[i].exitCode) &&
    (forall i :: 1 <= i < |tasks| && tasks[i].state != Free && tasks[i].state != Zombie ==> born[i] !in exits) &&
    (forall k :: 0 <= k < |log| ==> log[k].0 in exits && exits[log[k].0] == log[k].1) &&
    (forall b :: b in exits ==> b < next) &&
    (forall k, l :: 0 <= k < l < |log| ==> log[k].0 != log[l].0)
  }

  ghost predicate Inv(s: State) {
    Shaped(s) && Owned(s.tasks, s.cur, s.idleOn) && Busy(s.tasks, s.cur, s.pc) && Parented(s.tasks) &&
    Waits(s.tasks, s.asleep) && Spaces(s.tasks, s.nextSpace, s.torn) &&
    Deliveries(s.tasks, s.born, s.nextBorn, s.exits, s.delivered)
  }

  // ---------------------------------------------------------------- one slot changes

  /** The slot stays a child of the same parent, uncollected. */
  predicate StillChild(t: Task, u: Task) {
    u.parent == t.parent && u.state != Free && u.state != Zombie
  }

  /** No blocked task can be waiting for slot i. */
  ghost predicate NoWaiter(tasks: seq<Task>, i: nat)
    requires i < |tasks|
  {
    forall p :: 0 <= p < |tasks| && tasks[p].state == Blocked ==> tasks[i].parent != p
  }

  lemma WaitsSlot(tasks: seq<Task>, asleep: set<nat>, i: nat, t: Task, asleep2: set<nat>)
    requires Waits(tasks, asleep) && i < |tasks| && forall p :: p != i ==> (p in asleep2 <==> p in asleep)
    requires StillChild(tasks[i], t) || NoWaiter(tasks, i) || tasks[i].state == Free || tasks[i].state == Zombie
    requires t.state == Blocked && i !in asleep2 ==> HasAwaited(tasks[i := t], i, t.waitingFor)
    ensures Waits(tasks[i := t], asleep2)
  {
    var u := tasks[i := t];
    forall p | 0 <= p < |u| && u[p].state == Blocked && p !in asleep2 ensures HasAwaited(u, p, u[p].waitingFor) {
      if p != i {
        var k: nat :| Awaited(tasks, p, tasks[p].waitingFor, k);
        assert Awaited(u, p, u[p].waitingFor, k);
      }
    }
  }

  lemma ParentedSlot(tasks: seq<Task>, i: nat, t: Task)
    requires |tasks| == NTASK && Parented(tasks) && i < NTASK
    requires Alive(tasks[i]) ==> Alive(t)
    requires i == 0 ==> t.state != Blocked
    requires i >= 1 && t.state != Free ==> -1 <= t.parent < NTASK && t.parent != i && (t.parent >= 0 ==> Alive(tasks[t.parent]))
    ensures Parented(tasks[i := t])
  {
  }

  lemma SpacesSlot(tasks: seq<Task>, next: nat, torn: seq<nat>, i: nat, t: Task)
    requires Spaces(tasks, next, torn) && 1 <= i < |tasks|
    requires t.state == Free || (tasks[i].state != Free && t.cr3 == tasks[i].cr3 && (t.state == New || t.cr3 != 0)) || (t.cr3 == 0 && t.state == New)
    ensures Spaces(tasks[i := t], next, torn)
  {
  }

  lemma SpacesFresh(tasks: seq<Task>, next: nat, torn: seq<nat>, i: nat, t: Task)
    requires Spaces(tasks, next, torn) && 1 <= i < |tasks| && tasks[i].state != Free && t.cr3 == next
    ensures Spaces(tasks[i := t], next + 1, torn)
    ensures tasks[i].cr3 != 0 ==> Spaces(tasks[i := t], next + 1, torn + [tasks[i].cr3])
  {
  }

  lemma SpacesTorn(tasks: seq<Task>, next: nat, torn: seq<nat>, i: nat, t: Task)
    requires Spaces(tasks, next, torn) && 1 <= i < |tasks| && tasks[i].state != Free && tasks[i].cr3 != 0 && t.state == Free
    ensures Spaces(tasks[i := t], next, torn + [tasks[i].cr3])
  {
  }

  lemma DeliveriesSlot(tasks: seq<Task>, born: seq<nat>, next: nat, exits: map<nat, int>, log: seq<(nat, int)>, i: nat, t: Task)
    requires |tasks| == |born| && Deliveries(tasks, born, next, exits, log) && i < |tasks|
    requires t.state == Free || (tasks[i].state != Free && tasks[i].state != Zombie && t.state != Zombie)
    ensures Deliveries(tasks[i := t], born, next, exits, log)
  {
  }

  lemma OwnedSlot(tasks: seq<Task>, cur: seq<Cur>, idleOn: seq<bool>, i: nat, t: Task)
    requires |tasks| == NTASK && |cur| == NCPU && |idleOn| == NCPU && Owned(tasks, cur, idleOn) && i < NTASK
    requires t.state == Running ==> tasks[i].state == Running && t.lastCpu == tasks[i].lastCpu
    ensures Owned(tasks[i := t], cur, idleOn)
  {
  }

  /** Slot i changes in a way no busy CPU can notice. */
  lemma BusySlot(tasks: seq<Task>, cur: seq<Cur>, pc: seq<Pc>, i: nat, t: Task)
    requires |tasks| == NTASK && |cur| == NCPU && |pc| == NCPU && Busy(tasks, cur, pc) && i < NTASK
    requires
      (t.state == tasks[i].state && t.parent == tasks[i].parent && t.lastCpu == tasks[i].lastCpu) ||
      tasks[i].state == Free || tasks[i].state == Ready || tasks[i].state == Blocked
    ensures Busy(tasks[i := t], cur, pc)
  {
  }

  /** CPU c moves on: only its own slot i, running there or named by its pc, may change. */
  lemma BusyOwn(tasks: seq<Task>, cur: seq<Cur>, pc: seq<Pc>, c: nat, i: nat, t: Task, p: Pc)
    requires |tasks| == NTASK && |cur| == NCPU && |pc| == NCPU && Busy(tasks, cur, pc) && c < NCPU && i < NTASK
    requires (tasks[i].state == Running && tasks[i].lastCpu == c) || pc[c] == Building(i) || pc[c] == Reaping(i)
    requires BusyAt(tasks[i := t], cur[c], c, p)
    requires p == Building(i) || p == Reaping(i) || p.User? || p.Leaving?
    ensures Busy(tasks[i := t], cur, pc[c := p])
  {
  }

  // ---------------------------------------------------------------- every step keeps Inv

  lemma AllocKeeps(s: State, c: nat)
    requires Inv(s) && Can(s, AllocSlot(c))
    ensures Inv(DoAlloc(s, c))
  {
    hide Waits, Parented, Spaces, Owned, Busy, Deliveries;
    var r := FirstFree(s.tasks, 1);
    if r < NTASK {
      var t := Task(New, 0, -1, -2, 0, 0, -1);
      WaitsSlot(s.tasks, s.asleep, r, t, s.asleep - {r});
      ParentedSlot(s.tasks, r, t);
      SpacesSlot(s.tasks, s.nextSpace, s.torn, r, t);
      OwnedSlot(s.tasks, s.cur, s.idleOn, r, t);
      BusyReserve(s.tasks, s.cur, s.pc, c, r, t);
      DeliveriesBorn(s.tasks, s.born, s.nextBorn, s.exits, s.delivered, r, t);
    }
  }

  lemma BusyReserve(tasks: seq<Task>, cur: seq<Cur>, pc: seq<Pc>, c: nat, r: nat, t: Task)
    requires |tasks| == NTASK && |cur| == NCPU && |pc| == NCPU && Busy(tasks, cur, pc) && c < NCPU && 1 <= r < NTASK
    requires tasks[r].state == Free && t.state == New && t.parent == -1
    requires cur[c].Slot? && cur[c].i < NTASK && tasks[cur[c].i].state == Running && tasks[cur[c].i].lastCpu == c
    ensures Busy(tasks[r := t], cur, pc[c := Building(r)])
  {
    forall d | 0 <= d < NCPU ensures pc[d] != Building(r) && pc[d] != Reaping(r) {
      assert BusyAt(tasks, cur[d], d, pc[d]);
    }
    BusySlot(tasks, cur, pc, r, t);
  }

  lemma DeliveriesBorn(tasks: seq<Task>, born: seq<nat>, next: nat, exits: map<nat, int>, log: seq<(nat, int)>, i: nat, t: Task)
    requires |tasks| == |born| && Deliveries(tasks, born, next, exits, log) && 1 <= i < |tasks| && t.state == New
    ensures Deliveries(tasks[i := t], born[i := next], next + 1, exits, log)
  {
    assert !Delivered(log, next);
  }

  lemma WireKeeps(s: State, c: nat, toBoot: bool)
    requires Inv(s) && Can(s, Wire(c, toBoot))
    ensures Inv(DoWire(s, c, toBoot))
  {
    hide Waits, Spaces, Owned, Deliveries;
    var r := s.pc[c].slot;
    assert BusyAt(s.tasks, s.cur[c], c, s.pc[c]);
    var t := s.tasks[r].(cr3 := s.nextSpace, parent := if toBoot then 0 else s.cur[c].i);
    hide Busy;
    WaitsSlot(s.tasks, s.asleep, r, t, s.asleep);
    ParentedSlot(s.tasks, r, t);
    hide Parented;
    SpacesFresh(s.tasks, s.nextSpace, s.torn, r, t);
    OwnedSlot(s.tasks, s.cur, s.idleOn, r, t);
    BusyOwn(s.tasks, s.cur, s.pc, c, r, t, s.pc[c]);
    assert s.pc[c := s.pc[c]] == s.pc;
    DeliveriesSlot(s.tasks, s.born, s.nextBorn, s.exits, s.delivered, r, t);
  }

  lemma PublishKeeps(s: State, c: nat)
    requires Inv(s) && Can(s, Publish(c))
    ensures Inv(Do(s, Publish(c)))
  {
    hide Waits, Spaces, Owned, Deliveries;
    var r := s.pc[c].slot;
    assert BusyAt(s.tasks, s.cur[c], c, s.pc[c]);
    var t := s.tasks[r].(state := Ready);
    hide Busy;
    WaitsSlot(s.tasks, s.asleep, r, t, s.asleep);
    ParentedSlot(s.tasks, r, t);
    hide Parented;
    SpacesSlot(s.tasks, s.nextSpace, s.torn, r, t);
    OwnedSlot(s.tasks, s.cur, s.idleOn, r, t);
    BusyOwn(s.tasks, s.cur, s.pc, c, r, t, User);
    DeliveriesSlot(s.tasks, s.born, s.nextBorn, s.exits, s.delivered, r, t);
  }

  lemma UnreserveKeeps(s: State, c: nat)
    requires Inv(s) && Can(s, Unreserve(c))
    ensures Inv(DoUnreserve(s, c))
  {
    hide Waits, Spaces, Owned, Deliveries;
    var r := s.pc[c].slot;
    assert BusyAt(s.tasks, s.cur[c], c, s.pc[c]);
    var t := s.tasks[r].(state := Free);
    hide Busy;
    assert NoWaiter(s.tasks, r);
    WaitsSlot(s.tasks, s.asleep, r, t, s.asleep);
    ParentedSlot(s.tasks, r, t);
    hide Parented;
    if s.tasks[r].cr3 != 0 {
      SpacesTorn(s.tasks, s.nextSpace, s.torn, r, t);
    } else {
      SpacesSlot(s.tasks, s.nextSpace, s.torn, r, t);
    }
    OwnedSlot(s.tasks, s.cur, s.idleOn, r, t);
    BusyOwn(s.tasks, s.cur, s.pc, c, r, t, User);
    DeliveriesSlot(s.tasks, s.born, s.nextBorn, s.exits, s.delivered, r, t);
  }

  /** A running task of the table has a space. */
  lemma HasSpace(tasks: seq<Task>, next: nat, torn: seq<nat>, i: nat)
    requires Spaces(tasks, next, torn) && 1 <= i < |tasks| && tasks[i].state != Free && tasks[i].state != New
    ensures tasks[i].cr3 != 0
  {
  }

  /** The parent of a task that is not free. */
  lemma HasParent(tasks: seq<Task>, i: nat)
    requires |tasks| == NTASK && Parented(tasks) && 1 <= i < NTASK && tasks[i].state != Free
    ensures -1 <= tasks[i].parent < NTASK && tasks[i].parent != i && (tasks[i].parent >= 0 ==> Alive(tasks[tasks[i].parent]))
  {
  }

  lemma ExecKeeps(s: State, c: nat)
    requires Inv(s) && Can(s, Exec(c))
    ensures Inv(DoExec(s, c))
  {
    hide Waits, Spaces, Owned, Deliveries, Parented, Busy;
    var i := s.cur[c].i;
    var t := s.tasks[i].(cr3 := s.nextSpace);
    HasSpace(s.tasks, s.nextSpace, s.torn, i);
    HasParent(s.tasks, i);
    WaitsSlot(s.tasks, s.asleep, i, t, s.asleep);
    ParentedSlot(s.tasks, i, t);
    SpacesFresh(s.tasks, s.nextSpace, s.torn, i, t);
    OwnedSlot(s.tasks, s.cur, s.idleOn, i, t);
    BusySlot(s.tasks, s.cur, s.pc, i, t);
    DeliveriesSlot(s.tasks, s.born, s.nextBorn, s.exits, s.delivered, i, t);
  }

  lemma ReapKeeps(s: State, c: nat)
    requires Inv(s) && Can(s, Reap(c))
    ensures Inv(DoReap(s, c))
  {
    hide Waits, Spaces, Owned, Deliveries, Parented;
    var i := s.pc[c].slot;
    assert BusyAt(s.tasks, s.cur[c], c, s.pc[c]);
    hide Busy;
    var t := s.tasks[i].(cr3 := 0, state := Free);
    HasSpace(s.tasks, s.nextSpace, s.torn, i);
    WaitsSlot(s.tasks, s.asleep, i, t, s.asleep);
    ParentedSlot(s.tasks, i, t);
    SpacesTorn(s.tasks, s.nextSpace, s.torn, i, t);
    OwnedSlot(s.tasks, s.cur, s.idleOn, i, t);
    BusyOwn(s.tasks, s.cur, s.pc, c, i, t, Leaving);
    DeliveriesSlot(s.tasks, s.born, s.nextBorn, s.exits, s.delivered, i, t);
  }

  /** A zombie with a living parent is nobody's unfinished business. */
  lemma BusyFreed(tasks: seq<Task>, cur: seq<Cur>, pc: seq<Pc>, z: nat, t: Task)
    requires |tasks| == NTASK && |cur| == NCPU && |pc| == NCPU && Busy(tasks, cur, pc) && z < NTASK
    requires tasks[z].state == Zombie && tasks[z].parent > 0
    ensures Busy(tasks[z := t], cur, pc)
  {
  }

  /** Handing a zombie's status to its parent. */
  lemma DeliveriesReap(tasks: seq<Task>, born: seq<nat>, next: nat, exits: map<nat, int>, log: seq<(nat, int)>, z: nat, t: Task)
    requires |tasks| == |born| && Deliveries(tasks, born, next, exits, log) && 1 <= z < |tasks|
    requires tasks[z].state == Zombie && t.state == Free
    ensures Deliveries(tasks[z := t], born, next, exits, log + [(born[z], tasks[z].exitCode)])
  {
    var log2 := log + [(born[z], tasks[z].exitCode)];
    forall i | 1 <= i < |tasks| && tasks[z := t][i].state != Free ensures !Delivered(log2, born[i]) {
      assert born[i] != born[z] && !Delivered(log, born[i]);
    }
  }

  lemma WaitKeeps(s: State, c: nat, pid: int, nohang: bool)
    requires Inv(s) && Can(s, WaitPid(c, pid, nohang))
    ensures Inv(DoWait(s, c, pid, nohang))
  {
    hide Waits, Spaces, Owned, Deliveries, Parented, Busy;
    var i := s.cur[c].i;
    var z := FindZombie(s.tasks, i, pid, 1);
    if z < NTASK {
      var t := s.tasks[z].(cr3 := 0, state := Free);
      HasSpace(s.tasks, s.nextSpace, s.torn, z);
      WaitsSlot(s.tasks, s.asleep, z, t, s.asleep);
      ParentedSlot(s.tasks, z, t);
      SpacesTorn(s.tasks, s.nextSpace, s.torn, z, t);
      OwnedSlot(s.tasks, s.cur, s.idleOn, z, t);
      BusyFreed(s.tasks, s.cur, s.pc, z, t);
      DeliveriesReap(s.tasks, s.born, s.nextBorn, s.exits, s.delivered, z, t);
    } else if HasChild(s.tasks, i, pid) && !nohang {
      var t := s.tasks[i].(waitingFor := pid, wakeup := 0, state := Blocked);
      var k :| 1 <= k < NTASK && IsChild(s.tasks[k], k, i, pid);
      HasParent(s.tasks, k);
      HasParent(s.tasks, i);
      HasSpace(s.tasks, s.nextSpace, s.torn, i);
      assert Awaited(s.tasks[i := t], i, pid, k);
      BlockKeeps(s, c, t, s.asleep - {i});
    }
  }

  /** The task on CPU c blocks. */
  lemma BlockKeeps(s: State, c: nat, t: Task, asleep: set<nat>)
    requires Inv(s) && Calls(s, c) && t.state == Blocked
    requires var i := s.cur[c].i; t.cr3 == s.tasks[i].cr3 != 0 && t.parent == s.tasks[i].parent && (i !in asleep ==> HasAwaited(s.tasks[i := t], i, t.waitingFor))
    requires forall p :: p != s.cur[c].i ==> (p in asleep <==> p in s.asleep)
    ensures Inv(s.(tasks := s.tasks[s.cur[c].i := t], pc := s.pc[c := Leaving], asleep := asleep))
  {
    hide Waits, Spaces, Owned, Deliveries, Parented, Busy;
    var i := s.cur[c].i;
    HasParent(s.tasks, i);
    WaitsSlot(s.tasks, s.asleep, i, t, asleep);
    ParentedSlot(s.tasks, i, t);
    SpacesSlot(s.tasks, s.nextSpace, s.torn, i, t);
    OwnedSlot(s.tasks, s.cur, s.idleOn, i, t);
    BusyOwn(s.tasks, s.cur, s.pc, c, i, t, Leaving);
    DeliveriesSlot(s.tasks, s.born, s.nextBorn, s.exits, s.delivered, i, t);
  }

  lemma SleepKeeps(s: State, c: nat, delta: nat)
    requires Inv(s) && Can(s, Sleep(c, delta))
    ensures Inv(DoSleep(s, c, delta))
  {
    hide Waits, Spaces, Owned, Deliveries, Parented, Busy, Passed;
    var i := s.cur[c].i;
    HasSpace(s.tasks, s.nextSpace, s.torn, i);
    HasParent(s.tasks, i);
    var w := if s.tasks[i].wakeup == 0 then (s.ticks + delta) % U64 else s.tasks[i].wakeup;
    if Passed(s.ticks, w) {
      var t := s.tasks[i].(wakeup := 0);
      WaitsSlot(s.tasks, s.asleep, i, t, s.asleep);
      ParentedSlot(s.tasks, i, t);
      SpacesSlot(s.tasks, s.nextSpace, s.torn, i, t);
      OwnedSlot(s.tasks, s.cur, s.idleOn, i, t);
      BusySlot(s.tasks, s.cur, s.pc, i, t);
      DeliveriesSlot(s.tasks, s.born, s.nextBorn, s.exits, s.delivered, i, t);
    } else {
      BlockKeeps(s, c, s.tasks[i].(wakeup := w, state := Blocked), s.asleep + {i});
    }
  }

  // ---------------------------------------------------------------- exit, tick, schedule

  lemma ParentedExit(tasks: seq<Task>, i: nat, status: int)
    requires |tasks| == NTASK && Parented(tasks) && 1 <= i < NTASK && tasks[i].state == Running
    ensures Parented(Exited(tasks, i, status))
  {
    HasParent(tasks, i);
  }

  /** Whoever waited for the exiting task is awake; everyone else's child is still there. */
  lemma WaitsExit(tasks: seq<Task>, asleep: set<nat>, i: nat, status: int)
    requires |tasks| == NTASK && Waits(tasks, asleep) && Parented(tasks) && 1 <= i < NTASK && tasks[i].state == Running
    ensures Waits(Exited(tasks, i, status), asleep)
  {
    var u := Exited(tasks, i, status);
    HasParent(tasks, i);
    forall p | 0 <= p < NTASK && u[p].state == Blocked && p !in asleep ensures HasAwaited(u, p, u[p].waitingFor) {
      assert tasks[p].state == Blocked && u[p].waitingFor == tasks[p].waitingFor;
      var k: nat :| Awaited(tasks, p, tasks[p].waitingFor, k);
      assert k != i && u[k].parent == p;
      assert Awaited(u, p, u[p].waitingFor, k);
    }
  }

  /** The table changed, but no slot changed hands or space. */
  lemma SpacesSame(tasks: seq<Task>, u: seq<Task>, next: nat, torn: seq<nat>)
    requires Spaces(tasks, next, torn) && |u| == |tasks|
    requires forall k :: 0 <= k < |tasks| ==> u[k].cr3 == tasks[k].cr3 && (u[k].state == Free <==> tasks[k].state == Free) && (u[k].state == New <==> tasks[k].state == New)
    ensures Spaces(u, next, torn)
  {
  }

  lemma OwnedSame(tasks: seq<Task>, u: seq<Task>, cur: seq<Cur>, idleOn: seq<bool>)
    requires |tasks| == NTASK && |cur| == NCPU && |idleOn| == NCPU && Owned(tasks, cur, idleOn) && |u| == NTASK
    requires forall k :: 0 <= k < NTASK && u[k].state == Running ==> u[k] == tasks[k] || (tasks[k].state == Running && u[k].lastCpu == tasks[k].lastCpu)
    ensures Owned(u, cur, idleOn)
  {
  }

  lemma DeliveriesExit(tasks: seq<Task>, born: seq<nat>, next: nat, exits: map<nat, int>, log: seq<(nat, int)>, i: nat, status: int)
    requires |tasks| == |born| == NTASK && Deliveries(tasks, born, next, exits, log) && 1 <= i < NTASK && tasks[i].state == Running
    ensures Deliveries(Exited(tasks, i, status), born, next, exits[born[i] := status], log)
  {
    var u := Exited(tasks, i, status);
    assert forall k :: 0 <= k < NTASK && k != i ==> u[k].exitCode == tasks[k].exitCode && (u[k].state == tasks[k].state || (tasks[k].state == Blocked && u[k].state == Ready));
    assert u[i].exitCode == status && u[i].state == Zombie;
    hide Exited;
    assert born[i] !in exits && !Delivered(log, born[i]);
  }

  lemma BusyExit(tasks: seq<Task>, cur: seq<Cur>, pc: seq<Pc>, c: nat, i: nat, status: int)
    requires |tasks| == NTASK && |cur| == NCPU && |pc| == NCPU && Busy(tasks, cur, pc) && Parented(tasks)
    requires c < NCPU && 1 <= i < NTASK && cur[c] == Slot(i) && tasks[i].state == Running && tasks[i].lastCpu == c && pc[c] == User
    ensures Busy(Exited(tasks, i, status), cur, pc[c := if ReapNow(Exited(tasks, i, status), i) then Reaping(i) else Leaving])
  {
    var u := Exited(tasks, i, status);
    HasParent(tasks, i);
    forall d | 0 <= d < NCPU && d != c ensures BusyAt(u, cur[d], d, pc[d]) && pc[d] != Reaping(i) {
      assert BusyAt(tasks, cur[d], d, pc[d]);
    }
    assert u[i].parent == tasks[i].parent && u[i].state == Zombie;
  }

  lemma ExitKeeps(s: State, c: nat, status: int)
    requires Inv(s) && Can(s, Exit(c, status))
    ensures Inv(DoExit(s, c, status))
  {
    hide Waits, Spaces, Owned, Deliveries, Parented, Busy;
    var i := s.cur[c].i;
    var u := Exited(s.tasks, i, status);
    ParentedExit(s.tasks, i, status);
    WaitsExit(s.tasks, s.asleep, i, status);
    SpacesSame(s.tasks, u, s.nextSpace, s.torn);
    OwnedSame(s.tasks, u, s.cur, s.idleOn);
    DeliveriesExit(s.tasks, s.born, s.nextBorn, s.exits, s.delivered, i, status);
    BusyExit(s.tasks, s.cur, s.pc, c, i, status);
  }

  lemma WaitsTick(tasks: seq<Task>, asleep: set<nat>, ticks: nat)
    requires Waits(tasks, asleep)
    ensures Waits(WakeSleepers(tasks, ticks), asleep)
  {
    hide Passed;
    var u := WakeSleepers(tasks, ticks);
    forall p | 0 <= p < |u| && u[p].state == Blocked && p !in asleep ensures HasAwaited(u, p, u[p].waitingFor) {
      var k: nat :| Awaited(tasks, p, tasks[p].waitingFor, k);
      assert Awaited(u, p, u[p].waitingFor, k);
    }
  }

  /** Only BLOCKED tasks changed, and only to READY. */
  lemma OtherwiseSame(tasks: seq<Task>, u: seq<Task>, cur: seq<Cur>, pc: seq<Pc>, born: seq<nat>, next: nat, exits: map<nat, int>, log: seq<(nat, int)>)
    requires |tasks| == |u| == |born| == NTASK && |cur| == NCPU && |pc| == NCPU
    requires forall k :: 0 <= k < NTASK ==> u[k] == tasks[k] || (tasks[k].state == Blocked && u[k] == tasks[k].(state := Ready))
    requires Busy(tasks, cur, pc) && Parented(tasks) && Deliveries(tasks, born, next, exits, log)
    ensures Busy(u, cur, pc) && Parented(u) && Deliveries(u, born, next, exits, log)
  {
    assert Busy(u, cur, pc) by {
      forall c | 0 <= c < NCPU ensures BusyAt(u, cur[c], c, pc[c]) {
        assert BusyAt(tasks, cur[c], c, pc[c]);
      }
    }
  }

  lemma TickKeeps(s: State)
    requires Inv(s)
    ensures Inv(DoTick(s))
  {
    hide Waits, Spaces, Owned, Busy, Parented, Deliveries, Passed;
    var t := (s.ticks + 1) % U64;
    var u := WakeSleepers(s.tasks, t);
    WaitsTick(s.tasks, s.asleep, t);
    SpacesSame(s.tasks, u, s.nextSpace, s.torn);
    OwnedSame(s.tasks, u, s.cur, s.idleOn);
    OtherwiseSame(s.tasks, u, s.cur, s.pc, s.born, s.nextBorn, s.exits, s.delivered);
  }

  /** CPU c, which owns no running task, starts a READY one. */
  lemma RunKeeps(s: State, c: nat, n: nat)
    requires Inv(s) && c < NCPU && (s.pc[c] == User || s.pc[c] == Leaving) && n < NTASK && s.tasks[n].state == Ready
    requires forall i :: 0 <= i < NTASK && s.tasks[i].state == Running ==> s.tasks[i].lastCpu != c
    ensures Inv(s.(tasks := s.tasks[n := s.tasks[n].(state := Running, lastCpu := c)], cur := s.cur[c := Slot(n)],
                   idleOn := s.idleOn[c := false], pc := s.pc[c := User]))
  {
    hide Waits, Spaces, Deliveries;
    var t := s.tasks[n].(state := Running, lastCpu := c);
    assert Owned(s.tasks[n := t], s.cur[c := Slot(n)], s.idleOn[c := false]);
    hide Owned;
    assert Busy(s.tasks[n := t], s.cur[c := Slot(n)], s.pc[c := User]);
    hide Busy;
    assert Parented(s.tasks[n := t]);
    hide Parented;
    WaitsSlot(s.tasks, s.asleep, n, t, s.asleep);
    if n == 0 {
      SpacesBoot(s.tasks, s.nextSpace, s.torn, t);
    } else {
      HasSpace(s.tasks, s.nextSpace, s.torn, n);
      SpacesSlot(s.tasks, s.nextSpace, s.torn, n, t);
    }
    DeliveriesSlot(s.tasks, s.born, s.nextBorn, s.exits, s.delivered, n, t);
  }

  /** Slot 0 takes no part in the accounting of spaces. */
  lemma SpacesBoot(tasks: seq<Task>, next: nat, torn: seq<nat>, t: Task)
    requires Spaces(tasks, next, torn) && |tasks| > 0
    ensures Spaces(tasks[0 := t], next, torn)
  {
  }

  lemma DemoteKeeps(s: State, c: nat)
    requires Inv(s) && c < NCPU && (s.pc[c] == User || s.pc[c] == Leaving)
    ensures Inv(s.(tasks := Demoted(s, Prev(s, c))))
    ensures forall i :: 0 <= i < NTASK && Demoted(s, Prev(s, c))[i].state == Running ==> s.tasks[i].state == Running && s.tasks[i].lastCpu != c
  {
    hide Waits, Spaces, Deliveries, Parented, Busy;
    if Prev(s, c).Slot? {
      var i := Prev(s, c).i;
      var t := s.tasks[i].(state := Ready);
      WaitsSlot(s.tasks, s.asleep, i, t, s.asleep);
      if i == 0 {
        SpacesBoot(s.tasks, s.nextSpace, s.torn, t);
        ParentedSlot(s.tasks, 0, t);
      } else {
        HasSpace(s.tasks, s.nextSpace, s.torn, i);
        SpacesSlot(s.tasks, s.nextSpace, s.torn, i, t);
        HasParent(s.tasks, i);
        ParentedSlot(s.tasks, i, t);
      }
      OwnedSlot(s.tasks, s.cur, s.idleOn, i, t);
      BusyOwn(s.tasks, s.cur, s.pc, c, i, t, s.pc[c]);
      assert s.pc[c := s.pc[c]] == s.pc;
      DeliveriesSlot(s.tasks, s.born, s.nextBorn, s.exits, s.delivered, i, t);
    } else {
      assert s.(tasks := s.tasks) == s;
    }
  }

  /** CPU c, which owns no running task, parks on its idle task. */
  lemma ParkKeeps(s: State, c: nat)
    requires Inv(s) && c < NCPU && (s.pc[c] == User || s.pc[c] == Leaving)
    requires forall i :: 0 <= i < NTASK && s.tasks[i].state == Running ==> s.tasks[i].lastCpu != c
    ensures Inv(s.(cur := s.cur[c := Idle], idleOn := s.idleOn[c := true], pc := s.pc[c := User]))
  {
    hide Waits, Spaces, Deliveries, Parented;
    assert Owned(s.tasks, s.cur[c := Idle], s.idleOn[c := true]);
    hide Owned;
    assert Busy(s.tasks, s.cur[c := Idle], s.pc[c := User]);
  }

  lemma ScheduleKeeps(s: State, c: nat)
    requires Inv(s) && Can(s, Schedule(c))
    ensures Inv(DoSchedule(s, c))
  {
    hide Waits, Spaces, Deliveries, Parented, Owned, Busy, PickReady;
    DemoteKeeps(s, c);
    var d := s.(tasks := Demoted(s, Prev(s, c)));
    var n := PickReady(d.tasks, Start(Prev(s, c), c), 1);
    if n < NTASK {
      RunKeeps(d, c, n);
    } else {
      ParkKeeps(d, c);
    }
  }

  /** Every locked section keeps every invariant. */
  lemma StepKeeps(s: State, op: Op)
    requires Inv(s) && Can(s, op)
    ensures Inv(Do(s, op))
  {
    hide Inv;
    match op
    case AllocSlot(c) => AllocKeeps(s, c);
    case Wire(c, toBoot) => WireKeeps(s, c, toBoot);
    case Publish(c) => PublishKeeps(s, c);
    case Unreserve(c) => UnreserveKeeps(s, c);
    case Exec(c) => ExecKeeps(s, c);
    case Exit(c, status) => ExitKeeps(s, c, status);
    case Reap(c) => ReapKeeps(s, c);
    case WaitPid(c, pid, nohang) => WaitKeeps(s, c, pid, nohang);
    case Sleep(c, delta) => SleepKeeps(s, c, delta);
    case Tick => TickKeeps(s);
    case Schedule(c) => ScheduleKeeps(s, c);
  }

  // ---------------------------------------------------------------- whole runs

  /** What task64_init leaves: the boot context runs on CPU 0 and every other slot is free. */
  function Init(ticks: nat): State {
    State([Task(Running, 0, -1, -2, 0, 0, 0)] + seq(NTASK - 1, _ => Task(Free, 0, -1, -2, 0, 0, -1)),
      [Slot(0), NoTask, NoTask, NoTask], [false, false, false, false], ticks, [User, User, User, User],
      seq(NTASK, _ => 0), 1, 1, {}, map[], [], [])
  }

  ghost predicate IsRun(run: seq<State>, ops: seq<Op>) {
    |run| == |ops| + 1 &&
    forall k :: 0 <= k < |ops| ==> Shaped(run[k]) && Can(run[k], ops[k]) && run[k + 1] == Do(run[k], ops[k])
  }

  lemma {:induction false} RunInv(run: seq<State>, ops: seq<Op>, ticks: nat, k: nat)
    requires IsRun(run, ops) && run[0] == Init(ticks) && k < |run|
    ensures Inv(run[k])
  {
    if k == 0 {
      var s := run[0];
      assert forall i :: 1 <= i < NTASK ==> s.tasks[i].state == Free;
      assert s.tasks[0] == Task(Running, 0, -1, -2, 0, 0, 0);
    } else {
      RunInv(run, ops, ticks, k - 1);
      assert run[k - 1 + 1] == Do(run[k - 1], ops[k - 1]);
      StepKeeps(run[k - 1], ops[k - 1]);
    }
  }

  /** Ownership over all interleavings: a running task is current on exactly the CPU it
      last ran on, and no CPU owns two. */
  lemma OneOwner(run: seq<State>, ops: seq<Op>, ticks: nat, k: nat, i: nat)
    requires IsRun(run, ops) && run[0] == Init(ticks) && k < |run| && i < NTASK && Shaped(run[k]) && run[k].tasks[i].state == Running
    ensures 0 <= run[k].tasks[i].lastCpu < NCPU && On(run[k], run[k].tasks[i].lastCpu, i)
    ensures forall c :: 0 <= c < NCPU && On(run[k], c, i) ==> c == run[k].tasks[i].lastCpu
    ensures forall j :: 0 <= j < NTASK && j != i && run[k].tasks[j].state == Running ==> run[k].tasks[j].lastCpu != run[k].tasks[i].lastCpu
  {
    RunInv(run, ops, ticks, k);
  }

  /** A step taken by CPU c itself; the timer tick is nobody's. */
  predicate By(op: Op, c: nat) { !op.Tick? && op.cpu == c }

  /** Slot i holds the same task as before, except that its parent may have gone. */
  predicate SameTask(s: State, t: State, i: nat)
    requires Shaped(s) && Shaped(t) && i < NTASK
  {
    t.tasks[i] == s.tasks[i].(parent := t.tasks[i].parent) && t.born[i] == s.born[i]
  }

  lemma ScheduleSpares(s: State, d: nat, c: nat, i: nat)
    requires Shaped(s) && c < NCPU && d < NCPU && c != d && i < NTASK && On(s, c, i)
    ensures Shaped(DoSchedule(s, d)) && On(DoSchedule(s, d), c, i) && SameTask(s, DoSchedule(s, d), i)
  {
  }

  lemma ExitSpares(s: State, d: nat, status: int, c: nat, i: nat)
    requires Shaped(s) && Calls(s, d) && c < NCPU && c != d && i < NTASK && On(s, c, i)
    ensures Shaped(DoExit(s, d, status)) && On(DoExit(s, d, status), c, i) && SameTask(s, DoExit(s, d, status), i)
  {
  }

  lemma StepSpares(s: State, op: Op, c: nat, i: nat)
    requires Inv(s) && Can(s, op) && c < NCPU && i < NTASK && On(s, c, i) && !By(op, c)
    ensures Shaped(Do(s, op)) && On(Do(s, op), c, i) && SameTask(s, Do(s, op), i)
  {
    hide Waits, Spaces, Deliveries, Parented, Owned, Passed, PickReady, FindZombie, FirstFree, DoSchedule, DoExit;
    match op {
      case Wire(d, _) => assert BusyAt(s.tasks, s.cur[d], d, s.pc[d]);
      case Publish(d) => assert BusyAt(s.tasks, s.cur[d], d, s.pc[d]);
      case Unreserve(d) => assert BusyAt(s.tasks, s.cur[d], d, s.pc[d]);
      case Reap(d) => assert BusyAt(s.tasks, s.cur[d], d, s.pc[d]);
      case Schedule(d) => ScheduleSpares(s, d, c, i);
      case Exit(d, status) => ExitSpares(s, d, status, c, i);
      case _ =>
    }
  }

  /** A stale hint is harmless on every interleaving: whatever the other CPUs do and their
      cur says, a task running on CPU c stays the same task, RUNNING there, until CPU c
      itself takes a step. */
  lemma {:induction false} RunningStays(run: seq<State>, ops: seq<Op>, ticks: nat, k: nat, m: nat, c: nat, i: nat)
    requires IsRun(run, ops) && run[0] == Init(ticks) && k <= m < |run| && c < NCPU && i < NTASK
    requires Shaped(run[k]) && On(run[k], c, i) && forall j :: k <= j < m ==> !By(ops[j], c)
    ensures Shaped(run[m]) && On(run[m], c, i) && SameTask(run[k], run[m], i)
    decreases m
  {
    hide Do, Can, Inv, Init;
    if k < m {
      RunningStays(run, ops, ticks, k, m - 1, c, i);
      RunInv(run, ops, ticks, m - 1);
      assert run[m - 1 + 1] == Do(run[m - 1], ops[m - 1]);
      StepSpares(run[m - 1], ops[m - 1], c, i);
    }
  }

  /** Where a pass of CPU c starts from: the slot of the task it gives up, the number of its
      idle task, or 0. */
  function From(s: State, c: nat): nat
    requires Shaped(s) && c < NCPU
  {
    match s.cur[c]
    case Slot(i) => if i < NTASK && s.tasks[i].state == Running && s.tasks[i].lastCpu == c then i else 0
    case Idle => if s.idleOn[c] then 100 + c else 0
    case NoTask => 0
  }

  /** How many slots lie between p and j, going round. */
  function Gap(p: nat, j: nat): (n: nat)
    ensures n < NTASK
  {
    (j - p - 1) % NTASK
  }

  /** The k-th slot tried lies k - 1 slots past the first. */
  lemma RingDistance(start: nat, k: nat)
    requires 1 <= k <= NTASK
    ensures Gap(start, Ring(start, k)) == k - 1
  {
    var q, r := (start + k) / NTASK, (start + k) % NTASK;
    assert r - start - 1 == k - 1 - NTASK * q;
    Rows(k - 1, q);
  }

  lemma Rows(a: nat, q: nat)
    requires a < NTASK
    ensures (a - NTASK * q) % NTASK == a
  {
  }

  /** The scan takes the nearest READY slot. */
  lemma {:induction false} PickNearest(tasks: seq<Task>, start: nat, i: nat, j: nat)
    requires |tasks| == NTASK && 1 <= i <= NTASK + 1 && j < NTASK && tasks[j].state == Ready
    requires forall k :: 1 <= k < i ==> tasks[Ring(start, k)].state != Ready
    ensures var n := PickReady(tasks, start, i); n < NTASK && (n == j || Gap(start, n) < Gap(start, j))
    decreases NTASK + 1 - i
  {
    hide Ring, Gap;
    var l := RingHits(start, j);
    RingDistance(start, l);
    if tasks[Ring(start, i)].state == Ready {
      RingDistance(start, i);
    } else {
      PickNearest(tasks, start, i + 1, j);
    }
  }

  /** The scheduler idles only when there is nothing else to run, and otherwise runs the
      READY slot that comes first after the one it gives up, going round; its own task comes
      last. */
  lemma ScheduleRuns(s: State, c: nat)
    requires Shaped(s) && c < NCPU
    ensures var r := DoSchedule(s, c);
      (r.cur[c] == Idle <==> forall j :: 0 <= j < NTASK ==> s.tasks[j].state != Ready && !On(s, c, j)) &&
      (r.cur[c] != Idle ==> r.cur[c].Slot? && r.cur[c].i < NTASK && On(r, c, r.cur[c].i)) &&
      (r.cur[c] != Idle ==> s.tasks[r.cur[c].i].state == Ready || On(s, c, r.cur[c].i))
    ensures var n := DoSchedule(s, c).cur[c];
      var p := if s.cur[c].Slot? && s.cur[c].i < NTASK && On(s, c, s.cur[c].i) then s.cur[c].i else if s.cur[c] == Idle && s.idleOn[c] then 100 + c else 0;
      forall j :: 0 <= j < NTASK && (s.tasks[j].state == Ready || On(s, c, j)) && n != Slot(j) ==>
        n.Slot? && Gap(p, n.i) < Gap(p, j)
  {
    hide Ring, PickReady, Gap;
    var p := Prev(s, c);
    var t := Demoted(s, p);
    PickReadyComplete(t, Start(p, c));
    forall j: nat | j < NTASK && (s.tasks[j].state == Ready || On(s, c, j)) ensures t[j].state == Ready {
    }
    assert From(s, c) == Start(p, c);
    forall j: nat | j < NTASK && (s.tasks[j].state == Ready || On(s, c, j))
      ensures var n := PickReady(t, Start(p, c), 1); n < NTASK && (n == j || Gap(From(s, c), n) < Gap(From(s, c), j))
    {
      PickNearest(t, Start(p, c), 1, j);
    }
  }

  function PassesIn(ops: seq<Op>, c: nat, k: nat, m: nat): (n: nat)
    requires k <= m <= |ops|
    decreases m
  {
    if k == m then 0 else PassesIn(ops, c, k, m - 1) + if ops[m - 1] == Schedule(c) then 1 else 0
  }

  /** Moving to a nearer slot brings slot j nearer still. */
  lemma Nearer(p: nat, n: nat, j: nat)
    requires n < NTASK && j < NTASK && Gap(p, n) < Gap(p, j)
    ensures Gap(n, j) < Gap(p, j)
  {
    var a, b := Gap(p, n), Gap(p, j);
    var x, y := (n - p - 1) / NTASK, (j - p - 1) / NTASK;
    assert n - p - 1 == NTASK * x + a && j - p - 1 == NTASK * y + b;
    assert j - n - 1 == NTASK * (y - x) + (b - a - 1);
  }

  /** Round robin: while CPU c does nothing but pass from task to task, whatever the other
      CPUs do, a task that stays READY is at most 31 of its passes away from running there.
      The slots left before it bound the passes still to come. */
  lemma {:induction false} Waiting(run: seq<State>, ops: seq<Op>, ticks: nat, k: nat, m: nat, c: nat, j: nat)
    requires IsRun(run, ops) && run[0] == Init(ticks) && k <= m < |run| && c < NCPU && j < NTASK
    requires forall l :: k <= l < m ==> !By(ops[l], c) || ops[l] == Schedule(c)
    requires forall l :: k <= l <= m ==> Shaped(run[l]) && run[l].tasks[j].state == Ready
    ensures PassesIn(ops, c, k, m) > 0 ==>
      run[m].cur[c].Slot? && run[m].cur[c].i < NTASK && On(run[m], c, run[m].cur[c].i) &&
      Gap(run[m].cur[c].i, j) + PassesIn(ops, c, k, m) < NTASK
    decreases m
  {
    hide Init, Inv, Do, Can, Gap, DoSchedule, SameTask;
    if k < m {
      var s, op := run[m - 1], ops[m - 1];
      Waiting(run, ops, ticks, k, m - 1, c, j);
      RunInv(run, ops, ticks, m - 1);
      assert run[m - 1 + 1] == Do(s, op);
      if op == Schedule(c) {
        PassMoves(s, c, j);
        PassShape(s, c, j);
      } else if PassesIn(ops, c, k, m - 1) > 0 {
        StepSpares(s, op, c, s.cur[c].i);
      }
    }
  }

  lemma PassShape(s: State, c: nat, j: nat)
    requires Shaped(s) && c < NCPU && j < NTASK && s.tasks[j].state == Ready
    ensures Shaped(DoSchedule(s, c)) && (DoSchedule(s, c).cur[c] == Slot(j) ==> DoSchedule(s, c).tasks[j].state != Ready)
    ensures Can(s, Schedule(c)) ==> Do(s, Schedule(c)) == DoSchedule(s, c)
  {
    hide PickReady, Ring;
  }

  /** One pass that does not take READY slot j comes to run a slot nearer to it. */
  lemma PassMoves(s: State, c: nat, j: nat)
    requires Shaped(s) && c < NCPU && j < NTASK && s.tasks[j].state == Ready
    ensures var r := DoSchedule(s, c);
      Shaped(r) && (r.tasks[j].state == Ready ==>
        r.cur[c].Slot? && r.cur[c].i < NTASK && On(r, c, r.cur[c].i) && Gap(r.cur[c].i, j) < Gap(From(s, c), j))
  {
    hide DoSchedule, Gap, Ring;
    ScheduleRuns(s, c);
    PassShape(s, c, j);
    var r := DoSchedule(s, c);
    if r.tasks[j].state == Ready {
      assert r.cur[c] != Slot(j);
      Nearer(From(s, c), r.cur[c].i, j);
    }
  }

  /** No task stays READY over 32 passes of a CPU that only preempts. */
  lemma RoundRobin(run: seq<State>, ops: seq<Op>, ticks: nat, k: nat, m: nat, c: nat, j: nat)
    requires IsRun(run, ops) && run[0] == Init(ticks) && k <= m < |run| && c < NCPU && j < NTASK
    requires forall l :: k <= l < m ==> !By(ops[l], c) || ops[l] == Schedule(c)
    requires forall l :: k <= l <= m ==> Shaped(run[l])
    ensures PassesIn(ops, c, k, m) >= 32 ==> exists l :: k <= l <= m && run[l].tasks[j].state != Ready
  {
    if forall l :: k <= l <= m ==> run[l].tasks[j].state == Ready {
      Waiting(run, ops, ticks, k, m, c, j);
    }
  }

  /** No lost wakeup: a task blocked in waitpid always has a matching child that is
      neither free nor a zombie, and no parent link leads to a dead task. */
  lemma NoLostWakeup(run: seq<State>, ops: seq<Op>, ticks: nat, k: nat, i: nat)
    requires IsRun(run, ops) && run[0] == Init(ticks) && k < |run| && 1 <= i < NTASK && Shaped(run[k])
    ensures run[k].tasks[i].state == Blocked && i !in run[k].asleep ==> HasAwaited(run[k].tasks, i, run[k].tasks[i].waitingFor)
    ensures run[k].tasks[i].state != Free && run[k].tasks[i].parent > 0 ==>
      run[k].tasks[i].parent < NTASK && Alive(run[k].tasks[run[k].tasks[i].parent])
  {
    RunInv(run, ops, ticks, k);
  }

  /** Every exit status is delivered at most once, to one waiter, and is the status the
      task exited with; every address space is torn down at most once, and never while a
      task still uses it. */
  lemma ExactlyOnce(run: seq<State>, ops: seq<Op>, ticks: nat, k: nat)
    requires IsRun(run, ops) && run[0] == Init(ticks) && k < |run|
    ensures forall a, b :: 0 <= a < b < |run[k].delivered| ==> run[k].delivered[a].0 != run[k].delivered[b].0
    ensures forall a :: 0 <= a < |run[k].delivered| ==>
      run[k].delivered[a].0 in run[k].exits && run[k].exits[run[k].delivered[a].0] == run[k].delivered[a].1
    ensures forall a, b :: 0 <= a < b < |run[k].torn| ==> run[k].torn[a] != run[k].torn[b]
    ensures forall i :: 1 <= i < |run[k].tasks| && run[k].tasks[i].state != Free ==> run[k].tasks[i].cr3 !in run[k].torn
  {
    RunInv(run, ops, ticks, k);
  }

  /** Step m is the exit of incarnation b with this status. */
  predicate ExitStep(run: seq<State>, ops: seq<Op>, m: nat, b: nat, status: int) {
    m < |ops| && m < |run| && ops[m].Exit? && ops[m].status == status && Shaped(run[m]) && ops[m].cpu < NCPU &&
    run[m].cur[ops[m].cpu].Slot? && run[m].cur[ops[m].cpu].i < NTASK && run[m].born[run[m].cur[ops[m].cpu].i] == b
  }

  lemma ExitsStep(s: State, op: Op, b: nat)
    requires Inv(s) && Can(s, op)
    ensures b in Do(s, op).exits && b !in s.exits ==>
      op.Exit? && s.born[s.cur[op.cpu].i] == b && Do(s, op).exits[b] == op.status && Do(s, op).tasks[s.cur[op.cpu].i].exitCode == op.status
  {
    hide Waits, Spaces, Owned, Parented, Busy, Passed, PickReady, FindZombie, FirstFree;
  }

  /** The status recorded for an incarnation, and so the one a waiter is given, is the one
      its own exit was called with. */
  lemma {:induction false} ExitsFrom(run: seq<State>, ops: seq<Op>, ticks: nat, k: nat, b: nat)
    requires IsRun(run, ops) && run[0] == Init(ticks) && k < |run| && b in run[k].exits
    ensures exists m: nat :: m < k && ExitStep(run, ops, m, b, run[k].exits[b])
  {
    if k > 0 {
      var s, op := run[k - 1], ops[k - 1];
      RunInv(run, ops, ticks, k - 1);
      assert run[k - 1 + 1] == Do(s, op);
      if b in s.exits {
        ExitsFrom(run, ops, ticks, k - 1, b);
        ExitsGrow(s, op, b);
      } else {
        ExitsStep(s, op, b);
        assert ExitStep(run, ops, k - 1, b, op.status);
      }
    }
  }

  /** A status, once recorded, is never rewritten and never disappears. */
  lemma ExitsGrow(s: State, op: Op, b: nat)
    requires Inv(s) && Can(s, op) && b in s.exits
    ensures b in Do(s, op).exits && Do(s, op).exits[b] == s.exits[b]
    ensures s.delivered <= Do(s, op).delivered && s.torn <= Do(s, op).torn
  {
  }

  // ---------------------------------------------------------------- sleeping

  /** No sleeper is past its deadline. */
  ghost predicate Punctual(s: State)
    requires Shaped(s)
  {
    s.ticks < U64 &&
    forall i :: 1 <= i < NTASK && s.tasks[i].state == Blocked && s.tasks[i].wakeup != 0 ==> !Passed(s.ticks, s.tasks[i].wakeup)
  }

  lemma StepPunctual(s: State, op: Op)
    requires Inv(s) && Can(s, op) && Punctual(s)
    ensures Shaped(Do(s, op)) && Punctual(Do(s, op))
  {
    hide Waits, Spaces, Deliveries, Owned, Parented, Passed, PickReady, FindZombie, FirstFree;
    if op.Wire? || op.Publish? || op.Unreserve? {
      assert BusyAt(s.tasks, s.cur[op.cpu], op.cpu, s.pc[op.cpu]);
    }
  }

  /** In every state of every run, however its sections interleave, no task with a deadline
      sleeps past it. */
  lemma {:induction false} NeverOversleeps(run: seq<State>, ops: seq<Op>, ticks: nat, k: nat)
    requires IsRun(run, ops) && run[0] == Init(ticks) && ticks < U64 && k < |run|
    ensures Shaped(run[k]) && Punctual(run[k])
  {
    if k == 0 {
      assert forall i :: 1 <= i < NTASK ==> run[0].tasks[i].state == Free;
    } else {
      NeverOversleeps(run, ops, ticks, k - 1);
      RunInv(run, ops, ticks, k - 1);
      assert run[k - 1 + 1] == Do(run[k - 1], ops[k - 1]);
      StepPunctual(run[k - 1], ops[k - 1]);
    }
  }

  /** The signed wrapped comparison tells whether the interval has elapsed, for intervals
      up to half the counter's range. */
  lemma SleepDeadline(start: nat, delta: nat, elapsed: nat)
    requires start < U64 && delta <= U64 / 2 && elapsed <= U64 / 2 && elapsed - delta < U64 / 2
    ensures Passed((start + elapsed) % U64, (start + delta) % U64) <==> elapsed >= delta
  {
    var a, b := (start + elapsed) % U64, (start + delta) % U64;
    assert a == start + elapsed || a == start + elapsed - U64;
    assert b == start + delta || b == start + delta - U64;
    if a - b < 0 {
      assert (a - b) % U64 == a - b + U64;
    } else {
      assert (a - b) % U64 == a - b;
    }
  }

  /** A sleep of more than half the counter's range does not sleep at all. */
  lemma SleepAtOnce(start: nat, delta: nat)
    requires start < U64 && 0 < delta < U64
    ensures Passed(start, (start + delta) % U64) <==> delta > U64 / 2
  {
    var b := (start + delta) % U64;
    assert b == start + delta || b == start + delta - U64;
    if start - b < 0 {
      assert (start - b) % U64 == start - b + U64;
    } else {
      assert (start - b) % U64 == start - b;
    }
  }

  function TicksIn(ops: seq<Op>, k: nat, m: nat): (n: nat)
    requires k <= m <= |ops|
    decreases m
  {
    if k == m then 0 else TicksIn(ops, k, m - 1) + if ops[m - 1].Tick? then 1 else 0
  }

  /** The task that starts a sleep of delta ticks with step k. */
  predicate Sleeps(s: State, op: Op, i: nat, delta: nat)
    requires Shaped(s)
  {
    Can(s, op) && op.Sleep? && op.delta == delta && s.cur[op.cpu] == Slot(i) && s.tasks[i].wakeup == 0
  }

  function Deadline(s: State, delta: nat): nat { (s.ticks + delta) % U64 }

  /** A sleeper's deadline stays while it is blocked, and only ticks move the clock. */
  lemma StepSleeper(s: State, op: Op, i: nat)
    requires Inv(s) && Can(s, op) && 1 <= i < NTASK && s.tasks[i].state == Blocked
    ensures Shaped(Do(s, op)) && Do(s, op).tasks[i].wakeup == s.tasks[i].wakeup
    ensures Do(s, op).ticks == if op.Tick? then (s.ticks + 1) % U64 else s.ticks
    ensures op.Tick? ==> (Do(s, op).tasks[i].state == Blocked <==> s.tasks[i].wakeup == 0 || !Passed(Do(s, op).ticks, s.tasks[i].wakeup))
  {
    hide Waits, Spaces, Deliveries, Owned, Parented, Passed, PickReady, FindZombie, FirstFree;
    if op.Wire? || op.Publish? || op.Unreserve? || op.Reap? {
      assert BusyAt(s.tasks, s.cur[op.cpu], op.cpu, s.pc[op.cpu]);
    }
  }

  lemma OneMoreTick(start: nat, e: nat)
    ensures ((start + e) % U64 + 1) % U64 == (start + (e + 1)) % U64
  {
    var q, r := (start + e) / U64, (start + e) % U64;
    assert start + e + 1 == U64 * q + (r + 1);
    if r + 1 == U64 {
      assert start + (e + 1) == U64 * (q + 1);
    }
  }

  /** The sleep that began in state s, after e ticks: its deadline stands, the clock has
      moved by e, and if there is a deadline it is still ahead. */
  predicate Sleeping(s: State, t: State, e: nat, i: nat, delta: nat)
    requires Shaped(t) && i < NTASK
  {
    t.tasks[i].wakeup == Deadline(s, delta) && t.ticks == (s.ticks + e) % U64 && (Deadline(s, delta) != 0 ==> e < delta)
  }

  /** The system call returns at once exactly for intervals over half the range. */
  lemma SleepBlocks(run: seq<State>, ops: seq<Op>, ticks: nat, k: nat, i: nat, delta: nat)
    requires IsRun(run, ops) && run[0] == Init(ticks) && ticks < U64 && k < |ops| && 1 <= i < NTASK && 0 < delta < U64
    requires Shaped(run[k]) && Sleeps(run[k], ops[k], i, delta)
    ensures Shaped(run[k + 1]) && run[k + 1].tasks[i].state == (if delta <= U64 / 2 then Blocked else Running)
    ensures delta <= U64 / 2 ==> Sleeping(run[k], run[k + 1], 0, i, delta)
  {
    hide Init, Passed;
    NeverOversleeps(run, ops, ticks, k);
    assert run[k + 1] == Do(run[k], ops[k]);
    SleepAtOnce(run[k].ticks, delta);
  }

  /** Task i stays blocked from state a to state b. */
  ghost predicate StaysBlocked(run: seq<State>, a: nat, b: nat, i: nat)
    requires i < NTASK && b < |run|
  {
    forall j :: a <= j <= b ==> Shaped(run[j]) && run[j].tasks[i].state == Blocked
  }

  /** One step of a sleep that goes on. */
  lemma SleepGoesOn(s: State, t: State, op: Op, e: nat, i: nat, delta: nat)
    requires s.ticks < U64 && delta <= U64 / 2
    requires Inv(t) && Can(t, op) && 1 <= i < NTASK && t.tasks[i].state == Blocked && Sleeping(s, t, e, i, delta)
    ensures Shaped(Do(t, op))
    ensures op.Tick? ==> (Do(t, op).tasks[i].state == Blocked <==> e + 1 != delta || Deadline(s, delta) == 0)
    ensures Do(t, op).tasks[i].state == Blocked ==> Sleeping(s, Do(t, op), if op.Tick? then e + 1 else e, i, delta)
  {
    hide Inv, Passed, Do, Can;
    StepSleeper(t, op, i);
    OneMoreTick(s.ticks, e);
    if Deadline(s, delta) != 0 {
      SleepDeadline(s.ticks, delta, e + 1);
    }
  }

  lemma {:induction false} SleepLasts(run: seq<State>, ops: seq<Op>, ticks: nat, k: nat, m: nat, i: nat, delta: nat)
    requires IsRun(run, ops) && run[0] == Init(ticks) && ticks < U64 && k < m < |run| && 1 <= i < NTASK && 0 < delta < U64
    requires Shaped(run[k]) && Sleeps(run[k], ops[k], i, delta) && StaysBlocked(run, k + 1, m, i)
    ensures delta <= U64 / 2 && Shaped(run[m]) && Sleeping(run[k], run[m], TicksIn(ops, k + 1, m), i, delta)
    decreases m
  {
    hide Init, Inv, Passed, Do, Can;
    NeverOversleeps(run, ops, ticks, k);
    SleepBlocks(run, ops, ticks, k, i, delta);
    assert run[m - 1 + 1] == Do(run[m - 1], ops[m - 1]);
    if m > k + 1 {
      SleepLasts(run, ops, ticks, k, m - 1, i, delta);
      RunInv(run, ops, ticks, m - 1);
      SleepGoesOn(run[k], run[m - 1], ops[m - 1], TicksIn(ops, k + 1, m - 1), i, delta);
    }
  }

  /** The tick that ends a sleep is the one with which delta have passed, no earlier and no
      later, unless the deadline wraps to 0, which stands for none: then no tick ends it. */
  lemma SleepExact(run: seq<State>, ops: seq<Op>, ticks: nat, k: nat, m: nat, i: nat, delta: nat)
    requires IsRun(run, ops) && run[0] == Init(ticks) && ticks < U64 && k < m < |ops| && 1 <= i < NTASK && 0 < delta < U64
    requires Shaped(run[k]) && Sleeps(run[k], ops[k], i, delta) && StaysBlocked(run, k + 1, m, i) && ops[m].Tick?
    ensures Shaped(run[m + 1])
    ensures run[m + 1].tasks[i].state != Blocked <==> TicksIn(ops, k + 1, m + 1) == delta && Deadline(run[k], delta) != 0
  {
    hide Init, Inv, Passed, Do, Can;
    NeverOversleeps(run, ops, ticks, k);
    SleepLasts(run, ops, ticks, k, m, i, delta);
    RunInv(run, ops, ticks, m);
    assert run[m + 1] == Do(run[m], ops[m]);
    SleepGoesOn(run[k], run[m], ops[m], TicksIn(ops, k + 1, m), i, delta);
    assert TicksIn(ops, k + 1, m + 1) == TicksIn(ops, k + 1, m) + 1;
  }

  // ---------------------------------------------------------------- orphaned zombies

  /** A zombie whose parent link leads to nobody who waits, and that no CPU is reaping. */
  ghost predicate Stranded(s: State, k: nat)
    requires Shaped(s) && k < NTASK
  {
    k >= 1 && s.tasks[k].state == Zombie && s.tasks[k].parent <= 0 && forall c :: 0 <= c < NCPU ==> s.pc[c] != Reaping(k)
  }

  /** What a step can do to a zombie: nothing, hand it to the boot context, or free it. */
  lemma ZombieStep(s: State, op: Op, k: nat)
    requires Inv(s) && Can(s, op) && 1 <= k < NTASK && s.tasks[k].state == Zombie
    ensures Shaped(Do(s, op))
    ensures Do(s, op).tasks[k] ==
              (if op.Exit? && s.tasks[k].parent == s.cur[op.cpu].i then s.tasks[k].(parent := 0)
               else if op.Reap? && s.pc[op.cpu] == Reaping(k) then s.tasks[k].(cr3 := 0, state := Free)
               else if op.WaitPid? && FindZombie(s.tasks, s.cur[op.cpu].i, op.pid, 1) == k then s.tasks[k].(cr3 := 0, state := Free)
               else s.tasks[k])
  {
    hide Waits, Spaces, Deliveries, Owned, Parented, Passed;
    if op.Wire? || op.Publish? || op.Unreserve? {
      assert BusyAt(s.tasks, s.cur[op.cpu], op.cpu, s.pc[op.cpu]);
    }
  }

  /** A task becomes a zombie only by exiting. */
  lemma ZombieBorn(s: State, op: Op, k: nat)
    requires Inv(s) && Can(s, op) && 1 <= k < NTASK && s.tasks[k].state != Zombie
    ensures Shaped(Do(s, op))
    ensures Do(s, op).tasks[k].state == Zombie ==> op.Exit? && s.cur[op.cpu].i == k && Do(s, op).tasks[k].parent == s.tasks[k].parent
    ensures Do(s, op).tasks[k].state == Zombie && s.tasks[k].parent <= 0 ==> Do(s, op).pc[op.cpu] == Reaping(k)
  {
    hide Waits, Spaces, Deliveries, Owned, Busy, Passed, FindZombie;
    if op.Exit? && s.cur[op.cpu].i == k {
      HasParent(s.tasks, k);
      assert ReapNow(Exited(s.tasks, k, op.status), k) <==> s.tasks[k].parent <= 0;
    } else {
      hide Parented, ReapNow;
    }
  }

  /** A CPU reaps a task from its exit until its second section. */
  lemma ReapingStep(s: State, op: Op, c: nat, k: nat)
    requires Inv(s) && Can(s, op) && c < NCPU && k < NTASK
    ensures Shaped(Do(s, op))
    ensures s.pc[c] == Reaping(k) && op != Reap(c) ==> Do(s, op).pc[c] == Reaping(k)
    ensures s.pc[c] != Reaping(k) && Do(s, op).pc[c] == Reaping(k) ==> s.tasks[k].state == Running
  {
    hide Waits, Spaces, Deliveries, Owned, Busy, Parented, Passed, FindZombie;
  }

  /** A stranded zombie keeps its slot and its space for ever. */
  lemma StrandedStays(s: State, op: Op, k: nat)
    requires Inv(s) && Can(s, op) && k < NTASK && Stranded(s, k)
    ensures Shaped(Do(s, op)) && Stranded(Do(s, op), k) && Do(s, op).tasks[k].cr3 == s.tasks[k].cr3
  {
    hide Waits, Spaces, Deliveries, Owned, Parented, Busy, Do;
    ZombieStep(s, op, k);
    forall c | 0 <= c < NCPU ensures Do(s, op).pc[c] != Reaping(k) {
      ReapingStep(s, op, c, k);
    }
  }

  /** A zombie is stranded by exactly one thing: its parent exiting before collecting it. */
  lemma StrandedOnly(s: State, op: Op, k: nat)
    requires Inv(s) && Can(s, op) && k < NTASK && !Stranded(s, k)
    ensures Shaped(Do(s, op))
    ensures Stranded(Do(s, op), k) <==> op.Exit? && k >= 1 && s.tasks[k].state == Zombie && s.tasks[k].parent == s.cur[op.cpu].i
  {
    hide Do, Waits, Spaces, Deliveries, Owned, Parented;
    StepKeeps(s, op);
    forall c | 0 <= c < NCPU
      ensures s.pc[c] == Reaping(k) && op != Reap(c) ==> Do(s, op).pc[c] == Reaping(k)
      ensures s.pc[c] != Reaping(k) && Do(s, op).pc[c] == Reaping(k) ==> s.tasks[k].state == Running
    {
      ReapingStep(s, op, c, k);
    }
    if k >= 1 && s.tasks[k].state == Zombie {
      ZombieStep(s, op, k);
      if s.tasks[k].parent > 0 {
        forall c | 0 <= c < NCPU ensures s.pc[c] != Reaping(k) {
          assert BusyAt(s.tasks, s.cur[c], c, s.pc[c]);
        }
      } else {
        var c :| 0 <= c < NCPU && s.pc[c] == Reaping(k);
      }
    } else if k >= 1 {
      ZombieBorn(s, op, k);
    }
  }

  lemma {:induction false} StrandedForever(run: seq<State>, ops: seq<Op>, k: nat)
    requires IsRun(run, ops) && Inv(run[0]) && k < NTASK && Stranded(run[0], k)
    ensures Inv(run[|ops|]) && Stranded(run[|ops|], k) && run[|ops|].tasks[k].cr3 == run[0].tasks[k].cr3
    decreases |ops|
  {
    if |ops| > 0 {
      var n := |ops| - 1;
      StrandedForever(run[..n + 1], ops[..n], k);
      assert run[n + 1] == Do(run[n], ops[n]);
      StrandedStays(run[n], ops[n], k);
      StepKeeps(run[n], ops[n]);
    }
  }

  // ---------------------------------------------------------------- a run that strands one

  lemma Extend(run: seq<State>, ops: seq<Op>, op: Op) returns (run2: seq<State>, ops2: seq<Op>)
    requires IsRun(run, ops) && Shaped(run[|ops|]) && Can(run[|ops|], op)
    ensures IsRun(run2, ops2) && run2[0] == run[0] && run2[|ops2|] == Do(run[|ops|], op)
  {
    hide Do, Can, Shaped;
    run2, ops2 := run + [Do(run[|ops|], op)], ops + [op];
  }

  /** Task i is on CPU 0, nothing is pending anywhere, and the slots after i are free. */
  ghost predicate Lone(s: State, i: nat) {
    Shaped(s) && i + 1 < NTASK && s.cur[0] == Slot(i) && On(s, 0, i) && s.nextSpace > 0 &&
    (forall c :: 0 <= c < NCPU ==> s.pc[c] == User) && FirstFree(s.tasks, 1) == i + 1
  }

  lemma Reserved(s: State, i: nat, toBoot: bool)
    requires Lone(s, i)
    ensures Can(s, AllocSlot(0)) && var a := Do(s, AllocSlot(0));
      Shaped(a) && Can(a, Wire(0, toBoot)) && var b := Do(a, Wire(0, toBoot));
      Shaped(b) && Can(b, Publish(0)) && var c := Do(b, Publish(0));
      Shaped(c) && c.cur == s.cur && c.pc == s.pc && c.nextSpace == s.nextSpace + 1 && c.idleOn == s.idleOn &&
      c.tasks == s.tasks[i + 1 := Task(Ready, s.nextSpace, if toBoot then 0 else i, -2, 0, 0, -1)]
  {
    var b := Do(Do(s, AllocSlot(0)), Wire(0, toBoot));
    assert b.tasks == s.tasks[i + 1 := Task(New, s.nextSpace, if toBoot then 0 else i, -2, 0, 0, -1)];
    assert Do(b, Publish(0)).pc == s.pc;
  }

  lemma Switched(c: State, i: nat)
    requires Shaped(c) && i + 1 < NTASK && c.cur[0] == Slot(i) && On(c, 0, i) && c.pc[0] == User && c.tasks[i + 1].state == Ready
    ensures Can(c, Schedule(0)) && var t := Do(c, Schedule(0));
      Shaped(t) && t.cur == c.cur[0 := Slot(i + 1)] && t.pc == c.pc && t.nextSpace == c.nextSpace &&
      t.tasks == c.tasks[i := c.tasks[i].(state := Ready)][i + 1 := c.tasks[i + 1].(state := Running, lastCpu := 0)]
  {
    assert Prev(c, 0) == Slot(i) && Ring(i, 1) == i + 1;
    assert c.pc[0 := User] == c.pc;
  }

  /** Task i makes task i + 1, which then runs on CPU 0. */
  lemma Birth(run: seq<State>, ops: seq<Op>, i: nat, toBoot: bool) returns (run2: seq<State>, ops2: seq<Op>)
    requires IsRun(run, ops) && Lone(run[|ops|], i)
    ensures IsRun(run2, ops2) && run2[0] == run[0] && Shaped(run2[|ops2|])
    ensures var s, t := run[|ops|], run2[|ops2|];
      t.cur == s.cur[0 := Slot(i + 1)] && t.pc == s.pc && t.nextSpace == s.nextSpace + 1 &&
      t.tasks == s.tasks[i := s.tasks[i].(state := Ready)][i + 1 := Task(Running, s.nextSpace, if toBoot then 0 else i, -2, 0, 0, 0)]
  {
    hide Do, Can, FirstFree;
    Reserved(run[|ops|], i, toBoot);
    run2, ops2 := Extend(run, ops, AllocSlot(0));
    run2, ops2 := Extend(run2, ops2, Wire(0, toBoot));
    run2, ops2 := Extend(run2, ops2, Publish(0));
    Switched(run2[|ops2|], i);
    run2, ops2 := Extend(run2, ops2, Schedule(0));
  }

  /** Task 2, a child of task 1, exits. */
  lemma ChildExits(s: State)
    requires Shaped(s) && s.pc[0] == User && s.cur[0] == Slot(2) && On(s, 0, 2) && s.tasks[2].parent == 1 && s.tasks[1].state == Ready && s.tasks[1].parent == 0
    ensures Can(s, Exit(0, 7)) && var a := Do(s, Exit(0, 7));
      Shaped(a) && a.cur == s.cur && a.pc == s.pc[0 := Leaving] && a.tasks[1] == s.tasks[1] && a.tasks[2] == s.tasks[2].(state := Zombie, exitCode := 7)
  {
  }

  lemma ParentRuns(a: State)
    requires Shaped(a) && a.pc[0] == Leaving && a.cur[0] == Slot(2) && a.tasks[2].state == Zombie && a.tasks[1].state == Ready
    ensures Can(a, Schedule(0)) && var b := Do(a, Schedule(0));
      Shaped(b) && b.cur[0] == Slot(1) && b.pc == a.pc[0 := User] && b.tasks == a.tasks[1 := a.tasks[1].(state := Running, lastCpu := 0)]
  {
    assert Prev(a, 0) == NoTask && Ring(0, 1) == 1;
  }

  /** Task 1 exits without having waited for it. */
  lemma ParentExits(b: State)
    requires Shaped(b) && b.cur[0] == Slot(1) && On(b, 0, 1) && b.tasks[1].parent == 0 && b.tasks[2].state == Zombie && b.tasks[2].parent == 1
    requires forall c :: 0 <= c < NCPU ==> b.pc[c] == User
    ensures Can(b, Exit(0, 0)) && Shaped(Do(b, Exit(0, 0))) && Stranded(Do(b, Exit(0, 0)), 2)
  {
    assert Do(b, Exit(0, 0)).pc == b.pc[0 := Reaping(1)];
  }

  /** From boot: a program forks, the child exits, the program exits without collecting it.
      The child is stranded, and by StrandedForever it keeps its slot and space. */
  lemma StrandedRun(ticks: nat) returns (run: seq<State>, ops: seq<Op>)
    ensures IsRun(run, ops) && run[0] == Init(ticks) && Shaped(run[|ops|]) && Stranded(run[|ops|], 2)
  {
    hide Do, Can, Stranded;
    run, ops := [Init(ticks)], [];
    FirstSlots(ticks);
    run, ops := Birth(run, ops, 0, true);
    SecondSlot(run[|ops|]);
    run, ops := Birth(run, ops, 1, false);
    ChildExits(run[|ops|]);
    run, ops := Extend(run, ops, Exit(0, 7));
    ParentRuns(run[|ops|]);
    run, ops := Extend(run, ops, Schedule(0));
    ParentExits(run[|ops|]);
    run, ops := Extend(run, ops, Exit(0, 0));
  }

  lemma FirstSlots(ticks: nat)
    ensures Lone(Init(ticks), 0) && Init(ticks).tasks[2].state == Free
  {
    var s := Init(ticks);
    assert s.tasks[1].state == Free && s.tasks[2].state == Free;
  }

  lemma SecondSlot(s: State)
    requires Shaped(s) && s.tasks[1].state != Free && s.tasks[2].state == Free
    ensures FirstFree(s.tasks, 1) == 2
  {
    assert FirstFree(s.tasks, 1) == FirstFree(s.tasks, 2);
  }
}
