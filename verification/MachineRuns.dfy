/** Whole runs of the memory manager: any sequence of locked sections, on any CPUs.  What
    every task sees is what it would see on a machine where each had its own memory. */
module MachineRuns {
  import opened PageTables
  import opened Snapshots
  import opened SpaceCopy
  import opened SpaceTear
  import opened Refinement
  import opened MachineSound
  import opened UserSlots
  import opened Machine
  import AS = AddressSpaces

  /** One locked section asked for, or a store by a task. */
  datatype Call =
    | Spawn
    | Fork(src: nat)
    | Share(src: nat)
    | Fault(cpu: nat, r: nat, v: nat)
    | Demand(cpu: nat, r: nat, va: nat, rw: bool, nx: bool)
    | Shrink(cpu: nat, r: nat, va: nat, n: nat)
    | Store(r: nat, v: nat, i: nat, w: int)
    | Collect(cpu: nat, r: nat)
    | Flush(cpu: nat)

  /** It was done: r is the space it made, or the number of pages it unmapped.  Or it had no
      effect on what is seen. */
  datatype Outcome = Done(r: nat) | Skipped

  /** The space whose memory the call is about. */
  predicate By(call: Call, q: nat) {
    match call
    case Demand(_, r, _, _, _) => r == q
    case Shrink(_, r, _, _) => r == q
    case Store(r, _, _, _) => r == q
    case Collect(_, r) => r == q
    case _ => false
  }

  /** The call on private memories can have this outcome: it names a task that is there, a
      new space has a new name, and memory is where the call needs it. */
  ghost predicate Fits(m: map<nat, AS.View>, call: Call, o: Outcome) {
    o.Skipped? ||
    match call
    case Spawn => o.r !in m
    case Fork(src) => src in m && o.r !in m
    case Share(src) => src in m && o.r !in m
    case Fault(_, r, _) => r in m
    case Demand(_, r, va, _, _) => r in m && PageOf(va) !in m[r]
    case Shrink(_, r, _, n) => r in m && o.r <= n
    case Store(r, v, i, _) => r in m && v in m[r] && i < AS.WORDS
    case Collect(_, r) => r in m
    case Flush(_) => true
  }

  /** What it does to one private memory, when it unmaps k pages. */
  ghost function Own(view: AS.View, call: Call, k: nat): AS.View {
    match call
    case Demand(_, _, va, _, _) => AS.SetPage(view, PageOf(va), AS.ZeroPage())
    case Shrink(_, _, va, _) => AS.Drop(view, PagesFrom(va, k))
    case Store(_, v, i, w) => if v in view && i < AS.WORDS then AS.SetPage(view, v, view[v][i := w]) else view
    case _ => view
  }

  /** What it does to all of them. */
  ghost function Play(m: map<nat, AS.View>, call: Call, o: Outcome): map<nat, AS.View>
    requires Fits(m, call, o)
  {
    if o.Skipped? then m
    else
      match call
      case Spawn => m[o.r := imap[]]
      case Fork(src) => m[o.r := m[src]]
      case Share(src) => m[o.r := m[src]]
      case Fault(_, _, _) => m
      case Demand(_, r, _, _, _) => m[r := Own(m[r], call, o.r)]
      case Shrink(_, r, _, _) => m[r := Own(m[r], call, o.r)]
      case Store(r, _, _, _) => m[r := Own(m[r], call, o.r)]
      case Collect(_, r) => m - {r}
      case Flush(_) => m
  }

  /** m2 comes from m by these calls with these outcomes. */
  ghost predicate Played(m: map<nat, AS.View>, calls: seq<Call>, log: seq<Outcome>, m2: map<nat, AS.View>)
    requires |log| == |calls|
    decreases |calls|
  {
    if calls == [] then m2 == m
    else Fits(m, calls[0], log[0]) && Played(Play(m, calls[0], log[0]), calls[1..], log[1..], m2)
  }

  lemma {:induction false} PlayedMore(m: map<nat, AS.View>, calls: seq<Call>, log: seq<Outcome>, m1: map<nat, AS.View>, call: Call, o: Outcome)
    requires |log| == |calls| && Played(m, calls, log, m1) && Fits(m1, call, o)
    ensures Played(m, calls + [call], log + [o], Play(m1, call, o))
    decreases |calls|
  {
    if calls == [] {
      assert Played(Play(m, call, o), [], [], Play(m1, call, o));
      assert [call][1..] == [] && [o][1..] == [];
    } else {
      PlayedMore(Play(m, calls[0], log[0]), calls[1..], log[1..], m1, call, o);
      assert (calls + [call])[1..] == calls[1..] + [call] && (log + [o])[1..] == log[1..] + [o];
    }
  }

  /** The calls of task q alone, on its own memory. */
  ghost function OwnAll(view: AS.View, calls: seq<Call>, log: seq<Outcome>, q: nat): AS.View
    requires |log| == |calls|
  {
    if calls == [] then view
    else OwnAll(if By(calls[0], q) && log[0].Done? then Own(view, calls[0], log[0].r) else view, calls[1..], log[1..], q)
  }

  /** Isolation over whole runs: a task that is there from start to end sees what its own
      calls alone make of its memory, whatever the others do. */
  lemma {:induction false} Isolated(m: map<nat, AS.View>, calls: seq<Call>, log: seq<Outcome>, m2: map<nat, AS.View>, q: nat)
    requires |log| == |calls| && Played(m, calls, log, m2) && q in m
    requires forall i :: 0 <= i < |calls| && calls[i].Collect? && log[i].Done? ==> calls[i].r != q
    ensures q in m2 && m2[q] == OwnAll(m[q], calls, log, q)
    decreases |calls|
  {
    if calls != [] {
      var call, o := calls[0], log[0];
      assert call.Collect? && o.Done? ==> call.r != q;
      var m1 := Play(m, call, o);
      assert q in m1 && m1[q] == if By(call, q) && o.Done? then Own(m[q], call, o.r) else m[q];
      Isolated(m1, calls[1..], log[1..], m2, q);
    }
  }

  // ---------------------------------------------------------------- what a run goes through

  /** The state of the machine between two sections: page tables, free frames, live spaces,
      what each CPU owes, what the tasks see, and whether memories are private. */
  datatype Shot = Shot(heap: Heap, boot: nat, free: nat, nxOn: bool, live: set<nat>, owed: seq<seq<nat>>, tabs: seq<seq<nat>>, seen: map<nat, AS.View>, apart: bool)

  ghost function Take(t: Tasks): Shot
    reads t, t.mm
  {
    Shot(t.mm.tabs, t.mm.boot, t.mm.freeN, t.mm.nxOn, t.live, t.owed, t.tabs, t.Views(), t.Private())
  }

  const ADDRESSES: nat := 0x1_0000_0000_0000_0000

  ghost predicate IdleIn(a: Shot, cpu: nat) { cpu < |a.owed| && cpu < |a.tabs| && a.owed[cpu] == [] && a.tabs[cpu] == [] }

  /** When a call is done, read off the state before it. */
  ghost predicate Enabled(a: Shot, call: Call) {
    match call
    case Spawn => |a.live| < MAX_SPACES && a.free >= Reserve(a.heap, a.boot)
    case Fork(src) => src in a.live && |a.live| < MAX_SPACES && a.free >= Reserve(a.heap, src)
    case Share(src) => src in a.live && |a.live| < MAX_SPACES && a.free >= Reserve(a.heap, src)
    case Fault(cpu, r, v) => IdleIn(a, cpu) && r in a.live && v < VPAGES
    case Demand(cpu, r, va, _, nx) =>
      IdleIn(a, cpu) && r in a.live && va < ADDRESSES && UserSlot(a.heap, a.boot, ROOT_LEVEL, PageOf(va)) &&
      r in a.seen && PageOf(va) !in a.seen[r] && Canonical(va) && va % 4096 == 0 && (nx ==> a.nxOn) && Absent(a.heap, r, ROOT_LEVEL, PageOf(va)) < a.free
    case Shrink(cpu, r, va, n) => IdleIn(a, cpu) && r in a.live && ShrinkOk(a.heap, a.boot, va, n)
    case Store(r, v, i, _) => r in a.live && v < VPAGES && i < AS.WORDS && Writable(a.heap, r, v)
    case Collect(cpu, r) => IdleIn(a, cpu) && r in a.live
    case Flush(cpu) => cpu < AS.NCPU
  }

  /** A range for brk_shrink: a page-aligned range of the lower half, in user space. */
  predicate ShrinkOk(h: Heap, boot: nat, va: nat, n: nat) {
    va % 4096 == 0 && va + n * 4096 <= LOW_HALF &&
    forall k :: 0 <= k < n ==> SlotAt(h, boot, va, k)
  }

  predicate SlotAt(h: Heap, boot: nat, va: nat, k: nat) { UserSlot(h, boot, ROOT_LEVEL, va / 4096 + k) }

  lemma SlotsThere(h: Heap, boot: nat, va: nat, n: nat)
    requires ShrinkOk(h, boot, va, n)
    ensures va % 4096 == 0 && va + n * 4096 <= LOW_HALF && forall v: nat :: va / 4096 <= v < va / 4096 + n ==> UserSlot(h, boot, ROOT_LEVEL, v)
  {
    hide UserSlot;
    forall v: nat | va / 4096 <= v < va / 4096 + n ensures UserSlot(h, boot, ROOT_LEVEL, v) {
      assert SlotAt(h, boot, va, v - va / 4096);
    }
  }

  /** Too large for the lists of a teardown. */
  ghost predicate Oversize(h: Heap, r: nat) {
    |LeavesTo(h, r, ROOT_LEVEL, FAN)| > 256 || |TabsTo(h, r, ROOT_LEVEL, FAN)| > 63
  }

  /** The machine hangs exactly at the end of a space too large for the lists. */
  ghost predicate Hangs(a: Shot, call: Call) { call.Collect? && Enabled(a, call) && Oversize(a.heap, call.r) }

  /** A call is done exactly when it is enabled; a section of brk_shrink may stop at its batch
      of frames. */
  ghost predicate Answered(a: Shot, b: Shot, call: Call, o: Outcome) {
    (o.Done? <==> Enabled(a, call)) &&
    (call.Shrink? && o.Done? && o.r < call.n ==> call.cpu < |b.owed| && |b.owed[call.cpu]| == BATCH)
  }

  /** What it does to what the tasks see is what it does to private memories, except that a
      store goes astray once CLONE has made memories shared. */
  ghost predicate Visible(a: Shot, b: Shot, call: Call, o: Outcome) {
    Fits(a.seen, call, o) && (a.apart || !call.Store? ==> b.seen == Play(a.seen, call, o)) &&
    (a.apart && !(call.Share? && o.Done?) ==> b.apart)
  }

  ghost predicate Happened(a: Shot, b: Shot, call: Call, o: Outcome) { Answered(a, b, call, o) && Visible(a, b, call, o) }

  method StepSpawn(t: Tasks) returns (o: Outcome)
    requires t.Valid()
    modifies t, t.mm
    ensures t.Valid() && Happened(old(Take(t)), Take(t), Spawn, o)
  {
    hide Sound, AS.Views, AS.Protected, Reserve, Tables;
    SoundIs(t.mm.Now(), t.mm.boot, t.kept, t.live, t.owed, t.tabs, t.s);
    var r := t.Spawn();
    o := if r != 0 then Done(r) else Skipped;
  }

  method StepClone(t: Tasks, src: nat, cow: bool) returns (o: Outcome)
    requires t.Valid()
    modifies t, t.mm
    ensures t.Valid() && Happened(old(Take(t)), Take(t), if cow then Fork(src) else Share(src), o)
  {
    hide Sound, AS.Views, AS.Protected, Reserve, Tables, AS.CopySpace;
    SoundIs(t.mm.Now(), t.mm.boot, t.kept, t.live, t.owed, t.tabs, t.s);
    var r := 0;
    if src in t.live {
      r := t.Clone(src, cow);
    }
    o := if r != 0 then Done(r) else Skipped;
  }

  method StepCollect(t: Tasks, cpu: nat, r: nat) returns (o: Outcome, hung: bool)
    requires t.Valid()
    modifies t, t.mm
    ensures hung <==> Hangs(old(Take(t)), Collect(cpu, r))
    ensures !hung ==> t.Valid() && Happened(old(Take(t)), Take(t), Collect(cpu, r), o)
  {
    hide Sound, AS.Views, AS.Protected, LeavesTo, TabsTo, Tables;
    o, hung := Skipped, false;
    SoundIs(t.mm.Now(), t.mm.boot, t.kept, t.live, t.owed, t.tabs, t.s);
    if t.Idle(cpu) && r in t.live {
      hung := t.Collect(cpu, r);
      o := Done(r);
    }
  }

  method StepFlush(t: Tasks, cpu: nat) returns (o: Outcome)
    requires t.Valid()
    modifies t, t.mm
    ensures t.Valid() && Happened(old(Take(t)), Take(t), Flush(cpu), o)
  {
    hide Sound, AS.Views, AS.Protected, Tables, AS.SlotsOf, AS.Owed;
    o := Skipped;
    SoundIs(t.mm.Now(), t.mm.boot, t.kept, t.live, t.owed, t.tabs, t.s);
    if cpu < AS.NCPU {
      t.Flush(cpu);
      o := Done(0);
    }
  }

  method StepFault(t: Tasks, cpu: nat, r: nat, v: nat) returns (o: Outcome)
    requires t.Valid()
    modifies t, t.mm
    ensures t.Valid() && Happened(old(Take(t)), Take(t), Fault(cpu, r, v), o)
  {
    hide Sound, AS.Views, AS.Protected, Walk, Tables;
    o := Skipped;
    SoundIs(t.mm.Now(), t.mm.boot, t.kept, t.live, t.owed, t.tabs, t.s);
    if t.Idle(cpu) && r in t.live && v < VPAGES {
      var res := t.Fault(cpu, r, v);
      o := Done(r);
    }
  }

  method StepDemand(t: Tasks, cpu: nat, r: nat, va: nat, rw: bool, nx: bool) returns (o: Outcome)
    requires t.Valid()
    modifies t, t.mm
    ensures t.Valid() && Happened(old(Take(t)), Take(t), Demand(cpu, r, va, rw, nx), o)
  {
    hide Sound, AS.Views, AS.Protected, UserSlot, AS.SetPage, Canonical, PageOf, Tables, Absent, Walk;
    o := Skipped;
    SoundIs(t.mm.Now(), t.mm.boot, t.kept, t.live, t.owed, t.tabs, t.s);
    if t.Idle(cpu) && r in t.live && va < ADDRESSES && UserSlot(t.mm.tabs, t.mm.boot, ROOT_LEVEL, PageOf(va)) {
      var rc := t.Demand(cpu, r, va, Flags(rw, true, nx, false));
      if rc == 0 { o := Done(r); }
    }
  }

  method StepShrink(t: Tasks, cpu: nat, r: nat, va: nat, n: nat) returns (o: Outcome)
    requires t.Valid()
    modifies t, t.mm
    ensures t.Valid() && Happened(old(Take(t)), Take(t), Shrink(cpu, r, va, n), o)
  {
    hide Sound, AS.Views, AS.Protected, UserSlot, PagesFrom, AS.Drop, Tables, ShrinkOk;
    o := Skipped;
    SoundIs(t.mm.Now(), t.mm.boot, t.kept, t.live, t.owed, t.tabs, t.s);
    if t.Idle(cpu) && r in t.live && ShrinkOk(t.mm.tabs, t.mm.boot, va, n) {
      SlotsThere(t.mm.tabs, t.mm.boot, va, n);
      var k := t.Shrink(cpu, r, va, n);
      o := Done(k);
    }
  }

  method StepStore(t: Tasks, r: nat, v: nat, i: nat, w: int) returns (o: Outcome)
    requires t.Valid()
    modifies t, t.mm
    ensures t.Valid() && Happened(old(Take(t)), Take(t), Store(r, v, i, w), o)
  {
    hide Sound, AS.Views, AS.Protected, Walk, AS.SetPage, Tables;
    o := Skipped;
    SoundIs(t.mm.Now(), t.mm.boot, t.kept, t.live, t.owed, t.tabs, t.s);
    if r in t.live && v < VPAGES && i < AS.WORDS && Writable(t.mm.tabs, r, v) {
      t.Store(r, v, i, w);
      o := Done(r);
    }
  }

  /** One call: done exactly when the state allows it, with the effect it has on private
      memories.  It hangs exactly at the end of a space too large for the lists. */
  method Step(t: Tasks, call: Call) returns (o: Outcome, hung: bool)
    requires t.Valid()
    modifies t, t.mm
    ensures hung <==> Hangs(old(Take(t)), call)
    ensures !hung ==> t.Valid() && Happened(old(Take(t)), Take(t), call, o)
  {
    hide Sound, Enabled, Oversize, Happened, Take, Tables;
    hung := false;
    match call
    case Spawn => o := StepSpawn(t);
    case Fork(src) => o := StepClone(t, src, true);
    case Share(src) => o := StepClone(t, src, false);
    case Fault(cpu, r, v) => o := StepFault(t, cpu, r, v);
    case Demand(cpu, r, va, rw, nx) => o := StepDemand(t, cpu, r, va, rw, nx);
    case Shrink(cpu, r, va, n) => o := StepShrink(t, cpu, r, va, n);
    case Store(r, v, i, w) => o := StepStore(t, r, v, i, w);
    case Collect(cpu, r) => o, hung := StepCollect(t, cpu, r);
    case Flush(cpu) => o := StepFlush(t, cpu);
  }

  /** The states a run goes through, with the calls and their outcomes. */
  ghost predicate Traced(trace: seq<Shot>, calls: seq<Call>, log: seq<Outcome>) {
    |trace| == |log| + 1 && |log| <= |calls| &&
    forall i :: 0 <= i < |log| ==> Happened(trace[i], trace[i + 1], calls[i], log[i])
  }

  /** No CLONE was done. */
  predicate Unshared(calls: seq<Call>, log: seq<Outcome>) {
    forall i :: 0 <= i < |calls| && i < |log| && calls[i].Share? ==> log[i].Skipped?
  }

  lemma TracedMore(trace: seq<Shot>, calls: seq<Call>, log: seq<Outcome>, b: Shot, o: Outcome)
    requires Traced(trace, calls, log) && |log| < |calls|
    requires Happened(trace[|log|], b, calls[|log|], o)
    ensures Traced(trace + [b], calls, log + [o])
  {
    hide Happened;
    var more, log2 := trace + [b], log + [o];
    forall i | 0 <= i < |log2| ensures Happened(more[i], more[i + 1], calls[i], log2[i]) {
      assert i < |log| ==> more[i] == trace[i] && more[i + 1] == trace[i + 1] && log2[i] == log[i];
    }
  }

  /** Without CLONE such a run is a run on private memories. */
  lemma {:induction false} TracedPlays(trace: seq<Shot>, calls: seq<Call>, log: seq<Outcome>)
    requires Traced(trace, calls, log) && trace[0].apart && Unshared(calls, log)
    ensures trace[|log|].apart && Played(trace[0].seen, calls[..|log|], log, trace[|log|].seen)
    decreases |log|
  {
    hide Answered, Played, Play, Fits;
    if log == [] {
      PlayedNone(trace[0].seen);
    } else {
      var n := |log| - 1;
      TracedPlays(trace[..n + 1], calls, log[..n]);
      assert Happened(trace[n], trace[n + 1], calls[n], log[n]);
      PlayedMore(trace[0].seen, calls[..n], log[..n], trace[n].seen, calls[n], log[n]);
      assert calls[..n] + [calls[n]] == calls[..n + 1] && log[..n] + [log[n]] == log;
    }
  }

  /** Any run, from any state reached: every call is done exactly when the state before it
      allows it, and without CLONE what the tasks see at the end is what the same calls make
      of private memories. */
  method Run(t: Tasks, calls: seq<Call>) returns (log: seq<Outcome>, hung: bool, ghost trace: seq<Shot>)
    requires t.Valid()
    modifies t, t.mm
    ensures Traced(trace, calls, log) && trace[0] == old(Take(t)) && (hung <==> |log| < |calls|)
    ensures if hung then Hangs(trace[|log|], calls[|log|]) else t.Valid() && trace[|log|] == Take(t)
    ensures old(t.Private()) && Unshared(calls, log) ==> Played(old(t.Views()), calls[..|log|], log, trace[|log|].seen)
  {
    hide Sound, AS.Views, AS.Protected, Happened, Hangs, Unshared, Played, Tables;
    log, hung, trace := [], false, [Take(t)];
    while |log| < |calls|
      invariant |log| <= |calls| && t.Valid() && Traced(trace, calls, log) && trace[0] == old(Take(t)) && trace[|log|] == Take(t)
      decreases |calls| - |log|
    {
      var o, h := Step(t, calls[|log|]);
      if h {
        hung := true;
        break;
      }
      TracedMore(trace, calls, log, Take(t), o);
      log, trace := log + [o], trace + [Take(t)];
    }
    if old(t.Private()) && Unshared(calls, log) {
      TracedPlays(trace, calls, log);
    }
  }

  lemma PlayedNone(m: map<nat, AS.View>)
    ensures Played(m, [], [], m)
  {
  }

  /** Nothing is lost or kept back, whatever the run, with CLONE or without: with no task left
      and every CPU's puts done, the frames in use are those boot left in use. */
  lemma AllReturned(t: Tasks)
    requires t.Valid() && t.live == {} && forall c :: 0 <= c < AS.NCPU ==> t.Idle(c)
    ensures forall f: nat :: f < NFRAMES ==> (t.mm.bits[f] <==> f in t.kept.base || f in t.kept.shared)
  {
    hide Sound;
    SoundIs(t.mm.Now(), t.mm.boot, t.kept, t.live, t.owed, t.tabs, t.s);
    forall k | 0 <= k < AS.NCPU ensures t.owed[k] == [] && t.tabs[k] == [] {
      assert t.Idle(k);
    }
    forall f: nat | f < NFRAMES ensures t.mm.bits[f] <==> f in t.kept.base || f in t.kept.shared {
      AllBack(t.mm.Now(), t.mm.boot, t.kept, t.owed, t.tabs, t.s, f);
    }
  }
}
