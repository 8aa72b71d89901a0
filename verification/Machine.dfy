/** The memory manager at work for tasks on several CPUs: the page-table code of module Vmm
    run section by section, every task seeing a private memory throughout. */
module Machine {
  import opened PageTables
  import opened Snapshots
  import opened SpaceCopy
  import opened SpaceTear
  import opened CloneSteps
  import opened Refinement
  import opened Coverage
  import opened MachineSteps
  import opened MachineSound
  import opened UserSlots
  import opened Vmm
  import AS = AddressSpaces
  import FrameMap = Frames

  const BATCH: nat := 64            // frames per section of brk_shrink
  const LOW_HALF: nat := 0x8000_0000_0000

  /** The pages from address va on. */
  function PagesFrom(va: nat, n: nat): seq<nat> { seq(n, k => va / 4096 + k) }

  /** Ring 3 may store to page v of space r. */
  predicate Writable(h: Heap, r: nat, v: nat) { UserLeaf(Walk(h, r, ROOT_LEVEL, v)) && Walk(h, r, ROOT_LEVEL, v).e.rw }

  /** A page of src before a clone (w), and the page of src (p) and of the copy (c) after it:
      same frame, same right to execute; after a fork neither is writable and what was
      writable or copy-on-write is copy-on-write, after a CLONE nothing changes. */
  predicate RightsAt(cow: bool, w: Hit, p: Hit, c: Hit) {
    (UserLeaf(p) <==> UserLeaf(w)) && (UserLeaf(c) <==> UserLeaf(w)) &&
    (UserLeaf(w) ==>
      p.e.frame == c.e.frame == w.e.frame && p.e.nx == c.e.nx == w.e.nx &&
      p.e.rw == c.e.rw == (!cow && w.e.rw) && p.e.cow == c.e.cow == (w.e.cow || (cow && w.e.rw)))
  }

  ghost predicate Inherits(cow: bool, h: Heap, h2: Heap, src: nat, r: nat) {
    forall v: nat :: v < VPAGES ==> RightsAt(cow, Walk(h, src, ROOT_LEVEL, v), Walk(h2, src, ROOT_LEVEL, v), Walk(h2, r, ROOT_LEVEL, v))
  }

  class Tasks {
    const mm: Manager
    var live: set<nat>         // roots of the live spaces
    var owed: seq<seq<nat>>    // per CPU: frames whose put waits for a flush
    var tabs: seq<seq<nat>>    // per CPU: tables of a torn-down space that wait for it
    ghost var s: AS.State
    ghost const kept: Kept     // what boot left

    ghost predicate Valid()
      reads this, mm
    {
      mm.Valid() && kept.fb == mm.display && Sound(mm.Now(), mm.boot, kept, live, owed, tabs, s)
    }

    /** What every task sees: its pages, as if each were its own. */
    ghost function Views(): map<nat, AS.View>
      reads this
    {
      AS.Views(s)
    }

    /** No frame can be written through two pages: CLONE has not been used. */
    ghost predicate Private()
      reads this
    {
      AS.Protected(s.leaves)
    }

    /** The CPU owes nothing. */
    predicate Idle(cpu: nat)
      reads this
    {
      cpu < |owed| && cpu < |tabs| && owed[cpu] == [] && tabs[cpu] == []
    }

    /** Boot left only shared tables, and holds the frames of the display. */
    constructor (mm: Manager)
      requires mm.Valid() && BootOk(mm.lab, mm.boot) && forall t :: t in mm.lab ==> mm.lab[t].owner == 0
      requires forall f: nat :: f < NFRAMES && Shown(mm.display, f) ==> mm.bits[f] && f !in mm.lab
      ensures Valid() && Private() && this.mm == mm && live == {} && Views() == map[] && forall c :: 0 <= c < AS.NCPU ==> Idle(c)
      ensures forall f: nat :: f < NFRAMES ==> (mm.bits[f] <==> f in kept.base || f in kept.shared)
    {
      this.mm := mm;
      owed := seq(AS.NCPU, _ => []);
      tabs := seq(AS.NCPU, _ => []);
      live := {};
      s := Booted(mm.Now());
      kept := Kept(mm.display, Booted(mm.Now()).reserved, mm.lab.Keys);
      BootGood(mm.Now());
    }

    /** A space for a new task: a clone of the boot space, with nothing mapped for users. */
    method Spawn() returns (r: nat)
      requires Valid()
      modifies this, mm
      ensures Valid() && (old(Private()) ==> Private()) && owed == old(owed) && tabs == old(tabs)
      ensures r != 0 <==> |old(live)| < MAX_SPACES && old(mm.freeN) >= Reserve(old(mm.tabs), mm.boot)
      ensures r == 0 ==> live == old(live) && Views() == old(Views())
      ensures r != 0 ==> r !in old(live) && live == old(live) + {r} && Views() == old(Views())[r := imap[]]
    {
      hide Sound, Cloned, Wf, LeavesUsed, LargeTo, Reserve, AS.Views, AS.Do, AS.Can, AS.Protected, FrameMap.CountFree;
      if |live| >= MAX_SPACES { return 0; }
      ghost var a, fa := mm.Now(), mm.freeN;
      SoundIs(a, mm.boot, kept, live, owed, tabs, s);
      BootNotLarge(mm.tabs, mm.lab, mm.boot, ROOT_LEVEL, FAN);
      r := mm.CloneSpace(mm.boot, true);
      if r != 0 {
        SoundSpawn(a, fa, mm.Now(), mm.freeN, mm.boot, kept, live, owed, tabs, s, r);
        SoundGuard(a, mm.boot, kept, live, owed, tabs, s, AS.NewSpace(r, mm.lab.Keys - a.lab.Keys));
        s := AS.Do(s, AS.NewSpace(r, mm.lab.Keys - a.lab.Keys));
        live := live + {r};
      }
    }

    /** fork and CLONE: a space that sees what src sees. */
    method Clone(src: nat, cow: bool) returns (r: nat)
      requires Valid() && src in live
      modifies this, mm
      ensures Valid() && (cow || r == 0 ==> old(Private()) ==> Private()) && owed == old(owed) && tabs == old(tabs) && src in old(Views())
      ensures r != 0 <==> |old(live)| < MAX_SPACES && old(mm.freeN) >= Reserve(old(mm.tabs), src)
      ensures r == 0 ==> live == old(live) && Views() == old(Views())
      ensures r != 0 ==> r !in old(live) && live == old(live) + {r} && Views() == old(Views())[r := old(Views())[src]]
      ensures r != 0 && !cow ==> s.leaves == old(s.leaves) + AS.CopySpace(old(s.leaves), src, r)
      ensures r != 0 ==> Inherits(cow, old(mm.tabs), mm.tabs, src, r)
    {
      hide Sound, Cloned, Wf, LeavesUsed, LargeTo, Reserve, AS.Views, AS.Do, AS.Can, AS.Protected, FrameMap.CountFree, Inherits, Tables, AS.CopySpace;
      ghost var a, fa := mm.Now(), mm.freeN;
      SoundIs(a, mm.boot, kept, live, owed, tabs, s);
      if |live| >= MAX_SPACES { return 0; }
      SoundNotLarge(a, mm.boot, kept, live, owed, tabs, s, src);
      r := mm.CloneSpace(src, cow);
      if r != 0 {
        ghost var op := CloneOp(cow, src, r, mm.lab.Keys - a.lab.Keys);
        SoundFork(a, fa, mm.Now(), mm.freeN, cow, mm.boot, kept, live, owed, tabs, s, src, r);
        if cow {
          SoundGuard(a, mm.boot, kept, live, owed, tabs, s, op);
        } else {
          ShareLeaves(s, src, r, mm.lab.Keys - a.lab.Keys);
        }
        CloneRights(a, mm.Now(), cow, mm.boot, kept, live, owed, tabs, s, src, r, mm.lab.Keys - a.lab.Keys);
        s := AS.Do(s, op);
        live := live + {r};
      }
    }

    /** fork: the child sees what the parent sees; the parent still sees it. */
    method Fork(src: nat) returns (r: nat)
      requires Valid() && src in live
      modifies this, mm
      ensures Valid() && (old(Private()) ==> Private()) && owed == old(owed) && tabs == old(tabs) && src in old(Views())
      ensures r != 0 <==> |old(live)| < MAX_SPACES && old(mm.freeN) >= Reserve(old(mm.tabs), src)
      ensures r == 0 ==> live == old(live) && Views() == old(Views())
      ensures r != 0 ==> r !in old(live) && live == old(live) + {r} && Views() == old(Views())[r := old(Views())[src]]
      ensures r != 0 ==> forall v: nat :: v < VPAGES ==>
        var w, p, c := Walk(old(mm.tabs), src, ROOT_LEVEL, v), Walk(mm.tabs, src, ROOT_LEVEL, v), Walk(mm.tabs, r, ROOT_LEVEL, v);
        (UserLeaf(p) <==> UserLeaf(w)) && (UserLeaf(c) <==> UserLeaf(w)) &&
        (UserLeaf(w) ==> p.e.frame == c.e.frame == w.e.frame && p.e.nx == c.e.nx == w.e.nx && !p.e.rw && !c.e.rw && p.e.cow == c.e.cow == (w.e.cow || w.e.rw))
    {
      hide Sound, Reserve, AS.Views, AS.Protected, Tables, FrameMap.CountFree, Walk;
      r := Clone(src, true);
    }

    /** CLONE: the child sees what the parent sees, in the same frames.  The counts stay
        exact; from here on the two are not private to each other. */
    method Share(src: nat) returns (r: nat)
      requires Valid() && src in live
      modifies this, mm
      ensures Valid() && owed == old(owed) && tabs == old(tabs) && src in old(Views())
      ensures r != 0 <==> |old(live)| < MAX_SPACES && old(mm.freeN) >= Reserve(old(mm.tabs), src)
      ensures r == 0 ==> live == old(live) && Views() == old(Views()) && (old(Private()) ==> Private())
      ensures r != 0 ==> r !in old(live) && live == old(live) + {r} && Views() == old(Views())[r := old(Views())[src]]
      ensures r != 0 ==> s.leaves == old(s.leaves) + AS.CopySpace(old(s.leaves), src, r)
      ensures r != 0 ==> forall v: nat :: v < VPAGES ==>
        var w, p, c := Walk(old(mm.tabs), src, ROOT_LEVEL, v), Walk(mm.tabs, src, ROOT_LEVEL, v), Walk(mm.tabs, r, ROOT_LEVEL, v);
        (UserLeaf(p) <==> UserLeaf(w)) && (UserLeaf(c) <==> UserLeaf(w)) &&
        (UserLeaf(w) ==> p.e.frame == c.e.frame == w.e.frame && p.e.nx == c.e.nx == w.e.nx && p.e.rw == c.e.rw == w.e.rw && p.e.cow == c.e.cow == w.e.cow)
    {
      hide Sound, Reserve, AS.Views, AS.Protected, Tables, FrameMap.CountFree, Walk;
      r := Clone(src, false);
    }

    /** A write fault at any page of space r: no task's view changes; when it is resolved
        the page is writable. */
    method Fault(cpu: nat, r: nat, v: nat) returns (res: CowResult)
      requires Valid() && Idle(cpu) && r in live && v < VPAGES
      modifies this, mm
      ensures Valid() && (old(Private()) ==> Private()) && live == old(live) && tabs == old(tabs) && Views() == old(Views())
      ensures !res.Refused? <==> Writable(mm.tabs, r, v)
      ensures res.Spurious? <==> Writable(old(mm.tabs), r, v)
      ensures var w := Walk(old(mm.tabs), r, ROOT_LEVEL, v);
        (res.Upgraded? <==> SoleCow(w, old(mm.refs))) && (res.Copied? <==> CowLeaf(w) && !SoleCow(w, old(mm.refs)) && old(mm.freeN) > 0)
      ensures owed == if res.Copied? then old(owed)[cpu := [res.owed]] else old(owed)
    {
      hide Sound, Wf, LeavesUsed, AS.Views, Anchored, SameWalksBut, Touched, Walk, AS.Do, AS.Can, AS.Protected, FrameMap.CountFree, Good;
      ghost var a := mm.Now();
      SoundIs(a, mm.boot, kept, live, owed, tabs, s);
      SoundFrame(a, mm.boot, kept, live, owed, tabs, s, r, v);
      CowNotWritable(a, mm.boot, kept, live, owed, tabs, s, r, v);
      res := mm.CowResolve(r, v);
      ghost var b := mm.Now();
      if res.Upgraded? {
        SoundUpgrade(a, b, mm.boot, kept, live, owed, tabs, s, r, v);
        SoundGuard(a, mm.boot, kept, live, owed, tabs, s, AS.CowUpgrade(r, v));
        s := AS.Do(s, AS.CowUpgrade(r, v));
        LeafFrame(b, mm.boot, kept, live, owed, tabs, s, r, v);
      } else if res.Copied? {
        ghost var nf :| CopiedTo(a, b, r, v, nf, res.owed);
        hide CopiedTo;
        SoundCopy(a, b, mm.boot, kept, live, owed, tabs, s, cpu, r, v, nf);
        SoundGuard(a, mm.boot, kept, live, owed, tabs, s, AS.CowCopy(cpu, r, v, nf));
        s := AS.Do(s, AS.CowCopy(cpu, r, v, nf));
        owed := owed[cpu := [res.owed]];
        LeafFrame(b, mm.boot, kept, live, owed, tabs, s, r, v);
      }
    }

    /** Demand paging at a page of user space: a zeroed frame for a page not there yet.  A
        page that is there, or a path without memory, leaves the frame owed a put. */
    method Demand(cpu: nat, r: nat, va: nat, fl: Flags) returns (rc: int)
      requires Valid() && Idle(cpu) && r in live && va < 0x1_0000_0000_0000_0000 && fl.us && UserSlot(mm.tabs, mm.boot, ROOT_LEVEL, PageOf(va))
      modifies this, mm
      ensures Valid() && (old(Private()) ==> Private()) && live == old(live) && tabs == old(tabs) && r in old(Views())
      ensures rc == -1 || rc == 0 || rc == 1
      ensures (rc == -1 <==> old(mm.freeN) == 0) && (rc == -1 ==> mm.freeN == 0)
      ensures rc == 0 <==> PageOf(va) !in old(Views())[r] && Canonical(va) && va % 4096 == 0 && (fl.nx ==> old(mm.nxOn)) && Absent(old(mm.tabs), r, ROOT_LEVEL, PageOf(va)) < old(mm.freeN)
      ensures rc == 0 ==> var w := Walk(mm.tabs, r, ROOT_LEVEL, PageOf(va)); UserLeaf(w) && w.e.rw == fl.rw && w.e.nx == fl.nx && !w.e.cow
      ensures rc == 0 ==> Views() == old(Views())[r := AS.SetPage(old(Views())[r], PageOf(va), AS.ZeroPage())] && owed == old(owed)
      ensures rc != 0 ==> Views() == old(Views())
      ensures rc == 1 ==> |owed[cpu]| == 1 && owed == old(owed)[cpu := owed[cpu]]
    {
      hide Sound, Wf, LeavesUsed, AS.Views, Anchored, OwnPath, SameWalksBut, SameWalks, Walk, Good, AS.Do, AS.Can, AS.Protected, FrameMap.CountFree, AS.SetPage, Canonical, PageOf, UserSlot, Touched, Grown, KeepsUsed, NoRoots, Extends, Absent;
      ghost var a, v := mm.Now(), PageOf(va);
      PageBound(va);
      SoundIs(a, mm.boot, kept, live, owed, tabs, s);
      SoundOwns(a, mm.boot, kept, live, owed, tabs, s, r, v);
      SeenPage(a, mm.boot, kept, live, owed, tabs, s, r, v);
      var f := mm.Alloc();
      if f == 0 { return -1; }
      assert mm.Now() == Allocated(a, f);
      FreshFrame(a, f);
      OwnPathZero(a.tabs, a.lab, f, r, ROOT_LEVEL, v);
      WalkUnlabelled(a.tabs, a.lab, f, r, ROOT_LEVEL, v);
      AbsentUnlabelled(a.tabs, a.lab, f, r, ROOT_LEVEL, v);
      var ok := mm.MapPage(r, va, f * 4096, fl);
      ghost var b := mm.Now();
      if ok {
        assert MapDone(Allocated(a, f), b, mm.freeN, r, v, UserEntry(f, fl), true);
        SoundMap(a, b, mm.boot, kept, live, owed, tabs, s, r, v, f, UserEntry(f, fl), mm.freeN);
        SoundGuard(a, mm.boot, kept, live, owed, tabs, s, AS.MapFresh(r, v, f, fl.rw, fl.nx, b.lab.Keys - a.lab.Keys));
        s := AS.Do(s, AS.MapFresh(r, v, f, fl.rw, fl.nx, b.lab.Keys - a.lab.Keys));
        rc := 0;
      } else {
        SoundLose(a, b, mm.boot, kept, live, owed, tabs, s, cpu, r, v, f);
        SoundGuard(a, mm.boot, kept, live, owed, tabs, s, AS.LoseRace(cpu, f, b.lab.Keys - a.lab.Keys));
        s := AS.Do(s, AS.LoseRace(cpu, f, b.lab.Keys - a.lab.Keys));
        owed := owed[cpu := [f]];
        rc := 1;
      }
    }

    /** One section of brk_shrink: the first k pages of a range of user space go, and their
        frames are owed a put each.  It covers the range, or stops at 64 frames. */
    method Shrink(cpu: nat, r: nat, va: nat, n: nat) returns (k: nat)
      requires Valid() && Idle(cpu) && r in live && va % 4096 == 0 && va + n * 4096 <= LOW_HALF
      requires forall v: nat :: va / 4096 <= v < va / 4096 + n ==> UserSlot(mm.tabs, mm.boot, ROOT_LEVEL, v)
      modifies this, mm
      ensures Valid() && (old(Private()) ==> Private()) && live == old(live) && tabs == old(tabs) && r in old(Views()) && owed == old(owed)[cpu := owed[cpu]]
      ensures k <= n && |owed[cpu]| <= BATCH && (k == n || |owed[cpu]| == BATCH)
      ensures Views() == old(Views())[r := AS.Drop(old(Views())[r], PagesFrom(va, k))]
    {
      hide Sound, Wf, LeavesUsed, AS.Views, Unmapping, UserSlot, Walk, AS.Do, AS.Can, AS.Protected, FrameMap.CountFree, AS.Drop, PagesFrom;
      ghost var a := mm.Now();
      SoundIs(a, mm.boot, kept, live, owed, tabs, s);
      UnmapStart(a, mm.boot, kept, live, owed, tabs, s, cpu, r);
      var data: seq<nat> := [];
      ghost var vs: seq<nat> := [];
      k := 0;
      while k < n && |data| < BATCH
        modifies mm
        invariant 0 <= k <= n && |data| <= BATCH && mm.Valid() && mm.lab == a.lab && Unmapping(mm.Now(), mm.boot, live, owed, s, cpu, r, vs, data)
        invariant forall v: nat :: va / 4096 <= v < va / 4096 + n ==> UserSlot(mm.tabs, mm.boot, ROOT_LEVEL, v)
        invariant Swept(mm.tabs, r, va, k, vs)
      {
        vs, data := UnmapOne(cpu, r, va, k, vs, data);
        k := k + 1;
      }
      ghost var b := mm.Now();
      SoundUnmap(a, b, mm.boot, kept, live, owed, tabs, s, cpu, r, vs, data);
      SweptDrop(b, mm.boot, live, owed, s, cpu, r, vs, data, va, k);
      SoundGuard(a, mm.boot, kept, live, owed, tabs, s, AS.Unmap(cpu, r, vs));
      s := AS.Do(s, AS.Unmap(cpu, r, vs));
      owed := owed[cpu := data];
    }

    /** Page k of the range. */
    method UnmapOne(cpu: nat, r: nat, va: nat, k: nat, ghost vs: seq<nat>, data: seq<nat>) returns (ghost vs2: seq<nat>, data2: seq<nat>)
      requires mm.Valid() && Unmapping(mm.Now(), mm.boot, live, owed, s, cpu, r, vs, data) && va % 4096 == 0 && va + (k + 1) * 4096 <= LOW_HALF
      requires UserSlot(mm.tabs, mm.boot, ROOT_LEVEL, va / 4096 + k) && Swept(mm.tabs, r, va, k, vs)
      modifies mm
      ensures mm.Valid() && Unmapping(mm.Now(), mm.boot, live, owed, s, cpu, r, vs2, data2) && Swept(mm.tabs, r, va, k + 1, vs2) && |data2| <= |data| + 1
      ensures mm.lab == old(mm.lab) && forall w: nat :: UserSlot(mm.tabs, mm.boot, ROOT_LEVEL, w) == old(UserSlot(mm.tabs, mm.boot, ROOT_LEVEL, w))
    {
      hide Wf, LeavesUsed, Unmapping, UserSlot, Walk, SameWalksBut, Touched, Anchored, Canonical, PageOf, FrameMap.CountFree;
      ghost var a, v := mm.Now(), va / 4096 + k;
      vs2, data2 := vs, data;
      LowPage(va, k);
      UnmapRoot(a, mm.boot, live, owed, s, cpu, r, vs, data);
      UnmapFrame(a, mm.boot, live, owed, s, cpu, r, vs, data, v);
      var pa := mm.Translate(r, va + k * 4096);
      if Walk(a.tabs, r, ROOT_LEVEL, v).Hit? {
        PhysFrame(Walk(a.tabs, r, ROOT_LEVEL, v).e, va + k * 4096);
      }
      if pa == 0 {
        SweptSkip(a.tabs, r, va, k, vs);
        return;
      }
      var ok := mm.UnmapPage(r, va + k * 4096);
      assert ok;
      UnmapMore(a, mm.Now(), mm.boot, live, owed, s, cpu, r, vs, data, v);
      SweptMore(a.tabs, mm.tabs, a.lab, r, va, k, vs);
      vs2, data2 := vs + [v], data + [pa / 4096];
    }

    /** A store by the task itself, to a page it may write: while memories are private its own
        view changes, in that word, and no other task's. */
    method Store(r: nat, v: nat, i: nat, w: int)
      requires Valid() && r in live && i < AS.WORDS && v < VPAGES && Writable(mm.tabs, r, v)
      modifies this, mm
      ensures Valid() && (old(Private()) ==> Private()) && live == old(live) && owed == old(owed) && tabs == old(tabs) && r in old(Views()) && v in old(Views())[r]
      ensures old(Private()) ==> Views() == old(Views())[r := AS.SetPage(old(Views())[r], v, old(Views())[r][v][i := w])]
    {
      hide Sound, Wf, LeavesUsed, AS.Views, Good, AS.Do, AS.Can, AS.Protected, FrameMap.CountFree, AS.SetPage, Walk;
      ghost var a := mm.Now();
      LeafFrame(a, mm.boot, kept, live, owed, tabs, s, r, v);
      SoundStore(a, mm.boot, kept, live, owed, tabs, s, r, v, i, w);
      var f := Walk(mm.tabs, r, ROOT_LEVEL, v).e.frame;
      mm.mem := mm.mem[f := mm.mem[f][i := w]];
      SoundGuard(a, mm.boot, kept, live, owed, tabs, s, AS.UserWrite(r, v, i, w));
      s := AS.Do(s, AS.UserWrite(r, v, i, w));
    }

    /** The first section of the end of a space.  It hangs exactly when the space is too
        large for the lists; otherwise its view goes and no other view changes. */
    method Collect(cpu: nat, r: nat) returns (stuck: bool)
      requires Valid() && Idle(cpu) && r in live
      modifies this, mm
      ensures stuck <==> |LeavesTo(old(mm.tabs), r, ROOT_LEVEL, FAN)| > 256 || |TabsTo(old(mm.tabs), r, ROOT_LEVEL, FAN)| > 63
      ensures !stuck ==> Valid() && (old(Private()) ==> Private()) && live == old(live) - {r} && Views() == old(Views()) - {r} && mm.freeN == old(mm.freeN)
      ensures !stuck ==> owed == old(owed)[cpu := LeavesTo(old(mm.tabs), r, ROOT_LEVEL, FAN)] && tabs == old(tabs)[cpu := TabsTo(old(mm.tabs), r, ROOT_LEVEL, FAN) + [r]]
    {
      hide Sound, Tables, AS.Views, LeavesTo, TabsTo, PagesTo, Apart, Others, AS.Do, AS.Can, AS.Protected, OnlyBelow, Collected, FrameMap.CountFree;
      ghost var a := mm.Now();
      SoundIs(a, mm.boot, kept, live, owed, tabs, s);
      SoundApart(a, mm.boot, kept, live, owed, tabs, s, r);
      var l := mm.Collect(r);
      stuck := l.stuck;
      if stuck { return; }
      ghost var b := mm.Now();
      SoundCollect(a, b, mm.boot, kept, live, owed, tabs, s, cpu, r, l);
      CollectGuard(a, b, mm.boot, kept, live, owed, tabs, s, cpu, r);
      s := Collected(a, b, s, cpu, r);
      live := live - {r};
      owed := owed[cpu := l.data];
      tabs := tabs[cpu := l.tabs];
    }

    /** The section after a flush: every put this CPU owes, and every table it set aside.
        A frame put stays allocated exactly while a page or another pending put names it. */
    method Flush(cpu: nat)
      requires Valid() && cpu < |owed| && cpu < |tabs|
      modifies this, mm
      ensures Valid() && (old(Private()) ==> Private()) && live == old(live) && Views() == old(Views()) && owed == old(owed)[cpu := []] && tabs == old(tabs)[cpu := []]
      ensures |mm.bits| == NFRAMES && forall f: nat :: f in old(owed[cpu]) ==>
        f < NFRAMES && (mm.bits[f] <==> AS.SlotsOf(s.leaves, f) != {} || AS.Owed(s.pend, f) > 0)
      ensures forall f: nat :: f in old(tabs[cpu]) ==> f < NFRAMES && !mm.bits[f]
    {
      hide Sound, Wf, LeavesUsed, AS.Views, Freed, Settled, AS.SlotsOf, AS.Owed, AS.Protected, FrameMap.CountFree;
      ghost var a, gone: set<nat> := mm.Now(), set g | g in tabs[cpu];
      mm.FlushFree(TearList(owed[cpu], tabs[cpu], false));
      ghost var b := mm.Now();
      SoundFlush(a, b, mm.boot, kept, live, owed, tabs, s, cpu, gone);
      FlushedAll(a, b, mm.boot, kept, live, owed, tabs, s, cpu, gone);
      s := Settled(s, cpu, gone);
      owed := owed[cpu := []];
      tabs := tabs[cpu := []];
    }
  }

  // ---------------------------------------------------------------- what the methods use

  lemma ShareLeaves(s: AS.State, src: nat, r: nat, tabs: set<nat>)
    requires AS.Shaped(s) && AS.Can(s, AS.Share(src, r, tabs))
    ensures AS.Do(s, AS.Share(src, r, tabs)).leaves == s.leaves + AS.CopySpace(s.leaves, src, r)
  {
  }

  lemma CollectGuard(a: Snap, b: Snap, boot: nat, d: Kept, live: set<nat>, owed: seq<seq<nat>>, tabs: seq<seq<nat>>, s: AS.State, cpu: nat, r: nat)
    requires Sound(a, boot, d, live, owed, tabs, s) && AS.Shaped(s) && AS.Can(s, AS.Teardown(cpu, r, Pages(a.tabs, r)))
    ensures AS.Protected(s.leaves) ==> AS.Protected(Collected(a, b, s, cpu, r).leaves)
  {
    hide Sound, AS.Protected, AS.Do, AS.Can, PagesTo;
    SoundGuard(a, boot, d, live, owed, tabs, s, AS.Teardown(cpu, r, Pages(a.tabs, r)));
  }

  lemma SoundNotLarge(c: Snap, boot: nat, d: Kept, live: set<nat>, owed: seq<seq<nat>>, tabs: seq<seq<nat>>, s: AS.State, r: nat)
    requires Sound(c, boot, d, live, owed, tabs, s) && r in live
    ensures !LargeTo(c.tabs, r, ROOT_LEVEL, FAN)
  {
    hide Good, SetAside, Apart, Paged, LargeTo;
    SoundIs(c, boot, d, live, owed, tabs, s);
    PagedNotLarge(c.tabs, c.lab, boot, r);
  }

  lemma SoundApart(c: Snap, boot: nat, d: Kept, live: set<nat>, owed: seq<seq<nat>>, tabs: seq<seq<nat>>, s: AS.State, r: nat)
    requires Sound(c, boot, d, live, owed, tabs, s) && r in live
    ensures Apart(c.tabs, r, boot, ROOT_LEVEL)
  {
  }

  lemma SoundOwns(c: Snap, boot: nat, d: Kept, live: set<nat>, owed: seq<seq<nat>>, tabs: seq<seq<nat>>, s: AS.State, r: nat, v: nat)
    requires Sound(c, boot, d, live, owed, tabs, s) && r in live && UserSlot(c.tabs, boot, ROOT_LEVEL, v)
    ensures Wf(c.tabs, c.lab) && r in c.lab && c.lab[r].level == ROOT_LEVEL && OwnPath(c.tabs, c.lab, r, ROOT_LEVEL, v)
  {
    hide Good, SetAside, Apart, Paged, UserSlot, OwnPath;
    SoundIs(c, boot, d, live, owed, tabs, s);
    OrderlyOwns(c.tabs, c.lab, boot, live, r, v);
  }

  lemma SoundFrame(c: Snap, boot: nat, d: Kept, live: set<nat>, owed: seq<seq<nat>>, tabs: seq<seq<nat>>, s: AS.State, r: nat, v: nat)
    requires Sound(c, boot, d, live, owed, tabs, s) && r in live && v < VPAGES
    ensures UserLeaf(Walk(c.tabs, r, ROOT_LEVEL, v)) ==> 0 < Walk(c.tabs, r, ROOT_LEVEL, v).e.frame < NFRAMES
  {
    hide Good, Walk;
    FaultReady(c, live, owed, s, r, v);
  }

  /** What a clone leaves in both spaces, read off the leaves. */
  lemma CloneRights(a: Snap, b: Snap, cow: bool, boot: nat, d: Kept, live: set<nat>, owed: seq<seq<nat>>, tabs: seq<seq<nat>>, s: AS.State, src: nat, r: nat, gone: set<nat>)
    requires Sound(a, boot, d, live, owed, tabs, s) && src in live && r !in live && AS.Shaped(s) && AS.Can(s, CloneOp(cow, src, r, gone))
    requires Sound(b, boot, d, live + {r}, owed, tabs, AS.Do(s, CloneOp(cow, src, r, gone)))
    ensures Inherits(cow, a.tabs, b.tabs, src, r)
  {
    hide LeavesOf, Walk, AS.Protected, Anchored, Tables, Apart, AS.Exact, AS.NoDupOwed, AS.NoAliasInSpace, AS.NamesData, Orderly, SetAside, AS.Do, Homed;
    var t := AS.Do(s, CloneOp(cow, src, r, gone));
    CloneLeavesAre(s, cow, src, r, gone);
    forall v: nat | v < VPAGES ensures RightsAt(cow, Walk(a.tabs, src, ROOT_LEVEL, v), Walk(b.tabs, src, ROOT_LEVEL, v), Walk(b.tabs, r, ROOT_LEVEL, v)) {
      LeavesOfAt(a.tabs, live, src, v);
      LeavesOfAt(b.tabs, live + {r}, src, v);
      LeavesOfAt(b.tabs, live + {r}, r, v);
      assert s.leaves == LeavesOf(a.tabs, live) && t.leaves == LeavesOf(b.tabs, live + {r});
    }
  }

  lemma CloneLeavesAre(s: AS.State, cow: bool, src: nat, r: nat, gone: set<nat>)
    requires AS.Inv(s) && src in s.live && r !in s.live && AS.Can(s, CloneOp(cow, src, r, gone))
    ensures var t := AS.Do(s, CloneOp(cow, src, r, gone)).leaves;
      forall v: nat ::
        (AS.Slot(src, v) in t <==> AS.Slot(src, v) in s.leaves) && (AS.Slot(r, v) in t <==> AS.Slot(src, v) in s.leaves) &&
        (AS.Slot(src, v) in s.leaves ==>
          var l := s.leaves[AS.Slot(src, v)];
          t[AS.Slot(src, v)] == t[AS.Slot(r, v)] == AS.Leaf(l.frame, !cow && l.rw, l.cow || (cow && l.rw), l.nx))
  {
    hide AS.Exact, AS.NoDupOwed, AS.NoAliasInSpace, AS.Owed;
    assert forall k :: k in s.leaves ==> k.sp != r;
  }

  lemma CowNotWritable(c: Snap, boot: nat, d: Kept, live: set<nat>, owed: seq<seq<nat>>, tabs: seq<seq<nat>>, s: AS.State, r: nat, v: nat)
    requires Sound(c, boot, d, live, owed, tabs, s) && r in live && v < VPAGES
    ensures CowLeaf(Walk(c.tabs, r, ROOT_LEVEL, v)) ==> !Writable(c.tabs, r, v)
  {
    hide LeavesOf, Walk, AS.Protected, Anchored, Tables, Apart, AS.Exact, AS.NoDupOwed, AS.NoAliasInSpace, AS.NamesData, Orderly, SetAside;
    LeavesOfAt(c.tabs, live, r, v);
    assert CowLeaf(Walk(c.tabs, r, ROOT_LEVEL, v)) ==> AS.Slot(r, v) in s.leaves;
  }

  /** In user space, the pages a task sees are those its walks find. */
  lemma SeenPage(c: Snap, boot: nat, d: Kept, live: set<nat>, owed: seq<seq<nat>>, tabs: seq<seq<nat>>, s: AS.State, r: nat, v: nat)
    requires Sound(c, boot, d, live, owed, tabs, s) && r in live && v < VPAGES && UserSlot(c.tabs, boot, ROOT_LEVEL, v)
    ensures r in AS.Views(s) && (v in AS.Views(s)[r] <==> Walk(c.tabs, r, ROOT_LEVEL, v).Hit?)
  {
    hide LeavesOf, Walk, AS.Protected, Anchored, Tables, UserSlot, Apart, AS.Exact, AS.NoDupOwed, AS.NoAliasInSpace;
    LeafFrame(c, boot, d, live, owed, tabs, s, r, v);
    assert Paged(c.tabs, boot, r);
    assert AS.Slot(r, v) in s.leaves ==> AS.IsData(s, s.leaves[AS.Slot(r, v)].frame);
  }

  /** The frame behind a user page, as the hardware finds it. */
  lemma LeafFrame(c: Snap, boot: nat, d: Kept, live: set<nat>, owed: seq<seq<nat>>, tabs: seq<seq<nat>>, s: AS.State, r: nat, v: nat)
    requires Sound(c, boot, d, live, owed, tabs, s)
    ensures AS.Slot(r, v) in s.leaves <==> r in live && v < VPAGES && UserLeaf(Walk(c.tabs, r, ROOT_LEVEL, v))
    ensures AS.Slot(r, v) in s.leaves ==> s.leaves[AS.Slot(r, v)] == LeafOf(Walk(c.tabs, r, ROOT_LEVEL, v).e)
  {
    hide LeavesOf, Walk, AS.Inv, AS.Protected, Anchored, Wf, LeavesUsed;
    LeavesOfAt(c.tabs, live, r, v);
  }

  lemma FlushedAll(a: Snap, b: Snap, boot: nat, d: Kept, live: set<nat>, owed: seq<seq<nat>>, tabs: seq<seq<nat>>, s: AS.State, cpu: nat, gone: set<nat>)
    requires Sound(a, boot, d, live, owed, tabs, s) && cpu < |owed| && cpu < |tabs| && Freed(a.refs, a.bits, b.refs, b.bits, owed[cpu], tabs[cpu])
    requires gone == (set g | g in tabs[cpu]) && AS.Shaped(s) && cpu < AS.NCPU && forall i :: 0 <= i < |s.pend[cpu]| ==> s.pend[cpu][i] < NFRAMES
    requires Sound(b, boot, d, live, owed[cpu := []], tabs[cpu := []], Settled(s, cpu, gone)) && |b.bits| == NFRAMES
    ensures var t := Settled(s, cpu, gone);
      forall f: nat :: f in owed[cpu] ==> f < NFRAMES && (b.bits[f] <==> AS.SlotsOf(t.leaves, f) != {} || AS.Owed(t.pend, f) > 0)
    ensures forall f: nat :: f in tabs[cpu] ==> f < NFRAMES && !b.bits[f]
    ensures Settled(s, cpu, gone).leaves == s.leaves
  {
    hide AS.SlotsOf, AS.Owed, AS.Protected, Anchored, Orderly, LeavesOf, Tables, AS.Exact, AS.NoDupOwed, AS.NoAliasInSpace, Drain, Freed;
    var t := Settled(s, cpu, gone);
    AsideLess(s.reserved, tabs, d, cpu, gone);
    SettledKeeps(s, cpu, gone);
    forall f: nat | f in owed[cpu] ensures f < NFRAMES && (b.bits[f] <==> AS.SlotsOf(t.leaves, f) != {} || AS.Owed(t.pend, f) > 0) {
      var i :| 0 <= i < |owed[cpu]| && owed[cpu][i] == f;
      assert AS.IsData(s, s.pend[cpu][i]);
      FlushedFrame(b, live, owed[cpu := []], t, f);
    }
    FlushedTables(a, b, boot, d, live, owed, tabs, s, cpu);
  }

  lemma FlushedTables(a: Snap, b: Snap, boot: nat, d: Kept, live: set<nat>, owed: seq<seq<nat>>, tabs: seq<seq<nat>>, s: AS.State, cpu: nat)
    requires Sound(a, boot, d, live, owed, tabs, s) && cpu < |owed| && cpu < |tabs| && Freed(a.refs, a.bits, b.refs, b.bits, owed[cpu], tabs[cpu])
    ensures |b.bits| == NFRAMES && forall f: nat :: f in tabs[cpu] ==> f < NFRAMES && !b.bits[f]
  {
    hide AS.Inv, AS.Protected, Anchored, Orderly, LeavesOf, Tables, Homed, Times;
    forall f: nat | f in tabs[cpu] ensures f < NFRAMES {
      assert Sits(tabs, cpu, f) && Waits(tabs, f);
      assert f in s.reserved && f in s.used;
    }
  }

  /** The frame a 4 KB page translates into. */
  lemma PhysFrame(e: Entry, va: nat)
    ensures (e.frame * 4096 + va % 4096) / 4096 == e.frame
  {
  }

  lemma LowPage(va: nat, k: nat)
    requires va % 4096 == 0 && va + (k + 1) * 4096 <= LOW_HALF
    ensures PageOf(va + k * 4096) == va / 4096 + k < VPAGES && Canonical(va + k * 4096) && (va + k * 4096) % 4096 == 0
  {
    var q := va / 4096 + k;
    assert va + k * 4096 == q * 4096;
    assert (va + k * 4096) / 0x8000_0000_0000 == 0 && (va + k * 4096) / 0x1_0000_0000_0000 == 0;
  }

  lemma UnmapRoot(b: Snap, boot: nat, live: set<nat>, owed: seq<seq<nat>>, s: AS.State, cpu: nat, r: nat, vs: seq<nat>, data: seq<nat>)
    requires Unmapping(b, boot, live, owed, s, cpu, r, vs, data)
    ensures TaskRoot(b.lab, r)
  {
  }

  /** The first k pages of the range are gone, and vs lists only pages of the range. */
  ghost predicate Swept(h: Heap, r: nat, va: nat, k: nat, vs: seq<nat>) {
    (forall v: nat :: va / 4096 <= v < va / 4096 + k ==> Walk(h, r, ROOT_LEVEL, v) == Miss) &&
    forall i :: 0 <= i < |vs| ==> va / 4096 <= vs[i] < va / 4096 + k
  }

  lemma SweptSkip(h: Heap, r: nat, va: nat, k: nat, vs: seq<nat>)
    requires Swept(h, r, va, k, vs) && Walk(h, r, ROOT_LEVEL, va / 4096 + k) == Miss
    ensures Swept(h, r, va, k + 1, vs)
  {
  }

  lemma SweptMore(h: Heap, h2: Heap, lab: Labels, r: nat, va: nat, k: nat, vs: seq<nat>)
    requires Swept(h, r, va, k, vs) && TaskRoot(lab, r) && va / 4096 + k < VPAGES && SameWalksBut(h, h2, lab, r, va / 4096 + k) && Walk(h2, r, ROOT_LEVEL, va / 4096 + k) == Miss
    ensures Swept(h2, r, va, k + 1, vs + [va / 4096 + k])
  {
    hide Walk;
    forall v: nat | va / 4096 <= v < va / 4096 + k ensures Walk(h2, r, ROOT_LEVEL, v) == Miss {
      TopIsZero(v);
      assert Walk(h2, r, lab[r].level, v) == Walk(h, r, lab[r].level, v);
    }
  }

  /** What was dropped is what the range holds. */
  lemma SweptDrop(b: Snap, boot: nat, live: set<nat>, owed: seq<seq<nat>>, s: AS.State, cpu: nat, r: nat, vs: seq<nat>, data: seq<nat>, va: nat, n: nat)
    requires Unmapping(b, boot, live, owed, s, cpu, r, vs, data) && Swept(b.tabs, r, va, n, vs) && r in AS.Views(s)
    ensures AS.Drop(AS.Views(s)[r], vs) == AS.Drop(AS.Views(s)[r], PagesFrom(va, n))
  {
    hide Anchored, Orderly, LeavesOf, Wf, LeavesUsed, Walk, AS.Exact, AS.NoAliasInSpace, AS.NoDupOwed, Homed;
    forall v: nat | v in AS.Views(s)[r] ensures v in vs <==> v in PagesFrom(va, n) {
      if v in PagesFrom(va, n) {
        var j :| 0 <= j < n && PagesFrom(va, n)[j] == v;
        LeavesOfAt(b.tabs, live, r, v);
        assert Walk(b.tabs, r, ROOT_LEVEL, va / 4096 + j) == Miss;
        assert AS.Slot(r, v) !in AS.Without(s.leaves, r, vs);
      }
      if v in vs {
        assert PagesFrom(va, n)[v - va / 4096] == v;
      }
    }
  }
}
