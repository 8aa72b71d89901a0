/** What holds between two locked sections of the memory manager, and that each section
    keeps it: exact counts, spaces that compare rightly with boot, mappings that keep to
    the slots of user space, and table frames set aside until they are freed. */
module MachineSound {
  import opened PageTables
  import opened Snapshots
  import opened SpaceCopy
  import opened SpaceTear
  import opened CloneShape
  import opened CloneSteps
  import opened Refinement
  import opened CloneUndo
  import opened Coverage
  import opened MachineSteps
  import opened UserSlots
  import AS = AddressSpaces

  /** One space per task, and one more for every CPU that is building an image. */
  const MAX_SPACES: nat := 32 + AS.NCPU

  /** What boot left: the display, the frames reserved for good and the shared tables. */
  datatype Kept = Kept(fb: Display, base: set<nat>, shared: set<nat>)

  /** CPU c has still to free frame f; some CPU has. */
  predicate Sits(tabs: seq<seq<nat>>, c: int, f: nat) { 0 <= c < |tabs| && f in tabs[c] }

  ghost predicate Waits(tabs: seq<seq<nat>>, f: nat) { exists c :: Sits(tabs, c, f) }

  /** What is reserved is what boot reserved, the display among it, and the table frames
      each CPU has still to free. */
  ghost predicate SetAside(reserved: set<nat>, tabs: seq<seq<nat>>, d: Kept) {
    |tabs| == AS.NCPU && (forall f: nat :: f < NFRAMES && Shown(d.fb, f) ==> f in d.base) && 0 in d.base &&
    (forall f: nat :: f in reserved <==> f in d.base || Waits(tabs, f)) && New(tabs, d.base) && Parted(tabs)
  }

  ghost predicate New(tabs: seq<seq<nat>>, base: set<nat>) { forall c, f: nat :: Sits(tabs, c, f) ==> f !in base && f < NFRAMES }

  /** No frame waits on two CPUs. */
  ghost predicate Parted(tabs: seq<seq<nat>>) { forall c, e, f: nat :: Sits(tabs, c, f) && Sits(tabs, e, f) ==> c == e }

  ghost predicate SharedIs(lab: Labels, shared: set<nat>) { forall t :: t in lab && lab[t].owner == 0 <==> t in shared }

  /** Everything that holds between two sections. */
  ghost predicate Sound(c: Snap, boot: nat, d: Kept, live: set<nat>, owed: seq<seq<nat>>, tabs: seq<seq<nat>>, s: AS.State) {
    BootOk(c.lab, boot) && Good(c, live, owed, s) && Orderly(c.tabs, boot, live) && SetAside(s.reserved, tabs, d) && SharedIs(c.lab, d.shared) && |live| <= MAX_SPACES
  }

  lemma SoundIs(c: Snap, boot: nat, d: Kept, live: set<nat>, owed: seq<seq<nat>>, tabs: seq<seq<nat>>, s: AS.State)
    requires Sound(c, boot, d, live, owed, tabs, s)
    ensures BootOk(c.lab, boot) && AS.Shaped(s) && |owed| == |tabs| == AS.NCPU && s.live == live && AS.Views(s).Keys == live
    ensures Tables(c.tabs, c.lab, c.bits) && |c.bits| == |c.refs| == |c.mem| == NFRAMES && forall q :: q in live ==> TaskRoot(c.lab, q)
  {
    ViewKeys(c, live, owed, s);
  }

  /** What boot leaves: only shared tables; every other frame in use is reserved. */
  ghost function Booted(c: Snap): AS.State
    requires |c.bits| == NFRAMES
  {
    var used := set f: nat | f < NFRAMES && c.bits[f];
    AS.State({}, map[], used, c.lab.Keys, used - c.lab.Keys, c.refs, c.mem, seq(AS.NCPU, _ => []))
  }

  lemma BootGood(c: Snap)
    requires |c.bits| == |c.refs| == |c.mem| == NFRAMES && c.bits[0] && Tables(c.tabs, c.lab, c.bits)
    requires forall t :: t in c.lab ==> c.lab[t].owner == 0
    ensures Good(c, {}, seq(AS.NCPU, _ => []), Booted(c))
  {
    hide LeavesUsed, Wf, AS.Exact;
    var s := Booted(c);
    assert s.leaves == LeavesOf(c.tabs, {});
    assert AS.Boot(s);
    AS.RunExact(s, []);
    assert AS.DoAll(s, []) == s;
    assert forall f: nat :: f in s.used <==> f < NFRAMES && c.bits[f];
    assert forall f: nat :: !AS.IsData(s, f);
  }

  lemma {:induction false} BootNotLarge(h: Heap, lab: Labels, t: nat, level: nat, n: nat)
    requires Wf(h, lab) && t in lab && lab[t].level == level && lab[t].owner == 0 && n <= FAN
    ensures !LargeTo(h, t, level, n)
    decreases level, n
  {
    if n > 0 {
      BootNotLarge(h, lab, t, level, n - 1);
      var e := h[t][n - 1];
      assert EntryOk(lab, t, n - 1, e);
      if Copies(e, level) {
        BootNotLarge(h, lab, e.frame, level - 1, FAN);
      }
    }
  }

  lemma {:induction false} OwnPathZero(h: Heap, lab: Labels, f: nat, t: nat, level: nat, v: nat)
    requires Wf(h, lab) && Wf(h[f := ZeroTable()], lab) && f !in lab && t in lab && lab[t].level == level && OwnPath(h, lab, t, level, v)
    ensures OwnPath(h[f := ZeroTable()], lab, t, level, v)
    decreases level
  {
    var e := h[t][Idx(v, level)];
    assert EntryOk(lab, t, Idx(v, level), e);
    if Points(e, level) {
      OwnPathZero(h, lab, f, e.frame, level - 1, v);
    }
  }

  /** The state after __pmm_alloc of f. */
  function Allocated(a: Snap, f: nat): Snap
    requires f < |a.bits| && f < |a.refs| && f < |a.mem|
  {
    Snap(a.tabs[f := ZeroTable()], a.lab, a.bits[f := true], a.refs[f := 1], a.mem[f := AS.ZeroPage()])
  }

  /** A frame was allocated and no page was mapped to it. */
  lemma AllocLost(a: Snap, b: Snap, live: set<nat>, f: nat)
    requires Tables(a.tabs, a.lab, a.bits) && |a.bits| == |a.refs| == |a.mem| == NFRAMES && f < NFRAMES && !a.bits[f] && Homed(a.lab, live)
    requires Tables(b.tabs, b.lab, b.bits) && Extends(Allocated(a, f), b) && |b.bits| == |b.refs| == |b.mem| == NFRAMES
    ensures TookFrame(a, b, f) && Homed(b.lab, live) && (Anchored(a.tabs, a.lab) ==> Anchored(b.tabs, b.lab))
  {
    hide Anchored, Homed, LeavesUsed, EntryOk;
    var m := Allocated(a, f);
    HomedGrows(a.lab, b.lab, m.bits, b.bits, live);
    AllocWalks(a, f);
    SameWalksTrans(a.tabs, m.tabs, b.tabs, a.lab);
  }

  lemma AllocWalks(a: Snap, f: nat)
    requires Wf(a.tabs, a.lab) && f !in a.lab && f < |a.bits| && f < |a.refs| && f < |a.mem|
    ensures SameWalks(a.tabs, Allocated(a, f).tabs, a.lab) && (Anchored(a.tabs, a.lab) ==> Anchored(Allocated(a, f).tabs, a.lab))
  {
    hide Anchored, EntryOk;
    forall t, v: nat | t in a.lab && a.lab[t].pre == At(v, a.lab[t].level + 1)
      ensures Walk(a.tabs[f := ZeroTable()], t, a.lab[t].level, v) == Walk(a.tabs, t, a.lab[t].level, v)
    {
      WalkUnlabelled(a.tabs, a.lab, f, t, a.lab[t].level, v);
    }
    if Anchored(a.tabs, a.lab) {
      AnchoredStays(a.tabs, a.tabs[f := ZeroTable()], a.lab);
    }
  }

  lemma SameWalksTrans(h: Heap, m: Heap, h2: Heap, lab: Labels)
    requires SameWalks(h, m, lab) && SameWalks(m, h2, lab)
    ensures SameWalks(h, h2, lab)
  {
    hide Walk, At;
    forall t, v: nat | t in lab && lab[t].pre == At(v, lab[t].level + 1) ensures Walk(h2, t, lab[t].level, v) == Walk(h, t, lab[t].level, v) {
      assert Walk(m, t, lab[t].level, v) == Walk(h, t, lab[t].level, v);
    }
  }

  lemma SameWalksButTrans(h: Heap, m: Heap, h2: Heap, lab: Labels, owner: nat, w: nat)
    requires SameWalks(h, m, lab) && SameWalksBut(m, h2, lab, owner, w)
    ensures SameWalksBut(h, h2, lab, owner, w)
  {
    hide Walk, At;
    forall t, v: nat | t in lab && lab[t].pre == At(v, lab[t].level + 1) && (v != w || (owner != 0 && lab[t].owner != owner))
      ensures Walk(h2, t, lab[t].level, v) == Walk(h, t, lab[t].level, v)
    {
      assert Walk(m, t, lab[t].level, v) == Walk(h, t, lab[t].level, v);
    }
  }

  /** A frame was allocated and page v of r mapped to it. */
  lemma AllocMapped(a: Snap, b: Snap, live: set<nat>, r: nat, v: nat, f: nat, e: Entry)
    requires Tables(a.tabs, a.lab, a.bits) && |a.bits| == |a.refs| == |a.mem| == NFRAMES && f < NFRAMES && !a.bits[f] && Homed(a.lab, live)
    requires Tables(b.tabs, b.lab, b.bits) && |b.bits| == |b.refs| == |b.mem| == NFRAMES && v < VPAGES && TaskRoot(a.lab, r)
    requires var m := Allocated(a, f);
      Grown(m.lab, b.lab, m.bits, b.bits) && KeepsUsed(m.bits, m.refs, b.refs, m.mem, b.mem) && NoRoots(m.lab, b.lab) &&
      (Anchored(m.tabs, m.lab) ==> Anchored(b.tabs, b.lab)) &&
      Walk(m.tabs, r, ROOT_LEVEL, v) == Miss && Walk(b.tabs, r, ROOT_LEVEL, v) == Hit(e, 0) && SameWalksBut(m.tabs, b.tabs, m.lab, r, v)
    requires e.p && e.us && !e.cow && e.frame == f
    ensures MappedFresh(a, b, r, v, f, e) && Homed(b.lab, live) && (Anchored(a.tabs, a.lab) ==> Anchored(b.tabs, b.lab))
  {
    hide Anchored, Homed, LeavesUsed, EntryOk, Walk;
    var m := Allocated(a, f);
    HomedGrows(a.lab, b.lab, m.bits, b.bits, live);
    AllocWalks(a, f);
    TopIsZero(v);
    assert Walk(m.tabs, r, a.lab[r].level, v) == Walk(a.tabs, r, a.lab[r].level, v);
    SameWalksButTrans(a.tabs, m.tabs, b.tabs, a.lab, r, v);
  }

  // ---------------------------------------------------------------- section by section

  /** A frame a space maps is not on display. */
  lemma NoShown(c: Snap, live: set<nat>, pend: seq<seq<nat>>, s: AS.State, tabs: seq<seq<nat>>, d: Kept, r: nat)
    requires Good(c, live, pend, s) && SetAside(s.reserved, tabs, d)
    ensures NoDisplay(s.leaves, d.fb, r)
  {
    hide LeavesOf, Anchored, AS.Protected, AS.NoAliasInSpace, Homed, Wf, LeavesUsed, AS.Owed, AS.Exact;
    forall k | k in s.leaves && k.sp == r ensures !Shown(d.fb, s.leaves[k].frame) {
      assert AS.IsData(s, s.leaves[k].frame);
    }
  }

  /** No section but CLONE lets a frame be written through two pages. */
  lemma SoundGuard(c: Snap, boot: nat, d: Kept, live: set<nat>, owed: seq<seq<nat>>, tabs: seq<seq<nat>>, s: AS.State, op: AS.Op)
    requires Sound(c, boot, d, live, owed, tabs, s) && AS.Shaped(s) && AS.Can(s, op) && !op.Share?
    ensures AS.Protected(s.leaves) ==> AS.Protected(AS.Do(s, op).leaves)
  {
    hide AS.Protected, AS.Do, AS.Can, Rel, Anchored, Orderly, SetAside, Homed;
    assert AS.Inv(s);
    if AS.Protected(s.leaves) {
      AS.StepProtects(s, op);
    }
  }

  lemma SoundSpawn(a: Snap, fa: nat, b: Snap, fb: nat, boot: nat, d: Kept, live: set<nat>, owed: seq<seq<nat>>, tabs: seq<seq<nat>>, s: AS.State, nf: nat)
    requires Sound(a, boot, d, live, owed, tabs, s) && |live| < MAX_SPACES
    requires Cloned(Job(true, d.fb, boot, nf, ROOT_LEVEL, nf), a, fa, b, fb)
    ensures nf !in live
    ensures var op := AS.NewSpace(nf, b.lab.Keys - a.lab.Keys);
      AS.Shaped(s) && AS.Can(s, op) && Sound(b, boot, d, live + {nf}, owed, tabs, AS.Do(s, op)) && AS.Views(AS.Do(s, op)) == AS.Views(s)[nf := imap[]]
  {
    hide Cloned, Anchored, AS.Views, AS.Protected, AS.Do, AS.Can, Orderly, SetAside, AS.Inv, Rel;
    SoundIs(a, boot, d, live, owed, tabs, s);
    var op := AS.NewSpace(nf, b.lab.Keys - a.lab.Keys);
    GoodNew(a, fa, b, fb, true, d.fb, live, owed, s, boot, nf);
    OrderlyClone(Job(true, d.fb, boot, nf, ROOT_LEVEL, nf), a, fa, b, fb, boot, live);
    CloneKeepsBoot(Job(true, d.fb, boot, nf, ROOT_LEVEL, nf), a, fa, b, fb, boot);
    ReservedStays(s, op);
  }

  lemma SoundFork(a: Snap, fa: nat, b: Snap, fb: nat, cow: bool, boot: nat, d: Kept, live: set<nat>, owed: seq<seq<nat>>, tabs: seq<seq<nat>>, s: AS.State, src: nat, nf: nat)
    requires Sound(a, boot, d, live, owed, tabs, s) && |live| < MAX_SPACES && src in live
    requires Cloned(Job(cow, d.fb, src, nf, ROOT_LEVEL, nf), a, fa, b, fb)
    ensures nf !in live
    ensures var op := CloneOp(cow, src, nf, b.lab.Keys - a.lab.Keys);
      AS.Shaped(s) && AS.Can(s, op) && Sound(b, boot, d, live + {nf}, owed, tabs, AS.Do(s, op)) &&
      src in AS.Views(s) && AS.Views(AS.Do(s, op)) == AS.Views(s)[nf := AS.Views(s)[src]]
  {
    hide Cloned, Anchored, AS.Views, AS.Protected, AS.Do, AS.Can, Orderly, SetAside, AS.Inv, Rel, NoDisplay;
    SoundIs(a, boot, d, live, owed, tabs, s);
    var op := CloneOp(cow, src, nf, b.lab.Keys - a.lab.Keys);
    NoShown(a, live, owed, s, tabs, d, src);
    GoodFork(a, fa, b, fb, cow, d.fb, live, owed, s, src, nf);
    OrderlyClone(Job(cow, d.fb, src, nf, ROOT_LEVEL, nf), a, fa, b, fb, boot, live);
    CloneKeepsBoot(Job(cow, d.fb, src, nf, ROOT_LEVEL, nf), a, fa, b, fb, boot);
    ReservedStays(s, op);
  }

  /** A resolved fault wrote one user leaf, in place of one. */
  lemma FaultOrderly(a: Snap, b: Snap, boot: nat, d: Kept, live: set<nat>, owed: seq<seq<nat>>, tabs: seq<seq<nat>>, s: AS.State, r: nat, v: nat)
    requires Sound(a, boot, d, live, owed, tabs, s) && r in live && v < VPAGES && b.lab == a.lab && Tables(b.tabs, b.lab, b.bits)
    requires UserLeaf(Walk(a.tabs, r, ROOT_LEVEL, v)) && UserLeaf(Walk(b.tabs, r, ROOT_LEVEL, v))
    requires Touched(a.tabs, a.lab, b.tabs, b.lab, r, v) && SameWalksBut(a.tabs, b.tabs, a.lab, r, v)
    ensures Orderly(b.tabs, boot, live)
  {
    hide Good, Walk, Touched, SameWalksBut, Apart, UserSlot, SetAside, LeavesUsed;
    SoundIs(a, boot, d, live, owed, tabs, s);
    assert UserSlot(a.tabs, boot, ROOT_LEVEL, v);
    OrderlyTouched(a.tabs, a.lab, b.tabs, b.lab, boot, live, r, v);
  }

  /** What the resolver needs to know. */
  lemma FaultReady(c: Snap, live: set<nat>, pend: seq<seq<nat>>, s: AS.State, r: nat, v: nat)
    requires Good(c, live, pend, s) && r in live && v < VPAGES
    ensures UserLeaf(Walk(c.tabs, r, ROOT_LEVEL, v)) ==> 0 < Walk(c.tabs, r, ROOT_LEVEL, v).e.frame < NFRAMES
  {
    hide LeavesOf, Anchored, AS.Protected, Walk, Wf, LeavesUsed;
    LeavesOfAt(c.tabs, live, r, v);
    assert UserLeaf(Walk(c.tabs, r, ROOT_LEVEL, v)) ==> AS.IsData(s, Walk(c.tabs, r, ROOT_LEVEL, v).e.frame);
  }

  lemma SoundUpgrade(a: Snap, b: Snap, boot: nat, d: Kept, live: set<nat>, owed: seq<seq<nat>>, tabs: seq<seq<nat>>, s: AS.State, r: nat, v: nat)
    requires Sound(a, boot, d, live, owed, tabs, s) && r in live && v < VPAGES && b == a.(tabs := b.tabs) && Tables(b.tabs, b.lab, b.bits)
    requires SoleCow(Walk(a.tabs, r, ROOT_LEVEL, v), a.refs)
    requires Walk(b.tabs, r, ROOT_LEVEL, v) == Hit(Walk(a.tabs, r, ROOT_LEVEL, v).e.(rw := true, cow := false), 0)
    requires SameWalksBut(a.tabs, b.tabs, a.lab, r, v) && (Anchored(a.tabs, a.lab) ==> Anchored(b.tabs, b.lab)) && Touched(a.tabs, a.lab, b.tabs, b.lab, r, v)
    ensures var op := AS.CowUpgrade(r, v);
      AS.Shaped(s) && AS.Can(s, op) && Sound(b, boot, d, live, owed, tabs, AS.Do(s, op)) && AS.Views(AS.Do(s, op)) == AS.Views(s)
    ensures var t := AS.Do(s, AS.CowUpgrade(r, v)); AS.Slot(r, v) in t.leaves && t.leaves[AS.Slot(r, v)].rw
  {
    hide Walk, Touched, SameWalksBut, Anchored, Orderly, SetAside, LeavesUsed, Wf, AS.Views, AS.Do, AS.Can, AS.Inv, AS.Protected, Rel;
    SoundIs(a, boot, d, live, owed, tabs, s);
    GoodUpgrade(a, b, live, owed, s, r, v);
    FaultOrderly(a, b, boot, d, live, owed, tabs, s, r, v);
    ReservedStays(s, AS.CowUpgrade(r, v));
    WritableAfter(s, AS.CowUpgrade(r, v));
  }

  lemma SoundCopy(a: Snap, b: Snap, boot: nat, d: Kept, live: set<nat>, owed: seq<seq<nat>>, tabs: seq<seq<nat>>, s: AS.State, cpu: nat, r: nat, v: nat, nf: nat)
    requires Sound(a, boot, d, live, owed, tabs, s) && r in live && v < VPAGES && b.lab == a.lab && Tables(b.tabs, b.lab, b.bits)
    requires UserLeaf(Walk(a.tabs, r, ROOT_LEVEL, v)) && Walk(a.tabs, r, ROOT_LEVEL, v).e.cow && cpu < |owed| && owed[cpu] == []
    requires var f := Walk(a.tabs, r, ROOT_LEVEL, v).e.frame; f < NFRAMES == |a.refs| && a.refs[f] != 1 && CopiedTo(a, b, r, v, nf, f)
    requires SameWalksBut(a.tabs, b.tabs, a.lab, r, v) && (Anchored(a.tabs, a.lab) ==> Anchored(b.tabs, b.lab)) && Touched(a.tabs, a.lab, b.tabs, b.lab, r, v)
    ensures var op := AS.CowCopy(cpu, r, v, nf);
      AS.Shaped(s) && AS.Can(s, op) && Sound(b, boot, d, live, owed[cpu := [Walk(a.tabs, r, ROOT_LEVEL, v).e.frame]], tabs, AS.Do(s, op)) &&
      AS.Views(AS.Do(s, op)) == AS.Views(s)
    ensures var t := AS.Do(s, AS.CowCopy(cpu, r, v, nf)); AS.Slot(r, v) in t.leaves && t.leaves[AS.Slot(r, v)].rw
  {
    hide Walk, Touched, SameWalksBut, Anchored, Orderly, SetAside, LeavesUsed, Wf, AS.Views, AS.Do, AS.Can, AS.Inv, AS.Protected, Rel;
    SoundIs(a, boot, d, live, owed, tabs, s);
    GoodCopy(a, b, live, owed, s, cpu, r, v, nf);
    FaultOrderly(a, b, boot, d, live, owed, tabs, s, r, v);
    ReservedStays(s, AS.CowCopy(cpu, r, v, nf));
    WritableAfter(s, AS.CowCopy(cpu, r, v, nf));
  }

  /** A resolved page is writable. */
  lemma WritableAfter(s: AS.State, op: AS.Op)
    requires AS.Shaped(s) && AS.Can(s, op) && (op.CowUpgrade? || op.CowCopy?)
    ensures AS.Slot(op.sp, op.v) in AS.Do(s, op).leaves && AS.Do(s, op).leaves[AS.Slot(op.sp, op.v)].rw
  {
  }

  lemma GrowsBoot(lab: Labels, lab2: Labels, bits: seq<bool>, bits2: seq<bool>, boot: nat, h2: Heap)
    requires Grown(lab, lab2, bits, bits2) && BootOk(lab, boot) && Tables(h2, lab2, bits2)
    ensures BootOk(lab2, boot)
  {
  }

  /** A zeroed frame was mapped at an own page. */
  lemma SoundMap(a: Snap, b: Snap, boot: nat, d: Kept, live: set<nat>, owed: seq<seq<nat>>, tabs: seq<seq<nat>>, s: AS.State, r: nat, v: nat, f: nat, e: Entry, free: nat)
    requires Sound(a, boot, d, live, owed, tabs, s) && r in live && v < VPAGES && UserSlot(a.tabs, boot, ROOT_LEVEL, v)
    requires f < NFRAMES == |a.bits| == |a.refs| == |a.mem| && !a.bits[f] && e.p && e.us && !e.cow && e.frame == f
    requires Tables(b.tabs, b.lab, b.bits) && |b.bits| == |b.refs| == |b.mem| == NFRAMES && MapDone(Allocated(a, f), b, free, r, v, e, true)
    ensures var op := AS.MapFresh(r, v, f, e.rw, e.nx, b.lab.Keys - a.lab.Keys);
      AS.Shaped(s) && AS.Can(s, op) && Sound(b, boot, d, live, owed, tabs, AS.Do(s, op)) &&
      r in AS.Views(s) && AS.Views(AS.Do(s, op)) == AS.Views(s)[r := AS.SetPage(AS.Views(s)[r], v, AS.ZeroPage())]
  {
    hide Walk, Touched, SameWalksBut, Anchored, Orderly, SetAside, LeavesUsed, Wf, AS.Views, AS.Do, AS.Can, AS.Inv, AS.Protected, Rel, UserSlot, AS.SetPage;
    SoundIs(a, boot, d, live, owed, tabs, s);
    var m := Allocated(a, f);
    AllocMapped(a, b, live, r, v, f, e);
    GoodMap(a, b, live, owed, s, r, v, f, e);
    MappedTouched(a, b, f, r, v);
    OrderlyTouched(a.tabs, a.lab, b.tabs, b.lab, boot, live, r, v);
    GrowsBoot(a.lab, b.lab, m.bits, b.bits, boot, b.tabs);
    SharedTouched(a.tabs, a.lab, b.tabs, b.lab, r, v, d.shared);
    ReservedStays(s, AS.MapFresh(r, v, f, e.rw, e.nx, b.lab.Keys - a.lab.Keys));
  }

  /** A frame was taken, and the page was there already or no table could be made. */
  lemma SoundLose(a: Snap, b: Snap, boot: nat, d: Kept, live: set<nat>, owed: seq<seq<nat>>, tabs: seq<seq<nat>>, s: AS.State, cpu: nat, r: nat, v: nat, f: nat)
    requires Sound(a, boot, d, live, owed, tabs, s) && r in live && v < VPAGES && UserSlot(a.tabs, boot, ROOT_LEVEL, v) && cpu < |owed| && owed[cpu] == []
    requires f < NFRAMES == |a.bits| == |a.refs| == |a.mem| && !a.bits[f] && |b.bits| == |b.refs| == |b.mem| == NFRAMES
    requires Tables(b.tabs, b.lab, b.bits) && Extends(Allocated(a, f), b) && Touched(Allocated(a, f).tabs, a.lab, b.tabs, b.lab, r, v)
    ensures var op := AS.LoseRace(cpu, f, b.lab.Keys - a.lab.Keys);
      AS.Shaped(s) && AS.Can(s, op) && Sound(b, boot, d, live, owed[cpu := [f]], tabs, AS.Do(s, op)) && AS.Views(AS.Do(s, op)) == AS.Views(s)
  {
    hide Walk, Touched, SameWalks, Anchored, Orderly, SetAside, LeavesUsed, Wf, AS.Views, AS.Do, AS.Can, AS.Inv, AS.Protected, Rel, UserSlot;
    SoundIs(a, boot, d, live, owed, tabs, s);
    var m := Allocated(a, f);
    AllocLost(a, b, live, f);
    GoodLose(a, b, live, owed, s, cpu, f);
    MappedTouched(a, b, f, r, v);
    OrderlyExtends(a.tabs, a.lab, b.tabs, b.lab, boot, live, r, v);
    GrowsBoot(a.lab, b.lab, m.bits, b.bits, boot, b.tabs);
    SharedTouched(a.tabs, a.lab, b.tabs, b.lab, r, v, d.shared);
    ReservedStays(s, AS.LoseRace(cpu, f, b.lab.Keys - a.lab.Keys));
  }

  /** Taking a frame first touches no table. */
  lemma MappedTouched(a: Snap, b: Snap, f: nat, r: nat, v: nat)
    requires Tables(a.tabs, a.lab, a.bits) && f < |a.bits| && f < |a.refs| && f < |a.mem| && !a.bits[f] && Touched(Allocated(a, f).tabs, a.lab, b.tabs, b.lab, r, v)
    ensures Touched(a.tabs, a.lab, b.tabs, b.lab, r, v)
  {
    hide Wf, LeavesUsed, At, Idx;
    var m := Allocated(a, f);
    forall t, i | t in b.lab && t in b.tabs && 0 <= i < |b.tabs[t]| && SlotGrew(m.tabs, a.lab, b.tabs, b.lab, r, t, i)
      ensures SlotGrew(a.tabs, a.lab, b.tabs, b.lab, r, t, i)
    {
      assert t in a.lab ==> t != f;
    }
    forall t, i | t in b.lab && t in b.tabs && 0 <= i < |b.tabs[t]|
      ensures SlotGrew(a.tabs, a.lab, b.tabs, b.lab, r, t, i) || (b.lab[t] == Label(r, 0, At(v, 1)) && i == Idx(v, 0))
    {
      assert b.tabs[t][i] == b.tabs[t][i];
    }
  }

  lemma SharedTouched(h: Heap, lab: Labels, h2: Heap, lab2: Labels, r: nat, v: nat, shared: set<nat>)
    requires Touched(h, lab, h2, lab2, r, v) && r != 0 && SharedIs(lab, shared)
    ensures SharedIs(lab2, shared)
  {
  }

  lemma CloneKeepsBoot(j: Job, a: Snap, fa: nat, b: Snap, fb: nat, boot: nat)
    requires Cloned(j, a, fa, b, fb) && BootOk(a.lab, boot) && j.space == j.nf
    ensures BootOk(b.lab, boot) && forall shared :: SharedIs(a.lab, shared) ==> SharedIs(b.lab, shared)
  {
    hide Twin, Linked, SameCopy, Counters, CowStep, CostTo, Wf, LeavesUsed;
  }

  lemma FreshFrame(a: Snap, f: nat)
    requires Tables(a.tabs, a.lab, a.bits) && f < |a.bits| && !a.bits[f]
    ensures f !in a.lab && Wf(a.tabs, a.lab) && Wf(a.tabs[f := ZeroTable()], a.lab)
  {
    AllocTables(a.tabs, a.lab, a.bits, f);
  }

  // ---------------------------------------------------------------- a batch of pages

  /** Between two pages of a batch: b is the manager, s the state at the start. */
  ghost predicate Unmapping(b: Snap, boot: nat, live: set<nat>, owed: seq<seq<nat>>, s: AS.State, cpu: nat, r: nat, vs: seq<nat>, data: seq<nat>) {
    Batch(b, live, owed, s, cpu, r, vs) && data == AS.FramesAt(s.leaves, r, vs) && BootOk(b.lab, boot) && Anchored(b.tabs, b.lab) && Homed(b.lab, live) &&
    Orderly(b.tabs, boot, live) && Tables(b.tabs, b.lab, b.bits) && r in live && (forall q :: q in live ==> TaskRoot(b.lab, q)) && 0 in s.reserved && AS.Inv(s)
  }

  lemma UnmapStart(a: Snap, boot: nat, d: Kept, live: set<nat>, owed: seq<seq<nat>>, tabs: seq<seq<nat>>, s: AS.State, cpu: nat, r: nat)
    requires Sound(a, boot, d, live, owed, tabs, s) && cpu < |owed| && owed[cpu] == [] && r in live
    ensures Unmapping(a, boot, live, owed, s, cpu, r, [], [])
  {
    hide AS.Inv, Anchored, Orderly, SetAside, LeavesOf, Wf, LeavesUsed;
    BatchStart(a, live, owed, s, cpu, r);
  }

  /** The leaf of a page still mapped: its frame is not 0. */
  lemma UnmapFrame(b: Snap, boot: nat, live: set<nat>, owed: seq<seq<nat>>, s: AS.State, cpu: nat, r: nat, vs: seq<nat>, data: seq<nat>, v: nat)
    requires Unmapping(b, boot, live, owed, s, cpu, r, vs, data) && v < VPAGES && UserSlot(b.tabs, boot, ROOT_LEVEL, v)
    ensures Walk(b.tabs, r, ROOT_LEVEL, v).Hit? ==> UserLeaf(Walk(b.tabs, r, ROOT_LEVEL, v)) && Walk(b.tabs, r, ROOT_LEVEL, v).e.frame != 0
  {
    hide Anchored, Apart, UserSlot, LeavesOf, Wf, LeavesUsed, Walk, AS.Exact, AS.NoAliasInSpace, AS.NoDupOwed;
    LeavesOfAt(b.tabs, live, r, v);
    if Walk(b.tabs, r, ROOT_LEVEL, v).Hit? {
      assert Paged(b.tabs, boot, r);
      var k := AS.Slot(r, v);
      assert k in AS.Without(s.leaves, r, vs) && AS.IsData(s, s.leaves[k].frame);
    }
  }

  lemma UnmapMore(a: Snap, b: Snap, boot: nat, live: set<nat>, owed: seq<seq<nat>>, s: AS.State, cpu: nat, r: nat, vs: seq<nat>, data: seq<nat>, v: nat)
    requires Unmapping(a, boot, live, owed, s, cpu, r, vs, data) && v < VPAGES && b == a.(tabs := b.tabs) && Tables(b.tabs, b.lab, b.bits)
    requires UserSlot(a.tabs, boot, ROOT_LEVEL, v) && UserLeaf(Walk(a.tabs, r, ROOT_LEVEL, v)) && Walk(b.tabs, r, ROOT_LEVEL, v) == Miss
    requires SameWalksBut(a.tabs, b.tabs, a.lab, r, v) && (Anchored(a.tabs, a.lab) ==> Anchored(b.tabs, b.lab)) && Touched(a.tabs, a.lab, b.tabs, b.lab, r, v)
    ensures Unmapping(b, boot, live, owed, s, cpu, r, vs + [v], data + [Walk(a.tabs, r, ROOT_LEVEL, v).e.frame])
    ensures forall w: nat :: UserSlot(b.tabs, boot, ROOT_LEVEL, w) == UserSlot(a.tabs, boot, ROOT_LEVEL, w)
  {
    hide Anchored, Orderly, UserSlot, LeavesOf, LeavesUsed, Walk, AS.Inv, Batch, SameWalksBut, Touched, EntryOk;
    SimUnmap(a, b, live, owed, s, cpu, r, vs, v);
    OrderlyTouched(a.tabs, a.lab, b.tabs, b.lab, boot, live, r, v);
    TouchedShared(a.tabs, a.lab, b.tabs, b.lab, r, v);
    forall w: nat ensures UserSlot(b.tabs, boot, ROOT_LEVEL, w) == UserSlot(a.tabs, boot, ROOT_LEVEL, w) {
      SlotSame(a.tabs, b.tabs, a.lab, boot, ROOT_LEVEL, w);
    }
  }

  lemma SoundUnmap(a: Snap, b: Snap, boot: nat, d: Kept, live: set<nat>, owed: seq<seq<nat>>, tabs: seq<seq<nat>>, s: AS.State, cpu: nat, r: nat, vs: seq<nat>, data: seq<nat>)
    requires Sound(a, boot, d, live, owed, tabs, s) && b.lab == a.lab && cpu < |owed| && owed[cpu] == [] && Unmapping(b, boot, live, owed, s, cpu, r, vs, data)
    ensures var op := AS.Unmap(cpu, r, vs);
      AS.Shaped(s) && AS.Can(s, op) && Sound(b, boot, d, live, owed[cpu := data], tabs, AS.Do(s, op)) &&
      r in AS.Views(s) && AS.Views(AS.Do(s, op)) == AS.Views(s)[r := AS.Drop(AS.Views(s)[r], vs)]
  {
    hide Anchored, Orderly, SetAside, AS.Inv, AS.Protected, Rel, Batch, AS.Views, AS.Do, AS.Can, AS.Drop, LeavesUsed, Wf;
    SoundIs(a, boot, d, live, owed, tabs, s);
    GoodUnmap(a, b, live, owed, s, cpu, r, vs);
    ReservedStays(s, AS.Unmap(cpu, r, vs));
  }

  // ---------------------------------------------------------------- a store, and the end of a space

  lemma SoundStore(a: Snap, boot: nat, d: Kept, live: set<nat>, owed: seq<seq<nat>>, tabs: seq<seq<nat>>, s: AS.State, r: nat, v: nat, i: nat, w: int)
    requires Sound(a, boot, d, live, owed, tabs, s) && r in live && i < AS.WORDS && AS.Slot(r, v) in s.leaves && s.leaves[AS.Slot(r, v)].rw
    ensures var f := s.leaves[AS.Slot(r, v)].frame; f < NFRAMES == |a.mem|
    ensures var f, op := s.leaves[AS.Slot(r, v)].frame, AS.UserWrite(r, v, i, w);
      AS.Shaped(s) && AS.Can(s, op) && Sound(a.(mem := a.mem[f := a.mem[f][i := w]]), boot, d, live, owed, tabs, AS.Do(s, op)) &&
      r in AS.Views(s) && v in AS.Views(s)[r] &&
      (AS.Protected(s.leaves) ==> AS.Views(AS.Do(s, op)) == AS.Views(s)[r := AS.SetPage(AS.Views(s)[r], v, AS.Views(s)[r][v][i := w])])
  {
    hide Anchored, Orderly, SetAside, AS.Inv, AS.Protected, Rel, AS.Views, AS.Do, AS.Can, AS.SetPage;
    SoundIs(a, boot, d, live, owed, tabs, s);
    GoodStore(a, live, owed, s, r, v, i, w);
    ReservedStays(s, AS.UserWrite(r, v, i, w));
  }

  /** The state after the first section of a teardown. */
  ghost function Collected(a: Snap, b: Snap, s: AS.State, cpu: nat, r: nat): AS.State
    requires AS.Shaped(s) && AS.Can(s, AS.Teardown(cpu, r, Pages(a.tabs, r)))
  {
    Aside(AS.Do(s, AS.Teardown(cpu, r, Pages(a.tabs, r))), a.lab.Keys - b.lab.Keys)
  }

  lemma SoundCollect(a: Snap, b: Snap, boot: nat, d: Kept, live: set<nat>, owed: seq<seq<nat>>, tabs: seq<seq<nat>>, s: AS.State, cpu: nat, r: nat, l: TearList)
    requires Sound(a, boot, d, live, owed, tabs, s) && r in live && cpu < |owed| && owed[cpu] == [] && tabs[cpu] == []
    requires b == Snap(b.tabs, Others(a.lab, r), a.bits, a.refs, a.mem) && Tables(b.tabs, a.lab, a.bits) && Tables(b.tabs, b.lab, b.bits)
    requires forall w :: w in b.lab ==> w in b.tabs && w in a.tabs && b.tabs[w] == a.tabs[w]
    requires l.data == Frames(a.tabs, r) && l.tabs == TabsTo(a.tabs, r, ROOT_LEVEL, FAN) + [r]
    ensures AS.Shaped(s) && AS.Can(s, AS.Teardown(cpu, r, Pages(a.tabs, r)))
    ensures var t := Collected(a, b, s, cpu, r);
      Sound(b, boot, d, live - {r}, owed[cpu := l.data], tabs[cpu := l.tabs], t) && AS.Views(t) == AS.Views(s) - {r}
  {
    hide Anchored, AS.Inv, AS.Protected, Rel, AS.Views, AS.Do, AS.Can, LeavesUsed, Wf, LeavesTo, TabsTo, PagesTo, Apart, Paged, Homed;
    SoundIs(a, boot, d, live, owed, tabs, s);
    forall w | w in a.lab && a.lab[w].owner != r ensures w in b.tabs && b.tabs[w] == a.tabs[w] {
      assert w in b.lab;
    }
    GoodCollect(a, b, live, owed, s, cpu, r);
    OrderlyGone(a.tabs, b.tabs, a.lab, boot, live, r);
    AsideTables(a, b, live, owed, s, r, l.tabs);
    AsideMore(s.reserved, s.tables, tabs, d, cpu, l.tabs, a.lab.Keys - b.lab.Keys);
  }

  /** What the collector listed as tables are the tables of the space. */
  lemma AsideTables(a: Snap, b: Snap, live: set<nat>, owed: seq<seq<nat>>, s: AS.State, r: nat, list: seq<nat>)
    requires Good(a, live, owed, s) && r in live && b.lab == Others(a.lab, r) && list == TabsTo(a.tabs, r, ROOT_LEVEL, FAN) + [r]
    ensures (set f | f in list) == a.lab.Keys - b.lab.Keys && s.tables == a.lab.Keys && s.tables !! s.reserved && 0 !in a.lab
  {
    hide Anchored, AS.Protected, LeavesUsed, Wf, LeavesTo, TabsTo, AS.Exact, AS.NoDupOwed, AS.NoAliasInSpace;
    forall f: nat ensures f in list <==> f in a.lab.Keys - b.lab.Keys {
      TablesListed(a.tabs, a.lab, a.bits, r, f);
      assert f in list <==> f == r || f in TabsTo(a.tabs, r, ROOT_LEVEL, FAN);
    }
  }

  lemma AsideMore(reserved: set<nat>, tables: set<nat>, tabs: seq<seq<nat>>, d: Kept, cpu: nat, list: seq<nat>, gone: set<nat>)
    requires SetAside(reserved, tabs, d) && cpu < |tabs| && tabs[cpu] == [] && gone == (set f | f in list) && gone <= tables && tables !! reserved
    requires forall f: nat :: f in tables ==> f < NFRAMES
    ensures SetAside(reserved + gone, tabs[cpu := list], d)
  {
    hide Sits;
    var more := tabs[cpu := list];
    forall c, f: nat ensures Sits(more, c, f) <==> Sits(tabs, c, f) || (c == cpu && f in gone) {
      SitsMore(tabs, cpu, list, c, f);
    }
    forall f: nat ensures Waits(more, f) <==> Waits(tabs, f) || f in gone {
      if f in gone {
        assert Sits(more, cpu, f);
      }
      if Waits(tabs, f) {
        var c :| Sits(tabs, c, f);
        assert Sits(more, c, f);
      }
    }
    forall c, f: nat | Sits(tabs, c, f) ensures f in reserved && f !in gone {
      assert Waits(tabs, f);
    }
  }

  lemma SitsMore(tabs: seq<seq<nat>>, cpu: nat, list: seq<nat>, c: int, f: nat)
    requires cpu < |tabs| && tabs[cpu] == []
    ensures Sits(tabs[cpu := list], c, f) <==> Sits(tabs, c, f) || (c == cpu && f in list)
  {
  }

  lemma SitsLess(tabs: seq<seq<nat>>, cpu: nat, c: int, f: nat)
    requires cpu < |tabs|
    ensures Sits(tabs[cpu := []], c, f) <==> Sits(tabs, c, f) && c != cpu
    ensures Sits(tabs, cpu, f) <==> f in tabs[cpu]
  {
  }

  /** The second section: puts and frees. */
  lemma SoundFlush(a: Snap, b: Snap, boot: nat, d: Kept, live: set<nat>, owed: seq<seq<nat>>, tabs: seq<seq<nat>>, s: AS.State, cpu: nat, gone: set<nat>)
    requires Sound(a, boot, d, live, owed, tabs, s) && cpu < |owed| && cpu < |tabs| && Freed(a.refs, a.bits, b.refs, b.bits, owed[cpu], tabs[cpu])
    requires b.tabs == a.tabs && b.lab == a.lab && b.mem == a.mem && gone == (set g | g in tabs[cpu])
    ensures AS.Shaped(s) && cpu < AS.NCPU && forall i :: 0 <= i < |s.pend[cpu]| ==> s.pend[cpu][i] < NFRAMES
    ensures |b.bits| == NFRAMES && b.bits[0] && Tables(b.tabs, b.lab, b.bits)
    ensures Sound(b, boot, d, live, owed[cpu := []], tabs[cpu := []], Settled(s, cpu, gone)) && AS.Views(Settled(s, cpu, gone)) == AS.Views(s)
  {
    hide Anchored, AS.Protected, Rel, AS.Views, LeavesUsed, Wf, Apart, Paged, Homed, Freed, Drain;
    SoundIs(a, boot, d, live, owed, tabs, s);
    AsideLess(s.reserved, tabs, d, cpu, gone);
    GoodFlush(a, b, live, owed, s, cpu, tabs[cpu], gone);
    SettledKeeps(s, cpu, gone);
    GoodTables(b, live, owed[cpu := []], Settled(s, cpu, gone));
  }

  lemma GoodTables(c: Snap, live: set<nat>, pend: seq<seq<nat>>, s: AS.State)
    requires Good(c, live, pend, s)
    ensures Tables(c.tabs, c.lab, c.bits)
  {
  }

  lemma AsideLess(reserved: set<nat>, tabs: seq<seq<nat>>, d: Kept, cpu: nat, gone: set<nat>)
    requires SetAside(reserved, tabs, d) && cpu < |tabs| && gone == (set g | g in tabs[cpu])
    ensures SetAside(reserved - gone, tabs[cpu := []], d) && gone <= reserved && 0 !in gone
  {
    hide Sits;
    var less := tabs[cpu := []];
    forall c, f: nat ensures (Sits(less, c, f) <==> Sits(tabs, c, f) && c != cpu) && (Sits(tabs, cpu, f) <==> f in gone) {
      SitsLess(tabs, cpu, c, f);
    }
    forall f: nat ensures Waits(tabs, f) <==> Waits(less, f) || f in gone {
      if Waits(tabs, f) && f !in gone {
        var c :| Sits(tabs, c, f);
        assert Sits(less, c, f);
      }
      if Waits(less, f) {
        var c :| Sits(less, c, f);
        assert Sits(tabs, c, f);
      }
      if f in gone {
        assert Sits(tabs, cpu, f);
      }
    }
    forall f: nat | f in gone ensures f !in d.base && !Waits(less, f) {
      assert Sits(tabs, cpu, f);
    }
  }

  /** With no task left and nothing owed, exactly what boot had is in use. */
  lemma AllBack(c: Snap, boot: nat, d: Kept, owed: seq<seq<nat>>, tabs: seq<seq<nat>>, s: AS.State, f: nat)
    requires Sound(c, boot, d, {}, owed, tabs, s) && (forall k :: 0 <= k < |owed| ==> owed[k] == []) && (forall k :: 0 <= k < |tabs| ==> tabs[k] == []) && f < NFRAMES
    ensures |c.bits| == NFRAMES && (c.bits[f] <==> f in d.base || f in d.shared) && (f in c.lab <==> f in d.shared)
  {
    hide LeavesOf, Tables, AS.Protected, AS.NoAliasInSpace, AS.NoDupOwed, Hangs, AS.Exact;
    assert !Waits(tabs, f);
    NoLeaves(c.tabs);
    assert forall t :: t in c.lab && c.lab[t].owner != 0 ==> TaskRoot(c.lab, c.lab[t].owner);
    AS.OwedNone(s.pend, f);
    assert AS.SlotsOf(s.leaves, f) == {};
    if f !in s.tables && f !in s.reserved {
      FlushedFrame(c, {}, owed, s, f);
    }
  }

  lemma NoLeaves(h: Heap)
    ensures LeavesOf(h, {}) == map[]
  {
  }
}
