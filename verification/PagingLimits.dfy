/** Spaces at which the memory manager does not do what its design promises: more leaves
    than the lists of a teardown hold, and a mapped page of the display. */
module PagingLimits {
  import opened PageTables
  import opened Frames
  import opened Snapshots
  import opened SpaceCopy
  import opened SpaceTear
  import opened CloneShape
  import opened CloneSteps
  import opened CloneUndo
  import opened Refinement
  import opened Vmm
  import AS = AddressSpaces

  const FIRST: nat := 6   // the first frame mapped

  /** Page i of the space, a writable user page. */
  function Leaf(i: nat): Entry { Entry(true, true, true, false, false, false, false, FIRST + i) }

  /** A table whose only entry leads to table c. */
  function Chain(c: nat): seq<Entry> { seq(FAN, i => if i == 0 then Link(c, true) else ABSENT) }

  function Leaves(n: nat): seq<Entry> { seq(FAN, i requires 0 <= i => if i < n then Leaf(i) else ABSENT) }

  /** An empty boot space with root 1, and a space with root 2 that maps n pages from
      address 0 on, with one table per level. */
  function Small(n: nat): Heap {
    map[1 := ZeroTable(), 2 := Chain(3), 3 := Chain(4), 4 := Chain(5), 5 := Leaves(n)]
  }

  const LAB: Labels := map[1 := Label(0, 3, 0), 2 := Label(2, 3, 0), 3 := Label(2, 2, 0), 4 := Label(2, 1, 0), 5 := Label(2, 0, 0)]

  function InUse(n: nat): seq<bool> { seq(NFRAMES, f => f < FIRST + n) }

  lemma SmallOk(n: nat)
    requires n <= FAN
    ensures Tables(Small(n), LAB, InUse(n)) && IsRoot(LAB, 1) && IsRoot(LAB, 2) && LAB[2].owner == 2 && Apart(Small(n), 2, 1, ROOT_LEVEL)
  {
    var h := Small(n);
    forall t, i | t in LAB && 0 <= i < FAN ensures EntryOk(LAB, t, i, h[t][i]) {
    }
    assert Apart(h, 5, 0, 0);
    assert Apart(h, 4, 0, 1);
    assert Apart(h, 3, 0, 2);
    assert Apart(h, 2, 1, 3);
  }

  /** Below a table with one entry lies what lies below that entry. */
  lemma {:induction false} ChainLists(h: Heap, t: nat, level: nat, c: nat, n: nat)
    requires t in h && h[t] == Chain(c) && 0 < n <= FAN && 0 < level
    ensures LeavesTo(h, t, level, n) == LeavesTo(h, c, level - 1, FAN)
    ensures TabsTo(h, t, level, n) == TabsTo(h, c, level - 1, FAN) + [c]
    ensures UserTablesTo(h, t, level, n) == 1 + UserTables(h, c, level - 1) && CostTo(h, t, level, n) == 1 + CostTo(h, c, level - 1, FAN)
    ensures PresentTo(h[t], n) == 1
    ensures LargeTo(h, t, level, n) == LargeTo(h, c, level - 1, FAN)
    decreases n
  {
    if n == 1 {
      assert LeavesTo(h, t, level, 0) == [] && TabsTo(h, t, level, 0) == [] && CostTo(h, t, level, 0) == 0;
      assert EntryCost(h, Link(c, true), level) == CloneCost(h, c, level - 1);
      assert EntryLeaves(h, Link(c, true), level) == LeavesTo(h, c, level - 1, FAN);
      assert EntryTabs(h, Link(c, true), level) == TabsTo(h, c, level - 1, FAN) + [c];
    } else {
      ChainLists(h, t, level, c, n - 1);
      assert EntryLeaves(h, ABSENT, level) == [] && EntryTabs(h, ABSENT, level) == [] && EntryCost(h, ABSENT, level) == 0;
    }
  }

  /** The leaf table lists its frames and no tables. */
  lemma {:induction false} LeafLists(h: Heap, t: nat, m: nat, n: nat)
    requires t in h && h[t] == Leaves(m) && n <= FAN
    ensures |LeavesTo(h, t, 0, n)| == (if n < m then n else m) && (m == 1 && n > 0 ==> LeavesTo(h, t, 0, n) == [FIRST])
    ensures TabsTo(h, t, 0, n) == [] && UserTablesTo(h, t, 0, n) == 0 && CostTo(h, t, 0, n) == 0 && !LargeTo(h, t, 0, n)
  {
    if n > 0 {
      LeafLists(h, t, m, n - 1);
    }
  }

  lemma SmallLists(n: nat)
    requires n <= FAN
    ensures |LeavesTo(Small(n), 2, ROOT_LEVEL, FAN)| == n && |TabsTo(Small(n), 2, ROOT_LEVEL, FAN)| == 3
    ensures n == 1 ==> LeavesTo(Small(n), 2, ROOT_LEVEL, FAN) == [FIRST]
    ensures Reserve(Small(n), 2) == 5 && CloneCost(Small(n), 2, ROOT_LEVEL) == 4 && !LargeTo(Small(n), 2, ROOT_LEVEL, FAN)
  {
    hide LeavesTo, TabsTo, UserTablesTo, LargeTo, CostTo, PresentTo;
    var h := Small(n);
    ChainLists(h, 2, 3, 3, FAN);
    ChainLists(h, 3, 2, 4, FAN);
    ChainLists(h, 4, 1, 5, FAN);
    LeafLists(h, 5, n, FAN);
  }

  /** The end of a space of n pages hangs exactly if n is more than 256: at 257 pages the
      collector flushes a full list, for which it takes the lock it holds. */
  method TeardownOf(n: nat) returns (l: TearList)
    requires n <= FAN
    ensures l.stuck <==> n > 256
  {
    hide Apart, LeavesTo, TabsTo, Tables, InUse, CountFree;
    SmallOk(n);
    SmallLists(n);
    FrameZero(n);
    var m := new Manager(1, Display(0, 0), Small(n), LAB, InUse(n), true);
    l := m.Teardown(2);
  }

  lemma FrameZero(n: nat)
    ensures |InUse(n)| == NFRAMES && InUse(n)[0]
  {
  }

  lemma {:induction false} FreeTail(bits: seq<bool>, k: nat)
    requires k <= |bits| && forall f :: |bits| - k <= f < |bits| ==> !bits[f]
    ensures CountFree(bits) >= k
  {
    if k > 0 {
      FreeTail(bits[..|bits| - 1], k - 1);
    }
  }

  /** What the clone of a space with one page, on the display, leaves: the page still
      mapped, its frame in use and counted by nobody. */
  lemma DisplayCloned(j: Job, a: Snap, fa: nat, b: Snap, fb: nat)
    requires Cloned(j, a, fa, b, fb) && j.level == ROOT_LEVEL && j.src == 2 && j.fb == Display(FIRST, FIRST + 1)
    requires a.tabs == Small(1) && a.lab == LAB && a.bits == InUse(1) && FIRST < |a.refs| && a.refs[FIRST] == 0
    ensures |b.refs| == |b.bits| == NFRAMES && b.refs[FIRST] == 0 && b.bits[FIRST] && Walk(b.tabs, 2, ROOT_LEVEL, 0) == Hit(Leaf(0), 0)
    ensures 2 in b.lab && b.lab[2] == LAB[2] && Wf(b.tabs, b.lab) && j.nf != 2
  {
    hide Twin, Linked, LeavesTo, CostTo, CountTo, LeavesUsed, Walk, Small, EntryOk, CowStep;
    CountedAs(a, j.fb, 2, FIRST);
    SmallWalk();
    assert Walk(b.tabs, 2, ROOT_LEVEL, 0) == CopyHit(j.cow, j.fb, Walk(a.tabs, 2, ROOT_LEVEL, 0));
  }

  lemma SmallWalk()
    ensures Walk(Small(1), 2, ROOT_LEVEL, 0) == Hit(Leaf(0), 0)
  {
    var h := Small(1);
    assert Idx(0, 3) == Idx(0, 2) == Idx(0, 1) == Idx(0, 0) == 0;
    assert Walk(h, 5, 0, 0) == Hit(Leaf(0), 0);
    assert Walk(h, 4, 1, 0) == Walk(h, 5, 0, 0);
    assert Walk(h, 3, 2, 0) == Walk(h, 4, 1, 0);
  }

  /** One put frees a frame that nobody counts. */
  lemma PutUncounted(refs: seq<nat>, bits: seq<bool>, refs2: seq<nat>, bits2: seq<bool>, tabs: seq<nat>)
    requires Freed(refs, bits, refs2, bits2, [FIRST], tabs) && |refs| == NFRAMES && refs[FIRST] == 0
    ensures |bits2| == NFRAMES && !bits2[FIRST]
  {
    assert AS.Times([FIRST], FIRST) == 1;
  }

  /** Clone a space that maps one page of the display and tear the copy down: the frame is
      marked free while the space still maps it. */
  method DisplayLost() returns (m: Manager)
    ensures |m.bits| == NFRAMES && !m.bits[FIRST] && Walk(m.tabs, 2, ROOT_LEVEL, 0) == Hit(Leaf(0), 0)
  {
    hide Apart, LeavesTo, TabsTo, Tables, InUse, CountFree, Cloned, Freed, Small, Reserve, LargeTo, CloneCost, Walk, Others;
    SmallOk(1);
    SmallLists(1);
    FrameZero(1);
    EnoughFree();
    m := new Manager(1, Display(FIRST, FIRST + 1), Small(1), LAB, InUse(1), true);
    ghost var a, fa := m.Now(), m.freeN;
    var r := m.CloneSpace(2, true);
    ghost var b, fb, j := m.Now(), m.freeN, Job(true, m.display, 2, r, ROOT_LEVEL, r);
    CloneRoots(j, a, fa, b, fb, 1);
    CloneApart(j, a, fa, b, fb, 1);
    CloneLists(j, a, fa, b, fb);
    DisplayCloned(j, a, fa, b, fb);
    var l := m.Teardown(r);
    PutUncounted(b.refs, b.bits, m.refs, m.bits, TabsTo(b.tabs, r, ROOT_LEVEL, FAN) + [r]);
    StillMapped(b, m.tabs, r);
  }

  lemma EnoughFree()
    ensures CountFree(InUse(1)) >= 5
  {
    FreeTail(InUse(1), 5);
  }

  lemma StillMapped(b: Snap, h: Heap, r: nat)
    requires Wf(b.tabs, b.lab) && 2 in b.lab && b.lab[2] == LAB[2] && r != 0 && r != 2
    requires forall t :: t in Others(b.lab, r) ==> t in h && t in b.tabs && h[t] == b.tabs[t]
    ensures Walk(h, 2, ROOT_LEVEL, 0) == Walk(b.tabs, 2, ROOT_LEVEL, 0)
  {
    hide Walk, EntryOk;
    forall w | w in b.lab && b.lab[w].owner != r ensures w in h && h[w] == b.tabs[w] {
      assert w in Others(b.lab, r);
    }
    OthersWalk(b.tabs, h, b.lab, r, 2, ROOT_LEVEL, 0);
  }
}
