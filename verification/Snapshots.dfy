/** Snapshots of the memory manager's state and what mapping operations do to them:
    all the reasoning about page tables that does not need the running code. */
module Snapshots {
  import opened PageTables
  import AS = AddressSpaces

  const NFRAMES: nat := AS.NFRAMES
  const REF_MAX: nat := AS.REF_MAX

  /** The VMM_* mapping flags. */
  datatype Flags = Flags(rw: bool, us: bool, nx: bool, uc: bool)

  /** The state a mapping operation can change. */
  datatype Snap = Snap(tabs: Heap, lab: Labels, bits: seq<bool>, refs: seq<nat>, mem: seq<AS.Page>)

  /** New empty tables may have been linked in; nothing that was there changed. */
  ghost predicate Extends(a: Snap, b: Snap) {
    SameWalks(a.tabs, b.tabs, a.lab) && Grown(a.lab, b.lab, a.bits, b.bits) && KeepsUsed(a.bits, a.refs, b.refs, a.mem, b.mem) &&
    (Anchored(a.tabs, a.lab) ==> Anchored(b.tabs, b.lab)) && NoRoots(a.lab, b.lab)
  }

  /** No table added is a root. */
  ghost predicate NoRoots(lab: Labels, lab2: Labels) { forall t :: t in lab2 && t !in lab ==> lab2[t].level < ROOT_LEVEL }

  lemma ExtendsTrans(a: Snap, b: Snap, c: Snap)
    requires Extends(a, b) && Extends(b, c)
    ensures Extends(a, c)
  {
    hide Anchored;
    forall t, v: nat | t in a.lab && a.lab[t].pre == At(v, a.lab[t].level + 1)
      ensures Walk(c.tabs, t, a.lab[t].level, v) == Walk(a.tabs, t, a.lab[t].level, v)
    {
      assert t in b.lab && b.lab[t] == a.lab[t];
      assert Walk(b.tabs, t, b.lab[t].level, v) == Walk(a.tabs, t, a.lab[t].level, v);
      assert Walk(c.tabs, t, b.lab[t].level, v) == Walk(b.tabs, t, b.lab[t].level, v);
    }
  }


  /** Refused: not a resolvable fault. Spurious: already writable, a lost race.
      Upgraded: sole owner, made writable in place. Copied: moved to a fresh frame,
      the old frame's put is owed. */
  datatype CowResult = Refused | Spurious | Upgraded | Copied(owed: nat)

  /** A user page of 4 KB. */
  predicate UserLeaf(w: Hit) { w.Hit? && w.level == 0 && w.e.us }

  /** A copy-on-write page, and one whose frame has no other name. */
  predicate CowLeaf(w: Hit) { UserLeaf(w) && w.e.cow }

  predicate SoleCow(w: Hit, refs: seq<nat>) { CowLeaf(w) && w.e.frame < |refs| && refs[w.e.frame] == 1 }

  /** Page v of `root` moved from frame f to nf, free before, with the same contents. */
  ghost predicate CopiedTo(a: Snap, b: Snap, root: nat, v: nat, nf: nat, f: nat) {
    |a.bits| == |a.refs| == |a.mem| == NFRAMES && nf < NFRAMES && f < NFRAMES && !a.bits[nf] &&
    b.bits == a.bits[nf := true] && b.refs == a.refs[nf := 1] && b.mem == a.mem[nf := a.mem[f]] &&
    Walk(a.tabs, root, ROOT_LEVEL, v).Hit? &&
    Walk(b.tabs, root, ROOT_LEVEL, v) ==
      Hit(Entry(true, true, true, false, false, Walk(a.tabs, root, ROOT_LEVEL, v).e.nx, false, nf), 0)
  }

  lemma NoneAbsent(h: Heap, t: nat, v: nat)
    ensures Absent(h, t, 0, v) == 0 && !Blocked(h, t, 0, v)
  {
  }

  /** Pointing the slot of page v at a frame just allocated. */
  lemma FreshSlot(a: Snap, root: nat, v: nat, pt: nat, e: Entry)
    requires Tables(a.tabs, a.lab, a.bits) && IsRoot(a.lab, root) && a.lab[root].owner == root && v < VPAGES
    requires Reaches(a.tabs, a.lab, root, ROOT_LEVEL, v, pt) && e.p && e.us && 0 < e.frame < |a.bits| && !a.bits[e.frame] && root != 0
    ensures pt in a.tabs && |a.tabs[pt]| == FAN && pt != e.frame
    ensures var h := SetSlot(a.tabs[e.frame := ZeroTable()], pt, Idx(v, 0), e);
      Tables(h, a.lab, a.bits[e.frame := true]) && SameWalksBut(a.tabs, h, a.lab, root, v) && Walk(h, root, ROOT_LEVEL, v) == Hit(e, 0) &&
      (Anchored(a.tabs, a.lab) ==> Anchored(h, a.lab)) && Touched(a.tabs, a.lab, h, a.lab, root, v)
  {
    hide Anchored, Grew, Touched;
    GrewZero(a.tabs, a.lab, e.frame, root);
    if Anchored(a.tabs, a.lab) {
      AnchoredStays(a.tabs, a.tabs[e.frame := ZeroTable()], a.lab);
    }
    var h := a.tabs[e.frame := ZeroTable()];
    AllocTables(a.tabs, a.lab, a.bits, e.frame);
    ReachStays(a.tabs, h, a.lab, root, ROOT_LEVEL, v, pt);
    LeafSet(h, a.lab, a.bits[e.frame := true], root, v, pt, e);
    GrewLeaf(a.tabs, a.lab, h, a.lab, root, v, pt, e);
    forall t, w: nat | t in a.lab ensures Walk(h, t, a.lab[t].level, w) == Walk(a.tabs, t, a.lab[t].level, w) {
      WalkUnlabelled(a.tabs, a.lab, e.frame, t, a.lab[t].level, w);
    }
  }

  /** Zeroing a frame that is no table changes no walk. */
  lemma {:induction false} WalkUnlabelled(h: Heap, lab: Labels, f: nat, t: nat, level: nat, v: nat)
    requires Wf(h, lab) && f !in lab && t in lab && lab[t].level == level
    ensures Walk(h[f := ZeroTable()], t, level, v) == Walk(h, t, level, v)
    decreases level
  {
    var e := h[t][Idx(v, level)];
    assert EntryOk(lab, t, Idx(v, level), e);
    if Points(e, level) {
      WalkUnlabelled(h, lab, f, e.frame, level - 1, v);
    }
  }

  /** Nor is a table any more or less missing. */
  lemma {:induction false} AbsentUnlabelled(h: Heap, lab: Labels, f: nat, t: nat, level: nat, v: nat)
    requires Wf(h, lab) && f !in lab && t in lab && lab[t].level == level
    ensures Absent(h[f := ZeroTable()], t, level, v) == Absent(h, t, level, v)
    decreases level
  {
    var e := h[t][Idx(v, level)];
    assert EntryOk(lab, t, Idx(v, level), e);
    if Points(e, level) {
      AbsentUnlabelled(h, lab, f, e.frame, level - 1, v);
    }
  }

  /** Writing the slot of page v under `root`. */
  lemma LeafSet(h: Heap, lab: Labels, bits: seq<bool>, root: nat, v: nat, pt: nat, e: Entry)
    requires Tables(h, lab, bits) && IsRoot(lab, root) && v < VPAGES && Reaches(h, lab, root, ROOT_LEVEL, v, pt)
    requires e.p ==> (e.us <==> lab[root].owner != 0)
    requires e.p && e.us ==> Mappable(lab, bits, e.frame)
    ensures pt in h && |h[pt]| == FAN && pt in lab && lab[pt] == Label(lab[root].owner, 0, At(v, 1))
    ensures Walk(h, root, ROOT_LEVEL, v) == var f := h[pt][Idx(v, 0)]; if f.p then Hit(f, 0) else Miss
    ensures var h2 := SetSlot(h, pt, Idx(v, 0), e);
      Tables(h2, lab, bits) && SameWalksBut(h, h2, lab, lab[root].owner, v) &&
      Walk(h2, root, ROOT_LEVEL, v) == (if e.p then Hit(e, 0) else Miss) &&
      (Anchored(h, lab) ==> Anchored(h2, lab)) && Touched(h, lab, h2, lab, lab[root].owner, v)
  {
    hide Anchored, Grew, Touched;
    GrewSame(h, lab, lab[root].owner);
    ReachWalk(h, lab, root, ROOT_LEVEL, v, pt);
    if Anchored(h, lab) {
      AnchoredStays(h, SetSlot(h, pt, Idx(v, 0), e), lab);
    }
    ReachWalk(h, lab, root, ROOT_LEVEL, v, pt);
    var h2 := SetSlot(h, pt, Idx(v, 0), e);
    ReachStays(h, h2, lab, root, ROOT_LEVEL, v, pt);
    ReachWalk(h2, lab, root, ROOT_LEVEL, v, pt);
    GrewLeaf(h, lab, h, lab, lab[root].owner, v, pt, e);
    LeafWrite(h, lab, bits, pt, Idx(v, 0), e);
  }

  lemma PageBound(va: nat)
    ensures PageOf(va) < VPAGES
  {
  }

  /** The index of an address in its leaf table. */
  function LowIndex(va: nat): (i: nat)
    ensures i == Idx(PageOf(va), 0)
  {
    VaIndices(va);
    (va / 4096) % 512
  }

  /** What the last step of a mapping does to the walks: nothing if the slot is
      taken, else the new leaf for page v of this space only. */
  lemma LeafMapped(a: Snap, b: Snap, root: nat, v: nat, pt: nat, e: Entry)
    requires Extends(a, b) && Tables(b.tabs, b.lab, b.bits) && IsRoot(a.lab, root) && v < VPAGES && e.p
    requires Grew(a.tabs, a.lab, b.tabs, b.lab, a.lab[root].owner)
    requires Reaches(b.tabs, b.lab, root, ROOT_LEVEL, v, pt)
    requires e.us <==> b.lab[root].owner != 0
    requires e.us ==> Mappable(b.lab, b.bits, e.frame)
    ensures pt in b.tabs && |b.tabs[pt]| == FAN
    ensures b.tabs[pt][Idx(v, 0)].p ==> Walk(a.tabs, root, ROOT_LEVEL, v).Hit?
    ensures var h := SetSlot(b.tabs, pt, Idx(v, 0), e);
      Tables(h, b.lab, b.bits) && SameWalksBut(a.tabs, h, a.lab, a.lab[root].owner, v) &&
      Walk(h, root, ROOT_LEVEL, v) == Hit(e, 0) && (Anchored(a.tabs, a.lab) ==> Anchored(h, b.lab)) &&
      Touched(a.tabs, a.lab, h, b.lab, a.lab[root].owner, v)
    ensures !b.tabs[pt][Idx(v, 0)].p ==> Walk(a.tabs, root, ROOT_LEVEL, v) == Miss
  {
    hide Anchored, Grew, Touched;
    TopIsZero(v);
    LeafSet(b.tabs, b.lab, b.bits, root, v, pt, e);
    GrewLeaf(a.tabs, a.lab, b.tabs, b.lab, a.lab[root].owner, v, pt, e);
    var h := SetSlot(b.tabs, pt, Idx(v, 0), e);
    assert Walk(b.tabs, root, a.lab[root].level, v) == Walk(a.tabs, root, a.lab[root].level, v);
    forall t, w: nat | t in a.lab && a.lab[t].pre == At(w, a.lab[t].level + 1) &&
        (w != v || (a.lab[root].owner != 0 && a.lab[t].owner != a.lab[root].owner))
      ensures Walk(h, t, a.lab[t].level, w) == Walk(a.tabs, t, a.lab[t].level, w)
    {
      assert Walk(h, t, b.lab[t].level, w) == Walk(b.tabs, t, b.lab[t].level, w);
    }
  }

  /** The leaf __vmm_map_page writes. */
  function UserEntry(f: nat, fl: Flags): Entry { Entry(true, fl.rw, fl.us, false, false, fl.nx, fl.uc, f) }

  /** The walk of page v from table t leads through own pointers to leaf table pt. */
  ghost predicate Reaches(h: Heap, lab: Labels, t: nat, level: nat, v: nat, pt: nat)
    decreases level
  {
    t in lab && t in h && |h[t]| == FAN && lab[t].level == level && lab[t].pre == At(v, level + 1) &&
    if level == 0 then t == pt else ReachStep(h, lab, t, level, v) && Reaches(h, lab, h[t][Idx(v, level)].frame, level - 1, v, pt)
  }

  ghost predicate ReachStep(h: Heap, lab: Labels, t: nat, level: nat, v: nat)
    requires t in lab && t in h && |h[t]| == FAN
  {
    var e := h[t][Idx(v, level)];
    Points(e, level) && e.frame in lab && lab[e.frame].owner == lab[t].owner
  }

  lemma {:induction false} ReachWalk(h: Heap, lab: Labels, t: nat, level: nat, v: nat, pt: nat)
    requires Reaches(h, lab, t, level, v, pt)
    ensures pt in lab && pt in h && |h[pt]| == FAN && lab[pt] == Label(lab[t].owner, 0, At(v, 1))
    ensures Walk(h, t, level, v) == var e := h[pt][Idx(v, 0)]; if e.p then Hit(e, 0) else Miss
    decreases level
  {
    if level > 0 {
      ReachWalk(h, lab, h[t][Idx(v, level)].frame, level - 1, v, pt);
    }
  }

  lemma {:induction false} ReachStays(h: Heap, h2: Heap, lab: Labels, t: nat, level: nat, v: nat, pt: nat)
    requires Reaches(h, lab, t, level, v, pt)
    requires forall u :: u in lab && u in h && lab[u].level > 0 ==> u in h2 && h2[u] == h[u]
    requires pt in h2 && |h2[pt]| == FAN
    ensures Reaches(h2, lab, t, level, v, pt)
    decreases level
  {
    if level > 0 {
      ReachStays(h, h2, lab, h[t][Idx(v, level)].frame, level - 1, v, pt);
    }
  }

  /** The walk of page v leads to leaf table pt, through own or shared pointers. */
  ghost predicate Leads(h: Heap, lab: Labels, t: nat, level: nat, v: nat, pt: nat)
    decreases level
  {
    t in lab && t in h && |h[t]| == FAN && lab[t].level == level && lab[t].pre == At(v, level + 1) &&
    if level == 0 then t == pt else Points(h[t][Idx(v, level)], level) && Leads(h, lab, h[t][Idx(v, level)].frame, level - 1, v, pt)
  }

  lemma {:induction false} LeadsWalk(h: Heap, lab: Labels, t: nat, level: nat, v: nat, pt: nat)
    requires Leads(h, lab, t, level, v, pt)
    ensures pt in lab && pt in h && |h[pt]| == FAN && lab[pt].level == 0 && lab[pt].pre == At(v, 1)
    ensures Walk(h, t, level, v) == var e := h[pt][Idx(v, 0)]; if e.p then Hit(e, 0) else Miss
    decreases level
  {
    if level > 0 {
      LeadsWalk(h, lab, h[t][Idx(v, level)].frame, level - 1, v, pt);
    }
  }

  lemma {:induction false} LeadsStays(h: Heap, h2: Heap, lab: Labels, t: nat, level: nat, v: nat, pt: nat)
    requires Leads(h, lab, t, level, v, pt)
    requires forall u :: u in lab && u in h && lab[u].level > 0 ==> u in h2 && h2[u] == h[u]
    requires pt in h2 && |h2[pt]| == FAN
    ensures Leads(h2, lab, t, level, v, pt)
    decreases level
  {
    if level > 0 {
      LeadsStays(h, h2, lab, h[t][Idx(v, level)].frame, level - 1, v, pt);
    }
  }

  /** A path that enters the shared tables stays there; one that ends in a private table
      passes through own tables only. */
  lemma {:induction false} LeadsOwner(h: Heap, lab: Labels, t: nat, level: nat, v: nat, pt: nat)
    requires Wf(h, lab) && Leads(h, lab, t, level, v, pt)
    ensures pt in lab && (lab[pt].owner == lab[t].owner || lab[pt].owner == 0)
    ensures lab[pt].owner == lab[t].owner && lab[t].owner != 0 ==> Reaches(h, lab, t, level, v, pt)
    decreases level
  {
    if level > 0 {
      assert EntryOk(lab, t, Idx(v, level), h[t][Idx(v, level)]);
      LeadsOwner(h, lab, h[t][Idx(v, level)].frame, level - 1, v, pt);
    }
  }

  /** A user leaf is reached through own tables. */
  lemma LeadsUser(h: Heap, lab: Labels, t: nat, v: nat, pt: nat)
    requires Wf(h, lab) && t in lab && Leads(h, lab, t, lab[t].level, v, pt)
    requires pt in h && |h[pt]| == FAN && h[pt][Idx(v, 0)].p && h[pt][Idx(v, 0)].us
    ensures lab[t].owner != 0 && Reaches(h, lab, t, lab[t].level, v, pt)
  {
    LeadsOwner(h, lab, t, lab[t].level, v, pt);
    LeadsWalk(h, lab, t, lab[t].level, v, pt);
    assert EntryOk(lab, pt, Idx(v, 0), h[pt][Idx(v, 0)]);
  }

  /** Clearing the leaf slot that page v of `root` leads to. */
  lemma LeafCleared(h: Heap, lab: Labels, bits: seq<bool>, root: nat, v: nat, pt: nat)
    requires Tables(h, lab, bits) && IsRoot(lab, root) && v < VPAGES && Leads(h, lab, root, ROOT_LEVEL, v, pt)
    ensures pt in h && |h[pt]| == FAN && pt in lab && lab[pt].level == 0
    ensures Walk(h, root, ROOT_LEVEL, v) == var f := h[pt][Idx(v, 0)]; if f.p then Hit(f, 0) else Miss
    ensures var h2 := SetSlot(h, pt, Idx(v, 0), ABSENT);
      Tables(h2, lab, bits) && Walk(h2, root, ROOT_LEVEL, v) == Miss && (Anchored(h, lab) ==> Anchored(h2, lab)) &&
      SameWalksBut(h, h2, lab, if h[pt][Idx(v, 0)].p && h[pt][Idx(v, 0)].us then lab[root].owner else 0, v) &&
      (h[pt][Idx(v, 0)].p && h[pt][Idx(v, 0)].us ==> Touched(h, lab, h2, lab, lab[root].owner, v))
  {
    hide Anchored, Grew, Touched;
    LeadsWalk(h, lab, root, ROOT_LEVEL, v, pt);
    var h2 := SetSlot(h, pt, Idx(v, 0), ABSENT);
    LeadsStays(h, h2, lab, root, ROOT_LEVEL, v, pt);
    LeadsWalk(h2, lab, root, ROOT_LEVEL, v, pt);
    LeafWrite(h, lab, bits, pt, Idx(v, 0), ABSENT);
    if Anchored(h, lab) {
      AnchoredStays(h, h2, lab);
    }
    if h[pt][Idx(v, 0)].p && h[pt][Idx(v, 0)].us {
      LeadsUser(h, lab, root, v, pt);
      LeafSet(h, lab, bits, root, v, pt, ABSENT);
    }
  }

  // ---------------------------------------------------------------- where tables hang

  /** The root of a task's space. */
  ghost predicate TaskRoot(lab: Labels, r: nat) { IsRoot(lab, r) && lab[r].owner == r && r != 0 }

  /** From table u, own pointers lead along prefix pre down to table t at level l. */
  ghost predicate Hangs(h: Heap, lab: Labels, u: nat, level: nat, pre: nat, l: nat, t: nat)
    decreases level
  {
    u in lab && u in h && |h[u]| == FAN && lab[u].level == level >= l && lab[u].pre == At(pre, level - l) &&
    if level == l then u == t else HangStep(h, lab, u, level, Idx(pre, level - 1 - l)) && Hangs(h, lab, h[u][Idx(pre, level - 1 - l)].frame, level - 1, pre, l, t)
  }

  ghost predicate HangStep(h: Heap, lab: Labels, u: nat, level: nat, i: nat)
    requires u in lab && u in h && i < |h[u]|
  {
    Points(h[u][i], level) && h[u][i].frame in lab && lab[h[u][i].frame].owner == lab[u].owner
  }

  /** Every private table hangs below the root of its space, where its label says. */
  ghost predicate Anchored(h: Heap, lab: Labels) {
    forall t :: t in lab && lab[t].owner != 0 ==>
      TaskRoot(lab, lab[t].owner) && Hangs(h, lab, lab[t].owner, ROOT_LEVEL, lab[t].pre, lab[t].level, t)
  }

  /** Paths only read tables above the leaves. */
  lemma {:induction false} HangsStays(h: Heap, h2: Heap, lab: Labels, u: nat, level: nat, pre: nat, l: nat, t: nat)
    requires Hangs(h, lab, u, level, pre, l, t)
    requires forall w :: w in lab && w in h ==> w in h2 && |h2[w]| == |h[w]| && (lab[w].level > 0 ==> h2[w] == h[w])
    ensures Hangs(h2, lab, u, level, pre, l, t)
    decreases level
  {
    if level > l {
      assert HangStep(h, lab, u, level, Idx(pre, level - 1 - l));
      HangsStays(h, h2, lab, h[u][Idx(pre, level - 1 - l)].frame, level - 1, pre, l, t);
    }
  }

  lemma AnchoredStays(h: Heap, h2: Heap, lab: Labels)
    requires Anchored(h, lab)
    requires forall w :: w in lab && w in h ==> w in h2 && |h2[w]| == |h[w]| && (lab[w].level > 0 ==> h2[w] == h[w])
    ensures Anchored(h2, lab)
  {
    hide Hangs;
    forall t | t in lab && lab[t].owner != 0 ensures Hangs(h2, lab, lab[t].owner, ROOT_LEVEL, lab[t].pre, lab[t].level, t) {
      HangsStays(h, h2, lab, lab[t].owner, ROOT_LEVEL, lab[t].pre, lab[t].level, t);
    }
  }

  lemma {:induction false} HangsNew(h: Heap, lab: Labels, t0: nat, i: nat, e: Entry, nl: Label, u: nat, level: nat, pre: nat, l: nat, t: nat)
    requires t0 in lab && t0 in h && i < |h[t0]| && !h[t0][i].p && e.frame !in lab && Hangs(h, lab, u, level, pre, l, t)
    ensures Hangs(SetSlot(h[e.frame := ZeroTable()], t0, i, e), lab[e.frame := nl], u, level, pre, l, t)
    decreases level
  {
    if level > l {
      assert HangStep(h, lab, u, level, Idx(pre, level - 1 - l));
      HangsNew(h, lab, t0, i, e, nl, h[u][Idx(pre, level - 1 - l)].frame, level - 1, pre, l, t);
    }
  }

  lemma {:induction false} AtBelow(pre: nat, i: nat, k: nat)
    requires i < FAN
    ensures At(pre * FAN + i, k + 1) == At(pre, k)
  {
    if k > 0 {
      AtBelow(pre, i, k - 1);
    }
  }

  /** What hangs below a table that hangs. */
  lemma {:induction false} HangsBelow(h: Heap, lab: Labels, u: nat, level: nat, pre: nat, l: nat, t: nat, i: nat)
    requires Hangs(h, lab, u, level, pre, l, t) && l > 0 && t in lab && t in h && |h[t]| == FAN && i < FAN && HangStep(h, lab, t, l, i)
    requires var c := h[t][i].frame; c in h && |h[c]| == FAN && lab[c].level == l - 1 && lab[c].pre == pre * FAN + i
    ensures Hangs(h, lab, u, level, pre * FAN + i, l - 1, h[t][i].frame)
    decreases level
  {
    AtBelow(pre, i, level - l);
    if level > l {
      AtBelow(pre, i, level - 1 - l);
      HangsBelow(h, lab, h[u][Idx(pre, level - 1 - l)].frame, level - 1, pre, l, t, i);
    }
  }

  /** Hanging an empty table somewhere. */
  lemma AnchoredNew(h: Heap, lab: Labels, t0: nat, i: nat, e: Entry)
    requires Wf(h, lab) && t0 in lab && i < FAN && !h[t0][i].p && e.frame !in lab && Points(e, lab[t0].level) && Anchored(h, lab)
    ensures Anchored(SetSlot(h[e.frame := ZeroTable()], t0, i, e), lab[e.frame := Below(lab[t0], i)])
  {
    hide Hangs, EntryOk, At;
    var h2: Heap, lab2: Labels := SetSlot(h[e.frame := ZeroTable()], t0, i, e), lab[e.frame := Below(lab[t0], i)];
    forall t | t in lab2 && lab2[t].owner != 0
      ensures TaskRoot(lab2, lab2[t].owner) && Hangs(h2, lab2, lab2[t].owner, ROOT_LEVEL, lab2[t].pre, lab2[t].level, t)
    {
      var t1 := if t == e.frame then t0 else t;
      HangsNew(h, lab, t0, i, e, Below(lab[t0], i), lab[t1].owner, ROOT_LEVEL, lab[t1].pre, lab[t1].level, t1);
      if t == e.frame {
        HangsBelow(h2, lab2, lab[t0].owner, ROOT_LEVEL, lab[t0].pre, lab[t0].level, t0, i);
      }
    }
  }

  // ---------------------------------------------------------------- which slots change

  /** Slot i of table t is as it was, or new and empty, or the link of a new table of
      `owner` in a place that was empty. */
  ghost predicate SlotGrew(h: Heap, lab: Labels, h2: Heap, lab2: Labels, owner: nat, t: nat, i: nat)
    requires t in lab2 && t in h2 && i < |h2[t]|
  {
    var e := h2[t][i];
    (t in lab && t in h && i < |h[t]| && e == h[t][i]) || (t !in lab && e == ABSENT) ||
    (lab2[t].owner == owner && Points(e, lab2[t].level) && e.frame !in lab && e.frame in lab2 && lab2[e.frame].owner == owner &&
     (t in lab ==> t in h && i < |h[t]| && !h[t][i].p))
  }

  /** Only links of new tables of `owner` were added. */
  ghost predicate Grew(h: Heap, lab: Labels, h2: Heap, lab2: Labels, owner: nat) {
    (forall t :: t in lab ==> t in lab2 && lab2[t] == lab[t]) && (forall t :: t in lab2 && t !in lab ==> lab2[t].owner == owner) &&
    forall t, i {:trigger h2[t][i]} :: t in lab2 && t in h2 && 0 <= i < |h2[t]| ==> SlotGrew(h, lab, h2, lab2, owner, t, i)
  }

  /** The same, and the leaf slot of page v of `owner` may hold anything. */
  ghost predicate Touched(h: Heap, lab: Labels, h2: Heap, lab2: Labels, owner: nat, v: nat) {
    (forall t :: t in lab ==> t in lab2 && lab2[t] == lab[t]) && (forall t :: t in lab2 && t !in lab ==> lab2[t].owner == owner) &&
    forall t, i {:trigger h2[t][i]} :: t in lab2 && t in h2 && 0 <= i < |h2[t]| ==>
      SlotGrew(h, lab, h2, lab2, owner, t, i) || (lab2[t] == Label(owner, 0, At(v, 1)) && i == Idx(v, 0))
  }

  lemma GrewSame(h: Heap, lab: Labels, owner: nat)
    ensures Grew(h, lab, h, lab, owner)
  {
    forall t, i | t in lab && t in h && 0 <= i < |h[t]| ensures SlotGrew(h, lab, h, lab, owner, t, i) {
    }
  }

  lemma GrewNext(h: Heap, lab: Labels, t: nat, i: nat, e: Entry)
    requires Wf(h, lab) && t in lab && i < FAN && !h[t][i].p && Points(e, lab[t].level) && e.frame !in lab
    ensures Grew(h, lab, SetSlot(h[e.frame := ZeroTable()], t, i, e), lab[e.frame := Below(lab[t], i)], lab[t].owner)
  {
    hide EntryOk;
    var h2: Heap, lab2: Labels := SetSlot(h[e.frame := ZeroTable()], t, i, e), lab[e.frame := Below(lab[t], i)];
    forall u, k | u in lab2 && u in h2 && 0 <= k < |h2[u]| ensures SlotGrew(h, lab, h2, lab2, lab[t].owner, u, k) {
      assert u != e.frame && !(u == t && k == i) ==> h2[u][k] == h[u][k];
    }
  }

  lemma GrewTrans(h: Heap, lab: Labels, m: Heap, lab1: Labels, h2: Heap, lab2: Labels, owner: nat)
    requires Wf(m, lab1) && Grew(h, lab, m, lab1, owner) && Grew(m, lab1, h2, lab2, owner)
    ensures Grew(h, lab, h2, lab2, owner)
  {
    hide EntryOk;
    forall t, i | t in lab2 && t in h2 && 0 <= i < |h2[t]| ensures SlotGrew(h, lab, h2, lab2, owner, t, i) {
      assert SlotGrew(m, lab1, h2, lab2, owner, t, i);
      if t in lab1 && i < |m[t]| {
        assert SlotGrew(h, lab, m, lab1, owner, t, i);
      }
    }
  }

  /** A leaf is written after the links were made. */
  lemma GrewLeaf(h: Heap, lab: Labels, m: Heap, lab2: Labels, owner: nat, v: nat, pt: nat, e: Entry)
    requires Grew(h, lab, m, lab2, owner) && pt in m && pt in lab2 && lab2[pt] == Label(owner, 0, At(v, 1)) && Idx(v, 0) < |m[pt]|
    ensures Touched(h, lab, SetSlot(m, pt, Idx(v, 0), e), lab2, owner, v)
  {
    hide At, Idx;
    var h2 := SetSlot(m, pt, Idx(v, 0), e);
    forall t, i | t in lab2 && t in h2 && 0 <= i < |h2[t]| && !(t == pt && i == Idx(v, 0)) ensures SlotGrew(h, lab, h2, lab2, owner, t, i) {
      assert h2[t][i] == m[t][i] && SlotGrew(h, lab, m, lab2, owner, t, i);
    }
  }

  lemma GrewTouched(h: Heap, lab: Labels, h2: Heap, lab2: Labels, owner: nat, v: nat)
    requires Grew(h, lab, h2, lab2, owner)
    ensures Touched(h, lab, h2, lab2, owner, v)
  {
    forall t, i | t in lab2 && t in h2 && 0 <= i < |h2[t]| ensures SlotGrew(h, lab, h2, lab2, owner, t, i) {
      assert h2[t][i] == h2[t][i];
    }
  }

  /** Zeroing a frame that is no table touches none. */
  lemma GrewZero(h: Heap, lab: Labels, f: nat, owner: nat)
    requires f !in lab
    ensures Grew(h, lab, h[f := ZeroTable()], lab, owner)
  {
    var h2: Heap := h[f := ZeroTable()];
    forall t, i | t in lab && t in h2 && 0 <= i < |h2[t]| ensures SlotGrew(h, lab, h2, lab, owner, t, i) {
    }
  }

  /** One step down an extended heap: the walk below the step is the walk from the top. */
  lemma WalkDown(a: Snap, b: Snap, t: nat, level: nat, v: nat, c: nat)
    requires level > 0 && t in a.lab && a.lab[t].level == level && a.lab[t].pre == At(v, level + 1) && SameWalks(a.tabs, b.tabs, a.lab)
    requires t in b.tabs && |b.tabs[t]| == FAN && Points(b.tabs[t][Idx(v, level)], level) && b.tabs[t][Idx(v, level)].frame == c
    ensures Walk(a.tabs, t, level, v) == Walk(b.tabs, c, level - 1, v)
  {
    assert Walk(b.tabs, t, a.lab[t].level, v) == Walk(a.tabs, t, a.lab[t].level, v);
  }

  /** One next_tab step from table t on the path of page v: to table c, or nowhere. */
  ghost predicate Stepped(a: Snap, b: Snap, free: nat, t: nat, level: nat, v: nat, c: nat) {
    Extends(a, b) && t in a.lab && a.lab[t].level == level > 0 && a.lab[t].pre == At(v, level + 1) && Wf(b.tabs, b.lab) &&
    Grew(a.tabs, a.lab, b.tabs, b.lab, a.lab[t].owner) &&
    (c == 0 ==> free == 0 || Walk(a.tabs, t, level, v).Hit?) &&
    (c != 0 ==> t in b.tabs && |b.tabs[t]| == FAN && Points(b.tabs[t][Idx(v, level)], level) && b.tabs[t][Idx(v, level)].frame == c) &&
    (c != 0 ==> c in b.lab && b.lab[c] == Label(b.lab[t].owner, level - 1, At(v, level))) &&
    forall u :: u in a.lab && u != t ==> u in a.tabs && u in b.tabs && b.tabs[u] == a.tabs[u]
  }

  /** All the steps from table t: to the leaf table pt, or nowhere. */
  ghost predicate Arrived(a: Snap, b: Snap, free: nat, t: nat, level: nat, v: nat, pt: nat) {
    Extends(a, b) && t in a.lab && a.lab[t].level == level && Grew(a.tabs, a.lab, b.tabs, b.lab, a.lab[t].owner) &&
    (pt == 0 ==> free == 0 || Walk(a.tabs, t, level, v).Hit?) &&
    (pt != 0 ==> Reaches(b.tabs, b.lab, t, level, v, pt)) &&
    forall u :: u in a.lab && a.lab[u].level > level ==> u in a.tabs && u in b.tabs && b.tabs[u] == a.tabs[u]
  }

  lemma ReachUp(h: Heap, lab: Labels, t: nat, level: nat, v: nat, m: nat, pt: nat)
    requires t in lab && t in h && |h[t]| == FAN && lab[t].level == level > 0 && lab[t].pre == At(v, level + 1)
    requires Points(h[t][Idx(v, level)], level) && h[t][Idx(v, level)].frame == m && m in lab && lab[m].owner == lab[t].owner
    requires Reaches(h, lab, m, level - 1, v, pt)
    ensures Reaches(h, lab, t, level, v, pt)
  {
  }

  lemma ArrivedOver(a: Snap, b: Snap, c: Snap, f1: nat, f2: nat, t: nat, level: nat, v: nat, m: nat, pt: nat)
    requires Stepped(a, b, f1, t, level, v, m) && m != 0 && Arrived(b, c, f2, m, level - 1, v, pt)
    ensures Arrived(a, c, f2, t, level, v, pt)
  {
    hide Anchored, NoRoots, SameWalks, KeepsUsed, Walk, Reaches, At, Grew, Wf;
    ExtendsTrans(a, b, c);
    GrewTrans(a.tabs, a.lab, b.tabs, b.lab, c.tabs, c.lab, a.lab[t].owner);
    WalkDown(a, b, t, level, v, m);
    assert t in b.lab && b.lab[t] == a.lab[t] && c.tabs[t] == b.tabs[t];
    if pt != 0 {
      ReachUp(c.tabs, c.lab, t, level, v, m, pt);
    }
    forall u | u in a.lab && a.lab[u].level > level ensures u in a.tabs && u in c.tabs && c.tabs[u] == a.tabs[u] {
      assert u in b.lab && b.lab[u] == a.lab[u];
    }
  }

  lemma SteppedNowhere(a: Snap, b: Snap, free: nat, t: nat, level: nat, v: nat)
    requires Stepped(a, b, free, t, level, v, 0)
    ensures Arrived(a, b, free, t, level, v, 0)
  {
    hide Anchored, Grew, SameWalks, KeepsUsed, Walk;
  }

  lemma ArrivedHere(a: Snap, free: nat, t: nat, v: nat)
    requires Wf(a.tabs, a.lab) && |a.refs| == |a.mem| == |a.bits| && t in a.lab && t != 0 && a.lab[t].level == 0 && a.lab[t].pre == At(v, 1)
    ensures Arrived(a, a, free, t, 0, v, t)
  {
    GrewSame(a.tabs, a.lab, a.lab[t].owner);
    hide Grew, Anchored;
  }

  /** The outcome of mapping page v of `root` to leaf e. */
  ghost predicate MapDone(a: Snap, b: Snap, free: nat, root: nat, v: nat, e: Entry, ok: bool) {
    root in a.lab && Grown(a.lab, b.lab, a.bits, b.bits) && KeepsUsed(a.bits, a.refs, b.refs, a.mem, b.mem) && NoRoots(a.lab, b.lab) &&
    (Anchored(a.tabs, a.lab) ==> Anchored(b.tabs, b.lab)) && Touched(a.tabs, a.lab, b.tabs, b.lab, a.lab[root].owner, v) &&
    if ok then
      Walk(a.tabs, root, ROOT_LEVEL, v) == Miss && Walk(b.tabs, root, ROOT_LEVEL, v) == Hit(e, 0) &&
      SameWalksBut(a.tabs, b.tabs, a.lab, a.lab[root].owner, v)
    else
      Extends(a, b) && (free == 0 || Walk(a.tabs, root, ROOT_LEVEL, v).Hit?)
  }

  lemma MapStopped(a: Snap, b: Snap, free: nat, root: nat, v: nat, e: Entry)
    requires Arrived(a, b, free, root, ROOT_LEVEL, v, 0)
    ensures MapDone(a, b, free, root, v, e, false)
  {
    GrewTouched(a.tabs, a.lab, b.tabs, b.lab, a.lab[root].owner, v);
  }

  /** At the leaf table: taken already, or written. */
  lemma MapArrived(a: Snap, b: Snap, free: nat, root: nat, v: nat, pt: nat, e: Entry)
    requires Arrived(a, b, free, root, ROOT_LEVEL, v, pt) && pt != 0 && Tables(b.tabs, b.lab, b.bits) && IsRoot(a.lab, root) && v < VPAGES && e.p
    requires (e.us <==> a.lab[root].owner != 0) && Mappable(a.lab, a.bits, e.frame)
    ensures pt in b.tabs && |b.tabs[pt]| == FAN
    ensures b.tabs[pt][Idx(v, 0)].p ==> MapDone(a, b, free, root, v, e, false) && Walk(a.tabs, root, ROOT_LEVEL, v).Hit?
    ensures !b.tabs[pt][Idx(v, 0)].p ==> Walk(a.tabs, root, ROOT_LEVEL, v) == Miss
    ensures !b.tabs[pt][Idx(v, 0)].p ==>
      var c := b.(tabs := SetSlot(b.tabs, pt, Idx(v, 0), e));
      MapDone(a, c, free, root, v, e, true) && Tables(c.tabs, c.lab, c.bits)
  {
    hide Walk, SameWalks, SameWalksBut, Anchored, Grew, Touched, Reaches, LeavesUsed, Wf, KeepsUsed, NoRoots;
    LeafMapped(a, b, root, v, pt, e);
    GrewTouched(a.tabs, a.lab, b.tabs, b.lab, a.lab[root].owner, v);
  }

  /** Writing one leaf slot changes the walk of one page of one space. */
  lemma LeafWrite(h: Heap, lab: Labels, bits: seq<bool>, t: nat, i: nat, e: Entry)
    requires Tables(h, lab, bits) && t in lab && lab[t].level == 0 && i < FAN
    requires e.p ==> (e.us <==> lab[t].owner != 0)
    requires e.p && e.us ==> Mappable(lab, bits, e.frame)
    ensures Tables(SetSlot(h, t, i, e), lab, bits)
    ensures SameWalksBut(h, SetSlot(h, t, i, e), lab, lab[t].owner, lab[t].pre * FAN + i)
  {
    var h2 := SetSlot(h, t, i, e);
    forall u, j | u in lab && 0 <= j < FAN ensures u in h2 && |h2[u]| == FAN && EntryOk(lab, u, j, h2[u][j]) {
      assert EntryOk(lab, u, j, h[u][j]);
    }
    forall u, v: nat | u in lab && lab[u].pre == At(v, lab[u].level + 1) &&
        (v != lab[t].pre * FAN + i || (lab[t].owner != 0 && lab[u].owner != lab[t].owner))
      ensures Walk(h2, u, lab[u].level, v) == Walk(h, u, lab[u].level, v)
    {
      WalkElsewhere(h, lab, t, i, e, u, lab[u].level, v);
    }
  }

  /** A pointer entry to table c, and the label of the table below slot i. */
  function Link(c: nat, us: bool): Entry { Entry(true, true, us, false, false, false, false, c) }

  function Below(l: Label, i: nat): Label
    requires l.level > 0
  {
    Label(l.owner, l.level - 1, l.pre * FAN + i)
  }

  /** A fresh table can be linked anywhere a pointer may go. */
  lemma NewTableWf(h: Heap, lab: Labels, t: nat, i: nat, e: Entry)
    requires Wf(h, lab) && t in lab && i < FAN && !h[t][i].p && Points(e, lab[t].level) && e.frame !in lab
    requires e.us == (lab[t].owner != 0)
    ensures Wf(SetSlot(h[e.frame := ZeroTable()], t, i, e),
               lab[e.frame := Below(lab[t], i)])
  {
    var h2 := SetSlot(h[e.frame := ZeroTable()], t, i, e);
    var lab2 := lab[e.frame := Below(lab[t], i)];
    forall u, j | u in lab2 && 0 <= j < FAN ensures u in h2 && |h2[u]| == FAN && EntryOk(lab2, u, j, h2[u][j]) {
      if u != e.frame && !(u == t && j == i) {
        assert EntryOk(lab, u, j, h[u][j]);
      }
    }
  }

  lemma NewTable(h: Heap, lab: Labels, bits: seq<bool>, t: nat, i: nat, e: Entry)
    requires Tables(h, lab, bits) && t in lab && i < FAN && !h[t][i].p && Points(e, lab[t].level)
    requires 0 < e.frame < |bits| && !bits[e.frame] && e.us == (lab[t].owner != 0)
    ensures var h2 := SetSlot(h[e.frame := ZeroTable()], t, i, e);
      var lab2 := lab[e.frame := Below(lab[t], i)];
      Tables(h2, lab2, bits[e.frame := true]) && SameWalks(h, h2, lab) && Grown(lab, lab2, bits, bits[e.frame := true]) &&
      (Anchored(h, lab) ==> Anchored(h2, lab2)) && NoRoots(lab, lab2)
  {
    hide Anchored;
    NewTableWf(h, lab, t, i, e);
    if Anchored(h, lab) {
      AnchoredNew(h, lab, t, i, e);
    }
    forall u, v: nat | u in lab && lab[u].pre == At(v, lab[u].level + 1)
      ensures Walk(SetSlot(h[e.frame := ZeroTable()], t, i, e), u, lab[u].level, v) == Walk(h, u, lab[u].level, v)
    {
      WalkNewTable(h, lab, t, i, e, u, lab[u].level, v);
    }
  }

  lemma SetSame(h: Heap, t: nat, i: nat)
    requires t in h && i < |h[t]|
    ensures SetSlot(h, t, i, h[t][i]) == h
  {
    assert h[t][i := h[t][i]] == h[t];
  }

  /** The labels only grow, by frames that were free. */
  ghost predicate Grown(lab: Labels, lab2: Labels, bits: seq<bool>, bits2: seq<bool>) {
    |bits2| == |bits| &&
    (forall t :: t in lab ==> t in lab2 && lab2[t] == lab[t]) &&
    (forall t :: t in lab2 && t !in lab ==> t < |bits| && !bits[t]) &&
    (forall f :: 0 <= f < |bits| ==> bits2[f] == (bits[f] || (f in lab2 && f !in lab)))
  }

  /** Frame f is neither a table nor mapped for users. */
  ghost predicate Unnamed(h: Heap, lab: Labels, f: nat)
    requires Wf(h, lab)
  {
    f !in lab &&
    forall t, i {:trigger h[t][i]} :: t in lab && lab[t].level == 0 && 0 <= i < FAN && h[t][i].p && h[t][i].us ==>
      h[t][i].frame != f
  }

  /** A frame that may be mapped for users: in use (or beyond RAM) and no page table. */
  ghost predicate Mappable(lab: Labels, bits: seq<bool>, f: nat) {
    f != 0 && f !in lab && (f < |bits| ==> bits[f])
  }

  /** A frame mapped for users is in use and is not a page table. */
  ghost predicate LeavesUsed(h: Heap, lab: Labels, bits: seq<bool>)
    requires Wf(h, lab)
  {
    forall t, i {:trigger h[t][i]} :: t in lab && lab[t].level == 0 && 0 <= i < FAN && h[t][i].p && h[t][i].us ==>
      Mappable(lab, bits, h[t][i].frame)
  }

  /** The table heap: well formed, made of used frames, mapping used frames. */
  ghost predicate Tables(h: Heap, lab: Labels, bits: seq<bool>) {
    Wf(h, lab) && (forall t :: t in lab ==> 0 < t < |bits| && bits[t]) && LeavesUsed(h, lab, bits)
  }

  lemma AllocTables(h: Heap, lab: Labels, bits: seq<bool>, f: nat)
    requires Tables(h, lab, bits) && f < |bits| && !bits[f]
    ensures Tables(h[f := ZeroTable()], lab, bits[f := true])
  {
  }

  /** Frames that were in use keep their counts and contents. */
  ghost predicate KeepsUsed(bits: seq<bool>, refs: seq<nat>, refs2: seq<nat>, mem: seq<AS.Page>, mem2: seq<AS.Page>) {
    |refs| == |refs2| == |mem| == |mem2| == |bits| &&
    forall f :: 0 <= f < |bits| && bits[f] ==> refs2[f] == refs[f] && mem2[f] == mem[f]
  }
}
