/** Cloning a space and tearing the clone down again. */
module CloneUndo {
  import opened PageTables
  import opened Snapshots
  import opened SpaceCopy
  import opened SpaceTear
  import opened CloneShape
  import opened CloneSteps
  import opened Vmm
  import R = Refinement

  /** Shared tables list no user frame and count none. */
  lemma {:induction false} SharedLists(h: Heap, lab: Labels, fb: Display, t: nat, level: nat, n: nat, f: nat)
    requires Wf(h, lab) && t in lab && lab[t].level == level && lab[t].owner == 0 && n <= FAN
    ensures LeavesTo(h, t, level, n) == [] && CountTo(h, fb, t, level, f, n) == 0
    decreases level, n
  {
    if n > 0 {
      SharedLists(h, lab, fb, t, level, n - 1, f);
      var e := h[t][n - 1];
      assert EntryOk(lab, t, n - 1, e);
      if Copies(e, level) {
        SharedLists(h, lab, fb, e.frame, level - 1, FAN, f);
        assert EntryCount(h, fb, e, level, f) == CountTo(h, fb, e.frame, level - 1, f, FAN);
      }
    }
  }

  /** The copy lists the frames of its source, in the same order. */
  lemma {:induction false} TwinLeaves(cow: bool, fb: Display, h0: Heap, lab: Labels, h: Heap, s: nat, t: nat, level: nat, n: nat)
    requires Wf(h0, lab) && s in lab && lab[s].level == level && Twin(cow, fb, level, h0, h, s, t) && n <= FAN
    ensures LeavesTo(h, t, level, n) == LeavesTo(h0, s, level, n)
    decreases level, n
  {
    if n > 0 {
      TwinLeaves(cow, fb, h0, lab, h, s, t, level, n - 1);
      var e0, ed := h0[s][n - 1], h[t][n - 1];
      assert TwinEntry(cow, fb, level, h0, h, e0, ed) && EntryOk(lab, s, n - 1, e0);
      if e0.p && level > 0 && Copies(e0, level) {
        TwinLeaves(cow, fb, h0, lab, h, e0.frame, ed.frame, level - 1, FAN);
        assert EntryLeaves(h, ed, level) == LeavesTo(h, ed.frame, level - 1, FAN);
        if !e0.us {
          SharedLists(h0, lab, fb, e0.frame, level - 1, FAN, 0);
        } else {
          assert EntryLeaves(h0, e0, level) == LeavesTo(h0, e0.frame, level - 1, FAN);
        }
      }
    }
  }

  /** The copy has one table for each that the clone pays for. */
  lemma {:induction false} TwinTabs(cow: bool, fb: Display, h0: Heap, h: Heap, s: nat, t: nat, level: nat, n: nat)
    requires Twin(cow, fb, level, h0, h, s, t) && n <= FAN
    ensures |TabsTo(h, t, level, n)| == CostTo(h0, s, level, n)
    decreases level, n
  {
    if n > 0 {
      TwinTabs(cow, fb, h0, h, s, t, level, n - 1);
      var e0, ed := h0[s][n - 1], h[t][n - 1];
      assert TwinEntry(cow, fb, level, h0, h, e0, ed);
      if Copies(e0, level) {
        TwinTabs(cow, fb, h0, h, e0.frame, ed.frame, level - 1, FAN);
        assert EntryTabs(h, ed, level) == TabsTo(h, ed.frame, level - 1, FAN) + [ed.frame];
        assert EntryCost(h0, e0, level) == CloneCost(h0, e0.frame, level - 1);
      } else {
        assert EntryTabs(h, ed, level) == [];
      }
    }
  }

  /** What the copy lists, and how much. */
  lemma CloneLists(j: Job, a: Snap, fa: nat, b: Snap, fb: nat)
    requires Cloned(j, a, fa, b, fb)
    ensures LeavesTo(b.tabs, j.nf, j.level, FAN) == LeavesTo(a.tabs, j.src, j.level, FAN)
    ensures |TabsTo(b.tabs, j.nf, j.level, FAN)| + 1 == CloneCost(a.tabs, j.src, j.level)
  {
    hide LeavesTo, TabsTo, SameCopy, Counters, CowStep, Linked, LeavesUsed, EntryOk, CostTo;
    TwinLeaves(j.cow, j.fb, a.tabs, a.lab, b.tabs, j.src, j.nf, j.level, FAN);
    TwinTabs(j.cow, j.fb, a.tabs, b.tabs, j.src, j.nf, j.level, FAN);
  }

  /** A copy of the boot space, or of a space the comparison with boot sorts rightly, is
      sorted rightly too. */
  lemma {:induction false} TwinApart(cow: bool, fb: Display, h0: Heap, lab0: Labels, h: Heap, lab: Labels, s: nat, t: nat, b: nat, level: nat)
    requires Wf(h0, lab0) && Wf(h, lab) && s in lab0 && lab0[s].level == level && t in lab && lab[t].level == level && lab[t].owner != 0
    requires Twin(cow, fb, level, h0, h, s, t)
    requires 0 !in lab && forall u :: u in lab0 ==> u in lab && lab[u] == lab0[u]
    requires forall u :: u in lab0 && lab0[u].owner == 0 ==> u in h && u in h0 && h[u] == h0[u]
    requires b == 0 || (b in lab0 && lab0[b].owner == 0 && lab0[b].level == level)
    requires (s == b && b != 0) || (lab0[s].owner != 0 && Apart(h0, s, b, level))
    ensures Apart(h, t, b, level)
    decreases level
  {
    if b != 0 {
      assert lab[b].owner == 0;
    }
    forall i | 0 <= i < FAN && h[t][i].p ensures ApartEntry(h, h[t][i], BootEntry(h, b, i), level) {
      var e0, ed, be := h0[s][i], h[t][i], BootEntry(h0, b, i);
      assert be == BootEntry(h, b, i) && TwinEntry(cow, fb, level, h0, h, e0, ed);
      assert EntryOk(lab0, s, i, e0) && EntryOk(lab, t, i, ed);
      if b != 0 {
        assert EntryOk(lab0, b, i, h0[b][i]);
      }
      assert if s == b then be == e0 else ApartEntry(h0, e0, be, level);
      if level > 0 && Copies(e0, level) {
        TwinApart(cow, fb, h0, lab0, h, lab, e0.frame, ed.frame, BootChild(be), level - 1);
      }
    }
  }

  /** Frame f is as it was: in use or not, with the same count if in use. */
  predicate Restored(a: Snap, refs: seq<nat>, bits: seq<bool>, f: nat)
    requires f < |a.bits| == |a.refs| == |refs| == |bits|
  {
    bits[f] == a.bits[f] && (a.bits[f] ==> refs[f] == a.refs[f])
  }

  /** The counts cover the source: every frame it maps is counted, and one more space
      would not saturate a count. */
  ghost predicate Counted(a: Snap, fb: Display, src: nat) {
    forall f :: 0 <= f < |a.refs| && f in LeavesTo(a.tabs, src, ROOT_LEVEL, FAN) && !Shown(fb, f) ==>
      1 <= a.refs[f] && a.refs[f] + Times(LeavesTo(a.tabs, src, ROOT_LEVEL, FAN), f) <= REF_MAX
  }

  /** Teardown undoes clone: after it a frame is as it was before the clone if and only if
      it is not a display page that the space maps. */
  lemma CloneUndone(j: Job, a: Snap, fa: nat, b: Snap, fb: nat, refs: seq<nat>, bits: seq<bool>, f: nat)
    requires Cloned(j, a, fa, b, fb) && j.level == ROOT_LEVEL && j.space == j.nf && Counted(a, j.fb, j.src)
    requires forall t :: t in a.lab ==> a.lab[t].owner != j.nf
    requires Freed(b.refs, b.bits, refs, bits, LeavesTo(b.tabs, j.nf, ROOT_LEVEL, FAN), TabsTo(b.tabs, j.nf, ROOT_LEVEL, FAN) + [j.nf])
    requires f < NFRAMES && |bits| == NFRAMES
    ensures Restored(a, refs, bits, f) <==> !(a.bits[f] && Shown(j.fb, f) && f in LeavesTo(a.tabs, j.src, ROOT_LEVEL, FAN))
  {
    hide LeavesTo, TabsTo, CountTo, Twin, Wf, LeavesUsed, CowStep, SameCopy, CostTo, Sat, RefAfter;
    TwinLeaves(j.cow, j.fb, a.tabs, a.lab, b.tabs, j.src, j.nf, ROOT_LEVEL, FAN);
    NewTables(j, a, fa, b, fb, f);
    var data := LeavesTo(a.tabs, j.src, ROOT_LEVEL, FAN);
    assert Times(data, f) > 0 <==> f in data;
    if a.bits[f] {
      CountedAs(a, j.fb, j.src, f);
      Refund(a.refs[f], b.refs[f], Times(data, f), Shown(j.fb, f));
    }
  }

  /** One frame in use, counted by a clone and then put k times. */
  lemma Refund(before: nat, after: nat, k: nat, shown: bool)
    requires before <= REF_MAX && after == Sat(before + if shown then 0 else k)
    requires k > 0 && !shown ==> 1 <= before && before + k <= REF_MAX
    ensures BitAfter(true, after, k) && RefAfter(after, k) == before <==> !(shown && k > 0)
  {
  }

  /** The frames a clone takes are the tables a teardown of the copy frees. */
  lemma NewTables(j: Job, a: Snap, fa: nat, b: Snap, fb: nat, f: nat)
    requires Cloned(j, a, fa, b, fb) && j.level == ROOT_LEVEL && j.space == j.nf && f < NFRAMES
    requires forall t :: t in a.lab ==> a.lab[t].owner != j.nf
    ensures b.bits[f] <==> a.bits[f] || f in TabsTo(b.tabs, j.nf, ROOT_LEVEL, FAN) + [j.nf]
    ensures a.bits[f] ==> f !in TabsTo(b.tabs, j.nf, ROOT_LEVEL, FAN) + [j.nf]
  {
    hide LeavesTo, TabsTo, CountTo, Twin, Wf, LeavesUsed, CowStep, SameCopy, CostTo;
    ListedTables(b.tabs, b.lab, b.bits, j.nf, ROOT_LEVEL, FAN);
    var tabs := TabsTo(b.tabs, j.nf, ROOT_LEVEL, FAN) + [j.nf];
    assert f in tabs <==> f == j.nf || f in TabsTo(b.tabs, j.nf, ROOT_LEVEL, FAN);
    assert f in tabs ==> f in b.lab && b.lab[f].owner == j.nf;
    assert f in b.lab && f !in a.lab ==> f in tabs;
    assert b.bits[f] == (a.bits[f] || (f in b.lab && f !in a.lab));
  }

  /** What a clone adds to a frame's count. */
  lemma CountedAs(a: Snap, fb: Display, src: nat, f: nat)
    requires Wf(a.tabs, a.lab) && src in a.lab && a.lab[src].level == ROOT_LEVEL
    ensures CountTo(a.tabs, fb, src, ROOT_LEVEL, f, FAN) == if Shown(fb, f) then 0 else Times(LeavesTo(a.tabs, src, ROOT_LEVEL, FAN), f)
  {
    if a.lab[src].owner == 0 {
      SharedLists(a.tabs, a.lab, fb, src, ROOT_LEVEL, FAN, f);
    } else if Shown(fb, f) {
      R.NoneShown(a.tabs, a.lab, fb, src, ROOT_LEVEL, f, FAN);
    } else {
      R.CountIsTimes(a.tabs, a.lab, fb, src, ROOT_LEVEL, f, FAN);
    }
  }

  /** The space just cloned can be torn down: nothing it shares with boot looks private. */
  lemma CloneApart(j: Job, a: Snap, fa: nat, b: Snap, fb: nat, boot: nat)
    requires Cloned(j, a, fa, b, fb) && j.level == ROOT_LEVEL && IsRoot(a.lab, boot) && a.lab[boot].owner == 0
    requires j.src == boot || (a.lab[j.src].owner != 0 && Apart(a.tabs, j.src, boot, ROOT_LEVEL))
    ensures Apart(b.tabs, j.nf, boot, ROOT_LEVEL)
  {
    forall u | u in a.lab && a.lab[u].owner == 0 ensures u in b.tabs && u in a.tabs && b.tabs[u] == a.tabs[u] {
      SharedStays(j, a, fa, b, fb, u);
    }
    TwinApart(j.cow, j.fb, a.tabs, a.lab, b.tabs, b.lab, j.src, j.nf, boot, ROOT_LEVEL);
  }

  lemma SharedStays(j: Job, a: Snap, fa: nat, b: Snap, fb: nat, u: nat)
    requires Around(j, a, fa, b, fb, FAN) && u in a.lab && a.lab[u].owner == 0
    ensures u in b.tabs && u in a.tabs && b.tabs[u] == a.tabs[u]
  {
    forall i | 0 <= i < FAN ensures b.tabs[u][i] == a.tabs[u][i] {
      assert EntryOk(a.lab, u, i, a.tabs[u][i]);
      assert b.tabs[u][i] == a.tabs[u][i] || b.tabs[u][i] == CopyEntry(j.cow, j.fb, a.tabs[u][i]);
    }
    assert |b.tabs[u]| == |a.tabs[u]|;
  }

  /** Every private table belongs to a space whose root is there. */
  ghost predicate Rooted(lab: Labels) {
    forall t :: t in lab && lab[t].owner != 0 ==> lab[t].owner in lab
  }

  /** The space maps no display page that the counters cover. */
  ghost predicate Undisplayed(h: Heap, fb: Display, src: nat) {
    forall f :: f in LeavesTo(h, src, ROOT_LEVEL, FAN) && f < NFRAMES ==> !Shown(fb, f)
  }

  /** After the clone the counts cover everyone but the copy. */
  lemma CloneSpared(j: Job, a: Snap, fa: nat, b: Snap, fb: nat)
    requires Cloned(j, a, fa, b, fb) && j.level == ROOT_LEVEL && Counted(a, j.fb, j.src) && Undisplayed(a.tabs, j.fb, j.src)
    ensures Wf(b.tabs, b.lab) && Spared(b.tabs, b.lab, b.refs, j.nf)
  {
    hide LeavesTo, CountTo, Twin, Wf, LeavesUsed, CowStep, SameCopy, CostTo, Linked, Grown;
    TwinLeaves(j.cow, j.fb, a.tabs, a.lab, b.tabs, j.src, j.nf, ROOT_LEVEL, FAN);
    var data := LeavesTo(a.tabs, j.src, ROOT_LEVEL, FAN);
    forall f: nat | f < NFRAMES && Times(data, f) > 0 ensures b.refs[f] > Times(data, f) {
      assert f in data;
      CountedAs(a, j.fb, j.src, f);
      SourceUsed(a, j.fb, j.src, f);
    }
  }

  /** The frames a space maps are in use. */
  lemma SourceUsed(a: Snap, fb: Display, src: nat, f: nat)
    requires Tables(a.tabs, a.lab, a.bits) && src in a.lab && a.lab[src].level == ROOT_LEVEL
    requires f in LeavesTo(a.tabs, src, ROOT_LEVEL, FAN) && f < |a.bits|
    ensures a.bits[f]
  {
    if a.lab[src].owner == 0 {
      SharedLists(a.tabs, a.lab, fb, src, ROOT_LEVEL, FAN, f);
    } else {
      ListedTables(a.tabs, a.lab, a.bits, src, ROOT_LEVEL, FAN);
    }
  }

  /** All frames at once, for a space without display pages. */
  lemma CloneRestores(j: Job, a: Snap, fa: nat, b: Snap, fb: nat, refs: seq<nat>, bits: seq<bool>)
    requires Cloned(j, a, fa, b, fb) && j.level == ROOT_LEVEL && j.space == j.nf && Counted(a, j.fb, j.src)
    requires Undisplayed(a.tabs, j.fb, j.src) && Rooted(a.lab) && |bits| == |refs| == NFRAMES
    requires Freed(b.refs, b.bits, refs, bits, LeavesTo(b.tabs, j.nf, ROOT_LEVEL, FAN), TabsTo(b.tabs, j.nf, ROOT_LEVEL, FAN) + [j.nf])
    ensures bits == a.bits && |a.refs| == NFRAMES && forall f :: 0 <= f < NFRAMES && a.bits[f] ==> refs[f] == a.refs[f]
  {
    hide LeavesTo, TabsTo, CountTo, Twin, Wf, LeavesUsed, CowStep, SameCopy, CostTo, Linked, Grown, Freed, Counted;
    forall f | 0 <= f < NFRAMES ensures bits[f] == a.bits[f] && (a.bits[f] ==> refs[f] == a.refs[f]) {
      CloneUndone(j, a, fa, b, fb, refs, bits, f);
    }
  }

  /** The roots after a clone: the copy is one, and the others still are. */
  lemma CloneRoots(j: Job, a: Snap, fa: nat, b: Snap, fb: nat, r: nat)
    requires Cloned(j, a, fa, b, fb) && j.level == ROOT_LEVEL && j.space == j.nf && IsRoot(a.lab, j.src) && IsRoot(a.lab, r)
    ensures IsRoot(b.lab, j.nf) && b.lab[j.nf].owner == j.nf && IsRoot(b.lab, r) && b.lab[r] == a.lab[r]
  {
    hide LeavesTo, TabsTo, CountTo, Twin, Wf, LeavesUsed, CowStep, SameCopy, CostTo, Linked, Counters;
  }

  /** vmm_clone_space followed by vmm_teardown_space: unless the copy was refused or too
      large to tear down, a frame is as it was if and only if it is no display page that
      the space maps; without such pages all of memory is as it was. */
  method CloneThenTeardown(m: Manager, src: nat, cow: bool) returns (r: nat, l: TearList)
    requires m.Valid() && IsRoot(m.lab, src) && Rooted(m.lab) && IsRoot(m.lab, m.boot) && m.lab[m.boot].owner == 0
    requires src == m.boot || (m.lab[src].owner != 0 && Apart(m.tabs, src, m.boot, ROOT_LEVEL))
    requires Counted(m.Now(), m.display, src)
    modifies m
    ensures !LargeTo(old(m.tabs), src, ROOT_LEVEL, FAN) ==> (r != 0 <==> old(m.freeN) >= Reserve(old(m.tabs), src))
    ensures r != 0 ==> (l.stuck <==> |LeavesTo(old(m.tabs), src, ROOT_LEVEL, FAN)| > 256 || CloneCost(old(m.tabs), src, ROOT_LEVEL) > 64)
    ensures r != 0 && !l.stuck ==> m.FramesOk() && forall f :: 0 <= f < NFRAMES ==>
      (Restored(old(m.Now()), m.refs, m.bits, f) <==>
       !(old(m.bits)[f] && Shown(m.display, f) && f in LeavesTo(old(m.tabs), src, ROOT_LEVEL, FAN)))
    ensures r != 0 && !l.stuck && Undisplayed(old(m.tabs), m.display, src) ==> m.Valid() && m.bits == old(m.bits) && m.freeN == old(m.freeN)
  {
    hide LeavesTo, TabsTo, Cloned, Wf, LeavesUsed, Apart, Spared, Freed, Counted, Undisplayed, IsRoot, Rooted, Restored, LargeTo, Reserve, CloneCost;
    ghost var a, fa := m.Now(), m.freeN;
    l := TearList([], [], false);
    r := m.CloneSpace(src, cow);
    if r == 0 { return; }
    ghost var j, b, fb := Job(cow, m.display, src, r, ROOT_LEVEL, r), m.Now(), m.freeN;
    CloneRoots(j, a, fa, b, fb, m.boot);
    CloneApart(j, a, fa, b, fb, m.boot);
    CloneLists(j, a, fa, b, fb);
    l := m.Teardown(r);
    if l.stuck { return; }
    forall f | 0 <= f < NFRAMES
      ensures Restored(a, m.refs, m.bits, f) <==> !(a.bits[f] && Shown(m.display, f) && f in LeavesTo(a.tabs, src, ROOT_LEVEL, FAN))
    {
      CloneFrame(j, a, fa, b, fb, m.refs, m.bits, f);
    }
    if Undisplayed(a.tabs, m.display, src) {
      CloneSpared(j, a, fa, b, fb);
      CloneRestores(j, a, fa, b, fb, m.refs, m.bits);
    }
  }

  lemma CloneFrame(j: Job, a: Snap, fa: nat, b: Snap, fb: nat, refs: seq<nat>, bits: seq<bool>, f: nat)
    requires Cloned(j, a, fa, b, fb) && j.level == ROOT_LEVEL && j.space == j.nf && Counted(a, j.fb, j.src) && Rooted(a.lab) && f < NFRAMES
    requires Freed(b.refs, b.bits, refs, bits, LeavesTo(b.tabs, j.nf, ROOT_LEVEL, FAN), TabsTo(b.tabs, j.nf, ROOT_LEVEL, FAN) + [j.nf]) && |bits| == NFRAMES
    ensures |a.bits| == |a.refs| == |refs| == NFRAMES
    ensures Restored(a, refs, bits, f) <==> !(a.bits[f] && Shown(j.fb, f) && f in LeavesTo(a.tabs, j.src, ROOT_LEVEL, FAN))
  {
    hide LeavesTo, TabsTo, CountTo, Twin, Wf, LeavesUsed, CowStep, SameCopy, CostTo, Linked, Grown, Counted;
    CloneUndone(j, a, fa, b, fb, refs, bits, f);
  }
}
