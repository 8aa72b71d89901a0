/** The part of a space that is its own: the pages for which boot has no page directory.
    There every table is private, every mapping is a user mapping, and the comparison that
    teardown makes with the boot tables stays right. */
module UserSlots {
  import opened PageTables
  import opened Snapshots
  import opened SpaceCopy
  import opened SpaceTear
  import opened CloneSteps
  import opened CloneUndo
  import opened Refinement

  /** Boot, from its table b on, has no directory for page v. */
  predicate UserSlot(h: Heap, b: nat, level: nat, v: nat)
    decreases level
  {
    if level <= 1 then b == 0
    else
      var be := BootEntry(h, b, Idx(v, level));
      !be.p || (level > 2 && !be.ps && UserSlot(h, be.frame, level - 1, v))
  }

  /** Tables b of boot and t of a space cover the same pages. */
  ghost predicate Beside(lab: Labels, t: nat, b: nat, level: nat) {
    t in lab && lab[t].level == level && lab[t].owner != 0 && 0 !in lab && (b == 0 || (b in lab && lab[b].owner == 0 && lab[b].level == level))
  }

  lemma BesideChild(h: Heap, lab: Labels, t: nat, b: nat, level: nat, i: nat)
    requires Wf(h, lab) && Beside(lab, t, b, level) && level > 0 && i < FAN && Points(h[t][i], level) && h[t][i].us
    ensures Beside(lab, h[t][i].frame, BootChild(BootEntry(h, b, i)), level - 1)
  {
    assert EntryOk(lab, t, i, h[t][i]);
    if b != 0 {
      assert EntryOk(lab, b, i, h[b][i]);
    }
  }

  /** There the path of a page is the space's own. */
  lemma {:induction false} SlotOwns(h: Heap, lab: Labels, t: nat, b: nat, level: nat, v: nat)
    requires Wf(h, lab) && Beside(lab, t, b, level) && Apart(h, t, b, level) && UserSlot(h, b, level, v)
    ensures OwnPath(h, lab, t, level, v)
    decreases level
  {
    var i := Idx(v, level);
    var e, be := h[t][i], BootEntry(h, b, i);
    assert EntryOk(lab, t, i, e);
    if Points(e, level) {
      assert ApartEntry(h, e, be, level);
      BesideChild(h, lab, t, b, level, i);
      SlotOwns(h, lab, e.frame, BootChild(be), level - 1, v);
    }
  }

  /** Boot itself has nothing there. */
  lemma {:induction false} SlotMiss(h: Heap, lab: Labels, b: nat, level: nat, v: nat)
    requires Wf(h, lab) && 0 !in lab && b in lab && lab[b].level == level > 1 && UserSlot(h, b, level, v)
    ensures Walk(h, b, level, v) == Miss
    decreases level
  {
    var e := h[b][Idx(v, level)];
    assert EntryOk(lab, b, Idx(v, level), e);
    if e.p {
      SlotMiss(h, lab, e.frame, level - 1, v);
    }
  }

  /** Which pages those are depends on the shared tables only. */
  lemma {:induction false} SlotSame(h: Heap, h2: Heap, lab: Labels, b: nat, level: nat, v: nat)
    requires Wf(h, lab) && (b == 0 || (b in lab && lab[b].level == level && lab[b].owner == 0))
    requires forall t :: t in lab && lab[t].owner == 0 ==> t in h2 && h2[t] == h[t]
    ensures UserSlot(h2, b, level, v) == UserSlot(h, b, level, v)
    decreases level
  {
    if level > 1 && b != 0 {
      var e := h[b][Idx(v, level)];
      assert EntryOk(lab, b, Idx(v, level), e) && BootEntry(h2, b, Idx(v, level)) == e;
      if e.p && level > 2 && !e.ps {
        SlotSame(h, h2, lab, e.frame, level - 1, v);
      }
    }
  }

  // ---------------------------------------------------------------- the comparison stays right

  /** Mapping, unmapping or resolving page v of a task touches no shared table. */
  lemma TouchedShared(h: Heap, lab: Labels, h2: Heap, lab2: Labels, owner: nat, v: nat)
    requires Wf(h, lab) && Wf(h2, lab2) && Touched(h, lab, h2, lab2, owner, v) && owner != 0
    ensures forall t :: t in lab && lab[t].owner != owner ==> t in h2 && h2[t] == h[t]
  {
    hide EntryOk, At, Idx;
    forall t | t in lab && lab[t].owner != owner ensures t in h2 && h2[t] == h[t] {
      forall i | 0 <= i < FAN ensures h2[t][i] == h[t][i] {
        assert SlotGrew(h, lab, h2, lab2, owner, t, i);
      }
    }
  }

  lemma SlotStep(h: Heap, b: nat, level: nat, v: nat)
    requires level > 0 && UserSlot(h, b, level, v)
    ensures UserSlot(h, BootChild(BootEntry(h, b, Idx(v, level))), level - 1, v)
  {
  }

  lemma OnPath(pre: nat, i: nat, level: nat, v: nat)
    requires i < FAN && pre * FAN + i == At(v, level)
    ensures pre == At(v, level + 1) && i == Idx(v, level)
  {
  }

  /** Such an operation, for a page that is the task's own, keeps the comparison right for
      every space. */
  lemma {:induction false} ApartTouched(h: Heap, lab: Labels, h2: Heap, lab2: Labels, owner: nat, v: nat, t: nat, b: nat, level: nat)
    requires Wf(h, lab) && Wf(h2, lab2) && Touched(h, lab, h2, lab2, owner, v) && owner != 0
    requires Beside(lab2, t, b, level) && (b != 0 ==> b in lab)
    requires if t in lab then Apart(h, t, b, level) else lab2[t].owner == owner
    requires lab2[t].owner == owner && lab2[t].pre == At(v, level + 1) ==> UserSlot(h, b, level, v)
    ensures Apart(h2, t, b, level)
    decreases level
  {
    TouchedShared(h, lab, h2, lab2, owner, v);
    assert t != b;
    forall i | 0 <= i < FAN && h2[t][i].p ensures ApartEntry(h2, h2[t][i], BootEntry(h2, b, i), level) {
      TouchedEntry(h, lab, h2, lab2, owner, v, t, b, level, i);
      var e, be := h2[t][i], BootEntry(h2, b, i);
      if level > 0 && !e.ps && e.us {
        ApartTouched(h, lab, h2, lab2, owner, v, e.frame, BootChild(be), level - 1);
      }
    }
  }

  /** One entry: not shared with boot unless it was, and ready for the step down. */
  lemma TouchedEntry(h: Heap, lab: Labels, h2: Heap, lab2: Labels, owner: nat, v: nat, t: nat, b: nat, level: nat, i: nat)
    requires Wf(h, lab) && Wf(h2, lab2) && Touched(h, lab, h2, lab2, owner, v) && owner != 0
    requires Beside(lab2, t, b, level) && (b != 0 ==> b in lab) && i < FAN && h2[t][i].p
    requires if t in lab then Apart(h, t, b, level) else lab2[t].owner == owner
    requires lab2[t].owner == owner && lab2[t].pre == At(v, level + 1) ==> UserSlot(h, b, level, v)
    ensures BootEntry(h2, b, i) == BootEntry(h, b, i)
    ensures var e, be := h2[t][i], BootEntry(h, b, i);
      if level == 0 then e.us ==> !(be.p && be.frame == e.frame)
      else e.ps || (SharedEntry(be, e) <==> !e.us)
    ensures var e, be := h2[t][i], BootEntry(h, b, i);
      level > 0 && !e.ps && e.us ==>
        Beside(lab2, e.frame, BootChild(be), level - 1) && (BootChild(be) != 0 ==> BootChild(be) in lab) &&
        (if e.frame in lab then Apart(h, e.frame, BootChild(be), level - 1) else lab2[e.frame].owner == owner) &&
        (lab2[e.frame].owner == owner && lab2[e.frame].pre == At(v, level) ==> UserSlot(h, BootChild(be), level - 1, v))
  {
    hide Apart;
    TouchedShared(h, lab, h2, lab2, owner, v);
    var e, be := h2[t][i], BootEntry(h, b, i);
    assert EntryOk(lab2, t, i, e);
    if b != 0 {
      assert EntryOk(lab, b, i, h[b][i]) && h2[b] == h[b];
    }
    assert SlotGrew(h, lab, h2, lab2, owner, t, i) || (level == 0 && lab2[t].owner == owner && lab2[t].pre == At(v, 1) && i == Idx(v, 0));
    if t in lab {
      assert EntryOk(lab, t, i, h[t][i]);
      if e == h[t][i] {
        ApartAt(h, t, b, level, i);
      }
    }
    if level > 0 && !e.ps && e.us {
      BesideChild(h2, lab2, t, b, level, i);
      if lab2[e.frame].owner == owner && lab2[e.frame].pre == At(v, level) {
        OnPath(lab2[t].pre, i, level, v);
        SlotStep(h, b, level, v);
      }
    }
  }

  lemma ApartAt(h: Heap, t: nat, b: nat, level: nat, i: nat)
    requires Apart(h, t, b, level) && i < FAN && h[t][i].p
    ensures ApartEntry(h, h[t][i], BootEntry(h, b, i), level)
  {
  }

  /** Marking leaves copy-on-write keeps it right. */
  lemma {:induction false} ApartCow(cow: bool, fb: Display, h: Heap, h2: Heap, lab: Labels, owner: nat, t: nat, b: nat, level: nat)
    requires Wf(h, lab) && CowStep(cow, fb, h, h2, lab, owner) && Beside(lab, t, b, level) && Apart(h, t, b, level)
    ensures Apart(h2, t, b, level)
    decreases level
  {
    forall i | 0 <= i < FAN && h2[t][i].p ensures ApartEntry(h2, h2[t][i], BootEntry(h2, b, i), level) {
      var e := h[t][i];
      assert EntryOk(lab, t, i, e) && (h2[t][i] == e || (level == 0 && h2[t][i] == CopyEntry(cow, fb, e)));
      ApartAt(h, t, b, level, i);
      if b != 0 {
        assert EntryOk(lab, b, i, h[b][i]) && (h2[b][i] == h[b][i] || h2[b][i] == CopyEntry(cow, fb, h[b][i]));
      }
      if level > 0 && !e.ps && e.us {
        BesideChild(h, lab, t, b, level, i);
        ApartCow(cow, fb, h, h2, lab, owner, e.frame, BootChild(BootEntry(h, b, i)), level - 1);
      }
    }
  }

  // ---------------------------------------------------------------- what is mapped where

  /** User mappings lie in those slots, nothing else does, and none is large. */
  ghost predicate Paged(h: Heap, boot: nat, r: nat) {
    forall v: nat {:trigger Walk(h, r, ROOT_LEVEL, v)} :: v < VPAGES && Walk(h, r, ROOT_LEVEL, v).Hit? ==>
      (Walk(h, r, ROOT_LEVEL, v).e.us <==> UserSlot(h, boot, ROOT_LEVEL, v)) &&
      (Walk(h, r, ROOT_LEVEL, v).e.us ==> Walk(h, r, ROOT_LEVEL, v).level == 0)
  }

  function Lift(p: nat, k: nat): nat { if k == 0 then p else Lift(p, k - 1) * FAN }

  lemma {:induction false} LiftAt(p: nat, k: nat)
    ensures At(Lift(p, k), k) == p
  {
    if k > 0 {
      LiftAt(p, k - 1);
      AtBelow(Lift(p, k - 1), 0, k - 1);
    }
  }

  /** A user large page would be found by some walk. */
  lemma {:induction false} LargeWalk(h: Heap, lab: Labels, t: nat, level: nat, n: nat) returns (v: nat)
    requires Wf(h, lab) && t in lab && lab[t].level == level && n <= FAN && LargeTo(h, t, level, n)
    ensures At(v, level + 1) == lab[t].pre && Walk(h, t, level, v).Hit? && Walk(h, t, level, v).e.us && Walk(h, t, level, v).level > 0
    decreases level, n
  {
    hide At, Idx;
    var e := h[t][n - 1];
    assert EntryOk(lab, t, n - 1, e);
    if LargeTo(h, t, level, n - 1) {
      v := LargeWalk(h, lab, t, level, n - 1);
    } else if level > 0 && e.p && e.ps && e.us {
      v := Lift(lab[t].pre * FAN + (n - 1), level);
      LiftAt(lab[t].pre * FAN + (n - 1), level);
      SplitAt(v, level, lab[t].pre, n - 1);
    } else {
      v := LargeWalk(h, lab, e.frame, level - 1, FAN);
      SplitAt(v, level, lab[t].pre, n - 1);
    }
  }

  lemma PagedNotLarge(h: Heap, lab: Labels, boot: nat, r: nat)
    requires Wf(h, lab) && TaskRoot(lab, r) && Paged(h, boot, r)
    ensures !LargeTo(h, r, ROOT_LEVEL, FAN)
  {
    hide LargeTo, At, UserSlot;
    if LargeTo(h, r, ROOT_LEVEL, FAN) {
      var v := LargeWalk(h, lab, r, ROOT_LEVEL, FAN);
      InRange(v);
    }
  }

  // ---------------------------------------------------------------- both, for every task

  /** Every live space compares rightly with boot and keeps to its slots. */
  ghost predicate Orderly(h: Heap, boot: nat, live: set<nat>) {
    forall r :: r in live ==> Apart(h, r, boot, ROOT_LEVEL) && Paged(h, boot, r)
  }

  ghost predicate BootOk(lab: Labels, boot: nat) { IsRoot(lab, boot) && lab[boot].owner == 0 && 0 !in lab }

  /** The path of an own page is the space's own. */
  lemma OrderlyOwns(h: Heap, lab: Labels, boot: nat, live: set<nat>, r: nat, v: nat)
    requires Wf(h, lab) && BootOk(lab, boot) && Orderly(h, boot, live) && r in live && TaskRoot(lab, r) && UserSlot(h, boot, ROOT_LEVEL, v)
    ensures OwnPath(h, lab, r, ROOT_LEVEL, v)
  {
    SlotOwns(h, lab, r, boot, ROOT_LEVEL, v);
  }

  /** Changing page w of space r, where what is mapped after is again a user page. */
  lemma OrderlyTouched(h: Heap, lab: Labels, h2: Heap, lab2: Labels, boot: nat, live: set<nat>, r: nat, w: nat)
    requires Wf(h, lab) && Wf(h2, lab2) && 0 !in lab2 && BootOk(lab, boot) && Orderly(h, boot, live) && forall q :: q in live ==> TaskRoot(lab, q)
    requires r in live && w < VPAGES && Touched(h, lab, h2, lab2, r, w) && SameWalksBut(h, h2, lab, r, w) && UserSlot(h, boot, ROOT_LEVEL, w)
    requires Walk(h2, r, ROOT_LEVEL, w) == Miss || UserLeaf(Walk(h2, r, ROOT_LEVEL, w))
    ensures Orderly(h2, boot, live)
  {
    hide Apart, Touched, SameWalksBut, UserSlot, Walk, Wf;
    forall q | q in live ensures Apart(h2, q, boot, ROOT_LEVEL) && Paged(h2, boot, q) {
      OneTouched(h, lab, h2, lab2, boot, r, w, q);
    }
  }

  lemma OneTouched(h: Heap, lab: Labels, h2: Heap, lab2: Labels, boot: nat, r: nat, w: nat, q: nat)
    requires Wf(h, lab) && Wf(h2, lab2) && 0 !in lab2 && BootOk(lab, boot) && TaskRoot(lab, q) && TaskRoot(lab, r) && Apart(h, q, boot, ROOT_LEVEL) && Paged(h, boot, q)
    requires w < VPAGES && Touched(h, lab, h2, lab2, r, w) && SameWalksBut(h, h2, lab, r, w) && UserSlot(h, boot, ROOT_LEVEL, w)
    requires Walk(h2, r, ROOT_LEVEL, w) == Miss || UserLeaf(Walk(h2, r, ROOT_LEVEL, w))
    ensures Apart(h2, q, boot, ROOT_LEVEL) && Paged(h2, boot, q)
  {
    hide Apart, UserSlot, Walk;
    TouchedShared(h, lab, h2, lab2, r, w);
    ApartTouched(h, lab, h2, lab2, r, w, q, boot, ROOT_LEVEL);
    forall v: nat | v < VPAGES && Walk(h2, q, ROOT_LEVEL, v).Hit?
      ensures Walk(h2, q, ROOT_LEVEL, v).e.us <==> UserSlot(h2, boot, ROOT_LEVEL, v)
      ensures Walk(h2, q, ROOT_LEVEL, v).e.us ==> Walk(h2, q, ROOT_LEVEL, v).level == 0
    {
      SlotSame(h, h2, lab, boot, ROOT_LEVEL, v);
      TopIsZero(v);
      if !(q == r && v == w) {
        assert Walk(h2, q, lab[q].level, v) == Walk(h, q, lab[q].level, v);
      }
    }
  }

  /** Links were added and nothing else. */
  lemma OrderlyExtends(h: Heap, lab: Labels, h2: Heap, lab2: Labels, boot: nat, live: set<nat>, r: nat, w: nat)
    requires Wf(h, lab) && Wf(h2, lab2) && 0 !in lab2 && BootOk(lab, boot) && Orderly(h, boot, live) && forall q :: q in live ==> TaskRoot(lab, q)
    requires r in live && w < VPAGES && Touched(h, lab, h2, lab2, r, w) && SameWalks(h, h2, lab) && UserSlot(h, boot, ROOT_LEVEL, w)
    ensures Orderly(h2, boot, live)
  {
    hide Apart, Touched, UserSlot, Walk, Wf;
    TopIsZero(w);
    assert Walk(h2, r, lab[r].level, w) == Walk(h, r, lab[r].level, w);
    assert SameWalksBut(h, h2, lab, r, w);
    OrderlyTouched(h, lab, h2, lab2, boot, live, r, w);
  }

  /** A clone of boot or of a task. */
  lemma OrderlyClone(j: Job, a: Snap, fa: nat, b: Snap, fb: nat, boot: nat, live: set<nat>)
    requires Cloned(j, a, fa, b, fb) && j.level == ROOT_LEVEL && BootOk(a.lab, boot) && Orderly(a.tabs, boot, live) && forall q :: q in live ==> TaskRoot(a.lab, q)
    requires j.src == boot || j.src in live
    ensures Orderly(b.tabs, boot, live + {j.nf})
  {
    hide Apart, UserSlot, Walk, Wf, Cloned, Paged;
    CloneApart(j, a, fa, b, fb, boot);
    ClonePaged(j, a, fa, b, fb, boot, j.nf);
    forall q | q in live ensures Apart(b.tabs, q, boot, ROOT_LEVEL) && Paged(b.tabs, boot, q) {
      CloneOthers(j, a, fa, b, fb, boot, q);
    }
  }

  lemma CloneOthers(j: Job, a: Snap, fa: nat, b: Snap, fb: nat, boot: nat, q: nat)
    requires Cloned(j, a, fa, b, fb) && j.level == ROOT_LEVEL && BootOk(a.lab, boot) && TaskRoot(a.lab, q) && Apart(a.tabs, q, boot, ROOT_LEVEL) && Paged(a.tabs, boot, q)
    requires j.src == boot || (TaskRoot(a.lab, j.src) && Paged(a.tabs, boot, j.src))
    ensures Apart(b.tabs, q, boot, ROOT_LEVEL) && Paged(b.tabs, boot, q)
  {
    hide Apart, UserSlot, Walk, Wf, Paged;
    ApartCow(j.cow, j.fb, a.tabs, b.tabs, a.lab, a.lab[j.src].owner, q, boot, ROOT_LEVEL);
    ClonePaged(j, a, fa, b, fb, boot, q);
  }

  lemma CloneSlot(j: Job, a: Snap, fa: nat, b: Snap, fb: nat, boot: nat, v: nat)
    requires Cloned(j, a, fa, b, fb) && BootOk(a.lab, boot)
    ensures UserSlot(b.tabs, boot, ROOT_LEVEL, v) == UserSlot(a.tabs, boot, ROOT_LEVEL, v)
  {
    hide UserSlot, Walk;
    forall u | u in a.lab && a.lab[u].owner == 0 ensures u in b.tabs && b.tabs[u] == a.tabs[u] {
      SharedStays(j, a, fa, b, fb, u);
    }
    SlotSame(a.tabs, b.tabs, a.lab, boot, ROOT_LEVEL, v);
  }

  lemma ClonePaged(j: Job, a: Snap, fa: nat, b: Snap, fb: nat, boot: nat, q: nat)
    requires Cloned(j, a, fa, b, fb) && j.level == ROOT_LEVEL && BootOk(a.lab, boot) && (q == j.nf || (TaskRoot(a.lab, q) && Paged(a.tabs, boot, q)))
    requires j.src == boot || (TaskRoot(a.lab, j.src) && Paged(a.tabs, boot, j.src))
    ensures Paged(b.tabs, boot, q)
  {
    hide UserSlot, Walk, CostTo, CountTo, Counters, Grown, LeavesUsed, EntryOk;
    forall v: nat | v < VPAGES && Walk(b.tabs, q, ROOT_LEVEL, v).Hit?
      ensures Walk(b.tabs, q, ROOT_LEVEL, v).e.us <==> UserSlot(b.tabs, boot, ROOT_LEVEL, v)
      ensures Walk(b.tabs, q, ROOT_LEVEL, v).e.us ==> Walk(b.tabs, q, ROOT_LEVEL, v).level == 0
    {
      CloneSlot(j, a, fa, b, fb, boot, v);
      if q == j.nf {
        assert Walk(b.tabs, q, ROOT_LEVEL, v) == CopyHit(j.cow, j.fb, Walk(a.tabs, j.src, ROOT_LEVEL, v));
        if j.src == boot {
          SharedWalk(a.tabs, a.lab, boot, ROOT_LEVEL, v);
          if UserSlot(a.tabs, boot, ROOT_LEVEL, v) {
            SlotMiss(a.tabs, a.lab, boot, ROOT_LEVEL, v);
          }
        }
      } else {
        CowStepWalk(j.cow, j.fb, a.tabs, b.tabs, a.lab, a.lab[j.src].owner, q, ROOT_LEVEL, v);
      }
    }
  }

  /** A space is gone. */
  lemma OrderlyGone(h: Heap, h2: Heap, lab: Labels, boot: nat, live: set<nat>, r: nat)
    requires Wf(h, lab) && BootOk(lab, boot) && Orderly(h, boot, live) && (forall q :: q in live ==> TaskRoot(lab, q)) && r != 0
    requires forall w :: w in lab && lab[w].owner != r ==> w in h2 && h2[w] == h[w]
    ensures Orderly(h2, boot, live - {r})
  {
    hide Apart, UserSlot, Walk, EntryOk, At;
    forall q | q in live && q != r ensures Apart(h2, q, boot, ROOT_LEVEL) && Paged(h2, boot, q) {
      assert Agree(h, h2, lab, q, ROOT_LEVEL, lab[q].pre);
      ApartAgree(h, h2, lab, q, boot, ROOT_LEVEL);
      forall v: nat | v < VPAGES && Walk(h2, q, ROOT_LEVEL, v).Hit?
        ensures Walk(h2, q, ROOT_LEVEL, v).e.us <==> UserSlot(h2, boot, ROOT_LEVEL, v)
        ensures Walk(h2, q, ROOT_LEVEL, v).e.us ==> Walk(h2, q, ROOT_LEVEL, v).level == 0
      {
        SlotSame(h, h2, lab, boot, ROOT_LEVEL, v);
        OthersWalk(h, h2, lab, r, q, ROOT_LEVEL, v);
      }
    }
  }
}
