/** What cloning an address space means on page tables: which leaves become
    copy-on-write, how many frames the copy takes, how often each frame is counted. */
module SpaceCopy {
  import opened PageTables

  /** The frames of the display: shared as they are, never counted. */
  datatype Display = Display(lo: nat, hi: nat)

  predicate Shown(fb: Display, f: nat) { fb.lo <= f < fb.hi }

  /** The leaf both sides hold after a clone: writable user pages turn copy-on-write. */
  function CopyEntry(cow: bool, fb: Display, e: Entry): Entry {
    if cow && e.p && e.us && e.rw && !Shown(fb, e.frame)
    then Entry(true, false, true, false, true, e.nx, false, e.frame) else e
  }

  function CopyHit(cow: bool, fb: Display, w: Hit): Hit {
    if w.Hit? && w.level == 0 then Hit(CopyEntry(cow, fb, w.e), 0) else w
  }

  /** Entries whose subtree a clone copies; the others are shared by pointer. */
  predicate Copies(e: Entry, level: nat) {
    Points(e, level) && (e.us || level == ROOT_LEVEL)
  }

  // ---------------------------------------------------------------- counting

  /** User leaves naming frame f below table t (display pages not counted). */
  function LeafCount(h: Heap, fb: Display, t: nat, level: nat, f: nat): nat
    decreases level, FAN + 1
  {
    CountTo(h, fb, t, level, f, FAN)
  }

  function CountTo(h: Heap, fb: Display, t: nat, level: nat, f: nat, n: nat): nat
    decreases level, n
  {
    if n == 0 || n > FAN || t !in h || |h[t]| != FAN then 0
    else CountTo(h, fb, t, level, f, n - 1) + EntryCount(h, fb, h[t][n - 1], level, f)
  }

  function EntryCount(h: Heap, fb: Display, e: Entry, level: nat, f: nat): nat
    decreases level, 0
  {
    if level == 0 then (if e.p && e.us && e.frame == f && !Shown(fb, f) then 1 else 0)
    else if Copies(e, level) then LeafCount(h, fb, e.frame, level - 1, f) else 0
  }

  /** Frames clone_level allocates below and including the copy of table t. */
  function CloneCost(h: Heap, t: nat, level: nat): nat
    decreases level, FAN + 1
  {
    1 + CostTo(h, t, level, FAN)
  }

  function CostTo(h: Heap, t: nat, level: nat, n: nat): nat
    decreases level, n
  {
    if n == 0 || n > FAN || t !in h || |h[t]| != FAN then 0
    else CostTo(h, t, level, n - 1) + EntryCost(h, h[t][n - 1], level)
  }

  function EntryCost(h: Heap, e: Entry, level: nat): nat
    decreases level, 0
  {
    if Copies(e, level) then CloneCost(h, e.frame, level - 1) else 0
  }

  /** count_clone: the user tables below t. */
  function UserTables(h: Heap, t: nat, level: nat): nat
    decreases level, FAN + 1
  {
    UserTablesTo(h, t, level, FAN)
  }

  function UserTablesTo(h: Heap, t: nat, level: nat, n: nat): nat
    decreases level, n
  {
    if n == 0 || n > FAN || t !in h || |h[t]| != FAN then 0
    else
      var e := h[t][n - 1];
      UserTablesTo(h, t, level, n - 1) +
      if Points(e, level) && e.us then 1 + UserTables(h, e.frame, level - 1) else 0
  }

  /** A user large page among the first n entries of t or below: clone refuses those. */
  predicate LargeTo(h: Heap, t: nat, level: nat, n: nat)
    decreases level, n
  {
    n > 0 && n <= FAN && t in h && |h[t]| == FAN &&
    (LargeTo(h, t, level, n - 1) ||
     var e := h[t][n - 1];
     (level > 0 && e.p && e.ps && e.us) || (Copies(e, level) && LargeTo(h, e.frame, level - 1, FAN)))
  }

  function PresentTo(es: seq<Entry>, n: nat): nat
    requires n <= |es|
  {
    if n == 0 then 0 else PresentTo(es, n - 1) + if es[n - 1].p then 1 else 0
  }

  // ---------------------------------------------------------------- the reservation suffices

  lemma {:induction false} CostIsTables(h: Heap, t: nat, level: nat, n: nat)
    requires n <= FAN && level < ROOT_LEVEL
    ensures CostTo(h, t, level, n) == UserTablesTo(h, t, level, n)
    decreases level, n
  {
    if n > 0 && t in h && |h[t]| == FAN {
      CostIsTables(h, t, level, n - 1);
      var e := h[t][n - 1];
      if Copies(e, level) {
        CostIsTables(h, e.frame, level - 1, FAN);
        assert EntryCost(h, e, level) == 1 + CostTo(h, e.frame, level - 1, FAN);
        assert UserTables(h, e.frame, level - 1) == UserTablesTo(h, e.frame, level - 1, FAN);
      }
    }
  }

  /** Shared tables hold no user entries, so nothing below them is counted. */
  lemma {:induction false} SharedHasNone(h: Heap, lab: Labels, t: nat, level: nat, n: nat)
    requires Wf(h, lab) && t in lab && lab[t].level == level && lab[t].owner == 0 && n <= FAN
    ensures UserTablesTo(h, t, level, n) == 0
  {
    if n > 0 {
      SharedHasNone(h, lab, t, level, n - 1);
      assert EntryOk(lab, t, n - 1, h[t][n - 1]);
    }
  }

  /** PML4 entries that lead to user tables, or are no tables at all. */
  function SparedTo(es: seq<Entry>, n: nat): nat
    requires n <= |es|
  {
    if n == 0 then 0 else SparedTo(es, n - 1) + if es[n - 1].p && (es[n - 1].us || es[n - 1].ps) then 1 else 0
  }

  /** One PML4, a PDPT per present entry and the counted user tables are enough: the PDPT of a
      user entry is counted twice, one is counted for a large page, and that is all that is
      left over. */
  lemma {:induction false} ReservationTo(h: Heap, lab: Labels, root: nat, n: nat)
    requires Wf(h, lab) && IsRoot(lab, root) && n <= FAN
    ensures CostTo(h, root, ROOT_LEVEL, n) + SparedTo(h[root], n) == PresentTo(h[root], n) + UserTablesTo(h, root, ROOT_LEVEL, n)
  {
    if n > 0 {
      ReservationTo(h, lab, root, n - 1);
      var e := h[root][n - 1];
      assert EntryOk(lab, root, n - 1, e);
      if Copies(e, ROOT_LEVEL) {
        CostIsTables(h, e.frame, ROOT_LEVEL - 1, FAN);
        if !e.us {
          SharedHasNone(h, lab, e.frame, ROOT_LEVEL - 1, FAN);
        }
      }
    }
  }

  /** The frames clone_space_reserved asks for. */
  function Reserve(h: Heap, root: nat): nat {
    if root in h && |h[root]| == FAN then 1 + PresentTo(h[root], FAN) + UserTables(h, root, ROOT_LEVEL) else 0
  }

  lemma RootShape(h: Heap, lab: Labels, root: nat)
    requires Wf(h, lab) && IsRoot(lab, root)
    ensures root in h && |h[root]| == FAN && root in lab && lab[root].level == ROOT_LEVEL
  {
  }

  lemma Reservation(h: Heap, lab: Labels, root: nat)
    requires Wf(h, lab) && IsRoot(lab, root)
    ensures root in h && |h[root]| == FAN && Reserve(h, root) == CloneCost(h, root, ROOT_LEVEL) + SparedTo(h[root], FAN)
  {
    ReservationTo(h, lab, root, FAN);
  }

  lemma {:induction false} CostGrows(h: Heap, t: nat, level: nat, m: nat, n: nat)
    requires m <= n <= FAN
    ensures CostTo(h, t, level, m) <= CostTo(h, t, level, n)
    decreases n
  {
    if m < n {
      CostGrows(h, t, level, m, n - 1);
    }
  }

  // ---------------------------------------------------------------- marking leaves copy-on-write

  /** h2 is h with some leaves of the tables of `owner` turned copy-on-write. */
  ghost predicate CowStep(cow: bool, fb: Display, h: Heap, h2: Heap, lab: Labels, owner: nat) {
    forall t :: t in lab ==>
      t in h && t in h2 && |h[t]| == FAN && |h2[t]| == FAN &&
      forall i {:trigger h2[t][i]} :: 0 <= i < FAN ==>
        h2[t][i] == h[t][i] || (lab[t].level == 0 && lab[t].owner == owner && h2[t][i] == CopyEntry(cow, fb, h[t][i]))
  }

  lemma CowStepTrans(cow: bool, fb: Display, h: Heap, h2: Heap, h3: Heap, lab: Labels, lab2: Labels, owner: nat)
    requires CowStep(cow, fb, h, h2, lab, owner) && CowStep(cow, fb, h2, h3, lab2, owner)
    requires forall t :: t in lab ==> t in lab2 && lab2[t] == lab[t]
    ensures CowStep(cow, fb, h, h3, lab, owner)
  {
    forall t, i | t in lab && 0 <= i < FAN
      ensures h3[t][i] == h[t][i] || (lab[t].level == 0 && lab[t].owner == owner && h3[t][i] == CopyEntry(cow, fb, h[t][i]))
    {
      assert h2[t][i] == h[t][i] || h2[t][i] == CopyEntry(cow, fb, h[t][i]);
    }
  }

  /** After such a step a walk ends where it did, possibly copy-on-write. */
  lemma {:induction false} CowStepWalk(cow: bool, fb: Display, h: Heap, h2: Heap, lab: Labels, owner: nat,
                                       t: nat, level: nat, v: nat)
    requires Wf(h, lab) && CowStep(cow, fb, h, h2, lab, owner) && t in lab && lab[t].level == level
    ensures Walk(h2, t, level, v) == Walk(h, t, level, v) || Walk(h2, t, level, v) == CopyHit(cow, fb, Walk(h, t, level, v))
    ensures lab[t].owner != owner ==> Walk(h2, t, level, v) == Walk(h, t, level, v)
    decreases level
  {
    var i := Idx(v, level);
    var e := h[t][i];
    assert EntryOk(lab, t, i, e);
    assert h2[t][i] == e || h2[t][i] == CopyEntry(cow, fb, e);
    if Points(e, level) {
      CowStepWalk(cow, fb, h, h2, lab, owner, e.frame, level - 1, v);
      if lab[t].owner != owner && lab[e.frame].owner == owner {
        SharedWalk(h, lab, e.frame, level - 1, v);
      }
    }
  }

  /** Shared tables map nothing for users. */
  lemma {:induction false} SharedWalk(h: Heap, lab: Labels, t: nat, level: nat, v: nat)
    requires Wf(h, lab) && t in lab && lab[t].level == level && lab[t].owner == 0
    ensures Walk(h, t, level, v).Hit? ==> !Walk(h, t, level, v).e.us
    decreases level
  {
    var e := h[t][Idx(v, level)];
    assert EntryOk(lab, t, Idx(v, level), e);
    if Points(e, level) {
      SharedWalk(h, lab, e.frame, level - 1, v);
    }
  }

  lemma {:induction false} CowStepCount(cow: bool, fb: Display, h: Heap, h2: Heap, lab: Labels, owner: nat,
                                        t: nat, level: nat, f: nat, n: nat)
    requires Wf(h, lab) && CowStep(cow, fb, h, h2, lab, owner) && t in lab && lab[t].level == level && n <= FAN
    ensures CountTo(h2, fb, t, level, f, n) == CountTo(h, fb, t, level, f, n)
    decreases level, n
  {
    if n > 0 {
      CowStepCount(cow, fb, h, h2, lab, owner, t, level, f, n - 1);
      var e := h[t][n - 1];
      assert EntryOk(lab, t, n - 1, e);
      assert h2[t][n - 1] == e || (level == 0 && h2[t][n - 1] == CopyEntry(cow, fb, e));
      if Copies(e, level) {
        CowStepCount(cow, fb, h, h2, lab, owner, e.frame, level - 1, f, FAN);
        assert EntryCount(h, fb, e, level, f) == CountTo(h, fb, e.frame, level - 1, f, FAN);
        assert EntryCount(h2, fb, e, level, f) == CountTo(h2, fb, e.frame, level - 1, f, FAN);
      }
    }
  }

  lemma {:induction false} CowStepCost(cow: bool, fb: Display, h: Heap, h2: Heap, lab: Labels, owner: nat,
                                       t: nat, level: nat, n: nat)
    requires Wf(h, lab) && CowStep(cow, fb, h, h2, lab, owner) && t in lab && lab[t].level == level && n <= FAN
    ensures CostTo(h2, t, level, n) == CostTo(h, t, level, n)
    decreases level, n
  {
    if n > 0 {
      CowStepCost(cow, fb, h, h2, lab, owner, t, level, n - 1);
      var e := h[t][n - 1];
      assert EntryOk(lab, t, n - 1, e);
      assert h2[t][n - 1] == e || (level == 0 && h2[t][n - 1] == CopyEntry(cow, fb, e));
      if Copies(e, level) {
        CowStepCost(cow, fb, h, h2, lab, owner, e.frame, level - 1, FAN);
        assert EntryCost(h, e, level) == 1 + CostTo(h, e.frame, level - 1, FAN);
        assert EntryCost(h2, e, level) == 1 + CostTo(h2, e.frame, level - 1, FAN);
      }
    }
  }

  lemma {:induction false} CowStepLarge(cow: bool, fb: Display, h: Heap, h2: Heap, lab: Labels, owner: nat,
                                        t: nat, level: nat, n: nat)
    requires Wf(h, lab) && CowStep(cow, fb, h, h2, lab, owner) && t in lab && lab[t].level == level && n <= FAN
    ensures LargeTo(h2, t, level, n) == LargeTo(h, t, level, n)
    decreases level, n
  {
    if n > 0 {
      CowStepLarge(cow, fb, h, h2, lab, owner, t, level, n - 1);
      var e := h[t][n - 1];
      assert EntryOk(lab, t, n - 1, e);
      assert h2[t][n - 1] == e || (level == 0 && h2[t][n - 1] == CopyEntry(cow, fb, e));
      if Copies(e, level) {
        CowStepLarge(cow, fb, h, h2, lab, owner, e.frame, level - 1, FAN);
      }
    }
  }

  lemma {:induction false} LargeGrows(h: Heap, t: nat, level: nat, m: nat, n: nat)
    requires m <= n <= FAN && LargeTo(h, t, level, m)
    ensures LargeTo(h, t, level, n)
    decreases n
  {
    if m < n {
      LargeGrows(h, t, level, m, n - 1);
    }
  }

  /** Walks only read tables at their own level and below. */
  lemma {:induction false} WalkAgree(h: Heap, h2: Heap, lab: Labels, t: nat, level: nat, v: nat)
    requires Wf(h, lab) && t in lab && lab[t].level == level
    requires forall u :: u in lab && lab[u].level <= level ==> u in h2 && h2[u] == h[u]
    ensures Walk(h2, t, level, v) == Walk(h, t, level, v)
    decreases level
  {
    var e := h[t][Idx(v, level)];
    assert EntryOk(lab, t, Idx(v, level), e);
    if Points(e, level) {
      WalkAgree(h, h2, lab, e.frame, level - 1, v);
    }
  }
}
