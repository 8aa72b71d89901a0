/** Page tables refine address spaces: the user leaves the tables denote, and how the
    operations of the memory manager appear as steps of module AddressSpaces. */
module Refinement {
  import opened PageTables
  import opened Snapshots
  import opened SpaceCopy
  import opened SpaceTear
  import opened CloneShape
  import opened CloneSteps
  import AS = AddressSpaces

  // ---------------------------------------------------------------- the pages of a space

  function LeafOf(e: Entry): AS.Leaf { AS.Leaf(e.frame, e.rw, e.cow, e.nx) }

  /** The user leaves of the live spaces. */
  ghost function LeavesOf(h: Heap, live: set<nat>): map<AS.Slot, AS.Leaf> {
    map r: nat, v: nat | r in live && v < VPAGES && UserLeaf(Walk(h, r, ROOT_LEVEL, v)) ::
      AS.Slot(r, v) := LeafOf(Walk(h, r, ROOT_LEVEL, v).e)
  }

  lemma LeavesOfAt(h: Heap, live: set<nat>, r: nat, v: nat)
    ensures AS.Slot(r, v) in LeavesOf(h, live) <==> r in live && v < VPAGES && UserLeaf(Walk(h, r, ROOT_LEVEL, v))
    ensures AS.Slot(r, v) in LeavesOf(h, live) ==> LeavesOf(h, live)[AS.Slot(r, v)] == LeafOf(Walk(h, r, ROOT_LEVEL, v).e)
  {
  }

  /** Page numbers of the user leaves below t (which covers prefix pre), in the order
      in which teardown meets them. */
  function PagesTo(h: Heap, t: nat, level: nat, pre: nat, n: nat): seq<nat>
    decreases level, n
  {
    if n == 0 || n > FAN || t !in h || |h[t]| != FAN then []
    else PagesTo(h, t, level, pre, n - 1) + EntryPages(h, h[t][n - 1], level, pre * FAN + (n - 1))
  }

  function EntryPages(h: Heap, e: Entry, level: nat, at: nat): seq<nat>
    decreases level, 0
  {
    if level == 0 then (if e.p && e.us then [at] else [])
    else if Points(e, level) && e.us then PagesTo(h, e.frame, level - 1, at, FAN) else []
  }

  /** Page v has its user leaf, naming f, below the first n entries of t. */
  ghost predicate PageAt(h: Heap, t: nat, level: nat, pre: nat, n: nat, v: nat, f: nat) {
    At(v, level + 1) == pre && Idx(v, level) < n && UserLeaf(Walk(h, t, level, v)) && Walk(h, t, level, v).e.frame == f
  }

  lemma SplitAt(v: nat, level: nat, pre: nat, i: nat)
    requires i < FAN
    ensures At(v, level) == pre * FAN + i <==> At(v, level + 1) == pre && Idx(v, level) == i
  {
  }

  lemma AtZero(v: nat)
    ensures At(v, 0) == v
  {
  }

  lemma LiftPage(h: Heap, t: nat, level: nat, pre: nat, n: nat, v: nat, f: nat)
    requires 0 < n <= FAN && t in h && |h[t]| == FAN && Points(h[t][n - 1], level)
    requires PageAt(h, h[t][n - 1].frame, level - 1, pre * FAN + (n - 1), FAN, v, f)
    ensures PageAt(h, t, level, pre, n, v, f)
  {
    hide At, Idx;
    SplitAt(v, level, pre, n - 1);
  }

  /** Two lists of equal length: pages, and the frames their leaves name. */
  ghost predicate Paired(h: Heap, t: nat, level: nat, pre: nat, n: nat, pages: seq<nat>, frames: seq<nat>) {
    |pages| == |frames| && forall i :: 0 <= i < |pages| ==> PageAt(h, t, level, pre, n, pages[i], frames[i])
  }

  lemma PairedJoin(h: Heap, t: nat, level: nat, pre: nat, n: nat, p0: seq<nat>, f0: seq<nat>, p1: seq<nat>, f1: seq<nat>)
    requires n > 0 && Paired(h, t, level, pre, n - 1, p0, f0) && Paired(h, t, level, pre, n, p1, f1)
    ensures Paired(h, t, level, pre, n, p0 + p1, f0 + f1)
  {
    forall i | 0 <= i < |p0| + |p1| ensures PageAt(h, t, level, pre, n, (p0 + p1)[i], (f0 + f1)[i]) {
      if i < |p0| { assert PageAt(h, t, level, pre, n - 1, p0[i], f0[i]); }
    }
  }

  /** Each listed page lies below t and its leaf is the one at the same position of
      the list of frames. */
  lemma {:induction false} PagesAndFrames(h: Heap, t: nat, level: nat, pre: nat, n: nat)
    requires n <= FAN
    ensures Paired(h, t, level, pre, n, PagesTo(h, t, level, pre, n), LeavesTo(h, t, level, n))
    decreases level, n, 1
  {
    if n > 0 && t in h && |h[t]| == FAN {
      hide Paired;
      PagesAndFrames(h, t, level, pre, n - 1);
      EntryPaired(h, t, level, pre, n);
      PairedJoin(h, t, level, pre, n, PagesTo(h, t, level, pre, n - 1), LeavesTo(h, t, level, n - 1),
                 EntryPages(h, h[t][n - 1], level, pre * FAN + (n - 1)), EntryLeaves(h, h[t][n - 1], level));
    }
  }

  lemma {:induction false} EntryPaired(h: Heap, t: nat, level: nat, pre: nat, n: nat)
    requires 0 < n <= FAN && t in h && |h[t]| == FAN
    ensures Paired(h, t, level, pre, n, EntryPages(h, h[t][n - 1], level, pre * FAN + (n - 1)), EntryLeaves(h, h[t][n - 1], level))
    decreases level, n, 0
  {
    hide At, Idx, PagesTo, LeavesTo;
    var e, at := h[t][n - 1], pre * FAN + (n - 1);
    if level == 0 {
      SplitAt(at, 0, pre, n - 1);
      AtZero(at);
    } else if Points(e, level) && e.us {
      PagesAndFrames(h, e.frame, level - 1, at, FAN);
      var p, f := PagesTo(h, e.frame, level - 1, at, FAN), LeavesTo(h, e.frame, level - 1, FAN);
      forall k | 0 <= k < |p| ensures PageAt(h, t, level, pre, n, p[k], f[k]) {
        LiftPage(h, t, level, pre, n, p[k], f[k]);
      }
    }
  }

  /** No page is listed twice. */
  lemma {:induction false} PagesDistinct(h: Heap, t: nat, level: nat, pre: nat, n: nat)
    requires n <= FAN
    ensures forall i, j :: 0 <= i < j < |PagesTo(h, t, level, pre, n)| ==>
      PagesTo(h, t, level, pre, n)[i] != PagesTo(h, t, level, pre, n)[j]
    decreases level, n
  {
    hide At, Idx;
    if n > 0 && t in h && |h[t]| == FAN {
      PagesDistinct(h, t, level, pre, n - 1);
      PagesAndFrames(h, t, level, pre, n - 1);
      var e, at := h[t][n - 1], pre * FAN + (n - 1);
      var p0, p1 := PagesTo(h, t, level, pre, n - 1), EntryPages(h, e, level, at);
      if level > 0 && Points(e, level) && e.us {
        PagesDistinct(h, e.frame, level - 1, at, FAN);
        PagesAndFrames(h, e.frame, level - 1, at, FAN);
      }
      forall i | 0 <= i < |p0| ensures At(p0[i], level) != at {
        assert PageAt(h, t, level, pre, n - 1, p0[i], LeavesTo(h, t, level, n - 1)[i]);
        SplitAt(p0[i], level, pre, n - 1);
      }
      forall k | 0 <= k < |p1| ensures At(p1[k], level) == at {
        AtZero(p1[k]);
        if level > 0 { assert PageAt(h, e.frame, level - 1, at, FAN, p1[k], LeavesTo(h, e.frame, level - 1, FAN)[k]); }
      }
    }
  }

  /** Every user leaf of a private table is listed. */
  lemma {:induction false} PagesComplete(h: Heap, lab: Labels, t: nat, level: nat, n: nat, v: nat)
    requires Wf(h, lab) && t in lab && lab[t].level == level && lab[t].owner != 0 && n <= FAN
    requires At(v, level + 1) == lab[t].pre && Idx(v, level) < n && UserLeaf(Walk(h, t, level, v))
    ensures v in PagesTo(h, t, level, lab[t].pre, n)
    decreases level, n
  {
    hide At, Idx, PagesTo, EntryPages;
    var e, at := h[t][n - 1], lab[t].pre * FAN + (n - 1);
    PagesSplit(h, t, level, lab[t].pre, n);
    if Idx(v, level) < n - 1 {
      PagesComplete(h, lab, t, level, n - 1, v);
    } else {
      assert EntryOk(lab, t, n - 1, e);
      SplitAt(v, level, lab[t].pre, n - 1);
      AtZero(v);
      if level > 0 && Points(e, level) {
        if !e.us {
          SharedWalk(h, lab, e.frame, level - 1, v);
        } else {
          PagesComplete(h, lab, e.frame, level - 1, FAN, v);
        }
      }
      assert v in EntryPages(h, e, level, at);
    }
  }

  lemma PagesSplit(h: Heap, t: nat, level: nat, pre: nat, n: nat)
    requires 0 < n <= FAN && t in h && |h[t]| == FAN
    ensures PagesTo(h, t, level, pre, n) == PagesTo(h, t, level, pre, n - 1) + EntryPages(h, h[t][n - 1], level, pre * FAN + (n - 1))
    ensures level == 0 && h[t][n - 1].p && h[t][n - 1].us ==> EntryPages(h, h[t][n - 1], level, pre * FAN + (n - 1)) == [pre * FAN + (n - 1)]
    ensures Points(h[t][n - 1], level) && h[t][n - 1].us ==>
      EntryPages(h, h[t][n - 1], level, pre * FAN + (n - 1)) == PagesTo(h, h[t][n - 1].frame, level - 1, pre * FAN + (n - 1), FAN)
  {
  }

  function Pages(h: Heap, r: nat): seq<nat> { PagesTo(h, r, ROOT_LEVEL, 0, FAN) }

  function Frames(h: Heap, r: nat): seq<nat> { LeavesTo(h, r, ROOT_LEVEL, FAN) }

  lemma InRange(v: nat)
    requires At(v, 4) == 0
    ensures v < VPAGES
  {
    assert At(v, 3) < 512;
    assert At(v, 2) < 512 * 512;
    assert At(v, 1) < 512 * 512 * 512;
  }

  /** The page list of a space lists its leaves, each once, with their frames. */
  lemma SpaceListed(h: Heap, lab: Labels, live: set<nat>, r: nat)
    requires Wf(h, lab) && r in live && TaskRoot(lab, r)
    ensures AS.Lists(LeavesOf(h, live), r, Pages(h, r)) && AS.FramesAt(LeavesOf(h, live), r, Pages(h, r)) == Frames(h, r)
    ensures forall k :: k in LeavesOf(h, live) && k.sp == r ==> k.v in Pages(h, r)
  {
    hide PagesTo, LeavesTo, Wf, LeavesOf, Walk;
    var vs, fs := Pages(h, r), Frames(h, r);
    PagesAndFrames(h, r, ROOT_LEVEL, 0, FAN);
    PagesDistinct(h, r, ROOT_LEVEL, 0, FAN);
    forall i | 0 <= i < |vs| ensures AS.Slot(r, vs[i]) in LeavesOf(h, live) && LeavesOf(h, live)[AS.Slot(r, vs[i])].frame == fs[i] {
      assert PageAt(h, r, ROOT_LEVEL, 0, FAN, vs[i], fs[i]);
      InRange(vs[i]);
      LeavesOfAt(h, live, r, vs[i]);
    }
    forall k | k in LeavesOf(h, live) && k.sp == r ensures k.v in vs {
      LeavesOfAt(h, live, k.sp, k.v);
      TopIsZero(k.v);
      PagesComplete(h, lab, r, ROOT_LEVEL, FAN, k.v);
    }
  }

  /** clone_level counts a frame as often as the space lists it. */
  lemma {:induction false} CountIsTimes(h: Heap, lab: Labels, fb: Display, t: nat, level: nat, f: nat, n: nat)
    requires Wf(h, lab) && t in lab && lab[t].level == level && lab[t].owner != 0 && n <= FAN && !Shown(fb, f)
    ensures CountTo(h, fb, t, level, f, n) == Times(LeavesTo(h, t, level, n), f)
    decreases level, n
  {
    hide EntryCount, EntryLeaves, EntryOk;
    if n > 0 {
      CountIsTimes(h, lab, fb, t, level, f, n - 1);
      EntryTimes(h, lab, fb, t, level, f, n - 1);
      TimesAdd(LeavesTo(h, t, level, n - 1), EntryLeaves(h, h[t][n - 1], level), f);
    }
  }

  lemma {:induction false} EntryTimes(h: Heap, lab: Labels, fb: Display, t: nat, level: nat, f: nat, i: nat)
    requires Wf(h, lab) && t in lab && lab[t].level == level && lab[t].owner != 0 && i < FAN && !Shown(fb, f)
    ensures EntryCount(h, fb, h[t][i], level, f) == Times(EntryLeaves(h, h[t][i], level), f)
    decreases level, i
  {
    hide CountTo, LeavesTo;
    var e := h[t][i];
    assert EntryOk(lab, t, i, e);
    if Copies(e, level) {
      CountIsTimes(h, lab, fb, e.frame, level - 1, f, FAN);
    }
  }

  lemma TimesAdd(a: seq<nat>, b: seq<nat>, f: nat)
    ensures Times(a + b, f) == Times(a, f) + Times(b, f)
  {
    assert multiset(a + b) == multiset(a) + multiset(b);
  }

  /** The count added by a clone is the number of leaves of the space naming f. */
  lemma CountIsSlots(h: Heap, lab: Labels, live: set<nat>, fb: Display, r: nat, f: nat)
    requires Wf(h, lab) && r in live && TaskRoot(lab, r) && !Shown(fb, f) && AS.NoAliasInSpace(LeavesOf(h, live))
    ensures CountTo(h, fb, r, ROOT_LEVEL, f, FAN) == |AS.SlotsIn(LeavesOf(h, live), r, f)|
  {
    hide PagesTo, LeavesTo, CountTo, LeavesOf, Wf;
    CountIsTimes(h, lab, fb, r, ROOT_LEVEL, f, FAN);
    SpaceListed(h, lab, live, r);
    AS.FramesAtCount(LeavesOf(h, live), r, Pages(h, r), f);
    assert AS.Listed(LeavesOf(h, live), r, Pages(h, r), f) == AS.SlotsIn(LeavesOf(h, live), r, f);
  }

  // ---------------------------------------------------------------- the relation

  /** Manager state c, with the live spaces and the deferred puts, stands for abstract
      state s.  Counts and contents matter only for data frames. */
  ghost predicate Rel(c: Snap, live: set<nat>, pend: seq<seq<nat>>, s: AS.State) {
    AS.Shaped(s) && s.live == live && s.pend == pend && s.leaves == LeavesOf(c.tabs, live) && s.tables == c.lab.Keys &&
    Tables(c.tabs, c.lab, c.bits) && (forall r :: r in live ==> TaskRoot(c.lab, r)) && s.reserved <= s.used &&
    |c.bits| == |c.refs| == |c.mem| == NFRAMES &&
    (forall f: nat :: f in s.used <==> f < NFRAMES && c.bits[f]) &&
    (forall f: nat :: AS.IsData(s, f) ==> s.refs[f] == c.refs[f] && s.mem[f] == c.mem[f])
  }

  /** Changing the walk of one page of one space changes one leaf. */
  lemma OneLeaf(h: Heap, h2: Heap, lab: Labels, live: set<nat>, r: nat, v: nat)
    requires r in live && v < VPAGES && SameWalksBut(h, h2, lab, r, v) && forall q :: q in live ==> TaskRoot(lab, q)
    ensures forall k :: k != AS.Slot(r, v) ==>
      (k in LeavesOf(h2, live) <==> k in LeavesOf(h, live)) && (k in LeavesOf(h, live) ==> LeavesOf(h2, live)[k] == LeavesOf(h, live)[k])
    ensures AS.Slot(r, v) in LeavesOf(h2, live) <==> UserLeaf(Walk(h2, r, ROOT_LEVEL, v))
    ensures UserLeaf(Walk(h2, r, ROOT_LEVEL, v)) ==> LeavesOf(h2, live)[AS.Slot(r, v)] == LeafOf(Walk(h2, r, ROOT_LEVEL, v).e)
  {
    LeavesOfAt(h2, live, r, v);
    forall k: AS.Slot | k != AS.Slot(r, v)
      ensures (k in LeavesOf(h2, live) <==> k in LeavesOf(h, live)) && (k in LeavesOf(h, live) ==> LeavesOf(h2, live)[k] == LeavesOf(h, live)[k])
    {
      LeavesOfAt(h, live, k.sp, k.v);
      LeavesOfAt(h2, live, k.sp, k.v);
      if k.sp in live && k.v < VPAGES {
        TopIsZero(k.v);
        assert Walk(h2, k.sp, lab[k.sp].level, k.v) == Walk(h, k.sp, lab[k.sp].level, k.v);
      }
    }
  }

  /** What a fresh mapping (demand page, stack page, image page) leaves behind: frame
      f, free before, is mapped at page v of space r; new tables were free before. */
  ghost predicate MappedFresh(a: Snap, b: Snap, r: nat, v: nat, f: nat, e: Entry) {
    |a.bits| == |b.bits| == |b.refs| == |b.mem| == |a.refs| == |a.mem| == NFRAMES &&
    f < NFRAMES && !a.bits[f] && f !in b.lab && e.p && e.us && !e.cow && e.frame == f &&
    a.lab.Keys <= b.lab.Keys && (forall t :: t in a.lab ==> b.lab[t] == a.lab[t]) &&
    (forall t :: t in b.lab && t !in a.lab ==> t < NFRAMES && !a.bits[t]) &&
    (forall g :: 0 <= g < NFRAMES ==> b.bits[g] == (a.bits[g] || g == f || (g in b.lab && g !in a.lab))) &&
    (forall g :: 0 <= g < NFRAMES && a.bits[g] ==> b.refs[g] == a.refs[g] && b.mem[g] == a.mem[g]) &&
    b.refs[f] == 1 && b.mem[f] == AS.ZeroPage() && Tables(b.tabs, b.lab, b.bits) &&
    Walk(a.tabs, r, ROOT_LEVEL, v) == Miss && Walk(b.tabs, r, ROOT_LEVEL, v) == Hit(e, 0) && SameWalksBut(a.tabs, b.tabs, a.lab, r, v)
  }

  lemma SimMap(a: Snap, b: Snap, live: set<nat>, pend: seq<seq<nat>>, s: AS.State, r: nat, v: nat, f: nat, e: Entry)
    requires Rel(a, live, pend, s) && r in live && v < VPAGES && MappedFresh(a, b, r, v, f, e)
    ensures var op := AS.MapFresh(r, v, f, e.rw, e.nx, b.lab.Keys - a.lab.Keys);
      AS.Can(s, op) && Rel(b, live, pend, AS.Do(s, op))
  {
    hide LeavesOf, SameWalksBut, Walk, Tables, AS.NoDupOwed, AS.Exact, AS.NoAliasInSpace;
    var op := AS.MapFresh(r, v, f, e.rw, e.nx, b.lab.Keys - a.lab.Keys);
    MapLeaves(a.tabs, b.tabs, a.lab, live, r, v, e);
    LeavesOfAt(a.tabs, live, r, v);
    assert AS.Can(s, op);
    assert AS.Do(s, op).tables == b.lab.Keys;
  }

  /** The new mapping is one leaf more. */
  lemma MapLeaves(h: Heap, h2: Heap, lab: Labels, live: set<nat>, r: nat, v: nat, e: Entry)
    requires r in live && v < VPAGES && SameWalksBut(h, h2, lab, r, v) && (forall q :: q in live ==> TaskRoot(lab, q)) && e.p && e.us && !e.cow
    requires Walk(h2, r, ROOT_LEVEL, v) == Hit(e, 0)
    ensures LeavesOf(h2, live) == LeavesOf(h, live)[AS.Slot(r, v) := AS.Leaf(e.frame, e.rw, false, e.nx)]
  {
    hide LeavesOf, SameWalksBut, Walk;
    OneLeaf(h, h2, lab, live, r, v);
  }

  lemma SimUpgrade(a: Snap, b: Snap, live: set<nat>, pend: seq<seq<nat>>, s: AS.State, r: nat, v: nat)
    requires Rel(a, live, pend, s) && AS.Inv(s) && r in live && v < VPAGES && b == a.(tabs := b.tabs) && Tables(b.tabs, b.lab, b.bits)
    requires SoleCow(Walk(a.tabs, r, ROOT_LEVEL, v), a.refs)
    requires Walk(b.tabs, r, ROOT_LEVEL, v) == Hit(Walk(a.tabs, r, ROOT_LEVEL, v).e.(rw := true, cow := false), 0)
    requires SameWalksBut(a.tabs, b.tabs, a.lab, r, v)
    ensures AS.Can(s, AS.CowUpgrade(r, v)) && Rel(b, live, pend, AS.Do(s, AS.CowUpgrade(r, v)))
  {
    hide LeavesOf, SameWalksBut, Walk, Tables, AS.NoDupOwed, AS.Exact, AS.NoAliasInSpace;
    OneLeaf(a.tabs, b.tabs, a.lab, live, r, v);
    LeavesOfAt(a.tabs, live, r, v);
    assert AS.IsData(s, s.leaves[AS.Slot(r, v)].frame);
    assert AS.Do(s, AS.CowUpgrade(r, v)).leaves == LeavesOf(b.tabs, live);
  }

  lemma SimCopy(a: Snap, b: Snap, live: set<nat>, pend: seq<seq<nat>>, s: AS.State, cpu: nat, r: nat, v: nat, nf: nat)
    requires Rel(a, live, pend, s) && AS.Inv(s) && r in live && v < VPAGES && b.lab == a.lab && Tables(b.tabs, b.lab, b.bits)
    requires UserLeaf(Walk(a.tabs, r, ROOT_LEVEL, v)) && Walk(a.tabs, r, ROOT_LEVEL, v).e.cow && cpu < |pend| && pend[cpu] == []
    requires var f := Walk(a.tabs, r, ROOT_LEVEL, v).e.frame; f < NFRAMES && a.refs[f] != 1 && CopiedTo(a, b, r, v, nf, f)
    requires SameWalksBut(a.tabs, b.tabs, a.lab, r, v)
    ensures var op := AS.CowCopy(cpu, r, v, nf);
      AS.Can(s, op) && Rel(b, live, pend[cpu := [Walk(a.tabs, r, ROOT_LEVEL, v).e.frame]], AS.Do(s, op))
  {
    hide LeavesOf, SameWalksBut, Walk, Tables, AS.NoDupOwed, AS.Exact, AS.NoAliasInSpace;
    var op := AS.CowCopy(cpu, r, v, nf);
    OneLeaf(a.tabs, b.tabs, a.lab, live, r, v);
    LeavesOfAt(a.tabs, live, r, v);
    assert AS.IsData(s, s.leaves[AS.Slot(r, v)].frame);
    var t := AS.Do(s, op);
    assert t.leaves == LeavesOf(b.tabs, live);
  }

  /** The pages vs of r are unmapped so far, in one section: c stands for s after the
      abstract unmap of vs. */
  ghost predicate Batch(c: Snap, live: set<nat>, pend: seq<seq<nat>>, s: AS.State, cpu: nat, r: nat, vs: seq<nat>) {
    cpu < |pend| && pend == s.pend && AS.Lists(s.leaves, r, vs) &&
    Rel(c, live, pend[cpu := AS.FramesAt(s.leaves, r, vs)], AS.DoUnmap(s, cpu, r, vs))
  }

  lemma BatchStart(c: Snap, live: set<nat>, pend: seq<seq<nat>>, s: AS.State, cpu: nat, r: nat)
    requires Rel(c, live, pend, s) && cpu < |pend| && pend[cpu] == []
    ensures Batch(c, live, pend, s, cpu, r, [])
  {
    assert AS.FramesAt(s.leaves, r, []) == [] && pend[cpu := []] == pend;
    assert AS.Without(s.leaves, r, []) == s.leaves;
    assert AS.DoUnmap(s, cpu, r, []) == s;
  }

  /** One page more of a brk batch. */
  lemma SimUnmap(a: Snap, b: Snap, live: set<nat>, pend: seq<seq<nat>>, s: AS.State, cpu: nat, r: nat, vs: seq<nat>, v: nat)
    requires Batch(a, live, pend, s, cpu, r, vs) && r in live && v < VPAGES && b == a.(tabs := b.tabs) && Tables(b.tabs, b.lab, b.bits)
    requires UserLeaf(Walk(a.tabs, r, ROOT_LEVEL, v)) && Walk(b.tabs, r, ROOT_LEVEL, v) == Miss && SameWalksBut(a.tabs, b.tabs, a.lab, r, v)
    ensures Batch(b, live, pend, s, cpu, r, vs + [v])
    ensures AS.FramesAt(s.leaves, r, vs + [v]) == AS.FramesAt(s.leaves, r, vs) + [Walk(a.tabs, r, ROOT_LEVEL, v).e.frame]
  {
    hide LeavesOf, SameWalksBut, Walk, Tables;
    OneLeaf(a.tabs, b.tabs, a.lab, live, r, v);
    LeavesOfAt(a.tabs, live, r, v);
    var k := AS.Slot(r, v);
    assert k in AS.Without(s.leaves, r, vs) && v !in vs;
    assert AS.Lists(s.leaves, r, vs + [v]);
    assert AS.FramesAt(s.leaves, r, vs + [v]) == AS.FramesAt(s.leaves, r, vs) + [s.leaves[k].frame];
    assert AS.Without(s.leaves, r, vs + [v]) == LeavesOf(b.tabs, live);
  }

  // ---------------------------------------------------------------- fork

  /** The space maps no display page. */
  ghost predicate NoDisplay(leaves: map<AS.Slot, AS.Leaf>, fb: Display, r: nat) {
    forall k :: k in leaves && k.sp == r ==> !Shown(fb, leaves[k].frame)
  }

  /** The leaf at one slot after a clone of src into nf. */
  lemma ForkSlot(a: Snap, fa: nat, b: Snap, fb: nat, cow: bool, d: Display, live: set<nat>, src: nat, nf: nat, k: AS.Slot)
    requires Cloned(Job(cow, d, src, nf, ROOT_LEVEL, nf), a, fa, b, fb) && src in live && nf !in live
    requires (forall q :: q in live ==> TaskRoot(a.lab, q)) && NoDisplay(LeavesOf(a.tabs, live), d, src)
    ensures var old', k0 := LeavesOf(a.tabs, live), if k.sp == nf then AS.Slot(src, k.v) else k;
      (k in LeavesOf(b.tabs, live + {nf}) <==> k0 in old') &&
      (k0 in old' ==> LeavesOf(b.tabs, live + {nf})[k] == if cow && (k.sp == nf || k.sp == src) then AS.CowLeaf(old'[k0]) else old'[k0])
  {
    hide LeavesOf, Wf, LeavesUsed, CostTo, CountTo, CowStep, Grown, Twin, Linked, Counters;
    LeavesOfAt(b.tabs, live + {nf}, k.sp, k.v);
    var k0 := if k.sp == nf then AS.Slot(src, k.v) else k;
    LeavesOfAt(a.tabs, live, k0.sp, k0.v);
    if k.sp == nf || k.sp == src {
      var w := Walk(a.tabs, src, ROOT_LEVEL, k.v);
      assert Walk(b.tabs, k.sp, ROOT_LEVEL, k.v) == CopyHit(cow, d, w);
      assert k0 in LeavesOf(a.tabs, live) ==> !Shown(d, w.e.frame);
    } else if k.sp in live {
      CowStepWalk(cow, d, a.tabs, b.tabs, a.lab, src, k.sp, ROOT_LEVEL, k.v);
    }
  }

  lemma ForkLeaves(a: Snap, fa: nat, b: Snap, fb: nat, cow: bool, d: Display, live: set<nat>, src: nat, nf: nat)
    requires Cloned(Job(cow, d, src, nf, ROOT_LEVEL, nf), a, fa, b, fb) && src in live && nf !in live
    requires (forall q :: q in live ==> TaskRoot(a.lab, q)) && NoDisplay(LeavesOf(a.tabs, live), d, src)
    ensures var from := if cow then AS.CowSpace(LeavesOf(a.tabs, live), src) else LeavesOf(a.tabs, live);
      LeavesOf(b.tabs, live + {nf}) == from + AS.CopySpace(from, src, nf)
  {
    hide LeavesOf, Cloned;
    var before := LeavesOf(a.tabs, live);
    var from := if cow then AS.CowSpace(before, src) else before;
    var t := from + AS.CopySpace(from, src, nf);
    forall k: AS.Slot
      ensures (k in LeavesOf(b.tabs, live + {nf}) <==> k in t) && (k in t ==> LeavesOf(b.tabs, live + {nf})[k] == t[k])
    {
      ForkSlot(a, fa, b, fb, cow, d, live, src, nf, k);
      LeavesOfAt(a.tabs, live, nf, k.v);
    }
  }

  /** fork, or CLONE. */
  function CloneOp(cow: bool, src: nat, dst: nat, tabs: set<nat>): AS.Op { if cow then AS.Fork(src, dst, tabs) else AS.Share(src, dst, tabs) }

  /** Cloning the tables is the abstract fork, or the abstract CLONE. */
  lemma SimFork(a: Snap, fa: nat, b: Snap, fb: nat, cow: bool, d: Display, live: set<nat>, pend: seq<seq<nat>>, s: AS.State, src: nat, nf: nat)
    requires Rel(a, live, pend, s) && AS.Inv(s) && AS.Room(s) && src in live
    requires Cloned(Job(cow, d, src, nf, ROOT_LEVEL, nf), a, fa, b, fb) && NoDisplay(s.leaves, d, src)
    ensures var op := CloneOp(cow, src, nf, b.lab.Keys - a.lab.Keys);
      AS.Can(s, op) && Rel(b, live + {nf}, pend, AS.Do(s, op))
  {
    hide LeavesOf, SameCopy, CowStep, AS.CowReadOnly, AS.NoAliasInSpace, AS.NoDupOwed, AS.Exact, Walk, CostTo, CountTo, Wf, LeavesUsed, AS.CopySpace, AS.CowSpace, Twin, Linked;
    var op := CloneOp(cow, src, nf, b.lab.Keys - a.lab.Keys);
    ForkLeaves(a, fa, b, fb, cow, d, live, src, nf);
    assert AS.Can(s, op);
    var t := AS.Do(s, op);
    assert t.tables == b.lab.Keys;
    forall f: nat | AS.IsData(t, f) ensures t.refs[f] == b.refs[f] && t.mem[f] == b.mem[f] {
      ForkRefs(a, b, cow, d, live, pend, s, src, nf, f);
    }
  }

  lemma ForkRefs(a: Snap, b: Snap, cow: bool, d: Display, live: set<nat>, pend: seq<seq<nat>>, s: AS.State, src: nat, nf: nat, f: nat)
    requires Rel(a, live, pend, s) && AS.NoAliasInSpace(s.leaves) && src in live && AS.IsData(s, f) && NoDisplay(s.leaves, d, src)
    requires Counters(Job(cow, d, src, nf, ROOT_LEVEL, nf), a, b, FAN)
    ensures b.refs[f] == AS.IncAll(s.refs, s.leaves, src)[f] && b.mem[f] == s.mem[f]
  {
    if Shown(d, f) {
      NoneShown(a.tabs, a.lab, d, src, ROOT_LEVEL, f, FAN);
      assert AS.SlotsIn(s.leaves, src, f) == {};
    } else {
      CountIsSlots(a.tabs, a.lab, live, d, src, f);
    }
  }

  lemma {:induction false} NoneShown(h: Heap, lab: Labels, fb: Display, t: nat, level: nat, f: nat, n: nat)
    requires Wf(h, lab) && t in lab && lab[t].level == level && n <= FAN && Shown(fb, f)
    ensures CountTo(h, fb, t, level, f, n) == 0
    decreases level, n
  {
    if n > 0 {
      NoneShown(h, lab, fb, t, level, f, n - 1);
      var e := h[t][n - 1];
      assert EntryOk(lab, t, n - 1, e);
      if Copies(e, level) {
        NoneShown(h, lab, fb, e.frame, level - 1, f, FAN);
        assert EntryCount(h, fb, e, level, f) == CountTo(h, fb, e.frame, level - 1, f, FAN);
      }
    }
  }

  // ---------------------------------------------------------------- teardown

  /** Tables of other spaces unchanged, walks of other spaces unchanged. */
  lemma {:induction false} OthersWalk(h: Heap, h2: Heap, lab: Labels, r: nat, t: nat, level: nat, v: nat)
    requires Wf(h, lab) && r != 0 && forall w :: w in lab && lab[w].owner != r ==> w in h2 && h2[w] == h[w]
    requires t in lab && lab[t].level == level && lab[t].owner != r
    ensures Walk(h2, t, level, v) == Walk(h, t, level, v)
    decreases level
  {
    var e := h[t][Idx(v, level)];
    assert EntryOk(lab, t, Idx(v, level), e);
    if Points(e, level) {
      OthersWalk(h, h2, lab, r, e.frame, level - 1, v);
    }
  }

  /** What is left when the tables of r are emptied. */
  lemma TearLeaves(h: Heap, h2: Heap, lab: Labels, live: set<nat>, r: nat)
    requires Wf(h, lab) && r in live && (forall q :: q in live ==> TaskRoot(lab, q)) && forall w :: w in lab && lab[w].owner != r ==> w in h2 && h2[w] == h[w]
    ensures LeavesOf(h2, live - {r}) == AS.Without(LeavesOf(h, live), r, Pages(h, r))
  {
    hide LeavesOf, Walk, PagesTo, Wf;
    SpaceListed(h, lab, live, r);
    var t := AS.Without(LeavesOf(h, live), r, Pages(h, r));
    forall k: AS.Slot
      ensures (k in LeavesOf(h2, live - {r}) <==> k in t) && (k in t ==> LeavesOf(h2, live - {r})[k] == t[k])
    {
      LeavesOfAt(h, live, k.sp, k.v);
      LeavesOfAt(h2, live - {r}, k.sp, k.v);
      if k.sp in live && k.sp != r {
        OthersWalk(h, h2, lab, r, k.sp, ROOT_LEVEL, k.v);
      }
    }
  }

  /** The locked half of a teardown is the abstract teardown; the frames it recorded
      are the deferred puts. */
  lemma SimTeardown(a: Snap, b: Snap, live: set<nat>, pend: seq<seq<nat>>, s: AS.State, cpu: nat, r: nat)
    requires Rel(a, live, pend, s) && r in live && b == a.(tabs := b.tabs) && Tables(b.tabs, b.lab, b.bits)
    requires (forall w :: w in a.lab && a.lab[w].owner != r ==> w in b.tabs && b.tabs[w] == a.tabs[w]) && cpu < |pend| && pend[cpu] == []
    ensures var op := AS.Teardown(cpu, r, Pages(a.tabs, r));
      AS.Can(s, op) && Rel(b, live - {r}, pend[cpu := Frames(a.tabs, r)], AS.Do(s, op))
  {
    hide LeavesOf, Walk, PagesTo, LeavesTo, Wf, LeavesUsed;
    SpaceListed(a.tabs, a.lab, live, r);
    TearLeaves(a.tabs, b.tabs, a.lab, live, r);
    var op := AS.Teardown(cpu, r, Pages(a.tabs, r));
    var t := AS.Do(s, op);
    assert t.leaves == LeavesOf(b.tabs, live - {r});
  }
}
