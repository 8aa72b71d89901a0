/** Exact counts are what a teardown needs: they cover the leaves of every other space. */
module Coverage {
  import opened PageTables
  import opened Snapshots
  import opened SpaceCopy
  import opened SpaceTear
  import opened CloneShape
  import opened CloneSteps
  import opened Refinement
  import opened CloneUndo
  import AS = AddressSpaces

  /** The tasks' roots are exactly the live spaces. */
  ghost predicate Homed(lab: Labels, live: set<nat>) { forall q :: TaskRoot(lab, q) <==> q in live }

  /** A leaf in a table that hangs is where the walk of its page ends. */
  lemma {:induction false} HangsWalk(h: Heap, lab: Labels, u: nat, level: nat, pre: nat, t: nat, i: nat)
    requires Hangs(h, lab, u, level, pre, 0, t) && i < FAN
    ensures u in lab && lab[u].pre == At(pre, level)
    ensures t in lab && t in h && |h[t]| == FAN && lab[t].level == 0 && Walk(h, u, level, pre * FAN + i) == if h[t][i].p then Hit(h[t][i], 0) else Miss
    decreases level
  {
    if level == 0 {
      assert Idx(pre * FAN + i, 0) == i;
    } else {
      AtBelow(pre, i, level - 1);
      assert HangStep(h, lab, u, level, Idx(pre, level - 1));
      HangsWalk(h, lab, h[u][Idx(pre, level - 1)].frame, level - 1, pre, t, i);
    }
  }

  lemma {:induction false} EntryInTabs(h: Heap, u: nat, level: nat, i: nat, n: nat, t: nat)
    requires u in h && |h[u]| == FAN && i < n <= FAN && t in EntryTabs(h, h[u][i], level)
    ensures t in TabsTo(h, u, level, n)
  {
    if i + 1 < n {
      EntryInTabs(h, u, level, i, n - 1, t);
    }
  }

  /** What hangs below a private table is listed with it. */
  lemma {:induction false} HangsListed(h: Heap, lab: Labels, u: nat, level: nat, pre: nat, l: nat, t: nat)
    requires Wf(h, lab) && Hangs(h, lab, u, level, pre, l, t) && lab[u].owner != 0
    ensures t == u || t in TabsTo(h, u, level, FAN)
    decreases level
  {
    if level > l {
      var i := Idx(pre, level - 1 - l);
      assert HangStep(h, lab, u, level, i) && EntryOk(lab, u, i, h[u][i]);
      HangsListed(h, lab, h[u][i].frame, level - 1, pre, l, t);
      EntryInTabs(h, u, level, i, FAN, t);
    }
  }

  /** And what is listed hangs there. */
  lemma {:induction false} ListedHangs(h: Heap, lab: Labels, u: nat, level: nat, n: nat, t: nat)
    requires Wf(h, lab) && u in lab && lab[u].level == level && lab[u].owner != 0 && n <= FAN && t in TabsTo(h, u, level, n)
    ensures t in lab && Hangs(h, lab, u, level, lab[t].pre, lab[t].level, t)
    decreases level, n
  {
    if t in TabsTo(h, u, level, n - 1) {
      ListedHangs(h, lab, u, level, n - 1, t);
    } else {
      var e := h[u][n - 1];
      assert EntryOk(lab, u, n - 1, e) && t in EntryTabs(h, e, level);
      if t != e.frame {
        ListedHangs(h, lab, e.frame, level - 1, FAN, t);
      }
      HangsUp(h, lab, u, level, n - 1, lab[t].pre, lab[t].level, t);
    }
  }

  /** One pointer further up. */
  lemma HangsUp(h: Heap, lab: Labels, u: nat, level: nat, i: nat, pre: nat, l: nat, t: nat)
    requires Wf(h, lab) && u in lab && lab[u].level == level > 0 && i < FAN && Points(h[u][i], level) && HangStep(h, lab, u, level, i)
    requires Hangs(h, lab, h[u][i].frame, level - 1, pre, l, t)
    ensures Hangs(h, lab, u, level, pre, l, t)
  {
    assert EntryOk(lab, u, i, h[u][i]);
    assert At(pre, level - 1 - l) == lab[u].pre * FAN + i;
    assert At(pre, level - l) == At(pre, level - 1 - l) / FAN;
  }

  /** An anchored leaf is a slot of its space. */
  lemma LeafSlot(h: Heap, lab: Labels, live: set<nat>, t: nat, i: nat)
    requires Wf(h, lab) && Anchored(h, lab) && Homed(lab, live)
    requires t in lab && lab[t].level == 0 && i < FAN && h[t][i].p && h[t][i].us
    ensures var k := AS.Slot(lab[t].owner, lab[t].pre * FAN + i);
      k in LeavesOf(h, live) && LeavesOf(h, live)[k].frame == h[t][i].frame
  {
    hide LeavesOf, At, Idx, Walk, Hangs;
    var q, v := lab[t].owner, lab[t].pre * FAN + i;
    assert EntryOk(lab, t, i, h[t][i]);
    HangsWalk(h, lab, q, ROOT_LEVEL, lab[t].pre, t, i);
    AtBelow(lab[t].pre, i, 3);
    InRange(v);
    LeavesOfAt(h, live, q, v);
  }

  // ---------------------------------------------------------------- clone and teardown

  lemma {:induction false} HangsGrow(h: Heap, lab: Labels, lab2: Labels, u: nat, level: nat, pre: nat, l: nat, t: nat)
    requires Hangs(h, lab, u, level, pre, l, t) && forall w :: w in lab ==> w in lab2 && lab2[w] == lab[w]
    ensures Hangs(h, lab2, u, level, pre, l, t)
    decreases level
  {
    if level > l {
      assert HangStep(h, lab, u, level, Idx(pre, level - 1 - l));
      HangsGrow(h, lab, lab2, h[u][Idx(pre, level - 1 - l)].frame, level - 1, pre, l, t);
    }
  }

  /** Cloning anchors its copy and keeps everyone else anchored. */
  lemma CloneAnchored(j: Job, a: Snap, fa: nat, b: Snap, fb: nat, live: set<nat>)
    requires Cloned(j, a, fa, b, fb) && j.level == ROOT_LEVEL && j.space == j.nf && a.lab[j.src].pre == 0
    requires Anchored(a.tabs, a.lab) && Homed(a.lab, live)
    ensures Anchored(b.tabs, b.lab) && Homed(b.lab, live + {j.nf})
  {
    hide Hangs, Twin, LeavesTo, CountTo, CostTo, SameCopy, Counters, LeavesUsed, At, TabsTo;
    SameUpper(j, a, fa, b, fb);
    AnchoredStays(a.tabs, b.tabs, a.lab);
    forall t | t in b.lab && b.lab[t].owner != 0
      ensures TaskRoot(b.lab, b.lab[t].owner) && Hangs(b.tabs, b.lab, b.lab[t].owner, ROOT_LEVEL, b.lab[t].pre, b.lab[t].level, t)
    {
      if t in a.lab {
        HangsGrow(b.tabs, a.lab, b.lab, a.lab[t].owner, ROOT_LEVEL, a.lab[t].pre, a.lab[t].level, t);
      } else if t != j.nf {
        ListedHangs(b.tabs, b.lab, j.nf, ROOT_LEVEL, FAN, t);
      } else {
        HangsSelf(b.tabs, b.lab, t);
      }
    }
  }

  lemma HangsSelf(h: Heap, lab: Labels, t: nat)
    requires Wf(h, lab) && t in lab
    ensures Hangs(h, lab, t, lab[t].level, lab[t].pre, lab[t].level, t)
  {
  }

  /** A clone writes only leaf entries of the tables that were there. */
  lemma SameUpper(j: Job, a: Snap, fa: nat, b: Snap, fb: nat)
    requires Around(j, a, fa, b, fb, FAN)
    ensures forall w :: w in a.lab && w in a.tabs ==> w in b.tabs && |b.tabs[w]| == |a.tabs[w]| && (a.lab[w].level > 0 ==> b.tabs[w] == a.tabs[w])
  {
    hide CostTo, LeavesUsed, EntryOk, CopyEntry, Grown;
    forall w | w in a.lab && w in a.tabs
      ensures w in b.tabs && |b.tabs[w]| == |a.tabs[w]| && (a.lab[w].level > 0 ==> b.tabs[w] == a.tabs[w])
    {
      if a.lab[w].level > 0 {
        assert forall i :: 0 <= i < FAN ==> b.tabs[w][i] == a.tabs[w][i];
      }
    }
  }

  lemma {:induction false} HangsOther(h: Heap, h2: Heap, lab: Labels, r: nat, u: nat, level: nat, pre: nat, l: nat, t: nat)
    requires Hangs(h, lab, u, level, pre, l, t) && lab[u].owner != r
    requires forall w :: w in lab && lab[w].owner != r && w in h ==> w in h2 && h2[w] == h[w]
    ensures Hangs(h2, Others(lab, r), u, level, pre, l, t)
    decreases level
  {
    if level > l {
      assert HangStep(h, lab, u, level, Idx(pre, level - 1 - l));
      HangsOther(h, h2, lab, r, h[u][Idx(pre, level - 1 - l)].frame, level - 1, pre, l, t);
    }
  }

  /** Dropping one space keeps the others anchored. */
  lemma TearAnchored(h: Heap, h2: Heap, lab: Labels, live: set<nat>, r: nat)
    requires Wf(h, lab) && Anchored(h, lab) && Homed(lab, live) && r != 0
    requires forall w :: w in lab && lab[w].owner != r ==> w in h2 && h2[w] == h[w]
    ensures Anchored(h2, Others(lab, r)) && Homed(Others(lab, r), live - {r})
  {
    hide Hangs;
    forall t | t in Others(lab, r) && lab[t].owner != 0
      ensures TaskRoot(Others(lab, r), lab[t].owner) && Hangs(h2, Others(lab, r), lab[t].owner, ROOT_LEVEL, lab[t].pre, lab[t].level, t)
    {
      HangsOther(h, h2, lab, r, lab[t].owner, ROOT_LEVEL, lab[t].pre, lab[t].level, t);
    }
  }

  /** The tables of a space are exactly its root and what it lists. */
  lemma TablesListed(h: Heap, lab: Labels, bits: seq<bool>, r: nat, t: nat)
    requires Tables(h, lab, bits) && Anchored(h, lab) && TaskRoot(lab, r)
    ensures t in lab && lab[t].owner == r <==> t == r || t in TabsTo(h, r, ROOT_LEVEL, FAN)
  {
    hide TabsTo, Hangs;
    ListedTables(h, lab, bits, r, ROOT_LEVEL, FAN);
    if t in lab && lab[t].owner == r {
      HangsListed(h, lab, r, ROOT_LEVEL, lab[t].pre, lab[t].level, t);
    }
  }

  // ---------------------------------------------------------------- counts

  /** How often a space lists a frame is how many of its slots name it. */
  lemma TimesIsSlots(h: Heap, lab: Labels, live: set<nat>, r: nat, f: nat)
    requires Wf(h, lab) && r in live && TaskRoot(lab, r) && AS.NoAliasInSpace(LeavesOf(h, live))
    ensures Times(Frames(h, r), f) == |AS.SlotsIn(LeavesOf(h, live), r, f)| <= 1
  {
    hide LeavesTo, LeavesOf, Wf, PagesTo;
    SpaceListed(h, lab, live, r);
    AS.FramesAtCount(LeavesOf(h, live), r, Pages(h, r), f);
    assert AS.Listed(LeavesOf(h, live), r, Pages(h, r), f) == AS.SlotsIn(LeavesOf(h, live), r, f);
  }

  /** A slot of another space makes the count exceed what space r contributes. */
  lemma OneMoreThan(s: AS.State, r: nat, k: AS.Slot, f: nat)
    requires AS.Inv(s) && k in s.leaves && k.sp != r && s.leaves[k].frame == f
    ensures AS.IsData(s, f) && s.refs[f] > |AS.SlotsIn(s.leaves, r, f)|
  {
    var mine, all := AS.SlotsIn(s.leaves, r, f), AS.SlotsOf(s.leaves, f);
    assert mine + {k} <= all && k !in mine;
    Smaller(mine + {k}, all);
  }

  lemma {:induction false} Smaller(a: set<AS.Slot>, b: set<AS.Slot>)
    requires a <= b
    ensures |a| <= |b|
  {
    assert b == a + (b - a);
  }

  /** In every state whose counts are exact, a space can be torn down without freeing a
      frame another space maps, and cloned without saturating a count. */
  lemma ExactCovers(c: Snap, live: set<nat>, pend: seq<seq<nat>>, s: AS.State, fb: Display, r: nat)
    requires Rel(c, live, pend, s) && AS.Inv(s) && r in live && Anchored(c.tabs, c.lab) && Homed(c.lab, live)
    ensures Spared(c.tabs, c.lab, c.refs, r) && Counted(c, fb, r)
  {
    hide LeavesTo, LeavesOf, Walk, AS.NoDupOwed, AS.Owed, LeavesUsed, Anchored, Homed;
    forall t, i | t in c.lab && c.lab[t].level == 0 && c.lab[t].owner != r && 0 <= i < FAN && c.tabs[t][i].p && c.tabs[t][i].us &&
                  c.tabs[t][i].frame < |c.refs|
      ensures c.refs[c.tabs[t][i].frame] > Times(LeavesTo(c.tabs, r, ROOT_LEVEL, FAN), c.tabs[t][i].frame)
    {
      var f := c.tabs[t][i].frame;
      LeafSlot(c.tabs, c.lab, live, t, i);
      TimesIsSlots(c.tabs, c.lab, live, r, f);
      OneMoreThan(s, r, AS.Slot(c.lab[t].owner, c.lab[t].pre * FAN + i), f);
    }
    forall f | 0 <= f < |c.refs| && f in LeavesTo(c.tabs, r, ROOT_LEVEL, FAN) && !Shown(fb, f)
      ensures 1 <= c.refs[f] && c.refs[f] + Times(LeavesTo(c.tabs, r, ROOT_LEVEL, FAN), f) <= REF_MAX
    {
      OwnCount(c, live, pend, s, r, f);
    }
  }

  /** A frame the space maps is counted, with room for one more. */
  lemma OwnCount(c: Snap, live: set<nat>, pend: seq<seq<nat>>, s: AS.State, r: nat, f: nat)
    requires Rel(c, live, pend, s) && AS.Inv(s) && r in live && f < NFRAMES && f in LeavesTo(c.tabs, r, ROOT_LEVEL, FAN)
    ensures 1 <= c.refs[f] && c.refs[f] + Times(LeavesTo(c.tabs, r, ROOT_LEVEL, FAN), f) <= REF_MAX
  {
    hide LeavesTo, LeavesOf, Walk, AS.NoDupOwed, AS.Owed, LeavesUsed, Wf;
    TimesIsSlots(c.tabs, c.lab, live, r, f);
    AS.CountBound(s, f);
    assert Times(Frames(c.tabs, r), f) > 0;
    var k :| k in AS.SlotsIn(s.leaves, r, f);
    assert AS.IsData(s, f);
  }
}
