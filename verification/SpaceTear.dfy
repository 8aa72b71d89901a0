/** What tearing an address space down means on page tables: which frames it gives
    back, and when the comparison with the boot tables tells private from shared. */
module SpaceTear {
  import opened PageTables
  import opened Snapshots
  import AS = AddressSpaces

  const MAX_DATA: nat := 256   // TEAR_MAX_DATA
  const MAX_TABS: nat := 64    // TEAR_MAX_TAB

  /** tear_list_t, and whether the collector got stuck: a full list makes
      tear_record flush, which takes mem_lock while it is held. */
  datatype TearList = TearList(data: seq<nat>, tabs: seq<nat>, stuck: bool)

  // ---------------------------------------------------------------- what a space holds

  /** User data frames below table t, in table order. */
  function LeavesTo(h: Heap, t: nat, level: nat, n: nat): seq<nat>
    decreases level, n
  {
    if n == 0 || n > FAN || t !in h || |h[t]| != FAN then []
    else LeavesTo(h, t, level, n - 1) + EntryLeaves(h, h[t][n - 1], level)
  }

  function EntryLeaves(h: Heap, e: Entry, level: nat): seq<nat>
    decreases level, 0
  {
    if level == 0 then (if e.p && e.us then [e.frame] else [])
    else if Points(e, level) && e.us then LeavesTo(h, e.frame, level - 1, FAN) else []
  }

  /** Private tables strictly below t, each after the tables under it. */
  function TabsTo(h: Heap, t: nat, level: nat, n: nat): seq<nat>
    decreases level, n
  {
    if n == 0 || n > FAN || t !in h || |h[t]| != FAN then []
    else TabsTo(h, t, level, n - 1) + EntryTabs(h, h[t][n - 1], level)
  }

  function EntryTabs(h: Heap, e: Entry, level: nat): seq<nat>
    decreases level, 0
  {
    if Points(e, level) && e.us then TabsTo(h, e.frame, level - 1, FAN) + [e.frame] else []
  }

  // ---------------------------------------------------------------- private or shared

  /** The collector's test: same frame and size class as the boot entry. */
  predicate SharedEntry(b: Entry, e: Entry) { b.p && b.ps == e.ps && b.frame == e.frame }

  function BootEntry(h: Heap, b: nat, i: nat): Entry {
    if b != 0 && b in h && i < |h[b]| then h[b][i] else ABSENT
  }

  function BootChild(be: Entry): nat { if be.p && !be.ps then be.frame else 0 }

  /** The comparison with the boot tables is right for every entry below t: pointers
      shared with boot are the supervisor ones, and no user leaf is shared. */
  ghost predicate Apart(h: Heap, t: nat, b: nat, level: nat)
    decreases level
  {
    t != b && t in h && |h[t]| == FAN &&
    forall i {:trigger h[t][i]} :: 0 <= i < FAN && h[t][i].p ==> ApartEntry(h, h[t][i], BootEntry(h, b, i), level)
  }

  ghost predicate ApartEntry(h: Heap, e: Entry, be: Entry, level: nat)
    decreases level, 0
  {
    if level == 0 then e.us ==> !(be.p && be.frame == e.frame)
    else e.ps || ((SharedEntry(be, e) <==> !e.us) && (e.us ==> Apart(h, e.frame, BootChild(be), level - 1)))
  }

  // ---------------------------------------------------------------- frames of reasoning

  /** Label l lies in the subtree of `owner` rooted at (level, pre). */
  predicate Under(l: Label, owner: nat, level: nat, pre: nat) {
    l.owner == owner && l.level <= level && At(l.pre, level - l.level) == pre
  }

  lemma UnderChild(l: Label, owner: nat, level: nat, pre: nat, i: nat)
    requires level > 0 && i < FAN && Under(l, owner, level - 1, pre * FAN + i)
    ensures Under(l, owner, level, pre)
  {
    assert At(l.pre, level - l.level) == At(l.pre, level - 1 - l.level) / FAN;
  }

  /** h2 agrees with h on the subtree of t and on the shared tables. */
  ghost predicate Agree(h: Heap, h2: Heap, lab: Labels, owner: nat, level: nat, pre: nat) {
    forall u :: u in lab && (lab[u].owner == 0 || Under(lab[u], owner, level, pre)) ==> u in h && u in h2 && h2[u] == h[u]
  }

  lemma AgreeChild(h: Heap, h2: Heap, lab: Labels, owner: nat, level: nat, pre: nat, i: nat)
    requires level > 0 && i < FAN && Agree(h, h2, lab, owner, level, pre)
    ensures Agree(h, h2, lab, owner, level - 1, pre * FAN + i)
  {
    forall u | u in lab && Under(lab[u], owner, level - 1, pre * FAN + i) ensures u in h && u in h2 && h2[u] == h[u] {
      UnderChild(lab[u], owner, level, pre, i);
    }
  }

  lemma {:induction false} ListsAgree(h: Heap, h2: Heap, lab: Labels, t: nat, level: nat, n: nat)
    requires Wf(h, lab) && t in lab && lab[t].level == level && lab[t].owner != 0 && n <= FAN
    requires Agree(h, h2, lab, lab[t].owner, level, lab[t].pre)
    ensures LeavesTo(h2, t, level, n) == LeavesTo(h, t, level, n) && TabsTo(h2, t, level, n) == TabsTo(h, t, level, n)
    decreases level, n
  {
    if n > 0 {
      ListsAgree(h, h2, lab, t, level, n - 1);
      var e := h[t][n - 1];
      assert EntryOk(lab, t, n - 1, e);
      assert Under(lab[t], lab[t].owner, level, lab[t].pre);
      if Points(e, level) && e.us {
        AgreeChild(h, h2, lab, lab[t].owner, level, lab[t].pre, n - 1);
        ListsAgree(h, h2, lab, e.frame, level - 1, FAN);
      }
    }
  }

  lemma {:induction false} ApartAgree(h: Heap, h2: Heap, lab: Labels, t: nat, b: nat, level: nat)
    requires Wf(h, lab) && t in lab && lab[t].level == level && lab[t].owner != 0
    requires b == 0 || (b in lab && lab[b].owner == 0 && lab[b].level == level)
    requires Agree(h, h2, lab, lab[t].owner, level, lab[t].pre) && Apart(h, t, b, level)
    ensures Apart(h2, t, b, level)
    decreases level
  {
    assert Under(lab[t], lab[t].owner, level, lab[t].pre);
    forall i | 0 <= i < FAN && h2[t][i].p ensures ApartEntry(h2, h2[t][i], BootEntry(h2, b, i), level) {
      var e, be := h[t][i], BootEntry(h, b, i);
      assert EntryOk(lab, t, i, e) && ApartEntry(h, e, be, level) && be == BootEntry(h2, b, i);
      if level > 0 && !e.ps && e.us {
        AgreeChild(h, h2, lab, lab[t].owner, level, lab[t].pre, i);
        if b != 0 { assert EntryOk(lab, b, i, h[b][i]); }
        ApartAgree(h, h2, lab, e.frame, BootChild(be), level - 1);
      }
    }
  }

  lemma {:induction false} ListsGrow(h: Heap, t: nat, level: nat, m: nat, n: nat)
    requires m <= n <= FAN
    ensures |LeavesTo(h, t, level, m)| <= |LeavesTo(h, t, level, n)| && |TabsTo(h, t, level, m)| <= |TabsTo(h, t, level, n)|
    decreases n
  {
    if m < n {
      ListsGrow(h, t, level, m, n - 1);
    }
  }

  /** The lists overflow somewhere in these entries. */
  predicate TooMany(l: TearList, data: seq<nat>, tabs: seq<nat>) {
    |l.data| + |data| > MAX_DATA || |l.tabs| + |tabs| > MAX_TABS
  }

  predicate Fits(l: TearList) { !l.stuck && |l.data| <= MAX_DATA && |l.tabs| <= MAX_TABS }

  /** r is l with the given frames appended, or stuck because they do not fit. */
  predicate Recorded(l: TearList, r: TearList, data: seq<nat>, tabs: seq<nat>) {
    if TooMany(l, data, tabs) then r.stuck else r == TearList(l.data + data, l.tabs + tabs, false)
  }

  lemma RecordedTwice(l: TearList, m: TearList, r: TearList, d1: seq<nat>, t1: seq<nat>, d2: seq<nat>, t2: seq<nat>)
    requires Recorded(l, m, d1, t1) && (if m.stuck then r.stuck else Recorded(m, r, d2, t2))
    ensures Recorded(l, r, d1 + d2, t1 + t2)
  {
    assert (l.data + d1) + d2 == l.data + (d1 + d2);
    assert (l.tabs + t1) + t2 == l.tabs + (t1 + t2);
  }

  /** Label l lies strictly below table lt, under its entry SlotOf(l, lt). */
  predicate Inside(l: Label, lt: Label) {
    l.owner == lt.owner && l.level < lt.level && At(l.pre, lt.level - l.level) == lt.pre
  }

  function SlotOf(l: Label, lt: Label): nat
    requires l.level < lt.level
  {
    Idx(l.pre, lt.level - 1 - l.level)
  }

  lemma InsideIsUnder(l: Label, lt: Label, i: nat)
    requires lt.level > 0 && i < FAN
    ensures Under(l, lt.owner, lt.level - 1, lt.pre * FAN + i) <==> Inside(l, lt) && SlotOf(l, lt) == i
  {
    if l.level < lt.level {
      var k := lt.level - 1 - l.level;
      assert At(l.pre, k) == At(l.pre, k + 1) * FAN + Idx(l.pre, k);
    }
  }

  /** Only entry i of t and the private subtree below it may differ. */
  ghost predicate OnlyEntry(h: Heap, h2: Heap, lab: Labels, t: nat, i: nat)
    requires t in lab
  {
    t in h && t in h2 && |h[t]| == FAN && |h2[t]| == FAN &&
    (forall k :: 0 <= k < FAN && k != i ==> h2[t][k] == h[t][k]) &&
    (forall u :: u in lab && u != t && !(Inside(lab[u], lab[t]) && SlotOf(lab[u], lab[t]) == i) ==>
      u in h && u in h2 && h2[u] == h[u])
  }

  lemma OnlyEntrySet(h: Heap, lab: Labels, t: nat, i: nat, e: Entry)
    requires Wf(h, lab) && t in lab && i < FAN
    ensures OnlyEntry(h, h, lab, t, i) && OnlyEntry(h, SetSlot(h, t, i, e), lab, t, i)
  {
  }

  /** Entries i and later, and what lies below them, are as they were. */
  ghost predicate Untouched(h: Heap, h2: Heap, lab: Labels, t: nat, i: nat)
    requires t in lab
  {
    t in h && t in h2 && |h[t]| == FAN && |h2[t]| == FAN &&
    (forall k :: i <= k < FAN ==> h2[t][k] == h[t][k]) &&
    (forall u :: u in lab && u != t && !(Inside(lab[u], lab[t]) && SlotOf(lab[u], lab[t]) < i) ==>
      u in h && u in h2 && h2[u] == h[u])
  }

  lemma UntouchedStep(h: Heap, h1: Heap, h2: Heap, lab: Labels, t: nat, i: nat)
    requires t in lab && i < FAN && Untouched(h, h1, lab, t, i) && OnlyEntry(h1, h2, lab, t, i)
    ensures Untouched(h, h2, lab, t, i + 1)
  {
  }

  /** The subtree below entry i is intact when entry i is reached. */
  lemma UntouchedBelow(h: Heap, h2: Heap, lab: Labels, t: nat, i: nat)
    requires t in lab && i < FAN && lab[t].level > 0 && lab[t].owner != 0 && Untouched(h, h2, lab, t, i)
    ensures Agree(h, h2, lab, lab[t].owner, lab[t].level - 1, lab[t].pre * FAN + i)
  {
    forall u | u in lab && (lab[u].owner == 0 || Under(lab[u], lab[t].owner, lab[t].level - 1, lab[t].pre * FAN + i))
      ensures u in h && u in h2 && h2[u] == h[u]
    {
      InsideIsUnder(lab[u], lab[t], i);
    }
  }

  /** When entry i is reached, the comparison there is right and its lists are those
      of the start. */
  lemma EntryReady(h: Heap, h2: Heap, lab: Labels, t: nat, b: nat, i: nat)
    requires Wf(h, lab) && t in lab && lab[t].owner != 0 && i < FAN
    requires b == 0 || (b in lab && lab[b].owner == 0 && lab[b].level == lab[t].level)
    requires Apart(h, t, b, lab[t].level) && Untouched(h, h2, lab, t, i)
    ensures h2[t][i] == h[t][i] && BootEntry(h2, b, i) == BootEntry(h, b, i)
    ensures h[t][i].p ==> ApartEntry(h2, h[t][i], BootEntry(h, b, i), lab[t].level)
    ensures EntryLeaves(h2, h[t][i], lab[t].level) == EntryLeaves(h, h[t][i], lab[t].level)
    ensures EntryTabs(h2, h[t][i], lab[t].level) == EntryTabs(h, h[t][i], lab[t].level)
  {
    var e, be, level := h[t][i], BootEntry(h, b, i), lab[t].level;
    assert EntryOk(lab, t, i, e);
    if b != 0 {
      assert EntryOk(lab, b, i, h[b][i]);
      assert h2[b] == h[b];
    }
    if Points(e, level) && e.us {
      UntouchedBelow(h, h2, lab, t, i);
      ListsAgree(h, h2, lab, e.frame, level - 1, FAN);
      ApartAgree(h, h2, lab, e.frame, BootChild(be), level - 1);
    }
  }

  /** Only t and tables of its space below it may differ. */
  ghost predicate OnlyBelow(h: Heap, h2: Heap, lab: Labels, t: nat)
    requires t in lab
  {
    forall u :: u in lab && u != t && !Inside(lab[u], lab[t]) ==> u in h && u in h2 && h2[u] == h[u]
  }

  /** Work below entry i of t, then a write to that entry. */
  lemma EntryWork(h: Heap, h1: Heap, lab: Labels, t: nat, i: nat, c: nat, e: Entry)
    requires Wf(h, lab) && Wf(h1, lab) && t in lab && i < FAN && lab[t].level > 0 && lab[t].owner != 0
    requires c in lab && lab[c] == Below(lab[t], i) && OnlyBelow(h, h1, lab, c)
    ensures OnlyEntry(h, SetSlot(h1, t, i, e), lab, t, i)
  {
    forall u | u in lab && u != t && !(Inside(lab[u], lab[t]) && SlotOf(lab[u], lab[t]) == i)
      ensures u != c && !Inside(lab[u], lab[c])
    {
      InsideIsUnder(lab[u], lab[t], i);
    }
    assert t != c && !Inside(lab[t], lab[c]);
  }

  lemma UntouchedIsBelow(h: Heap, h2: Heap, lab: Labels, t: nat, i: nat)
    requires t in lab && Untouched(h, h2, lab, t, i)
    ensures OnlyBelow(h, h2, lab, t)
  {
  }

  lemma RecordMore(l: TearList, m: TearList, r: TearList, h: Heap, t: nat, level: nat, n: nat)
    requires n < FAN && t in h && |h[t]| == FAN && Fits(l)
    requires Recorded(l, m, LeavesTo(h, t, level, n), TabsTo(h, t, level, n)) && !m.stuck
    requires Recorded(m, r, EntryLeaves(h, h[t][n], level), EntryTabs(h, h[t][n], level))
    ensures Recorded(l, r, LeavesTo(h, t, level, n + 1), TabsTo(h, t, level, n + 1))
    ensures r.stuck ==> Recorded(l, r, LeavesTo(h, t, level, FAN), TabsTo(h, t, level, FAN))
    ensures !r.stuck ==> Fits(r)
  {
    RecordedTwice(l, m, r, LeavesTo(h, t, level, n), TabsTo(h, t, level, n),
                  EntryLeaves(h, h[t][n], level), EntryTabs(h, h[t][n], level));
    ListsGrow(h, t, level, n + 1, FAN);
  }

  // ---------------------------------------------------------------- giving frames back

  function Times(l: seq<nat>, f: nat): nat { AS.Times(l, f) }

  /** A count and a bitmap bit after k puts. */
  function RefAfter(ref: nat, k: nat): nat { if ref > k then ref - k else 0 }

  predicate BitAfter(bit: bool, ref: nat, k: nat) { bit && (k == 0 || ref > k) }

  /** The labels without one space. */
  ghost function Others(lab: Labels, r: nat): Labels { map t | t in lab && lab[t].owner != r :: lab[t] }

  /** The counts cover the other spaces: a frame whose last references are those of
      space r is mapped by no one else. */
  ghost predicate Spared(h: Heap, lab: Labels, refs: seq<nat>, r: nat)
    requires Wf(h, lab)
  {
    forall t, i {:trigger h[t][i]} :: t in lab && lab[t].level == 0 && lab[t].owner != r && 0 <= i < FAN && h[t][i].p && h[t][i].us ==>
      h[t][i].frame < |refs| ==> Times(LeavesTo(h, r, ROOT_LEVEL, FAN), h[t][i].frame) == 0 ||
                                 refs[h[t][i].frame] > Times(LeavesTo(h, r, ROOT_LEVEL, FAN), h[t][i].frame)
  }

  /** Every frame a space lists is one of its tables or one of its leaves. */
  lemma {:induction false} ListedTables(h: Heap, lab: Labels, bits: seq<bool>, t: nat, level: nat, n: nat)
    requires Tables(h, lab, bits) && t in lab && lab[t].level == level && lab[t].owner != 0 && n <= FAN
    ensures forall c :: c in TabsTo(h, t, level, n) ==> c in lab && lab[c].owner == lab[t].owner
    ensures forall f :: f in LeavesTo(h, t, level, n) ==> Mappable(lab, bits, f)
    decreases level, n
  {
    if n > 0 {
      ListedTables(h, lab, bits, t, level, n - 1);
      var e := h[t][n - 1];
      assert EntryOk(lab, t, n - 1, e);
      if Points(e, level) && e.us {
        ListedTables(h, lab, bits, e.frame, level - 1, FAN);
      }
    }
  }

  /** The counts and bits after the data frames are put and the tables freed. */
  ghost predicate Freed(refs: seq<nat>, bits: seq<bool>, refs2: seq<nat>, bits2: seq<bool>, data: seq<nat>, tabs: seq<nat>) {
    |refs2| == |refs| == |bits2| == |bits| &&
    (forall f :: 0 <= f < |refs| ==> refs2[f] == RefAfter(refs[f], Times(data, f))) &&
    (forall f :: 0 <= f < |bits| ==> bits2[f] == (BitAfter(bits[f], refs[f], Times(data, f)) && f !in tabs))
  }

  lemma PutNone(refs: seq<nat>, bits: seq<bool>)
    requires |refs| == |bits|
    ensures Freed(refs, bits, refs, bits, [], [])
  {
  }

  /** One more put. */
  lemma PutOne(refs0: seq<nat>, bits0: seq<bool>, refs1: seq<nat>, bits1: seq<bool>, refs2: seq<nat>, bits2: seq<bool>, data: seq<nat>, g: nat)
    requires Freed(refs0, bits0, refs1, bits1, data, [])
    requires g >= |refs1| ==> refs2 == refs1 && bits2 == bits1
    requires g < |refs1| ==>
      var left := RefAfter(refs1[g], 1);
      refs2 == refs1[g := left] && bits2 == if left == 0 then bits1[g := false] else bits1
    ensures Freed(refs0, bits0, refs2, bits2, data + [g], [])
  {
    forall f | 0 <= f < |refs0|
      ensures refs2[f] == RefAfter(refs0[f], Times(data + [g], f)) && bits2[f] == BitAfter(bits0[f], refs0[f], Times(data + [g], f))
    {
      assert Times(data + [g], f) == Times(data, f) + if f == g then 1 else 0;
    }
  }

  lemma OthersWf(h: Heap, h2: Heap, lab: Labels, r: nat)
    requires Wf(h2, lab) && r in lab && lab[r].owner == r && r != 0 && OnlyBelow(h, h2, lab, r)
    ensures Wf(h2, Others(lab, r))
    ensures forall t :: t in lab && lab[t].owner != r ==> t in h && h2[t] == h[t]
  {
    var lab2 := Others(lab, r);
    forall t, i | t in lab2 && 0 <= i < FAN ensures EntryOk(lab2, t, i, h2[t][i]) {
      assert EntryOk(lab, t, i, h2[t][i]);
    }
  }

  /** A leaf of another space keeps its frame allocated. */
  lemma OtherLeaf(h: Heap, lab: Labels, bits: seq<bool>, refs: seq<nat>, r: nat, bits2: seq<bool>, refs2: seq<nat>, t: nat, i: nat)
    requires Tables(h, lab, bits) && IsRoot(lab, r) && lab[r].owner == r && r != 0 && Spared(h, lab, refs, r)
    requires Freed(refs, bits, refs2, bits2, LeavesTo(h, r, ROOT_LEVEL, FAN), TabsTo(h, r, ROOT_LEVEL, FAN) + [r])
    requires t in lab && lab[t].level == 0 && lab[t].owner != r && i < FAN && h[t][i].p && h[t][i].us && h[t][i].frame < |bits|
    ensures bits2[h[t][i].frame]
  {
    ListedTables(h, lab, bits, r, ROOT_LEVEL, FAN);
    var f := h[t][i].frame;
    assert f !in lab && bits[f];
    assert f !in TabsTo(h, r, ROOT_LEVEL, FAN) + [r];
  }

  /** Dropping the labels of a space and freeing what it listed leaves the rest well
      formed. */
  lemma TearFrees(h: Heap, h2: Heap, lab: Labels, bits: seq<bool>, refs: seq<nat>, r: nat, bits2: seq<bool>, refs2: seq<nat>)
    requires Tables(h, lab, bits) && Wf(h2, lab) && IsRoot(lab, r) && lab[r].owner == r && r != 0
    requires OnlyBelow(h, h2, lab, r) && Spared(h, lab, refs, r)
    requires Freed(refs, bits, refs2, bits2, LeavesTo(h, r, ROOT_LEVEL, FAN), TabsTo(h, r, ROOT_LEVEL, FAN) + [r])
    ensures forall t :: t in Others(lab, r) ==> t in h && t in h2 && h2[t] == h[t]
    ensures Tables(h2, Others(lab, r), bits2)
  {
    var lab2 := Others(lab, r);
    OthersWf(h, h2, lab, r);
    ListedTables(h, lab, bits, r, ROOT_LEVEL, FAN);
    forall t | t in lab2 ensures 0 < t < |bits2| && bits2[t] {
      assert t !in LeavesTo(h, r, ROOT_LEVEL, FAN);
      assert Times(LeavesTo(h, r, ROOT_LEVEL, FAN), t) == 0;
      assert t !in TabsTo(h, r, ROOT_LEVEL, FAN) + [r];
    }
    forall t, i | t in lab2 && lab2[t].level == 0 && 0 <= i < FAN && h2[t][i].p && h2[t][i].us
      ensures Mappable(lab2, bits2, h2[t][i].frame)
    {
      assert h2[t] == h[t];
      if h[t][i].frame < |bits2| {
        OtherLeaf(h, lab, bits, refs, r, bits2, refs2, t, i);
      }
    }
  }

  /** Dropping the labels of a space while its frames are still in use. */
  lemma TearUnlabels(h: Heap, h2: Heap, lab: Labels, bits: seq<bool>, r: nat)
    requires Tables(h2, lab, bits) && r in lab && lab[r].owner == r && r != 0 && OnlyBelow(h, h2, lab, r)
    ensures Tables(h2, Others(lab, r), bits) && forall t :: t in Others(lab, r) ==> t in h && t in h2 && h2[t] == h[t]
  {
    OthersWf(h, h2, lab, r);
    var lab2 := Others(lab, r);
    forall t, i | t in lab2 && lab2[t].level == 0 && 0 <= i < FAN && h2[t][i].p && h2[t][i].us
      ensures Mappable(lab2, bits, h2[t][i].frame)
    {
      assert Mappable(lab, bits, h2[t][i].frame);
    }
  }

  lemma FrameZeroKept(h: Heap, lab: Labels, bits: seq<bool>, refs: seq<nat>, r: nat, bits2: seq<bool>, refs2: seq<nat>)
    requires Tables(h, lab, bits) && IsRoot(lab, r) && lab[r].owner == r && |bits| > 0 && bits[0]
    requires Freed(refs, bits, refs2, bits2, LeavesTo(h, r, ROOT_LEVEL, FAN), TabsTo(h, r, ROOT_LEVEL, FAN) + [r])
    ensures bits2[0]
  {
    hide LeavesTo, TabsTo, Wf, LeavesUsed;
    ListedTables(h, lab, bits, r, ROOT_LEVEL, FAN);
    assert 0 !in LeavesTo(h, r, ROOT_LEVEL, FAN) && 0 !in TabsTo(h, r, ROOT_LEVEL, FAN) + [r];
  }
}
