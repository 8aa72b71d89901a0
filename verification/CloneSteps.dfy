/** The loop of clone_level, entry by entry: what holds after n entries of a table
    have been copied, and how one more entry extends it. */
module CloneSteps {
  import opened PageTables
  import opened Snapshots
  import opened SpaceCopy
  import opened SpaceTear
  import opened CloneShape
  import AS = AddressSpaces

  /** One call of clone_level: copy table src into nf, a table of the new space. */
  datatype Job = Job(cow: bool, fb: Display, src: nat, nf: nat, level: nat, space: nat)

  function Sat(n: nat): nat { if n <= REF_MAX then n else REF_MAX }

  /** Entry e0 of the source, after the copy: es in the source, ed in the copy. */
  ghost predicate EntryCopied(j: Job, h0: Heap, h: Heap, e0: Entry, es: Entry, ed: Entry) {
    if !e0.p then es == e0 && ed == ABSENT
    else if j.level == 0 then es == CopyEntry(j.cow, j.fb, e0) && ed == es
    else if Copies(e0, j.level) then
      es == e0 && Points(ed, j.level) && ed.us &&
      SameCopy(j, j.level - 1, h0, h, e0.frame, e0.frame) && SameCopy(j, j.level - 1, h0, h, e0.frame, ed.frame) &&
      Twin(j.cow, j.fb, j.level - 1, h0, h, e0.frame, ed.frame)
    else es == e0 && ed == e0
  }

  /** Below table t of h lies what cloning s of h0 should give. */
  ghost predicate SameCopy(j: Job, level: nat, h0: Heap, h: Heap, s: nat, t: nat) {
    forall v: nat {:trigger Walk(h, t, level, v)} :: Walk(h, t, level, v) == CopyHit(j.cow, j.fb, Walk(h0, s, level, v))
  }

  /** Tables, counters and contents outside the copied entries. */
  ghost predicate Around(j: Job, a: Snap, fa: nat, b: Snap, fb: nat, n: nat) {
    n <= FAN && Tables(a.tabs, a.lab, a.bits) && Tables(b.tabs, b.lab, b.bits) &&
    j.src in a.lab && a.lab[j.src].level == j.level <= ROOT_LEVEL && j.space != 0 &&
    j.nf in b.lab && j.nf !in a.lab && b.lab[j.nf] == Label(j.space, j.level, a.lab[j.src].pre) &&
    Grown(a.lab, b.lab, a.bits, b.bits) && (forall t :: t in b.lab && t !in a.lab ==> b.lab[t].owner == j.space) &&
    CowStep(j.cow, j.fb, a.tabs, b.tabs, a.lab, a.lab[j.src].owner) &&
    fb + 1 + CostTo(a.tabs, j.src, j.level, n) == fa
  }

  ghost predicate Counters(j: Job, a: Snap, b: Snap, n: nat) {
    |a.bits| == |a.refs| == |b.refs| == |a.mem| == |b.mem| == NFRAMES &&
    (forall f :: 0 <= f < NFRAMES ==> a.refs[f] <= REF_MAX && b.refs[f] <= REF_MAX) &&
    forall f {:trigger b.refs[f]} :: 0 <= f < NFRAMES && a.bits[f] ==>
      b.refs[f] == Sat(a.refs[f] + CountTo(a.tabs, j.fb, j.src, j.level, f, n)) && b.mem[f] == a.mem[f]
  }

  ghost predicate Entries(j: Job, a: Snap, b: Snap, n: nat)
    requires j.src in a.tabs && j.src in b.tabs && j.nf in b.tabs
    requires |a.tabs[j.src]| == |b.tabs[j.src]| == |b.tabs[j.nf]| == FAN && n <= FAN
  {
    (forall i {:trigger a.tabs[j.src][i]} :: 0 <= i < n ==>
      EntryCopied(j, a.tabs, b.tabs, a.tabs[j.src][i], b.tabs[j.src][i], b.tabs[j.nf][i])) &&
    (forall i {:trigger a.tabs[j.src][i]} :: n <= i < FAN ==>
      b.tabs[j.src][i] == a.tabs[j.src][i] && b.tabs[j.nf][i] == ABSENT)
  }

  /** After n entries. */
  ghost predicate Progress(j: Job, a: Snap, fa: nat, b: Snap, fb: nat, n: nat) {
    Around(j, a, fa, b, fb, n) && Counters(j, a, b, n) && Entries(j, a, b, n) && Linked(a.lab, b.lab, b.tabs, j.nf, j.level, n)
  }

  lemma CowStepWf(cow: bool, fb: Display, h: Heap, h2: Heap, lab: Labels, owner: nat)
    requires Wf(h, lab) && CowStep(cow, fb, h, h2, lab, owner)
    ensures Wf(h2, lab)
  {
    forall t, i | t in lab && 0 <= i < FAN ensures EntryOk(lab, t, i, h2[t][i]) {
      assert EntryOk(lab, t, i, h[t][i]);
      assert h2[t][i] == h[t][i] || h2[t][i] == CopyEntry(cow, fb, h[t][i]);
    }
  }

  /** A subtree already copied stays right while others are copied. */
  lemma CopyStays(j: Job, level: nat, h0: Heap, h: Heap, m: Heap, lab: Labels, owner: nat, nf: nat, n: nat, e: Entry, s: nat, t: nat)
    requires Wf(h, lab) && CowStep(j.cow, j.fb, h, m, lab, owner) && nf in lab && lab[nf].level > level && n < FAN
    requires t in lab && lab[t].level == level && SameCopy(j, level, h0, h, s, t)
    ensures SameCopy(j, level, h0, SetSlot(m, nf, n, e), s, t)
  {
    CowStepWf(j.cow, j.fb, h, m, lab, owner);
    var h2 := SetSlot(m, nf, n, e);
    forall v: nat ensures Walk(h2, t, level, v) == CopyHit(j.cow, j.fb, Walk(h0, s, level, v)) {
      CowStepWalk(j.cow, j.fb, h, m, lab, owner, t, level, v);
      WalkAgree(m, h2, lab, t, level, v);
    }
  }

  /** The entries before n after the step that copies entry n. */
  lemma EntriesStay(j: Job, a: Snap, fa: nat, b: Snap, fb: nat, c: Snap, n: nat, m: Heap, e: Entry)
    requires Progress(j, a, fa, b, fb, n) && n < FAN
    requires CowStep(j.cow, j.fb, b.tabs, m, b.lab, a.lab[j.src].owner)
    requires forall i :: 0 <= i < FAN && i != n ==> m[j.src][i] == b.tabs[j.src][i]
    requires forall i :: 0 <= i < FAN ==> m[j.nf][i] == b.tabs[j.nf][i]
    requires c.tabs == SetSlot(m, j.nf, n, e) && EntryCopied(j, a.tabs, c.tabs, a.tabs[j.src][n], m[j.src][n], e)
    ensures j.nf != j.src && j.src in c.tabs && j.nf in c.tabs && |c.tabs[j.src]| == |c.tabs[j.nf]| == FAN && Entries(j, a, c, n + 1)
  {
    hide Counters, Linked, EntryCopied;
    var h := SetSlot(m, j.nf, n, e);
    forall i | 0 <= i < n
      ensures EntryCopied(j, a.tabs, h, a.tabs[j.src][i], h[j.src][i], h[j.nf][i])
    {
      var e0, es, ed := a.tabs[j.src][i], b.tabs[j.src][i], b.tabs[j.nf][i];
      assert EntryOk(b.lab, j.nf, i, ed) && EntryOk(a.lab, j.src, i, e0);
      assert e0.frame in a.lab ==> e0.frame in b.lab && b.lab[e0.frame] == a.lab[e0.frame];
      EntryStays(j, a.tabs, b.tabs, m, b.lab, a.lab[j.src].owner, n, e, e0, es, ed);
    }
    forall i | n < i < FAN ensures h[j.src][i] == a.tabs[j.src][i] && h[j.nf][i] == ABSENT {
      assert b.tabs[j.src][i] == a.tabs[j.src][i] && b.tabs[j.nf][i] == ABSENT;
    }
    assert h[j.src][n] == m[j.src][n] && h[j.nf][n] == e;
  }

  /** An entry already copied, after the step that copies entry n. */
  lemma EntryStays(j: Job, h0: Heap, h: Heap, m: Heap, lab: Labels, owner: nat, n: nat, e: Entry, e0: Entry, es: Entry, ed: Entry)
    requires Wf(h, lab) && CowStep(j.cow, j.fb, h, m, lab, owner) && j.nf in lab && lab[j.nf].level == j.level && n < FAN
    requires EntryCopied(j, h0, h, e0, es, ed)
    requires Copies(e0, j.level) ==> e0.frame in lab && lab[e0.frame].level == j.level - 1
    requires Points(ed, j.level) ==> ed.frame in lab && lab[ed.frame].level == j.level - 1
    ensures EntryCopied(j, h0, SetSlot(m, j.nf, n, e), e0, es, ed)
  {
    if e0.p && Copies(e0, j.level) {
      CopyStays(j, j.level - 1, h0, h, m, lab, owner, j.nf, n, e, e0.frame, e0.frame);
      CopyStays(j, j.level - 1, h0, h, m, lab, owner, j.nf, n, e, e0.frame, ed.frame);
      TwinStays(j.cow, j.fb, j.level - 1, h0, h, m, lab, owner, j.nf, n, e, e0.frame, ed.frame);
    }
  }

  /** The counts of frames in use after entry n. */
  ghost predicate EntryCounted(j: Job, a: Snap, b: Snap, c: Snap, e0: Entry) {
    |b.bits| == |b.refs| == |b.mem| == |c.refs| == |c.mem| == NFRAMES &&
    (forall f :: 0 <= f < NFRAMES ==> c.refs[f] <= REF_MAX) &&
    forall f {:trigger c.refs[f]} :: 0 <= f < NFRAMES && b.bits[f] ==>
      c.refs[f] == Sat(b.refs[f] + EntryCount(a.tabs, j.fb, e0, j.level, f)) && c.mem[f] == b.mem[f]
  }

  lemma CountersAdvance(j: Job, a: Snap, b: Snap, c: Snap, n: nat)
    requires Counters(j, a, b, n) && n < FAN && j.src in a.tabs && |a.tabs[j.src]| == FAN
    requires |b.bits| == NFRAMES && forall f :: 0 <= f < NFRAMES && a.bits[f] ==> b.bits[f]
    requires EntryCounted(j, a, b, c, a.tabs[j.src][n])
    ensures Counters(j, a, c, n + 1)
  {
    forall f | 0 <= f < NFRAMES && a.bits[f]
      ensures c.refs[f] == Sat(a.refs[f] + CountTo(a.tabs, j.fb, j.src, j.level, f, n + 1)) && c.mem[f] == a.mem[f]
    {
      assert b.refs[f] == Sat(a.refs[f] + CountTo(a.tabs, j.fb, j.src, j.level, f, n));
    }
  }

  lemma AroundAdvance(j: Job, a: Snap, fa: nat, b: Snap, fb: nat, c: Snap, fc: nat, n: nat, m: Heap, e: Entry)
    requires Around(j, a, fa, b, fb, n) && n < FAN
    requires CowStep(j.cow, j.fb, b.tabs, m, b.lab, a.lab[j.src].owner) && c.tabs == SetSlot(m, j.nf, n, e)
    requires Tables(c.tabs, c.lab, c.bits) && Grown(b.lab, c.lab, b.bits, c.bits)
    requires forall t :: t in c.lab && t !in b.lab ==> c.lab[t].owner == j.space
    requires fc + EntryCost(a.tabs, a.tabs[j.src][n], j.level) == fb
    ensures Around(j, a, fa, c, fc, n + 1)
  {
    CowStepTrans(j.cow, j.fb, a.tabs, b.tabs, m, a.lab, b.lab, a.lab[j.src].owner);
    assert CowStep(j.cow, j.fb, a.tabs, c.tabs, a.lab, a.lab[j.src].owner);
  }

  /** One more entry: c is the state after entry n, with e written to the copy. */
  lemma Advance(j: Job, a: Snap, fa: nat, b: Snap, fb: nat, c: Snap, fc: nat, n: nat, m: Heap, e: Entry)
    requires Progress(j, a, fa, b, fb, n) && n < FAN
    requires CowStep(j.cow, j.fb, b.tabs, m, b.lab, a.lab[j.src].owner)
    requires forall i :: 0 <= i < FAN && i != n ==> m[j.src][i] == b.tabs[j.src][i]
    requires forall i :: 0 <= i < FAN ==> m[j.nf][i] == b.tabs[j.nf][i]
    requires c.tabs == SetSlot(m, j.nf, n, e) && EntryCopied(j, a.tabs, c.tabs, a.tabs[j.src][n], m[j.src][n], e)
    requires Tables(c.tabs, c.lab, c.bits) && Grown(b.lab, c.lab, b.bits, c.bits)
    requires forall t :: t in c.lab && t !in b.lab ==> c.lab[t].owner == j.space
    requires EntryCounted(j, a, b, c, a.tabs[j.src][n])
    requires fc + EntryCost(a.tabs, a.tabs[j.src][n], j.level) == fb
    requires forall t :: t in c.lab && t !in b.lab ==> t in EntryTabs(c.tabs, e, j.level)
    ensures Progress(j, a, fa, c, fc, n + 1)
  {
    CowStepWf(j.cow, j.fb, b.tabs, m, b.lab, a.lab[j.src].owner);
    LinkedNext(j.cow, j.fb, a.lab, b.lab, c.lab, a.lab[j.src].owner, b.tabs, m, j.nf, j.level, n, e);
    EntriesStay(j, a, fa, b, fb, c, n, m, e);
    hide Linked, Entries, EntryCopied;
    AroundAdvance(j, a, fa, b, fb, c, fc, n, m, e);
    CountersAdvance(j, a, b, c, n);
  }

  /** What clone_level delivers. */
  ghost predicate Cloned(j: Job, a: Snap, fa: nat, b: Snap, fb: nat) {
    Around(j, a, fa, b, fb, FAN) && Counters(j, a, b, FAN) &&
    SameCopy(j, j.level, a.tabs, b.tabs, j.src, j.src) && SameCopy(j, j.level, a.tabs, b.tabs, j.src, j.nf) &&
    Twin(j.cow, j.fb, j.level, a.tabs, b.tabs, j.src, j.nf) && Linked(a.lab, b.lab, b.tabs, j.nf, j.level, FAN)
  }

  /** Kernel tables are left alone, so a pointer shared with them needs no copy. */
  lemma SharedCopy(j: Job, a: Snap, fa: nat, b: Snap, fb: nat, t: nat, level: nat, v: nat)
    requires Around(j, a, fa, b, fb, FAN) && t in a.lab && a.lab[t].owner == 0 && a.lab[t].level == level
    ensures Walk(b.tabs, t, level, v) == Walk(a.tabs, t, level, v) == CopyHit(j.cow, j.fb, Walk(a.tabs, t, level, v))
  {
    SharedWalk(a.tabs, a.lab, t, level, v);
    CowStepWalk(j.cow, j.fb, a.tabs, b.tabs, a.lab, a.lab[j.src].owner, t, level, v);
  }

  lemma Finish(j: Job, a: Snap, fa: nat, b: Snap, fb: nat)
    requires Progress(j, a, fa, b, fb, FAN) && (a.lab[j.src].owner == 0 ==> j.level >= 2)
    ensures Cloned(j, a, fa, b, fb)
  {
    hide Counters, Linked, Twin, CostTo, Entries, Grown, LeavesUsed;
    forall v: nat
      ensures Walk(b.tabs, j.src, j.level, v) == CopyHit(j.cow, j.fb, Walk(a.tabs, j.src, j.level, v))
      ensures Walk(b.tabs, j.nf, j.level, v) == CopyHit(j.cow, j.fb, Walk(a.tabs, j.src, j.level, v))
    {
      FinishWalk(j, a, fa, b, fb, v);
    }
    FinishTwin(j, a, b);
  }

  lemma FinishWalk(j: Job, a: Snap, fa: nat, b: Snap, fb: nat, v: nat)
    requires Progress(j, a, fa, b, fb, FAN) && (a.lab[j.src].owner == 0 ==> j.level >= 2)
    ensures Walk(b.tabs, j.src, j.level, v) == CopyHit(j.cow, j.fb, Walk(a.tabs, j.src, j.level, v))
    ensures Walk(b.tabs, j.nf, j.level, v) == CopyHit(j.cow, j.fb, Walk(a.tabs, j.src, j.level, v))
  {
    hide Counters, Linked, Twin, CostTo, Grown, At, Idx, LeavesUsed;
    var i := Idx(v, j.level);
    var e0, es, ed := a.tabs[j.src][i], b.tabs[j.src][i], b.tabs[j.nf][i];
    assert EntryCopied(j, a.tabs, b.tabs, e0, es, ed);
    assert EntryOk(a.lab, j.src, i, e0);
    if Copies(e0, j.level) {
      assert Walk(b.tabs, e0.frame, j.level - 1, v) == CopyHit(j.cow, j.fb, Walk(a.tabs, e0.frame, j.level - 1, v));
      assert Walk(b.tabs, ed.frame, j.level - 1, v) == CopyHit(j.cow, j.fb, Walk(a.tabs, e0.frame, j.level - 1, v));
    } else if Points(e0, j.level) {
      SharedCopy(j, a, fa, b, fb, e0.frame, j.level - 1, v);
    }
  }

  lemma FinishTwin(j: Job, a: Snap, b: Snap)
    requires j.src in a.tabs && j.src in b.tabs && j.nf in b.tabs
    requires |a.tabs[j.src]| == |b.tabs[j.src]| == |b.tabs[j.nf]| == FAN && Entries(j, a, b, FAN)
    ensures Twin(j.cow, j.fb, j.level, a.tabs, b.tabs, j.src, j.nf)
  {
    forall i | 0 <= i < FAN ensures TwinEntry(j.cow, j.fb, j.level, a.tabs, b.tabs, a.tabs[j.src][i], b.tabs[j.nf][i]) {
      assert EntryCopied(j, a.tabs, b.tabs, a.tabs[j.src][i], b.tabs[j.src][i], b.tabs[j.nf][i]);
    }
  }

  /** Entry n of the source is still as it was, and its place in the copy is there. */
  lemma ProgressAt(j: Job, a: Snap, fa: nat, b: Snap, fb: nat, n: nat)
    requires Progress(j, a, fa, b, fb, n) && n < FAN
    ensures j.src in a.tabs && |a.tabs[j.src]| == FAN && j.src in b.tabs && |b.tabs[j.src]| == FAN && b.tabs[j.src][n] == a.tabs[j.src][n]
    ensures j.nf in b.tabs && |b.tabs[j.nf]| == FAN && j.nf != j.src && Tables(b.tabs, b.lab, b.bits) && j.src in a.lab && a.lab[j.src].level == j.level
  {
  }

  // ---------------------------------------------------------------- the four kinds of entry

  lemma TablesWrite(h: Heap, lab: Labels, bits: seq<bool>, t: nat, i: nat, e: Entry)
    requires Tables(h, lab, bits) && t in lab && i < FAN && EntryOk(lab, t, i, e)
    requires lab[t].level == 0 && e.p && e.us ==> Mappable(lab, bits, e.frame)
    ensures Tables(SetSlot(h, t, i, e), lab, bits)
  {
    var h2 := SetSlot(h, t, i, e);
    forall u, k | u in lab && 0 <= k < FAN ensures u in h2 && |h2[u]| == FAN && EntryOk(lab, u, k, h2[u][k]) {
      assert EntryOk(lab, u, k, h[u][k]);
    }
  }

  lemma CowStepSame(cow: bool, fb: Display, h: Heap, lab: Labels, owner: nat)
    requires Wf(h, lab)
    ensures CowStep(cow, fb, h, h, lab, owner)
  {
  }

  /** An entry that is absent, a large page or a pointer to a shared table. */
  lemma AdvancePlain(j: Job, a: Snap, fa: nat, b: Snap, fb: nat, n: nat, e: Entry)
    requires Progress(j, a, fa, b, fb, n) && n < FAN
    requires var e0 := a.tabs[j.src][n];
      !Copies(e0, j.level) && (e0.p ==> j.level > 0) && (j.level > 0 && e0.p && e0.ps ==> !e0.us) &&
      e == if e0.p then e0 else ABSENT
    ensures Progress(j, a, fa, b.(tabs := SetSlot(b.tabs, j.nf, n, e)), fb, n + 1)
  {
    var e0 := a.tabs[j.src][n];
    var c := b.(tabs := SetSlot(b.tabs, j.nf, n, e));
    assert EntryOk(a.lab, j.src, n, e0);
    assert EntryOk(b.lab, j.nf, n, e);
    TablesWrite(b.tabs, b.lab, b.bits, j.nf, n, e);
    CowStepSame(j.cow, j.fb, b.tabs, b.lab, a.lab[j.src].owner);
    assert b.tabs[j.src][n] == e0;
    assert EntryCounted(j, a, b, c, e0);
    Advance(j, a, fa, b, fb, c, fb, n, b.tabs, e);
  }

  /** The counts after one leaf. */
  function LeafRefs(j: Job, refs: seq<nat>, e0: Entry): seq<nat>
    requires |refs| == NFRAMES
  {
    if e0.us && !Shown(j.fb, e0.frame) && e0.frame < NFRAMES then refs[e0.frame := Sat(refs[e0.frame] + 1)] else refs
  }

  lemma LeafCounted(j: Job, a: Snap, b: Snap, h: Heap, n: nat)
    requires Counters(j, a, b, n) && j.level == 0 && |b.bits| == NFRAMES && j.src in a.tabs && n < |a.tabs[j.src]|
    requires a.tabs[j.src][n].p
    ensures EntryCounted(j, a, b, b.(tabs := h, refs := LeafRefs(j, b.refs, a.tabs[j.src][n])), a.tabs[j.src][n])
  {
  }

  /** A leaf: both sides get the copied entry and a user frame is counted once more. */
  lemma AdvanceLeaf(j: Job, a: Snap, fa: nat, b: Snap, fb: nat, n: nat)
    requires Progress(j, a, fa, b, fb, n) && n < FAN && j.level == 0 && a.lab[j.src].owner != 0 && |b.bits| == NFRAMES
    requires a.tabs[j.src][n].p
    ensures var e := CopyEntry(j.cow, j.fb, a.tabs[j.src][n]);
      var h := SetSlot(SetSlot(b.tabs, j.src, n, e), j.nf, n, e);
      Tables(h, b.lab, b.bits) && Progress(j, a, fa, b.(tabs := h, refs := LeafRefs(j, b.refs, a.tabs[j.src][n])), fb, n + 1)
  {
    var e0 := a.tabs[j.src][n];
    var e := CopyEntry(j.cow, j.fb, e0);
    assert b.tabs[j.src][n] == e0 && EntryOk(b.lab, j.src, n, e0);
    var m := SetSlot(b.tabs, j.src, n, e);
    TablesWrite(b.tabs, b.lab, b.bits, j.src, n, e);
    TablesWrite(m, b.lab, b.bits, j.nf, n, e);
    var h := SetSlot(m, j.nf, n, e);
    LeafCounted(j, a, b, h, n);
    assert CowStep(j.cow, j.fb, b.tabs, m, b.lab, a.lab[j.src].owner);
    Advance(j, a, fa, b, fb, b.(tabs := h, refs := LeafRefs(j, b.refs, e0)), fb, n, m, e);
  }

  /** A copied subtree, relative to the state before the whole loop. */
  lemma SubtreeCopied(j: Job, level: nat, a: Snap, b: Snap, d: Snap, child: nat, t: nat, n: nat, e: Entry)
    requires Wf(a.tabs, a.lab) && Wf(b.tabs, b.lab) && Wf(d.tabs, d.lab) && j.level == level + 1
    requires j.src in a.lab && CowStep(j.cow, j.fb, a.tabs, b.tabs, a.lab, a.lab[j.src].owner)
    requires child in a.lab && a.lab[child].level == level
    requires t in d.lab && d.lab[t].level == level && j.nf in d.lab && d.lab[j.nf].level == j.level && n < FAN
    requires SameCopy(j, level, b.tabs, d.tabs, child, t)
    ensures SameCopy(j, level, a.tabs, SetSlot(d.tabs, j.nf, n, e), child, t)
  {
    var h := SetSlot(d.tabs, j.nf, n, e);
    forall v: nat ensures Walk(h, t, level, v) == CopyHit(j.cow, j.fb, Walk(a.tabs, child, level, v)) {
      WalkAgree(d.tabs, h, d.lab, t, level, v);
      assert Walk(d.tabs, t, level, v) == CopyHit(j.cow, j.fb, Walk(b.tabs, child, level, v));
      CowStepWalk(j.cow, j.fb, a.tabs, b.tabs, a.lab, a.lab[j.src].owner, child, level, v);
    }
  }

  /** The copied subtree mirrors the source as it was, and brings its tables along. */
  lemma SubtreeTwin(j: Job, a: Snap, b: Snap, d: Snap, child: nat, c: nat, n: nat, e: Entry)
    requires j.level > 0 && Wf(a.tabs, a.lab) && Wf(d.tabs, d.lab) && j.src in a.lab && child in a.lab && a.lab[child].level == j.level - 1
    requires CowStep(j.cow, j.fb, a.tabs, b.tabs, a.lab, a.lab[j.src].owner)
    requires c in d.lab && d.lab[c].level == j.level - 1 && j.nf in d.lab && d.lab[j.nf].level == j.level && n < FAN && e == Link(c, true)
    requires Twin(j.cow, j.fb, j.level - 1, b.tabs, d.tabs, child, c) && Linked(b.lab, d.lab, d.tabs, c, j.level - 1, FAN)
    ensures Twin(j.cow, j.fb, j.level - 1, a.tabs, SetSlot(d.tabs, j.nf, n, e), child, c)
    ensures forall t :: t in d.lab && t !in b.lab ==> t in EntryTabs(SetSlot(d.tabs, j.nf, n, e), e, j.level)
  {
    TwinOfFirst(j.cow, j.fb, j.level - 1, a.tabs, b.tabs, a.lab, a.lab[j.src].owner, d.tabs, child, c);
    CowStepSame(j.cow, j.fb, d.tabs, d.lab, 0);
    TwinStays(j.cow, j.fb, j.level - 1, a.tabs, d.tabs, d.tabs, d.lab, 0, j.nf, n, e, child, c);
    var h := SetSlot(d.tabs, j.nf, n, e);
    TabsSet(d.tabs, d.lab, j.nf, n, e, c, j.level - 1, FAN);
    assert EntryTabs(h, e, j.level) == TabsTo(h, c, j.level - 1, FAN) + [c];
  }

  /** The call that copies the subtree below entry n. */
  function ChildJob(j: Job, child: nat, c: nat): Job
    requires j.level > 0
  {
    Job(j.cow, j.fb, child, c, j.level - 1, j.space)
  }

  /** Counters after the recursive call, in terms of the state before the loop. */
  lemma TableCounted(j: Job, a: Snap, b: Snap, d: Snap, h: Heap, e0: Entry, c: nat)
    requires Wf(a.tabs, a.lab) && j.src in a.lab && CowStep(j.cow, j.fb, a.tabs, b.tabs, a.lab, a.lab[j.src].owner)
    requires Copies(e0, j.level) && e0.frame in a.lab && a.lab[e0.frame].level == j.level - 1
    requires Counters(ChildJob(j, e0.frame, c), b, d, FAN)
    ensures EntryCounted(j, a, b, d.(tabs := h), e0)
    ensures EntryCost(a.tabs, e0, j.level) == 1 + CostTo(b.tabs, e0.frame, j.level - 1, FAN)
  {
    CowStepCost(j.cow, j.fb, a.tabs, b.tabs, a.lab, a.lab[j.src].owner, e0.frame, j.level - 1, FAN);
    assert EntryCost(a.tabs, e0, j.level) == 1 + CostTo(a.tabs, e0.frame, j.level - 1, FAN);
    forall f | 0 <= f < NFRAMES && b.bits[f]
      ensures d.refs[f] == Sat(b.refs[f] + EntryCount(a.tabs, j.fb, e0, j.level, f)) && d.mem[f] == b.mem[f]
    {
      CowStepCount(j.cow, j.fb, a.tabs, b.tabs, a.lab, a.lab[j.src].owner, e0.frame, j.level - 1, f, FAN);
      assert EntryCount(a.tabs, j.fb, e0, j.level, f) == CountTo(a.tabs, j.fb, e0.frame, j.level - 1, f, FAN);
    }
  }

  /** Tables after the recursive call: the loop's tables are untouched and the new
      subtree may be linked at entry n. */
  lemma TableLinks(j: Job, a: Snap, fa: nat, b: Snap, fb: nat, n: nat, d: Snap, fd: nat, c: nat)
    requires Around(j, a, fa, b, fb, n) && n < FAN && Copies(a.tabs[j.src][n], j.level)
    requires Around(ChildJob(j, a.tabs[j.src][n].frame, c), b, fb, d, fd, FAN)
    ensures var e0 := a.tabs[j.src][n]; e0.frame in a.lab && a.lab[e0.frame].level == j.level - 1 && b.lab[e0.frame].owner == a.lab[j.src].owner
    ensures d.lab[j.nf] == b.lab[j.nf] && d.tabs[j.nf] == b.tabs[j.nf] && d.tabs[j.src] == b.tabs[j.src]
    ensures Tables(SetSlot(d.tabs, j.nf, n, Link(c, true)), d.lab, d.bits)
  {
    var e0, e := a.tabs[j.src][n], Link(c, true);
    assert EntryOk(a.lab, j.src, n, e0) && b.lab[e0.frame] == a.lab[e0.frame];
    assert d.lab[j.nf] == b.lab[j.nf];
    assert EntryOk(d.lab, j.nf, n, e);
    TablesWrite(d.tabs, d.lab, d.bits, j.nf, n, e);
  }

  /** The state d after the recursive call, with its result linked into the copy. */
  lemma AdvanceTable(j: Job, a: Snap, fa: nat, b: Snap, fb: nat, n: nat, d: Snap, fd: nat, c: nat)
    requires Progress(j, a, fa, b, fb, n) && n < FAN && Copies(a.tabs[j.src][n], j.level)
    requires Cloned(ChildJob(j, a.tabs[j.src][n].frame, c), b, fb, d, fd)
    ensures j.nf in d.tabs && |d.tabs[j.nf]| == FAN
    ensures Progress(j, a, fa, d.(tabs := SetSlot(d.tabs, j.nf, n, Link(c, true))), fd, n + 1)
  {
    var e0, e := a.tabs[j.src][n], Link(c, true);
    var child := e0.frame;
    TableLinks(j, a, fa, b, fb, n, d, fd, c);
    var h := SetSlot(d.tabs, j.nf, n, e);
    TableCounted(j, a, b, d, h, e0, c);
    assert SameCopy(j, j.level - 1, a.tabs, h, child, child) && SameCopy(j, j.level - 1, a.tabs, h, child, c) by {
      SubtreeCopied(j, j.level - 1, a, b, d, child, child, n, e);
      SubtreeCopied(j, j.level - 1, a, b, d, child, c, n, e);
    }
    SubtreeTwin(j, a, b, d, child, c, n, e);
    Advance(j, a, fa, b, fb, d.(tabs := h), fd, n, d.tabs, e);
  }

  /** Before the first entry: an empty table, labelled as the copy of src. */
  lemma CloneStart(j: Job, a: Snap, fa: nat)
    requires Tables(a.tabs, a.lab, a.bits) && |a.bits| == |a.refs| == |a.mem| == NFRAMES && fa > 0
    requires forall f :: 0 <= f < NFRAMES ==> a.refs[f] <= REF_MAX
    requires j.src in a.lab && a.lab[j.src].level == j.level <= ROOT_LEVEL && j.space != 0
    requires 0 < j.nf < NFRAMES && !a.bits[j.nf]
    ensures var lab := a.lab[j.nf := Label(j.space, j.level, a.lab[j.src].pre)];
      Progress(j, a, fa, Snap(a.tabs[j.nf := ZeroTable()], lab, a.bits[j.nf := true], a.refs[j.nf := 1],
                              a.mem[j.nf := AS.ZeroPage()]), fa - 1, 0)
  {
    var lab := a.lab[j.nf := Label(j.space, j.level, a.lab[j.src].pre)];
    var h := a.tabs[j.nf := ZeroTable()];
    forall t, i | t in lab && 0 <= i < FAN ensures t in h && |h[t]| == FAN && EntryOk(lab, t, i, h[t][i]) {
      if t != j.nf { assert EntryOk(a.lab, t, i, a.tabs[t][i]); }
    }
  }

  /** If the recursive call runs short, so did the whole. */
  lemma CloneShort(j: Job, a: Snap, fa: nat, b: Snap, fb: nat, n: nat)
    requires Around(j, a, fa, b, fb, n) && n < FAN && Copies(a.tabs[j.src][n], j.level)
    requires var child := a.tabs[j.src][n].frame;
      fb < CloneCost(b.tabs, child, j.level - 1) || LargeTo(b.tabs, child, j.level - 1, FAN)
    ensures fa < CloneCost(a.tabs, j.src, j.level) || LargeTo(a.tabs, j.src, j.level, FAN)
  {
    var e0 := a.tabs[j.src][n];
    assert EntryOk(a.lab, j.src, n, e0);
    CowStepCost(j.cow, j.fb, a.tabs, b.tabs, a.lab, a.lab[j.src].owner, e0.frame, j.level - 1, FAN);
    CowStepLarge(j.cow, j.fb, a.tabs, b.tabs, a.lab, a.lab[j.src].owner, e0.frame, j.level - 1, FAN);
    if LargeTo(b.tabs, e0.frame, j.level - 1, FAN) {
      LargeGrows(a.tabs, j.src, j.level, n + 1, FAN);
    } else {
      assert EntryCost(a.tabs, e0, j.level) == 1 + CostTo(a.tabs, e0.frame, j.level - 1, FAN);
      CostGrows(a.tabs, j.src, j.level, n + 1, FAN);
    }
  }
}
