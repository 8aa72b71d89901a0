/** The shape of a copied space: entry for entry it mirrors its source, and every table
    the copy took hangs below its root. */
module CloneShape {
  import opened PageTables
  import opened SpaceCopy
  import opened SpaceTear

  /** Table t of h mirrors table s of h0: user leaves as a clone leaves them, user tables
      copied, everything else shared by pointer. */
  ghost predicate Twin(cow: bool, fb: Display, level: nat, h0: Heap, h: Heap, s: nat, t: nat)
    decreases level, 1
  {
    s in h0 && |h0[s]| == FAN && t in h && |h[t]| == FAN &&
    forall i {:trigger h0[s][i]} :: 0 <= i < FAN ==> TwinEntry(cow, fb, level, h0, h, h0[s][i], h[t][i])
  }

  ghost predicate TwinEntry(cow: bool, fb: Display, level: nat, h0: Heap, h: Heap, e0: Entry, ed: Entry)
    decreases level, 0
  {
    if !e0.p then ed == ABSENT
    else if level == 0 then ed == CopyEntry(cow, fb, e0)
    else if Copies(e0, level) then Points(ed, level) && ed.us && Twin(cow, fb, level - 1, h0, h, e0.frame, ed.frame)
    else ed == e0
  }

  lemma CopyTwice(cow: bool, fb: Display, e: Entry)
    ensures CopyEntry(cow, fb, CopyEntry(cow, fb, e)) == CopyEntry(cow, fb, e)
  {
  }

  /** Marking leaves and writing to a table above do not disturb a mirror. */
  lemma {:induction false} TwinStays(cow: bool, fb: Display, level: nat, h0: Heap, h: Heap, m: Heap, lab: Labels, owner: nat, nf: nat, n: nat, e: Entry, s: nat, t: nat)
    requires Wf(h, lab) && CowStep(cow, fb, h, m, lab, owner) && nf in lab && lab[nf].level > level && n < FAN
    requires t in lab && lab[t].level == level && Twin(cow, fb, level, h0, h, s, t)
    ensures Twin(cow, fb, level, h0, SetSlot(m, nf, n, e), s, t)
    decreases level
  {
    var h2 := SetSlot(m, nf, n, e);
    forall i | 0 <= i < FAN ensures TwinEntry(cow, fb, level, h0, h2, h0[s][i], h2[t][i]) {
      var e0, ed := h0[s][i], h[t][i];
      assert TwinEntry(cow, fb, level, h0, h, e0, ed) && EntryOk(lab, t, i, ed);
      assert m[t][i] == ed || (level == 0 && m[t][i] == CopyEntry(cow, fb, ed));
      CopyTwice(cow, fb, e0);
      if e0.p && level > 0 && Copies(e0, level) {
        TwinStays(cow, fb, level - 1, h0, h, m, lab, owner, nf, n, e, e0.frame, ed.frame);
      }
    }
  }

  /** A mirror of the source as marked so far is a mirror of the source as it was. */
  lemma {:induction false} TwinOfFirst(cow: bool, fb: Display, level: nat, h0: Heap, h1: Heap, lab: Labels, owner: nat, h: Heap, s: nat, t: nat)
    requires Wf(h0, lab) && CowStep(cow, fb, h0, h1, lab, owner) && s in lab && lab[s].level == level && Twin(cow, fb, level, h1, h, s, t)
    ensures Twin(cow, fb, level, h0, h, s, t)
    decreases level
  {
    forall i | 0 <= i < FAN ensures TwinEntry(cow, fb, level, h0, h, h0[s][i], h[t][i]) {
      var e0, e1 := h0[s][i], h1[s][i];
      assert TwinEntry(cow, fb, level, h1, h, e1, h[t][i]) && EntryOk(lab, s, i, e0);
      CopyTwice(cow, fb, e0);
      if e0.p && level > 0 && Copies(e0, level) {
        TwinOfFirst(cow, fb, level - 1, h0, h1, lab, owner, h, e0.frame, h[t][i].frame);
      }
    }
  }

  // ---------------------------------------------------------------- the tables of the copy

  lemma {:induction false} CowStepTabs(cow: bool, fb: Display, h: Heap, m: Heap, lab: Labels, owner: nat, t: nat, level: nat, n: nat)
    requires Wf(h, lab) && CowStep(cow, fb, h, m, lab, owner) && t in lab && lab[t].level == level && n <= FAN
    ensures TabsTo(m, t, level, n) == TabsTo(h, t, level, n)
    decreases level, n
  {
    if n > 0 {
      CowStepTabs(cow, fb, h, m, lab, owner, t, level, n - 1);
      var e := h[t][n - 1];
      assert EntryOk(lab, t, n - 1, e);
      assert m[t][n - 1] == e || (level == 0 && m[t][n - 1] == CopyEntry(cow, fb, e));
      if Points(e, level) && e.us {
        CowStepTabs(cow, fb, h, m, lab, owner, e.frame, level - 1, FAN);
        assert EntryTabs(m, e, level) == TabsTo(m, e.frame, level - 1, FAN) + [e.frame];
        assert EntryTabs(h, e, level) == TabsTo(h, e.frame, level - 1, FAN) + [e.frame];
      }
    }
  }

  /** A write to slot i of table u leaves the tables below lower tables, and below the
      first i slots of u itself, where they are. */
  lemma {:induction false} TabsSet(h: Heap, lab: Labels, u: nat, i: nat, e: Entry, t: nat, level: nat, n: nat)
    requires Wf(h, lab) && u in lab && i < FAN && t in lab && lab[t].level == level && n <= FAN
    requires lab[u].level > level || (t == u && n <= i)
    ensures TabsTo(SetSlot(h, u, i, e), t, level, n) == TabsTo(h, t, level, n)
    decreases level, n
  {
    var m := SetSlot(h, u, i, e);
    if n > 0 {
      TabsSet(h, lab, u, i, e, t, level, n - 1);
      var f := h[t][n - 1];
      assert EntryOk(lab, t, n - 1, f) && m[t][n - 1] == f;
      if Points(f, level) && f.us {
        TabsSet(h, lab, u, i, e, f.frame, level - 1, FAN);
        assert EntryTabs(m, f, level) == TabsTo(m, f.frame, level - 1, FAN) + [f.frame];
        assert EntryTabs(h, f, level) == TabsTo(h, f.frame, level - 1, FAN) + [f.frame];
      }
    }
  }

  /** Every table that is new since lab0 is the copy nf or hangs below its first n entries. */
  ghost predicate Linked(lab0: Labels, lab: Labels, h: Heap, nf: nat, level: nat, n: nat) {
    forall t :: t in lab && t !in lab0 ==> t == nf || t in TabsTo(h, nf, level, n)
  }

  /** One more entry, and the tables it brought. */
  lemma LinkedNext(cow: bool, fb: Display, lab0: Labels, lab: Labels, lab2: Labels, owner: nat, h: Heap, m: Heap, nf: nat, level: nat, n: nat, e: Entry)
    requires Linked(lab0, lab, h, nf, level, n) && Wf(h, lab) && Wf(m, lab) && CowStep(cow, fb, h, m, lab, owner) && nf in lab && lab[nf].level == level && n < FAN
    requires forall t :: t in lab2 && t !in lab ==> t in EntryTabs(SetSlot(m, nf, n, e), e, level)
    ensures Linked(lab0, lab2, SetSlot(m, nf, n, e), nf, level, n + 1)
  {
    var h2 := SetSlot(m, nf, n, e);
    CowStepTabs(cow, fb, h, m, lab, owner, nf, level, n);
    TabsSet(m, lab, nf, n, e, nf, level, n);
    assert TabsTo(h2, nf, level, n + 1) == TabsTo(h2, nf, level, n) + EntryTabs(h2, e, level);
  }
}
