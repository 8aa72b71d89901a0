/** One locked section of the memory manager at a time: page tables, bitmap and counts go
    from a good state to a good state, and every task sees what it would see if no frame
    were ever shared. */
module MachineSteps {
  import opened PageTables
  import opened Snapshots
  import opened SpaceCopy
  import opened SpaceTear
  import opened CloneShape
  import opened CloneSteps
  import opened Refinement
  import opened CloneUndo
  import opened Coverage
  import AS = AddressSpaces

  /** Manager state c, with the live spaces and what each CPU owes, stands for abstract
      state s, whose counts are exact. */
  ghost predicate Good(c: Snap, live: set<nat>, pend: seq<seq<nat>>, s: AS.State) {
    Rel(c, live, pend, s) && AS.Inv(s) && 0 in s.reserved && Anchored(c.tabs, c.lab) && Homed(c.lab, live)
  }

  lemma ReservedStays(s: AS.State, op: AS.Op)
    requires AS.Shaped(s) && AS.Can(s, op)
    ensures AS.Do(s, op).reserved == s.reserved
  {
  }

  /** A step of the abstract machine carries everything along. */
  lemma GoodStep(c: Snap, live: set<nat>, pend: seq<seq<nat>>, s: AS.State, op: AS.Op, b: Snap, live2: set<nat>, pend2: seq<seq<nat>>)
    requires Good(c, live, pend, s) && AS.Can(s, op) && Rel(b, live2, pend2, AS.Do(s, op))
    requires Anchored(b.tabs, b.lab) && Homed(b.lab, live2)
    ensures Good(b, live2, pend2, AS.Do(s, op))
    ensures (op.UserWrite? ==> AS.Protected(s.leaves)) ==> AS.Views(AS.Do(s, op)) == AS.PrivateDo(AS.Views(s), op)
  {
    hide Rel, Anchored, Homed, AS.Views, AS.PrivateDo, AS.Protected, AS.Do, AS.Can;
    assert AS.Inv(s);
    AS.StepKeeps(s, op);
    if op.UserWrite? ==> AS.Protected(s.leaves) {
      AS.StepRefines(s, op);
    }
    ReservedStays(s, op);
  }

  lemma HomedGrows(lab: Labels, lab2: Labels, bits: seq<bool>, bits2: seq<bool>, live: set<nat>)
    requires Homed(lab, live) && Grown(lab, lab2, bits, bits2) && NoRoots(lab, lab2)
    ensures Homed(lab2, live)
  {
    forall q ensures TaskRoot(lab2, q) <==> q in live {
      assert TaskRoot(lab2, q) <==> TaskRoot(lab, q);
    }
  }

  // ---------------------------------------------------------------- fork

  lemma GoodFork(a: Snap, fa: nat, b: Snap, fb: nat, cow: bool, d: Display, live: set<nat>, pend: seq<seq<nat>>, s: AS.State, src: nat, nf: nat)
    requires Good(a, live, pend, s) && AS.Room(s) && src in live
    requires Cloned(Job(cow, d, src, nf, ROOT_LEVEL, nf), a, fa, b, fb) && NoDisplay(s.leaves, d, src)
    ensures nf !in live
    ensures var op := CloneOp(cow, src, nf, b.lab.Keys - a.lab.Keys);
      AS.Can(s, op) && Good(b, live + {nf}, pend, AS.Do(s, op)) && AS.Views(AS.Do(s, op)) == AS.Views(s)[nf := AS.Views(s)[src]]
  {
    hide Cloned, Rel, Anchored, AS.Views, AS.Protected, AS.Do, AS.Can;
    assert AS.Inv(s) && TaskRoot(a.lab, src);
    SimFork(a, fa, b, fb, cow, d, live, pend, s, src, nf);
    CloneFresh(Job(cow, d, src, nf, ROOT_LEVEL, nf), a, fa, b, fb);
    CloneAnchored(Job(cow, d, src, nf, ROOT_LEVEL, nf), a, fa, b, fb, live);
    var op := CloneOp(cow, src, nf, b.lab.Keys - a.lab.Keys);
    GoodStep(a, live, pend, s, op, b, live + {nf}, pend);
    ViewKeys(a, live, pend, s);
  }

  lemma CloneFresh(j: Job, a: Snap, fa: nat, b: Snap, fb: nat)
    requires Cloned(j, a, fa, b, fb)
    ensures j.nf !in a.lab && j.src in a.lab
  {
    hide Twin, Linked, SameCopy, Counters, CowStep, CostTo, Wf, LeavesUsed;
  }

  lemma ViewKeys(c: Snap, live: set<nat>, pend: seq<seq<nat>>, s: AS.State)
    requires Rel(c, live, pend, s)
    ensures AS.Views(s).Keys == live
  {
  }

  // ---------------------------------------------------------------- a space of its own

  /** A clone of the boot space maps nothing for users and counts nothing. */
  lemma SimNew(a: Snap, fa: nat, b: Snap, fb: nat, cow: bool, d: Display, live: set<nat>, pend: seq<seq<nat>>, s: AS.State, boot: nat, nf: nat)
    requires Rel(a, live, pend, s) && AS.Room(s) && boot in a.lab && a.lab[boot].owner == 0 && nf !in live
    requires Cloned(Job(cow, d, boot, nf, ROOT_LEVEL, nf), a, fa, b, fb) && a.lab[boot].pre == 0
    ensures var op := AS.NewSpace(nf, b.lab.Keys - a.lab.Keys);
      AS.Can(s, op) && Rel(b, live + {nf}, pend, AS.Do(s, op))
  {
    hide LeavesOf, SameCopy, CowStep, Walk, CostTo, CountTo, Wf, LeavesUsed, Twin, Linked;
    var op := AS.NewSpace(nf, b.lab.Keys - a.lab.Keys);
    NewLeaves(a, fa, b, fb, cow, d, live, boot, nf);
    assert AS.Can(s, op);
    var t := AS.Do(s, op);
    assert t.tables == b.lab.Keys;
    forall f: nat | AS.IsData(t, f) ensures t.refs[f] == b.refs[f] && t.mem[f] == b.mem[f] {
      SharedLists(a.tabs, a.lab, d, boot, ROOT_LEVEL, FAN, f);
    }
  }

  lemma NewLeaves(a: Snap, fa: nat, b: Snap, fb: nat, cow: bool, d: Display, live: set<nat>, boot: nat, nf: nat)
    requires Cloned(Job(cow, d, boot, nf, ROOT_LEVEL, nf), a, fa, b, fb) && a.lab[boot].owner == 0 && nf !in live
    requires forall q :: q in live ==> TaskRoot(a.lab, q)
    ensures LeavesOf(b.tabs, live + {nf}) == LeavesOf(a.tabs, live)
  {
    hide LeavesOf, Wf, LeavesUsed, CostTo, CountTo, CowStep, Grown, Twin, Linked, Counters, Walk;
    forall k: AS.Slot
      ensures (k in LeavesOf(b.tabs, live + {nf}) <==> k in LeavesOf(a.tabs, live)) && (k in LeavesOf(a.tabs, live) ==> LeavesOf(b.tabs, live + {nf})[k] == LeavesOf(a.tabs, live)[k])
    {
      LeavesOfAt(b.tabs, live + {nf}, k.sp, k.v);
      LeavesOfAt(a.tabs, live, k.sp, k.v);
      if k.sp == nf {
        SharedWalk(a.tabs, a.lab, boot, ROOT_LEVEL, k.v);
        assert Walk(b.tabs, nf, ROOT_LEVEL, k.v) == CopyHit(cow, d, Walk(a.tabs, boot, ROOT_LEVEL, k.v));
      } else if k.sp in live {
        CowStepWalk(cow, d, a.tabs, b.tabs, a.lab, 0, k.sp, ROOT_LEVEL, k.v);
      }
    }
  }

  lemma GoodNew(a: Snap, fa: nat, b: Snap, fb: nat, cow: bool, d: Display, live: set<nat>, pend: seq<seq<nat>>, s: AS.State, boot: nat, nf: nat)
    requires Good(a, live, pend, s) && AS.Room(s) && boot in a.lab && a.lab[boot].owner == 0 && a.lab[boot].pre == 0
    requires Cloned(Job(cow, d, boot, nf, ROOT_LEVEL, nf), a, fa, b, fb)
    ensures nf !in live
    ensures var op := AS.NewSpace(nf, b.lab.Keys - a.lab.Keys);
      AS.Can(s, op) && Good(b, live + {nf}, pend, AS.Do(s, op)) && AS.Views(AS.Do(s, op)) == AS.Views(s)[nf := imap[]]
  {
    CloneFresh(Job(cow, d, boot, nf, ROOT_LEVEL, nf), a, fa, b, fb);
    assert nf !in live;
    hide Cloned, Rel, Anchored, AS.Views, AS.Protected, AS.Do, AS.Can;
    SimNew(a, fa, b, fb, cow, d, live, pend, s, boot, nf);
    CloneAnchored(Job(cow, d, boot, nf, ROOT_LEVEL, nf), a, fa, b, fb, live);
    GoodStep(a, live, pend, s, AS.NewSpace(nf, b.lab.Keys - a.lab.Keys), b, live + {nf}, pend);
  }

  // ---------------------------------------------------------------- copy on write

  lemma GoodUpgrade(a: Snap, b: Snap, live: set<nat>, pend: seq<seq<nat>>, s: AS.State, r: nat, v: nat)
    requires Good(a, live, pend, s) && r in live && v < VPAGES && b == a.(tabs := b.tabs) && Tables(b.tabs, b.lab, b.bits)
    requires SoleCow(Walk(a.tabs, r, ROOT_LEVEL, v), a.refs)
    requires Walk(b.tabs, r, ROOT_LEVEL, v) == Hit(Walk(a.tabs, r, ROOT_LEVEL, v).e.(rw := true, cow := false), 0)
    requires SameWalksBut(a.tabs, b.tabs, a.lab, r, v) && (Anchored(a.tabs, a.lab) ==> Anchored(b.tabs, b.lab))
    ensures var op := AS.CowUpgrade(r, v);
      AS.Can(s, op) && Good(b, live, pend, AS.Do(s, op)) && AS.Views(AS.Do(s, op)) == AS.Views(s)
  {
    hide Rel, Anchored, Homed, AS.Views, AS.Protected, AS.Do, AS.Can, Walk, SameWalksBut, Tables;
    SimUpgrade(a, b, live, pend, s, r, v);
    GoodStep(a, live, pend, s, AS.CowUpgrade(r, v), b, live, pend);
  }

  lemma GoodCopy(a: Snap, b: Snap, live: set<nat>, pend: seq<seq<nat>>, s: AS.State, cpu: nat, r: nat, v: nat, nf: nat)
    requires Good(a, live, pend, s) && r in live && v < VPAGES && b.lab == a.lab && Tables(b.tabs, b.lab, b.bits)
    requires UserLeaf(Walk(a.tabs, r, ROOT_LEVEL, v)) && Walk(a.tabs, r, ROOT_LEVEL, v).e.cow && cpu < |pend| && pend[cpu] == []
    requires var f := Walk(a.tabs, r, ROOT_LEVEL, v).e.frame; f < NFRAMES == |a.refs| && a.refs[f] != 1 && CopiedTo(a, b, r, v, nf, f)
    requires SameWalksBut(a.tabs, b.tabs, a.lab, r, v) && (Anchored(a.tabs, a.lab) ==> Anchored(b.tabs, b.lab))
    ensures var op := AS.CowCopy(cpu, r, v, nf);
      AS.Can(s, op) && Good(b, live, pend[cpu := [Walk(a.tabs, r, ROOT_LEVEL, v).e.frame]], AS.Do(s, op)) && AS.Views(AS.Do(s, op)) == AS.Views(s)
  {
    hide Rel, Anchored, Homed, AS.Views, AS.Protected, AS.Do, AS.Can, Walk, SameWalksBut, Tables, CopiedTo;
    SimCopy(a, b, live, pend, s, cpu, r, v, nf);
    GoodStep(a, live, pend, s, AS.CowCopy(cpu, r, v, nf), b, live, pend[cpu := [Walk(a.tabs, r, ROOT_LEVEL, v).e.frame]]);
  }

  // ---------------------------------------------------------------- unmap and map

  /** The section that unmapped the pages vs is over. */
  lemma GoodUnmap(a: Snap, b: Snap, live: set<nat>, pend: seq<seq<nat>>, s: AS.State, cpu: nat, r: nat, vs: seq<nat>)
    requires Good(a, live, pend, s) && Batch(b, live, pend, s, cpu, r, vs) && r in live && cpu < |pend| && pend[cpu] == []
    requires Anchored(b.tabs, b.lab) && Homed(b.lab, live)
    ensures var op := AS.Unmap(cpu, r, vs);
      AS.Can(s, op) && Good(b, live, pend[cpu := AS.FramesAt(s.leaves, r, vs)], AS.Do(s, op)) &&
      r in AS.Views(s) && AS.Views(AS.Do(s, op)) == AS.Views(s)[r := AS.Drop(AS.Views(s)[r], vs)]
  {
    hide Anchored, Homed, AS.Views, AS.Protected, AS.Drop, LeavesOf, Tables, AS.Exact, AS.NoDupOwed;
    ViewKeys(a, live, pend, s);
    GoodStep(a, live, pend, s, AS.Unmap(cpu, r, vs), b, live, pend[cpu := AS.FramesAt(s.leaves, r, vs)]);
  }

  lemma GoodMap(a: Snap, b: Snap, live: set<nat>, pend: seq<seq<nat>>, s: AS.State, r: nat, v: nat, f: nat, e: Entry)
    requires Good(a, live, pend, s) && r in live && v < VPAGES && MappedFresh(a, b, r, v, f, e)
    requires (Anchored(a.tabs, a.lab) ==> Anchored(b.tabs, b.lab)) && Homed(b.lab, live)
    ensures var op := AS.MapFresh(r, v, f, e.rw, e.nx, b.lab.Keys - a.lab.Keys);
      AS.Can(s, op) && Good(b, live, pend, AS.Do(s, op)) &&
      r in AS.Views(s) && AS.Views(AS.Do(s, op)) == AS.Views(s)[r := AS.SetPage(AS.Views(s)[r], v, AS.ZeroPage())]
  {
    hide Rel, Anchored, Homed, AS.Views, AS.Protected, AS.Do, AS.Can, MappedFresh, AS.SetPage;
    SimMap(a, b, live, pend, s, r, v, f, e);
    ViewKeys(a, live, pend, s);
    GoodStep(a, live, pend, s, AS.MapFresh(r, v, f, e.rw, e.nx, b.lab.Keys - a.lab.Keys), b, live, pend);
  }

  /** A frame was taken, tables may have been linked in, and the page was there already:
      the frame is owed a put. */
  ghost predicate TookFrame(a: Snap, b: Snap, f: nat) {
    |a.bits| == |b.bits| == |b.refs| == |b.mem| == |a.refs| == |a.mem| == NFRAMES && f < NFRAMES && !a.bits[f] && f !in b.lab &&
    a.lab.Keys <= b.lab.Keys && (forall t :: t in a.lab ==> b.lab[t] == a.lab[t]) &&
    (forall t :: t in b.lab && t !in a.lab ==> t < NFRAMES && !a.bits[t]) &&
    (forall g :: 0 <= g < NFRAMES ==> b.bits[g] == (a.bits[g] || g == f || (g in b.lab && g !in a.lab))) &&
    (forall g :: 0 <= g < NFRAMES && a.bits[g] ==> b.refs[g] == a.refs[g] && b.mem[g] == a.mem[g]) &&
    b.refs[f] == 1 && b.mem[f] == AS.ZeroPage() && Tables(b.tabs, b.lab, b.bits) && SameWalks(a.tabs, b.tabs, a.lab)
  }

  lemma SameLeaves(h: Heap, h2: Heap, lab: Labels, live: set<nat>)
    requires SameWalks(h, h2, lab) && forall q :: q in live ==> TaskRoot(lab, q)
    ensures LeavesOf(h2, live) == LeavesOf(h, live)
  {
    hide LeavesOf, Walk;
    forall k: AS.Slot
      ensures (k in LeavesOf(h2, live) <==> k in LeavesOf(h, live)) && (k in LeavesOf(h, live) ==> LeavesOf(h2, live)[k] == LeavesOf(h, live)[k])
    {
      LeavesOfAt(h2, live, k.sp, k.v);
      LeavesOfAt(h, live, k.sp, k.v);
      if k.sp in live && k.v < VPAGES {
        TopIsZero(k.v);
        assert Walk(h2, k.sp, lab[k.sp].level, k.v) == Walk(h, k.sp, lab[k.sp].level, k.v);
      }
    }
  }

  lemma SimLose(a: Snap, b: Snap, live: set<nat>, pend: seq<seq<nat>>, s: AS.State, cpu: nat, f: nat)
    requires Rel(a, live, pend, s) && TookFrame(a, b, f) && cpu < |pend| && pend[cpu] == []
    ensures var op := AS.LoseRace(cpu, f, b.lab.Keys - a.lab.Keys);
      AS.Can(s, op) && Rel(b, live, pend[cpu := [f]], AS.Do(s, op))
  {
    SameLeaves(a.tabs, b.tabs, a.lab, live);
    hide LeavesOf, SameWalks, Walk, Tables;
    var op := AS.LoseRace(cpu, f, b.lab.Keys - a.lab.Keys);
    assert AS.Can(s, op);
    assert AS.Do(s, op).tables == b.lab.Keys;
  }

  lemma GoodLose(a: Snap, b: Snap, live: set<nat>, pend: seq<seq<nat>>, s: AS.State, cpu: nat, f: nat)
    requires Good(a, live, pend, s) && TookFrame(a, b, f) && cpu < |pend| && pend[cpu] == []
    requires (Anchored(a.tabs, a.lab) ==> Anchored(b.tabs, b.lab)) && Homed(b.lab, live)
    ensures var op := AS.LoseRace(cpu, f, b.lab.Keys - a.lab.Keys);
      AS.Can(s, op) && Good(b, live, pend[cpu := [f]], AS.Do(s, op)) && AS.Views(AS.Do(s, op)) == AS.Views(s)
  {
    hide Rel, Anchored, Homed, AS.Views, AS.Protected, AS.Do, AS.Can, TookFrame;
    SimLose(a, b, live, pend, s, cpu, f);
    GoodStep(a, live, pend, s, AS.LoseRace(cpu, f, b.lab.Keys - a.lab.Keys), b, live, pend[cpu := [f]]);
  }

  // ---------------------------------------------------------------- a store by a task

  lemma GoodStore(a: Snap, live: set<nat>, pend: seq<seq<nat>>, s: AS.State, r: nat, v: nat, i: nat, w: int)
    requires Good(a, live, pend, s) && r in live && i < AS.WORDS
    requires AS.Slot(r, v) in s.leaves && s.leaves[AS.Slot(r, v)].rw
    ensures var f := s.leaves[AS.Slot(r, v)].frame; f < NFRAMES == |a.mem|
    ensures var f, op := s.leaves[AS.Slot(r, v)].frame, AS.UserWrite(r, v, i, w);
      AS.Can(s, op) && Good(a.(mem := a.mem[f := a.mem[f][i := w]]), live, pend, AS.Do(s, op)) && r in AS.Views(s) && v in AS.Views(s)[r] &&
      (AS.Protected(s.leaves) ==> AS.Views(AS.Do(s, op)) == AS.Views(s)[r := AS.SetPage(AS.Views(s)[r], v, AS.Views(s)[r][v][i := w])])
  {
    hide LeavesOf, Anchored, Homed, AS.Protected, AS.Exact, AS.NoDupOwed, LeavesUsed, Wf;
    var f, op := s.leaves[AS.Slot(r, v)].frame, AS.UserWrite(r, v, i, w);
    assert AS.IsData(s, f) && AS.Can(s, op);
    var b := a.(mem := a.mem[f := a.mem[f][i := w]]);
    assert Rel(b, live, pend, AS.Do(s, op));
    GoodStep(a, live, pend, s, op, b, live, pend);
    ViewKeys(a, live, pend, s);
  }

  // ---------------------------------------------------------------- the end of a space

  /** All the puts a CPU owes, one after the other. */
  ghost function Drain(s: AS.State, cpu: nat): AS.State
    requires AS.Shaped(s) && cpu < AS.NCPU && forall i :: 0 <= i < |s.pend[cpu]| ==> s.pend[cpu][i] < NFRAMES
    decreases |s.pend[cpu]|
  {
    if s.pend[cpu] == [] then s else Drain(AS.Do(s, AS.PutHead(cpu)), cpu)
  }

  lemma TimesHead(l: seq<nat>, f: nat)
    requires l != []
    ensures Times(l, f) == Times(l[1..], f) + if f == l[0] then 1 else 0
  {
    assert l == [l[0]] + l[1..];
  }

  /** What remains when they are done. */
  lemma {:induction false} DrainIs(s: AS.State, cpu: nat)
    requires AS.Inv(s) && cpu < AS.NCPU
    ensures forall i :: 0 <= i < |s.pend[cpu]| ==> s.pend[cpu][i] < NFRAMES
    ensures var t := Drain(s, cpu);
      AS.Inv(t) && t.live == s.live && t.leaves == s.leaves && t.tables == s.tables && t.reserved == s.reserved && t.mem == s.mem && t.pend == s.pend[cpu := []]
    ensures var t, l := Drain(s, cpu), s.pend[cpu];
      forall f: nat :: f < NFRAMES ==> t.refs[f] == RefAfter(s.refs[f], Times(l, f)) && (f in t.used <==> BitAfter(f in s.used, s.refs[f], Times(l, f)))
    ensures Drain(s, cpu).used <= s.used
    decreases |s.pend[cpu]|
  {
    hide AS.Exact, AS.NoAliasInSpace, AS.NoDupOwed, AS.Owed;
    forall i | 0 <= i < |s.pend[cpu]| ensures s.pend[cpu][i] < NFRAMES {
      assert AS.IsData(s, s.pend[cpu][i]);
    }
    if s.pend[cpu] != [] {
      var m := AS.Do(s, AS.PutHead(cpu));
      AS.PutHeadKeeps(s, AS.PutHead(cpu));
      DrainIs(m, cpu);
      var t, l := Drain(s, cpu), s.pend[cpu];
      forall f: nat | f < NFRAMES
        ensures t.refs[f] == RefAfter(s.refs[f], Times(l, f)) && (f in t.used <==> BitAfter(f in s.used, s.refs[f], Times(l, f)))
      {
        TimesHead(l, f);
      }
    }
  }

  /** Table frames that wait to be freed are set aside: no space has them and no
      allocation returns them. */
  function Aside(s: AS.State, gone: set<nat>): AS.State {
    s.(tables := s.tables - gone, reserved := s.reserved + gone)
  }

  lemma AsideKeeps(s: AS.State, gone: set<nat>)
    requires AS.Inv(s) && gone <= s.tables && gone !! s.live
    ensures AS.Inv(Aside(s, gone)) && AS.Views(Aside(s, gone)) == AS.Views(s)
    ensures forall f: nat :: AS.IsData(Aside(s, gone), f) <==> AS.IsData(s, f)
  {
    hide AS.NoAliasInSpace, AS.NoDupOwed, AS.Owed, AS.SlotsOf;
    assert forall f: nat :: AS.IsData(Aside(s, gone), f) <==> AS.IsData(s, f);
  }

  /** The first section of a teardown: the tables of r are emptied and lose their labels. */
  lemma GoodCollect(a: Snap, b: Snap, live: set<nat>, pend: seq<seq<nat>>, s: AS.State, cpu: nat, r: nat)
    requires Good(a, live, pend, s) && r in live && cpu < |pend| && pend[cpu] == []
    requires b == Snap(b.tabs, Others(a.lab, r), a.bits, a.refs, a.mem) && Tables(b.tabs, a.lab, a.bits) && Tables(b.tabs, b.lab, b.bits)
    requires forall w :: w in a.lab && a.lab[w].owner != r ==> w in b.tabs && b.tabs[w] == a.tabs[w]
    ensures var op := AS.Teardown(cpu, r, Pages(a.tabs, r));
      AS.Can(s, op) && var t := Aside(AS.Do(s, op), a.lab.Keys - b.lab.Keys);
      Good(b, live - {r}, pend[cpu := Frames(a.tabs, r)], t) && AS.Views(t) == AS.Views(s) - {r} &&
      t.reserved == s.reserved + (a.lab.Keys - b.lab.Keys) && s.tables == a.lab.Keys
  {
    hide LeavesOf, Anchored, PagesTo, LeavesTo, Wf, LeavesUsed, AS.Views, AS.Protected, AS.Exact, AS.NoDupOwed, AS.NoAliasInSpace;
    var op, gone := AS.Teardown(cpu, r, Pages(a.tabs, r)), a.lab.Keys - b.lab.Keys;
    SimTeardown(a, a.(tabs := b.tabs), live, pend, s, cpu, r);
    AS.StepKeeps(s, op);
    AS.StepRefines(s, op);
    TearAnchored(a.tabs, b.tabs, a.lab, live, r);
    var s1 := AS.Do(s, op);
    assert gone !! s1.live by {
      assert forall q :: q in live - {r} ==> q in b.lab;
    }
    AsideKeeps(s1, gone);
    assert Rel(b, live - {r}, pend[cpu := Frames(a.tabs, r)], Aside(s1, gone));
  }

  /** What a CPU owes is done: its puts, and the table frames it set aside are free. */
  ghost function Settled(s: AS.State, cpu: nat, gone: set<nat>): AS.State
    requires AS.Shaped(s) && cpu < AS.NCPU && forall i :: 0 <= i < |s.pend[cpu]| ==> s.pend[cpu][i] < NFRAMES
  {
    var t := Drain(s, cpu);
    t.(used := t.used - gone, reserved := t.reserved - gone)
  }

  lemma SettledKeeps(s: AS.State, cpu: nat, gone: set<nat>)
    requires AS.Inv(s) && cpu < AS.NCPU && gone <= s.reserved
    ensures forall i :: 0 <= i < |s.pend[cpu]| ==> s.pend[cpu][i] < NFRAMES
    ensures var t := Settled(s, cpu, gone);
      AS.Inv(t) && AS.Views(t) == AS.Views(s) && t.live == s.live && t.leaves == s.leaves && t.tables == s.tables && t.mem == s.mem &&
      t.reserved == s.reserved - gone && t.pend == s.pend[cpu := []]
  {
    hide AS.NoAliasInSpace, AS.NoDupOwed, AS.Owed, AS.SlotsOf, Drain;
    DrainIs(s, cpu);
    var d, t := Drain(s, cpu), Settled(s, cpu, gone);
    assert forall f: nat :: AS.IsData(t, f) <==> AS.IsData(d, f);
  }

  /** Frame f before and after. */
  lemma SettledFrame(a: Snap, b: Snap, live: set<nat>, pend: seq<seq<nat>>, s: AS.State, cpu: nat, tabs: seq<nat>, gone: set<nat>, t: AS.State, f: nat)
    requires Good(a, live, pend, s) && cpu < |pend| && Freed(a.refs, a.bits, b.refs, b.bits, pend[cpu], tabs) && b.mem == a.mem
    requires gone == (set g | g in tabs) && gone <= s.reserved && (forall i :: 0 <= i < |s.pend[cpu]| ==> s.pend[cpu][i] < NFRAMES) && t == Settled(s, cpu, gone)
    ensures |b.bits| == |b.refs| == |b.mem| == |t.refs| == |t.mem| == NFRAMES
    ensures (f in t.used <==> f < NFRAMES && b.bits[f]) && (AS.IsData(t, f) ==> t.refs[f] == b.refs[f] && t.mem[f] == b.mem[f])
    ensures f in s.tables ==> f in t.used
    ensures f in t.reserved ==> f in t.used
  {
    hide LeavesOf, Anchored, LeavesUsed, AS.Protected, AS.Exact, AS.NoDupOwed, AS.NoAliasInSpace, Wf, Drain;
    DrainIs(s, cpu);
    OwedData(s, cpu, f);
  }

  lemma OwedData(s: AS.State, cpu: nat, f: nat)
    requires AS.Inv(s) && cpu < AS.NCPU
    ensures Times(s.pend[cpu], f) > 0 ==> AS.IsData(s, f)
  {
    hide AS.Exact, AS.NoAliasInSpace, AS.NoDupOwed;
    if Times(s.pend[cpu], f) > 0 {
      assert f in s.pend[cpu];
      var i :| 0 <= i < |s.pend[cpu]| && s.pend[cpu][i] == f;
    }
  }

  /** The second section of a teardown, of a brk batch or of a copy-on-write fault. */
  lemma GoodFlush(a: Snap, b: Snap, live: set<nat>, pend: seq<seq<nat>>, s: AS.State, cpu: nat, tabs: seq<nat>, gone: set<nat>)
    requires Good(a, live, pend, s) && cpu < |pend| && Freed(a.refs, a.bits, b.refs, b.bits, pend[cpu], tabs)
    requires b.tabs == a.tabs && b.lab == a.lab && b.mem == a.mem && gone == (set g | g in tabs) && gone <= s.reserved && 0 !in gone
    ensures forall i :: 0 <= i < |s.pend[cpu]| ==> s.pend[cpu][i] < NFRAMES
    ensures |b.bits| == NFRAMES && b.bits[0]
    ensures Good(b, live, pend[cpu := []], Settled(s, cpu, gone)) && AS.Views(Settled(s, cpu, gone)) == AS.Views(s)
  {
    hide LeavesOf, Anchored, LeavesUsed, AS.Protected, AS.Exact, AS.NoDupOwed, AS.NoAliasInSpace, Drain, Freed, AS.Views, EntryOk, Homed;
    SettledKeeps(s, cpu, gone);
    var t := Settled(s, cpu, gone);
    SettledFrame(a, b, live, pend, s, cpu, tabs, gone, t, 0);
    forall f: nat
      ensures (f in t.used <==> f < NFRAMES && b.bits[f]) && (AS.IsData(t, f) ==> t.refs[f] == b.refs[f] && t.mem[f] == b.mem[f])
      ensures (f in t.reserved ==> f in t.used) && (f in s.tables ==> f in t.used)
    {
      SettledFrame(a, b, live, pend, s, cpu, tabs, gone, t, f);
    }
    FlushTables(a, b, live, pend, s, t);
    assert t.reserved <= t.used;
  }

  lemma FlushTables(a: Snap, b: Snap, live: set<nat>, pend: seq<seq<nat>>, s: AS.State, t: AS.State)
    requires Good(a, live, pend, s) && b.tabs == a.tabs && b.lab == a.lab && |b.bits| == NFRAMES && AS.Inv(t) && t.leaves == s.leaves
    requires forall f: nat :: (f in t.used <==> f < NFRAMES && b.bits[f]) && (f in s.tables ==> f in t.used)
    ensures Tables(b.tabs, b.lab, b.bits)
  {
    hide LeavesOf, Anchored, AS.Protected, AS.Exact, AS.NoDupOwed, AS.NoAliasInSpace, EntryOk, Homed;
    forall u, i | u in b.lab && b.lab[u].level == 0 && 0 <= i < FAN && b.tabs[u][i].p && b.tabs[u][i].us
      ensures Mappable(b.lab, b.bits, b.tabs[u][i].frame)
    {
      LeafSlot(a.tabs, a.lab, live, u, i);
      assert AS.IsData(t, t.leaves[AS.Slot(a.lab[u].owner, a.lab[u].pre * FAN + i)].frame);
      assert Mappable(a.lab, a.bits, a.tabs[u][i].frame);
    }
  }

  /** A frame that was owed a put is in use afterwards exactly if something names it. */
  lemma FlushedFrame(a: Snap, live: set<nat>, pend: seq<seq<nat>>, s: AS.State, f: nat)
    requires Good(a, live, pend, s) && f < NFRAMES && f !in s.tables && f !in s.reserved
    ensures |a.bits| == NFRAMES && (a.bits[f] <==> AS.SlotsOf(s.leaves, f) != {} || AS.Owed(s.pend, f) > 0)
  {
    hide LeavesOf, Anchored, AS.Protected, AS.NoAliasInSpace, Homed, Wf, LeavesUsed, AS.Owed;
    if AS.SlotsOf(s.leaves, f) != {} {
      var k :| k in AS.SlotsOf(s.leaves, f);
    }
    if AS.Owed(s.pend, f) > 0 {
      if c: nat :| c < |s.pend| && f in s.pend[c] {
        var i :| 0 <= i < |s.pend[c]| && s.pend[c][i] == f;
        assert AS.IsData(s, s.pend[c][i]);
      } else {
        AS.OwedNone(s.pend, f);
      }
    }
  }
}
