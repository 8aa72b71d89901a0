/** Four-level page tables as a heap of 512-entry tables, and the walk over them
    (section 4.5 of the Intel SDM, volume 3A).

    Ghost labels say where each table sits: which space owns it (0 for the tables
    every space shares with the boot space), its level, and the virtual prefix it
    covers.  All separation arguments are local facts about labels.
 */
module PageTables {

  const FAN: nat := 512
  const ROOT_LEVEL: nat := 3
  const VPAGES: nat := 512 * 512 * 512 * 512

  /** A table entry: present, writable, user, large page, copy-on-write, no-execute,
      uncacheable, and the frame it names. */
  datatype Entry = Entry(p: bool, rw: bool, us: bool, ps: bool, cow: bool, nx: bool, uc: bool, frame: nat)

  const ABSENT: Entry := Entry(false, false, false, false, false, false, false, 0)

  type Heap = map<nat, seq<Entry>>

  function ZeroTable(): seq<Entry> { seq(FAN, _ => ABSENT) }

  // ---------------------------------------------------------------- indices

  /** Page number v with its lowest `level` indices dropped. */
  function At(v: nat, level: nat): nat {
    if level == 0 then v else At(v, level - 1) / FAN
  }

  /** The table index page v uses at a level. */
  function Idx(v: nat, level: nat): (i: nat)
    ensures i < FAN
    ensures At(v, level) == At(v, level + 1) * FAN + i
  {
    At(v, level) % FAN
  }

  /** Four indices determine the page: every page has its own path. */
  lemma PathInjective(v: nat, w: nat)
    requires v < VPAGES && w < VPAGES
    requires forall level :: 0 <= level <= ROOT_LEVEL ==> Idx(v, level) == Idx(w, level)
    ensures v == w
  {
    assert Idx(v, 0) == Idx(w, 0) && Idx(v, 1) == Idx(w, 1) && Idx(v, 2) == Idx(w, 2) && Idx(v, 3) == Idx(w, 3);
    TopIsZero(v);
    TopIsZero(w);
  }

  lemma TopIsZero(v: nat)
    requires v < VPAGES
    ensures At(v, 4) == 0
  {
    assert At(v, 1) < 512 * 512 * 512;
    assert At(v, 2) < 512 * 512;
    assert At(v, 3) < 512;
  }

  /** vmm_is_canonical on a 64-bit address. */
  predicate Canonical(va: nat) {
    var hi := va / 0x1_0000_0000_0000;
    if (va / 0x8000_0000_0000) % 2 == 1 then hi == 0xFFFF else hi == 0
  }

  function PageOf(va: nat): nat { (va / 4096) % VPAGES }

  lemma DropLow(q: nat, k: nat, v: nat)
    requires q == k * VPAGES + v && v < VPAGES
    ensures q / 512 == k * (512 * 512 * 512) + v / 512
    ensures q / 512 / 512 == k * (512 * 512) + v / 512 / 512
    ensures q / 512 / 512 / 512 == k * 512 + v / 512 / 512 / 512
  {
  }

  lemma Shifts(va: nat)
    ensures va / 0x20_0000 == va / 4096 / 512 && va / 0x4000_0000 == va / 4096 / 512 / 512 && va / 0x80_0000_0000 == va / 4096 / 512 / 512 / 512
  {
  }

  lemma AtIs(v: nat)
    ensures At(v, 1) == v / 512 && At(v, 2) == v / 512 / 512 && At(v, 3) == v / 512 / 512 / 512
  {
    assert At(v, 0) == v;
  }

  /** The shifts and masks of the walker are the indices of the page number. */
  lemma VaIndices(va: nat)
    ensures (va / 0x1000) % 512 == Idx(PageOf(va), 0)
    ensures (va / 0x20_0000) % 512 == Idx(PageOf(va), 1)
    ensures (va / 0x4000_0000) % 512 == Idx(PageOf(va), 2)
    ensures (va / 0x80_0000_0000) % 512 == Idx(PageOf(va), 3)
  {
    var q, v := va / 4096, PageOf(va);
    DropLow(q, q / VPAGES, v);
    Shifts(va);
    AtIs(v);
  }

  /** Distinct canonical page addresses are distinct pages. */
  lemma CanonicalInjective(va: nat, vb: nat)
    requires va < 0x1_0000_0000_0000_0000 && vb < 0x1_0000_0000_0000_0000
    requires Canonical(va) && Canonical(vb) && va % 4096 == 0 && vb % 4096 == 0
    ensures PageOf(va) == PageOf(vb) <==> va == vb
  {
    var a, b := va / 4096, vb / 4096;
    assert va / 0x8000_0000_0000 == a / 0x8_0000_0000;
    assert va / 0x1_0000_0000_0000 == a / VPAGES;
    assert vb / 0x8000_0000_0000 == b / 0x8_0000_0000;
    assert vb / 0x1_0000_0000_0000 == b / VPAGES;
  }

  // ---------------------------------------------------------------- walking

  datatype Hit = Miss | Hit(e: Entry, level: nat)

  /** Where the hardware walk for page v ends, starting in table t at a level. */
  function Walk(h: Heap, t: nat, level: nat, v: nat): Hit
    decreases level
  {
    if t !in h || |h[t]| != FAN then Miss
    else
      var e := h[t][Idx(v, level)];
      if !e.p then Miss
      else if level == 0 || e.ps then Hit(e, level)
      else Walk(h, e.frame, level - 1, v)
  }

  /** How many tables are missing on the way from table t down to the leaf table of v. */
  function Absent(h: Heap, t: nat, level: nat, v: nat): nat
    decreases level
  {
    if level == 0 || t !in h || |h[t]| != FAN then 0
    else
      var e := h[t][Idx(v, level)];
      if !e.p then level else if e.ps then 0 else Absent(h, e.frame, level - 1, v)
  }

  /** A large page stands in the way. */
  predicate Blocked(h: Heap, t: nat, level: nat, v: nat) { Walk(h, t, level, v).Hit? && Walk(h, t, level, v).level > 0 }

  // ---------------------------------------------------------------- labels

  datatype Label = Label(owner: nat, level: nat, pre: nat)

  type Labels = map<nat, Label>

  /** The entry is a pointer to a lower table. */
  predicate Points(e: Entry, level: nat) { e.p && level > 0 && !e.ps }

  ghost predicate EntryOk(lab: Labels, t: nat, i: nat, e: Entry)
    requires t in lab
  {
    var l := lab[t];
    (Points(e, l.level) ==>
      e.frame in lab && lab[e.frame].level == l.level - 1 && lab[e.frame].pre == l.pre * FAN + i &&
      (lab[e.frame].owner == l.owner || lab[e.frame].owner == 0) &&
      (l.owner != 0 ==> (e.us <==> lab[e.frame].owner != 0)) &&
      (l.owner != 0 && l.level == ROOT_LEVEL ==> lab[e.frame].owner != 0)) &&
    (e.p && l.owner == 0 ==> !e.us)
  }

  /** Tables are well formed: pointers go one level down to the right prefix, own or
      shared; user entries sit only in private tables and on the path to private
      tables. */
  ghost predicate Wf(h: Heap, lab: Labels) {
    forall t :: t in lab ==>
      t in h && |h[t]| == FAN && lab[t].level <= ROOT_LEVEL &&
      forall i {:trigger h[t][i]} :: 0 <= i < FAN ==> EntryOk(lab, t, i, h[t][i])
  }

  ghost predicate IsRoot(lab: Labels, r: nat) {
    r in lab && lab[r].level == ROOT_LEVEL && lab[r].pre == 0 && (lab[r].owner == r || lab[r].owner == 0)
  }

  /** Writing slot i of table t0. */
  function SetSlot(h: Heap, t: nat, i: nat, e: Entry): Heap
    requires t in h && i < |h[t]|
  {
    h[t := h[t][i := e]]
  }

  /** A walk that cannot pass through slot i of t0 does not notice a write there:
      either the page lies elsewhere or the table belongs to another space. */
  lemma {:induction false} WalkElsewhere(h: Heap, lab: Labels, t0: nat, i: nat, e: Entry, t: nat, level: nat, v: nat)
    requires Wf(h, lab) && t0 in lab && i < FAN
    requires t in lab && lab[t].level == level && lab[t].pre == At(v, level + 1)
    requires At(v, lab[t0].level) != lab[t0].pre * FAN + i || (lab[t0].owner != 0 && lab[t0].owner != lab[t].owner)
    ensures Walk(SetSlot(h, t0, i, e), t, level, v) == Walk(h, t, level, v)
    decreases level
  {
    var j := Idx(v, level);
    var f := h[t][j];
    assert EntryOk(lab, t, j, f);
    if t == t0 {
      assert j != i;
    }
    if Points(f, level) {
      WalkElsewhere(h, lab, t0, i, e, f.frame, level - 1, v);
    }
  }

  /** Hanging an empty table under an absent slot changes no walk. */
  lemma {:induction false} WalkNewTable(h: Heap, lab: Labels, t0: nat, i: nat, e: Entry, t: nat, level: nat, v: nat)
    requires Wf(h, lab) && t0 in lab && i < FAN && !h[t0][i].p
    requires Points(e, lab[t0].level) && e.frame !in lab
    requires t in lab && lab[t].level == level
    ensures Walk(SetSlot(h[e.frame := ZeroTable()], t0, i, e), t, level, v) == Walk(h, t, level, v)
    decreases level
  {
    var h2 := SetSlot(h[e.frame := ZeroTable()], t0, i, e);
    var j := Idx(v, level);
    var f := h[t][j];
    assert EntryOk(lab, t, j, f);
    if t == t0 && j == i {
      assert Walk(h2, e.frame, level - 1, v) == Miss;
    } else if Points(f, level) {
      WalkNewTable(h, lab, t0, i, e, f.frame, level - 1, v);
    }
  }

  /** The tables page v passes through all belong to one owner. */
  ghost predicate OwnPath(h: Heap, lab: Labels, t: nat, level: nat, v: nat)
    requires Wf(h, lab) && t in lab && lab[t].level == level
    decreases level
  {
    var e := h[t][Idx(v, level)];
    assert EntryOk(lab, t, Idx(v, level), e);
    Points(e, level) ==> lab[e.frame].owner == lab[t].owner && OwnPath(h, lab, e.frame, level - 1, v)
  }

  /** No labelled table's walk differs, except those of one space for one page. */
  ghost predicate SameWalks(h: Heap, h2: Heap, lab: Labels) {
    forall t, v: nat {:trigger Walk(h2, t, lab[t].level, v)} ::
      t in lab && lab[t].pre == At(v, lab[t].level + 1) ==>
      Walk(h2, t, lab[t].level, v) == Walk(h, t, lab[t].level, v)
  }

  ghost predicate SameWalksBut(h: Heap, h2: Heap, lab: Labels, owner: nat, w: nat) {
    forall t, v: nat {:trigger Walk(h2, t, lab[t].level, v)} ::
      t in lab && lab[t].pre == At(v, lab[t].level + 1) && (v != w || (owner != 0 && lab[t].owner != owner)) ==>
      Walk(h2, t, lab[t].level, v) == Walk(h, t, lab[t].level, v)
  }
}
