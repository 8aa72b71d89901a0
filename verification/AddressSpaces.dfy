/** User address spaces, physical frames and copy-on-write, at the granularity of
    the kernel's mem_lock sections.

    The state keeps, for every live space, the user leaves its page tables denote
    (module PageTables relates the tables to this view).  Each section of code that
    runs under mem_lock is one atomic step.  References whose release is deferred
    past an unlock (COW resolver, teardown list, brk batch, a lost demand race)
    wait in the list of the CPU that owes them, `pend`.
 */
module AddressSpaces {

  const NFRAMES: nat := 1024 * 1024   // PMM_MAX_FRAMES
  const NCPU: nat := 4                // NCPU_MAX
  const REF_MAX: nat := 0xFFFF        // frame_ref is a saturating u16
  const WORDS: nat := 512             // u64 words per page

  type Page = p: seq<int> | |p| == WORDS witness ZeroPage()

  function ZeroPage(): seq<int> { seq(WORDS, _ => 0) }

  /** A present user leaf of a page table, and the place it sits: page v of space sp. */
  datatype Leaf = Leaf(frame: nat, rw: bool, cow: bool, nx: bool)
  datatype Slot = Slot(sp: nat, v: nat)

  /** live: PML4s of live spaces; used: the allocation bitmap; tables: frames holding
      page tables; reserved: frames never handed out; refs: frame_ref; mem: contents. */
  datatype State = State(
    live: set<nat>,
    leaves: map<Slot, Leaf>,
    used: set<nat>,
    tables: set<nat>,
    reserved: set<nat>,
    refs: seq<nat>,
    mem: seq<Page>,
    pend: seq<seq<nat>>)

  // ---------------------------------------------------------------- who names a frame

  function SlotsOf(leaves: map<Slot, Leaf>, f: nat): set<Slot> {
    set k | k in leaves && leaves[k].frame == f
  }

  function SlotsIn(leaves: map<Slot, Leaf>, sp: nat, f: nat): set<Slot> {
    set k | k in leaves && k.sp == sp && leaves[k].frame == f
  }

  /** Occurrences of f in a list. */
  function Times(l: seq<nat>, f: nat): nat { multiset(l)[f] }

  function Owed(pend: seq<seq<nat>>, f: nat): nat {
    if pend == [] then 0 else Times(pend[0], f) + Owed(pend[1..], f)
  }

  /** Frames available to the allocator, and frames handed out for user data. */
  predicate IsFree(s: State, f: nat) {
    f < NFRAMES && f !in s.used && f !in s.reserved
  }

  predicate IsData(s: State, f: nat) {
    f < NFRAMES && f in s.used && f !in s.tables && f !in s.reserved
  }

  // ---------------------------------------------------------------- steps

  predicate FreshTables(s: State, tabs: set<nat>) {
    forall t :: t in tabs ==> IsFree(s, t)
  }

  function TakeTables(s: State, tabs: set<nat>): State {
    s.(used := s.used + tabs, tables := s.tables + tabs)
  }

  /** A data frame fresh from __pmm_alloc: bit set, count 1, zero filled. */
  function Alloc(s: State, f: nat): State
    requires f < |s.refs| && f < |s.mem|
  {
    s.(used := s.used + {f}, refs := s.refs[f := 1], mem := s.mem[f := ZeroPage()])
  }

  /** __frame_ref_put. */
  function Put(s: State, f: nat): State
    requires f < |s.refs|
  {
    var r := if s.refs[f] > 0 then s.refs[f] - 1 else 0;
    s.(refs := s.refs[f := r], used := if r == 0 then s.used - {f} else s.used)
  }

  function CowLeaf(l: Leaf): Leaf {
    if l.rw then l.(rw := false, cow := true) else l
  }

  /** The leaves of one space, COW-marked. */
  function CowSpace(leaves: map<Slot, Leaf>, sp: nat): map<Slot, Leaf> {
    map k | k in leaves :: if k.sp == sp then CowLeaf(leaves[k]) else leaves[k]
  }

  /** The leaves of src, repeated at the same pages of dst. */
  function CopySpace(leaves: map<Slot, Leaf>, src: nat, dst: nat): (r: map<Slot, Leaf>)
    ensures forall k :: k in r <==> k.sp == dst && Slot(src, k.v) in leaves
    ensures forall k :: k in r ==> r[k] == leaves[Slot(src, k.v)]
  {
    var r := map k | k in leaves && k.sp == src :: Slot(dst, k.v) := leaves[k];
    assert forall k :: k in r ==> Slot(src, k.v) in leaves;
    assert forall k: Slot :: k.sp == dst && Slot(src, k.v) in leaves ==> Slot(dst, Slot(src, k.v).v) in r;
    r
  }

  /** One __frame_ref_inc per leaf of sp (saturating). */
  function IncAll(refs: seq<nat>, leaves: map<Slot, Leaf>, sp: nat): seq<nat> {
    seq(|refs|, f requires 0 <= f < |refs| =>
      var n := refs[f] + |SlotsIn(leaves, sp, f)|; if n <= REF_MAX then n else REF_MAX)
  }

  function Without(leaves: map<Slot, Leaf>, sp: nat, vs: seq<nat>): map<Slot, Leaf> {
    map k | k in leaves && !(k.sp == sp && k.v in vs) :: leaves[k]
  }

  /** vs lists pages of sp, each once. */
  predicate Lists(leaves: map<Slot, Leaf>, sp: nat, vs: seq<nat>) {
    (forall i :: 0 <= i < |vs| ==> Slot(sp, vs[i]) in leaves) &&
    (forall i, j :: 0 <= i < j < |vs| ==> vs[i] != vs[j])
  }

  function FramesAt(leaves: map<Slot, Leaf>, sp: nat, vs: seq<nat>): seq<nat>
    requires Lists(leaves, sp, vs)
  {
    seq(|vs|, i requires 0 <= i < |vs| => leaves[Slot(sp, vs[i])].frame)
  }

  predicate Shaped(s: State) {
    |s.refs| == NFRAMES && |s.mem| == NFRAMES && |s.pend| == NCPU
  }

  /** The steps. Table frames a step takes or gives back are parameters. */
  datatype Op =
    | NewSpace(sp: nat, tabs: set<nat>)                                      // clone of the boot space
    | MapFresh(sp: nat, v: nat, f: nat, rw: bool, nx: bool, tabs: set<nat>)  // spawn, exec, demand
    | LoseRace(cpu: nat, f: nat, tabs: set<nat>)                             // demand: page already there
    | Fork(src: nat, dst: nat, tabs: set<nat>)
    | Share(src: nat, dst: nat, tabs: set<nat>)                              // CLONE
    | CowUpgrade(sp: nat, v: nat)
    | CowCopy(cpu: nat, sp: nat, v: nat, f: nat)
    | Unmap(cpu: nat, sp: nat, vs: seq<nat>)                                 // brk batch
    | Teardown(cpu: nat, sp: nat, vs: seq<nat>)
    | PutHead(cpu: nat)
    | FreeTables(tabs: set<nat>)
    | UserWrite(sp: nat, v: nat, i: nat, w: int)

  predicate Idle(s: State, cpu: nat) {
    cpu < |s.pend| && s.pend[cpu] == []
  }

  /** Room for one more space: the task table has 32 slots. */
  predicate Room(s: State) {
    |s.live| + NCPU + 1 < REF_MAX
  }

  /** When a step can happen. A CPU defers a batch only after its previous one is done. */
  predicate Can(s: State, op: Op)
    requires Shaped(s)
  {
    match op
    case NewSpace(sp, tabs) => sp !in s.live && sp in tabs && FreshTables(s, tabs) && Room(s)
    case MapFresh(sp, v, f, rw, nx, tabs) =>
      sp in s.live && Slot(sp, v) !in s.leaves && IsFree(s, f) && f !in tabs && FreshTables(s, tabs)
    case LoseRace(cpu, f, tabs) => Idle(s, cpu) && IsFree(s, f) && f !in tabs && FreshTables(s, tabs)
    case Fork(src, dst, tabs) => src in s.live && dst !in s.live && dst in tabs && FreshTables(s, tabs) && Room(s)
    case Share(src, dst, tabs) => src in s.live && dst !in s.live && dst in tabs && FreshTables(s, tabs) && Room(s)
    case CowUpgrade(sp, v) => CowAt(s, sp, v) && s.refs[s.leaves[Slot(sp, v)].frame] == 1
    case CowCopy(cpu, sp, v, f) =>
      Idle(s, cpu) && CowAt(s, sp, v) && s.refs[s.leaves[Slot(sp, v)].frame] != 1 && IsFree(s, f)
    case Unmap(cpu, sp, vs) => Idle(s, cpu) && sp in s.live && Lists(s.leaves, sp, vs)
    case Teardown(cpu, sp, vs) =>
      Idle(s, cpu) && sp in s.live && Lists(s.leaves, sp, vs) && forall k :: k in s.leaves && k.sp == sp ==> k.v in vs
    case PutHead(cpu) => cpu < NCPU && s.pend[cpu] != [] && s.pend[cpu][0] < NFRAMES
    case FreeTables(tabs) => tabs <= s.tables && tabs !! s.live
    case UserWrite(sp, v, i, w) =>
      Slot(sp, v) in s.leaves && s.leaves[Slot(sp, v)].rw && s.leaves[Slot(sp, v)].frame < NFRAMES && i < WORDS
  }

  predicate CowAt(s: State, sp: nat, v: nat) {
    Slot(sp, v) in s.leaves && s.leaves[Slot(sp, v)].cow && s.leaves[Slot(sp, v)].frame < NFRAMES
  }

  function DoFork(s: State, src: nat, dst: nat, tabs: set<nat>, cow: bool): State {
    var from := if cow then CowSpace(s.leaves, src) else s.leaves;
    TakeTables(s, tabs).(live := s.live + {dst}, leaves := from + CopySpace(from, src, dst),
                         refs := IncAll(s.refs, s.leaves, src))
  }

  function DoCowCopy(s: State, cpu: nat, sp: nat, v: nat, f: nat): State
    requires Shaped(s) && CowAt(s, sp, v) && cpu < NCPU && f < NFRAMES
  {
    var l := s.leaves[Slot(sp, v)];
    Alloc(s, f).(leaves := s.leaves[Slot(sp, v) := Leaf(f, true, false, l.nx)],
                 mem := s.mem[f := s.mem[l.frame]],
                 pend := s.pend[cpu := [l.frame]])
  }

  function DoUnmap(s: State, cpu: nat, sp: nat, vs: seq<nat>): State
    requires cpu < |s.pend| && Lists(s.leaves, sp, vs)
  {
    State(s.live, Without(s.leaves, sp, vs), s.used, s.tables, s.reserved, s.refs, s.mem,
          s.pend[cpu := FramesAt(s.leaves, sp, vs)])
  }

  /** What a step does. */
  function Do(s: State, op: Op): State
    requires Shaped(s) && Can(s, op)
  {
    match op
    case NewSpace(sp, tabs) => TakeTables(s, tabs).(live := s.live + {sp})
    case MapFresh(sp, v, f, rw, nx, tabs) =>
      Alloc(TakeTables(s, tabs), f).(leaves := s.leaves[Slot(sp, v) := Leaf(f, rw, false, nx)])
    case LoseRace(cpu, f, tabs) => Alloc(TakeTables(s, tabs), f).(pend := s.pend[cpu := [f]])
    case Fork(src, dst, tabs) => DoFork(s, src, dst, tabs, true)
    case Share(src, dst, tabs) => DoFork(s, src, dst, tabs, false)
    case CowUpgrade(sp, v) =>
      s.(leaves := s.leaves[Slot(sp, v) := s.leaves[Slot(sp, v)].(rw := true, cow := false)])
    case CowCopy(cpu, sp, v, f) => DoCowCopy(s, cpu, sp, v, f)
    case Unmap(cpu, sp, vs) => DoUnmap(s, cpu, sp, vs)
    case Teardown(cpu, sp, vs) => var t := DoUnmap(s, cpu, sp, vs); t.(live := t.live - {sp})
    case PutHead(cpu) => Put(s, s.pend[cpu][0]).(pend := s.pend[cpu := s.pend[cpu][1..]])
    case FreeTables(tabs) => s.(used := s.used - tabs, tables := s.tables - tabs)
    case UserWrite(sp, v, i, w) =>
      var f := s.leaves[Slot(sp, v)].frame;
      s.(mem := s.mem[f := s.mem[f][i := w]])
  }

  // ---------------------------------------------------------------- invariants

  /** No space maps a frame twice. */
  ghost predicate NoAliasInSpace(leaves: map<Slot, Leaf>) {
    forall k, m :: k in leaves && m in leaves && k.sp == m.sp && leaves[k].frame == leaves[m].frame ==> k == m
  }

  /** No deferred list names a frame twice. */
  ghost predicate NoDupOwed(pend: seq<seq<nat>>) {
    forall c, f :: 0 <= c < |pend| ==> Times(pend[c], f) <= 1
  }

  /** Everything that is named is an allocated data frame of a live space. */
  ghost predicate NamesData(s: State) {
    (forall k :: k in s.leaves ==> k.sp in s.live && IsData(s, s.leaves[k].frame)) &&
    (forall c, i :: 0 <= c < |s.pend| && 0 <= i < |s.pend[c]| ==> IsData(s, s.pend[c][i]))
  }

  /** The count of a data frame is exactly the number of places that name it, and
      a frame that nothing names is not allocated. */
  ghost predicate Exact(s: State)
    requires Shaped(s)
  {
    forall f: nat :: IsData(s, f) ==> s.refs[f] == |SlotsOf(s.leaves, f)| + Owed(s.pend, f) && s.refs[f] > 0
  }

  /** A copy-on-write leaf is read-only until it is resolved. */
  ghost predicate CowReadOnly(leaves: map<Slot, Leaf>) { forall k :: k in leaves && leaves[k].cow ==> !leaves[k].rw }

  ghost predicate Inv(s: State) {
    Shaped(s) && CowReadOnly(s.leaves) && NoAliasInSpace(s.leaves) && NoDupOwed(s.pend) && NamesData(s) && Exact(s) &&
    s.live <= s.tables && s.tables <= s.used && s.tables !! s.reserved && |s.live| + NCPU < REF_MAX
  }

  /** A frame named from two leaves is writable through neither. */
  ghost predicate Protected(leaves: map<Slot, Leaf>) {
    forall k, m :: k in leaves && m in leaves && leaves[k].frame == leaves[m].frame && k != m ==> !leaves[k].rw
  }

  // ---------------------------------------------------------------- counting

  lemma {:induction false} OwedUpdate(pend: seq<seq<nat>>, c: nat, l: seq<nat>, f: nat)
    requires c < |pend|
    ensures Owed(pend[c := l], f) == Owed(pend, f) - Times(pend[c], f) + Times(l, f)
  {
    if c == 0 {
      assert pend[c := l][1..] == pend[1..];
    } else {
      assert pend[c := l][1..] == pend[1..][c - 1 := l];
      OwedUpdate(pend[1..], c - 1, l, f);
    }
  }

  /** A frame no list names is owed nothing. */
  lemma {:induction false} OwedNone(pend: seq<seq<nat>>, f: nat)
    requires forall c :: 0 <= c < |pend| ==> f !in pend[c]
    ensures Owed(pend, f) == 0
  {
    if pend != [] {
      OwedNone(pend[1..], f);
    }
  }

  lemma {:induction false} OwedAtMost(pend: seq<seq<nat>>, f: nat)
    requires NoDupOwed(pend)
    ensures Owed(pend, f) <= |pend|
  {
    if pend != [] {
      assert Times(pend[0], f) <= 1;
      forall c, g | 0 <= c < |pend[1..]| ensures Times(pend[1..][c], g) <= 1 {
        assert pend[1..][c] == pend[c + 1];
      }
      OwedAtMost(pend[1..], f);
    }
  }

  lemma {:induction false} SlotsAtMost(a: set<Slot>, b: set<nat>)
    requires forall k, m :: k in a && m in a && k.sp == m.sp ==> k == m
    requires forall k :: k in a ==> k.sp in b
    ensures |a| <= |b|
  {
    if a != {} {
      var k :| k in a;
      SlotsAtMost(a - {k}, b - {k.sp});
    }
  }

  /** At most one leaf per space and one deferred put per CPU name a frame, so the
      16-bit counter never saturates. */
  lemma CountBound(s: State, f: nat)
    requires Inv(s)
    ensures |SlotsOf(s.leaves, f)| <= |s.live| && Owed(s.pend, f) <= NCPU
  {
    SlotsAtMost(SlotsOf(s.leaves, f), s.live);
    OwedAtMost(s.pend, f);
  }

  /** With no aliasing inside a space, a frame is there once or not at all. */
  lemma OnceInSpace(leaves: map<Slot, Leaf>, sp: nat, f: nat)
    requires NoAliasInSpace(leaves)
    ensures |SlotsIn(leaves, sp, f)| <= 1
    ensures forall k :: k in SlotsIn(leaves, sp, f) ==> SlotsIn(leaves, sp, f) == {k}
  {
    var a := SlotsIn(leaves, sp, f);
    if k :| k in a {
      assert a == {k};
    }
  }

  // ---------------------------------------------------------------- every step keeps the counts exact

  lemma NewSpaceKeeps(s: State, op: Op)
    requires Inv(s) && op.NewSpace? && Can(s, op)
    ensures Inv(Do(s, op))
  {
  }

  /** A free frame is named from nowhere. */
  lemma FreeIsUnnamed(s: State, f: nat)
    requires Inv(s) && IsFree(s, f)
    ensures SlotsOf(s.leaves, f) == {} && Owed(s.pend, f) == 0
  {
    OwedNone(s.pend, f);
  }

  lemma SetLeafSlots(leaves: map<Slot, Leaf>, k: Slot, l: Leaf, f: nat)
    ensures SlotsOf(leaves[k := l], f) == if l.frame == f then SlotsOf(leaves, f) + {k} else SlotsOf(leaves, f) - {k}
  {
  }

  lemma FreshNoAlias(leaves: map<Slot, Leaf>, k: Slot, l: Leaf)
    requires NoAliasInSpace(leaves) && SlotsOf(leaves, l.frame) == {}
    ensures NoAliasInSpace(leaves[k := l])
  {
    forall m | m in leaves ensures leaves[m].frame != l.frame {
      assert m !in SlotsOf(leaves, l.frame);
    }
  }

  lemma MapFreshKeeps(s: State, op: Op)
    requires Inv(s) && op.MapFresh? && Can(s, op)
    ensures Inv(Do(s, op))
  {
    var t, k, l := Do(s, op), Slot(op.sp, op.v), Leaf(op.f, op.rw, false, op.nx);
    FreeIsUnnamed(s, op.f);
    FreshNoAlias(s.leaves, k, l);
    forall f: nat | IsData(t, f) ensures t.refs[f] == |SlotsOf(t.leaves, f)| + Owed(t.pend, f) && t.refs[f] > 0 {
      SetLeafSlots(s.leaves, k, l, f);
    }
  }

  lemma LoseRaceKeeps(s: State, op: Op)
    requires Inv(s) && op.LoseRace? && Can(s, op)
    ensures Inv(Do(s, op))
  {
    var t := Do(s, op);
    FreeIsUnnamed(s, op.f);
    forall f: nat ensures Owed(t.pend, f) == Owed(s.pend, f) + if f == op.f then 1 else 0 {
      OwedUpdate(s.pend, op.cpu, [op.f], f);
    }
  }

  /** A duplicated space names each frame once more than before. */
  lemma DuplicateSlots(leaves: map<Slot, Leaf>, more: map<Slot, Leaf>, src: nat, dst: nat, f: nat)
    requires NoAliasInSpace(leaves) && src != dst
    requires forall k :: k in leaves ==> k.sp != dst
    requires forall k :: k in more <==> k in leaves || (k.sp == dst && Slot(src, k.v) in leaves)
    requires forall k :: k in leaves ==> more[k].frame == leaves[k].frame
    requires forall k :: k in more && k.sp == dst ==> more[k].frame == leaves[Slot(src, k.v)].frame
    ensures |SlotsOf(more, f)| == |SlotsOf(leaves, f)| + |SlotsIn(leaves, src, f)|
  {
    var prior, added := SlotsOf(leaves, f), SlotsIn(more, dst, f);
    assert SlotsOf(more, f) == prior + added;
    assert prior !! added;
    OnceInSpace(leaves, src, f);
    assert forall m :: m in added ==> Slot(src, m.v) in SlotsIn(leaves, src, f);
    if k :| k in SlotsIn(leaves, src, f) {
      assert Slot(src, k.v) == k;
      assert Slot(dst, k.v) in added;
      assert added == {Slot(dst, k.v)};
    } else {
      assert added == {};
    }
  }

  lemma ForkKeeps(s: State, src: nat, dst: nat, tabs: set<nat>, cow: bool)
    requires Inv(s) && src in s.live && dst !in s.live && dst in tabs && FreshTables(s, tabs) && Room(s)
    ensures Inv(DoFork(s, src, dst, tabs, cow))
  {
    var t := DoFork(s, src, dst, tabs, cow);
    var from := if cow then CowSpace(s.leaves, src) else s.leaves;
    hide CowReadOnly, Exact, NoDupOwed, NoAliasInSpace, Owed;
    assert forall k :: k in s.leaves ==> k.sp != dst;
    assert forall k :: k in t.leaves <==> k in s.leaves || (k.sp == dst && Slot(src, k.v) in s.leaves);
    assert forall k :: k in s.leaves ==> t.leaves[k].frame == s.leaves[k].frame;
    assert forall k :: k in t.leaves && k.sp == dst ==> t.leaves[k].frame == s.leaves[Slot(src, k.v)].frame;
    ForkReadOnly(s.leaves, src, dst, cow);
    ForkParts(s, t, src, dst, tabs);
  }

  lemma ForkReadOnly(leaves: map<Slot, Leaf>, src: nat, dst: nat, cow: bool)
    requires CowReadOnly(leaves)
    ensures var from := if cow then CowSpace(leaves, src) else leaves; CowReadOnly(from + CopySpace(from, src, dst))
  {
    var from := if cow then CowSpace(leaves, src) else leaves;
    assert CowReadOnly(from);
  }

  lemma ForkParts(s: State, t: State, src: nat, dst: nat, tabs: set<nat>)
    requires Inv(s) && src in s.live && dst !in s.live && dst in tabs && FreshTables(s, tabs) && Room(s)
    requires forall k :: k in s.leaves ==> k.sp != dst
    requires forall k :: k in t.leaves <==> k in s.leaves || (k.sp == dst && Slot(src, k.v) in s.leaves)
    requires forall k :: k in s.leaves ==> t.leaves[k].frame == s.leaves[k].frame
    requires forall k :: k in t.leaves && k.sp == dst ==> t.leaves[k].frame == s.leaves[Slot(src, k.v)].frame
    requires t == TakeTables(s, tabs).(live := s.live + {dst}, leaves := t.leaves, refs := IncAll(s.refs, s.leaves, src))
    requires CowReadOnly(t.leaves)
    ensures Inv(t)
  {
    forall f: nat | IsData(t, f) ensures t.refs[f] == |SlotsOf(t.leaves, f)| + Owed(t.pend, f) && t.refs[f] > 0 {
      assert IsData(s, f);
      DuplicateSlots(s.leaves, t.leaves, src, dst, f);
      CountBound(s, f);
      OnceInSpace(s.leaves, src, f);
    }
    forall k, m | k in t.leaves && m in t.leaves && k.sp == m.sp && t.leaves[k].frame == t.leaves[m].frame ensures k == m {
      if k.sp == dst {
        assert Slot(src, k.v) == Slot(src, m.v);
      }
    }
    forall k | k in t.leaves ensures k.sp in t.live && IsData(t, t.leaves[k].frame) {
      if k.sp == dst {
        assert Slot(src, k.v) in s.leaves;
      }
    }
  }

  lemma CowUpgradeKeeps(s: State, op: Op)
    requires Inv(s) && op.CowUpgrade? && Can(s, op)
    ensures Inv(Do(s, op))
  {
    var t, k := Do(s, op), Slot(op.sp, op.v);
    forall f: nat | IsData(t, f) ensures t.refs[f] == |SlotsOf(t.leaves, f)| + Owed(t.pend, f) {
      SetLeafSlots(s.leaves, k, t.leaves[k], f);
      assert SlotsOf(t.leaves, f) == SlotsOf(s.leaves, f);
    }
  }

  /** Step one of the resolver moves a name from a leaf to the CPU's list. */
  lemma CowCopyCounts(s: State, op: Op, f: nat)
    requires Inv(s) && op.CowCopy? && Can(s, op) && IsData(Do(s, op), f)
    ensures var t := Do(s, op); t.refs[f] == |SlotsOf(t.leaves, f)| + Owed(t.pend, f) && t.refs[f] > 0
  {
    var l := s.leaves[Slot(op.sp, op.v)];
    FreeIsUnnamed(s, op.f);
    assert IsData(s, l.frame);
    assert f != op.f ==> s.refs[f] == |SlotsOf(s.leaves, f)| + Owed(s.pend, f) && s.refs[f] > 0;
    hide NoAliasInSpace, NoDupOwed, Owed, Lists, NamesData, Exact;
    MovedCounts(s.leaves, Slot(op.sp, op.v), Leaf(op.f, true, false, l.nx), s.pend, op.cpu, f);
  }

  /** A leaf moves to a frame nothing names; its old frame is owed one put. */
  lemma MovedCounts(leaves: map<Slot, Leaf>, k: Slot, l: Leaf, pend: seq<seq<nat>>, cpu: nat, f: nat)
    requires k in leaves && SlotsOf(leaves, l.frame) == {} && cpu < |pend| && pend[cpu] == []
    ensures var n, m := |SlotsOf(leaves, f)| + Owed(pend, f), |SlotsOf(leaves[k := l], f)| + Owed(pend[cpu := [leaves[k].frame]], f);
      m == if f == l.frame then 1 + n else n
  {
    hide Owed;
    var g := leaves[k].frame;
    assert k in SlotsOf(leaves, g);
    SetLeafSlots(leaves, k, l, f);
    OwedUpdate(pend, cpu, [g], f);
    assert Times([], f) == 0;
    if f != g && f != l.frame {
      assert SlotsOf(leaves[k := l], f) == SlotsOf(leaves, f);
    }
  }

  lemma CowCopyKeeps(s: State, op: Op)
    requires Inv(s) && op.CowCopy? && Can(s, op)
    ensures Inv(Do(s, op))
  {
    var t, k := Do(s, op), Slot(op.sp, op.v);
    FreeIsUnnamed(s, op.f);
    FreshNoAlias(s.leaves, k, t.leaves[k]);
    forall f: nat | IsData(t, f) ensures t.refs[f] == |SlotsOf(t.leaves, f)| + Owed(t.pend, f) && t.refs[f] > 0 {
      CowCopyCounts(s, op, f);
    }
  }

  lemma {:induction false} NoDupTimes(l: seq<nat>, f: nat)
    requires forall i, j :: 0 <= i < j < |l| ==> l[i] != l[j]
    ensures Times(l, f) == if f in l then 1 else 0
  {
    if l != [] {
      var n := |l| - 1;
      NoDupTimes(l[..n], f);
      assert l == l[..n] + [l[n]];
    }
  }

  /** Leaves of the listed pages that name f. */
  function Listed(leaves: map<Slot, Leaf>, sp: nat, vs: seq<nat>, f: nat): set<Slot> {
    set k | k in leaves && k.sp == sp && k.v in vs && leaves[k].frame == f
  }

  /** A listed frame is listed once: the list names f as often as its pages do. */
  lemma FramesAtCount(leaves: map<Slot, Leaf>, sp: nat, vs: seq<nat>, f: nat)
    requires Lists(leaves, sp, vs) && NoAliasInSpace(leaves)
    ensures Times(FramesAt(leaves, sp, vs), f) == |Listed(leaves, sp, vs, f)| <= 1
  {
    var l, a := FramesAt(leaves, sp, vs), Listed(leaves, sp, vs, f);
    forall i, j | 0 <= i < j < |l| ensures l[i] != l[j] {
      assert Slot(sp, vs[i]) != Slot(sp, vs[j]);
    }
    NoDupTimes(l, f);
    forall k | k in a ensures f in l {
      var i :| 0 <= i < |vs| && vs[i] == k.v;
      assert l[i] == f;
    }
    if f in l {
      var i :| 0 <= i < |l| && l[i] == f;
      assert a == {Slot(sp, vs[i])};
    } else {
      assert a == {};
    }
  }

  lemma UnmapKeeps(s: State, cpu: nat, sp: nat, vs: seq<nat>)
    requires Inv(s) && Idle(s, cpu) && sp in s.live && Lists(s.leaves, sp, vs)
    ensures Inv(DoUnmap(s, cpu, sp, vs))
  {
    var t := DoUnmap(s, cpu, sp, vs);
    var l := FramesAt(s.leaves, sp, vs);
    forall f: nat ensures |SlotsOf(t.leaves, f)| + Owed(t.pend, f) == |SlotsOf(s.leaves, f)| + Owed(s.pend, f)
                  ensures Times(l, f) <= 1 {
      FramesAtCount(s.leaves, sp, vs, f);
      OwedUpdate(s.pend, cpu, l, f);
      var gone := Listed(s.leaves, sp, vs, f);
      assert SlotsOf(t.leaves, f) == SlotsOf(s.leaves, f) - gone;
      assert gone <= SlotsOf(s.leaves, f);
    }
    assert NoDupOwed(t.pend);
    forall i | 0 <= i < |l| ensures IsData(t, l[i]) {
      assert Slot(sp, vs[i]) in s.leaves;
    }
  }

  lemma TeardownKeeps(s: State, op: Op)
    requires Inv(s) && op.Teardown? && Can(s, op)
    ensures Inv(Do(s, op))
  {
    UnmapKeeps(s, op.cpu, op.sp, op.vs);
  }

  lemma {:induction false} OwedZero(pend: seq<seq<nat>>, f: nat)
    requires Owed(pend, f) == 0
    ensures forall c :: 0 <= c < |pend| ==> f !in pend[c]
  {
    if pend != [] {
      OwedZero(pend[1..], f);
      assert forall c :: 1 <= c < |pend| ==> pend[c] == pend[1..][c - 1];
    }
  }

  /** What one put does to the lists and to the frame it releases. */
  lemma PutHeadEffect(s: State, op: Op)
    requires Inv(s) && op.PutHead? && Can(s, op)
    ensures var t, f := Do(s, op), s.pend[op.cpu][0];
      IsData(s, f) && t.leaves == s.leaves && Shaped(t) && NoDupOwed(t.pend) &&
      (forall g: nat :: Owed(t.pend, g) == Owed(s.pend, g) - if g == f then 1 else 0) &&
      t.refs[f] == |SlotsOf(t.leaves, f)| + Owed(t.pend, f)
  {
    var t := Do(s, op);
    var l := s.pend[op.cpu];
    var f := l[0];
    assert l == [f] + l[1..];
    forall g: nat ensures Owed(t.pend, g) == Owed(s.pend, g) - if g == f then 1 else 0
                  ensures Times(l[1..], g) <= Times(l, g) {
      OwedUpdate(s.pend, op.cpu, l[1..], g);
    }
  }

  /** A put frees its frame exactly when nothing names it any more. */
  lemma PutHeadKeeps(s: State, op: Op)
    requires Inv(s) && op.PutHead? && Can(s, op)
    ensures Inv(Do(s, op))
    ensures var t, f := Do(s, op), s.pend[op.cpu][0];
      f in t.used <==> SlotsOf(t.leaves, f) != {} || Owed(t.pend, f) > 0
  {
    hide Owed, NoAliasInSpace, NoDupOwed, Times;
    var t := Do(s, op);
    var f := s.pend[op.cpu][0];
    PutHeadEffect(s, op);
    forall c, i | 0 <= c < |t.pend| && 0 <= i < |t.pend[c]| ensures IsData(s, t.pend[c][i]) {
      assert c == op.cpu ==> t.pend[c][i] == s.pend[c][i + 1];
    }
    if t.refs[f] == 0 {
      assert SlotsOf(t.leaves, f) == {};
      assert forall k :: k in t.leaves && t.leaves[k].frame == f ==> k in SlotsOf(t.leaves, f);
      OwedZero(t.pend, f);
      forall c, i | 0 <= c < |t.pend| && 0 <= i < |t.pend[c]| ensures IsData(t, t.pend[c][i]) {
        assert t.pend[c][i] in t.pend[c];
      }
    }
    assert NamesData(t);
  }

  /** Every step keeps the reference counts exact. */
  lemma StepKeeps(s: State, op: Op)
    requires Inv(s) && Can(s, op)
    ensures Inv(Do(s, op))
  {
    match op
    case NewSpace(_, _) => NewSpaceKeeps(s, op);
    case MapFresh(_, _, _, _, _, _) => MapFreshKeeps(s, op);
    case LoseRace(_, _, _) => LoseRaceKeeps(s, op);
    case Fork(src, dst, tabs) => ForkKeeps(s, src, dst, tabs, true);
    case Share(src, dst, tabs) => ForkKeeps(s, src, dst, tabs, false);
    case CowUpgrade(_, _) => CowUpgradeKeeps(s, op);
    case CowCopy(_, _, _, _) => CowCopyKeeps(s, op);
    case Unmap(cpu, sp, vs) => UnmapKeeps(s, cpu, sp, vs);
    case Teardown(_, _, _) => TeardownKeeps(s, op);
    case PutHead(_) => PutHeadKeeps(s, op);
    case FreeTables(_) =>
    case UserWrite(_, _, _, _) =>
  }

  // ---------------------------------------------------------------- runs

  ghost predicate CanAll(s: State, ops: seq<Op>)
    decreases |ops|
  {
    Shaped(s) && (ops == [] || (Can(s, ops[0]) && CanAll(Do(s, ops[0]), ops[1..])))
  }

  ghost function DoAll(s: State, ops: seq<Op>): State
    requires CanAll(s, ops)
    decreases |ops|
  {
    if ops == [] then s else DoAll(Do(s, ops[0]), ops[1..])
  }

  /** After boot: no task, nothing deferred, allocated frames are tables or reserved. */
  ghost predicate Boot(s: State) {
    Shaped(s) && s.live == {} && s.leaves == map[] && (forall c :: 0 <= c < NCPU ==> s.pend[c] == []) &&
    s.tables <= s.used && s.tables !! s.reserved && s.used <= s.tables + s.reserved
  }

  /** On every run from boot the counts are exact, so a mapped or owed frame is
      never free and a data frame stays allocated only while something names it. */
  lemma {:induction false} RunExact(s: State, ops: seq<Op>)
    requires (Boot(s) || Inv(s)) && CanAll(s, ops)
    ensures Inv(DoAll(s, ops))
    decreases |ops|
  {
    assert Inv(s);
    if ops != [] {
      StepKeeps(s, ops[0]);
      RunExact(Do(s, ops[0]), ops[1..]);
    }
  }

  // ---------------------------------------------------------------- copy-on-write is eager copying

  /** What a task sees: the contents of each of its pages. */
  type View = imap<nat, Page>

  ghost function ViewOf(leaves: map<Slot, Leaf>, mem: seq<Page>, sp: nat): View {
    imap v: nat | Slot(sp, v) in leaves && leaves[Slot(sp, v)].frame < |mem| :: mem[leaves[Slot(sp, v)].frame]
  }

  ghost function Views(s: State): map<nat, View> {
    map sp | sp in s.live :: ViewOf(s.leaves, s.mem, sp)
  }

  ghost function SetPage(view: View, v: nat, p: Page): View { view[v := p] }

  ghost function Drop(view: View, vs: seq<nat>): View {
    imap v: nat | v in view && v !in vs :: view[v]
  }

  /** The same steps on private memories: fork copies, nothing is ever shared. */
  ghost function PrivateDo(m: map<nat, View>, op: Op): map<nat, View> {
    match op
    case NewSpace(sp, _) => m[sp := imap[]]
    case MapFresh(sp, v, _, _, _, _) => if sp in m then m[sp := SetPage(m[sp], v, ZeroPage())] else m
    case Fork(src, dst, _) => if src in m then m[dst := m[src]] else m
    case Share(src, dst, _) => if src in m then m[dst := m[src]] else m
    case Unmap(_, sp, vs) => if sp in m then m[sp := Drop(m[sp], vs)] else m
    case Teardown(_, sp, _) => m - {sp}
    case UserWrite(sp, v, i, w) =>
      if sp in m && v in m[sp] && i < WORDS then m[sp := SetPage(m[sp], v, m[sp][v][i := w])] else m
    case _ => m
  }

  // Write protection, step by step.

  lemma ForkProtects(leaves: map<Slot, Leaf>, src: nat, dst: nat)
    requires Protected(leaves) && src != dst && forall k :: k in leaves ==> k.sp != dst
    ensures Protected(CowSpace(leaves, src) + CopySpace(CowSpace(leaves, src), src, dst))
  {
    var t := CowSpace(leaves, src) + CopySpace(CowSpace(leaves, src), src, dst);
    forall k, m | k in t && m in t && t[k].frame == t[m].frame && k != m ensures !t[k].rw {
      if k.sp != src && k.sp != dst {
        var n := if m.sp == dst then Slot(src, m.v) else m;
        assert n in leaves && leaves[n].frame == leaves[k].frame;
      }
    }
  }

  /** A count of one means a single leaf: making it writable in place shares nothing. */
  lemma UpgradeProtects(leaves: map<Slot, Leaf>, k: Slot, l: Leaf)
    requires Protected(leaves) && k in leaves && l.frame == leaves[k].frame && |SlotsOf(leaves, l.frame)| <= 1
    ensures Protected(leaves[k := l])
  {
    assert k in SlotsOf(leaves, l.frame);
    assert |SlotsOf(leaves, l.frame) - {k}| == 0;
    forall m | m in leaves && m != k ensures leaves[m].frame != l.frame {
      assert m !in SlotsOf(leaves, l.frame) - {k};
    }
  }

  lemma FreshProtects(leaves: map<Slot, Leaf>, k: Slot, l: Leaf)
    requires Protected(leaves) && SlotsOf(leaves, l.frame) == {}
    ensures Protected(leaves[k := l])
  {
    forall m | m in leaves ensures leaves[m].frame != l.frame {
      assert m !in SlotsOf(leaves, l.frame);
    }
  }

  /** Steps other than Share keep shared frames write-protected. */
  lemma StepProtects(s: State, op: Op)
    requires Inv(s) && Protected(s.leaves) && Can(s, op) && !op.Share?
    ensures Protected(Do(s, op).leaves)
  {
    match op
    case Fork(src, dst, tabs) => ForkProtects(s.leaves, src, dst);
    case CowUpgrade(sp, v) => UpgradeProtects(s.leaves, Slot(sp, v), s.leaves[Slot(sp, v)].(rw := true, cow := false));
    case MapFresh(sp, v, f, rw, nx, _) => FreeIsUnnamed(s, f); FreshProtects(s.leaves, Slot(sp, v), Leaf(f, rw, false, nx));
    case CowCopy(_, sp, v, f) => FreeIsUnnamed(s, f); FreshProtects(s.leaves, Slot(sp, v), Leaf(f, true, false, s.leaves[Slot(sp, v)].nx));
    case _ =>
  }

  // Views, step by step.

  /** Zeroing or copying into a frame nobody maps changes no view. */
  lemma UnnamedWrite(leaves: map<Slot, Leaf>, mem: seq<Page>, f: nat, p: Page, sp: nat)
    requires SlotsOf(leaves, f) == {} && f < |mem|
    ensures ViewOf(leaves, mem[f := p], sp) == ViewOf(leaves, mem, sp)
  {
    forall k | k in leaves ensures leaves[k].frame != f {
      assert k !in SlotsOf(leaves, f);
    }
  }

  /** Replacing the leaf of one page by one with contents p. */
  lemma SetLeafView(leaves: map<Slot, Leaf>, mem: seq<Page>, k: Slot, l: Leaf, sp: nat)
    requires l.frame < |mem|
    ensures ViewOf(leaves[k := l], mem, sp) ==
      if sp == k.sp then SetPage(ViewOf(leaves, mem, sp), k.v, mem[l.frame]) else ViewOf(leaves, mem, sp)
  {
  }

  lemma ForkView(leaves: map<Slot, Leaf>, mem: seq<Page>, src: nat, dst: nat, cow: bool, sp: nat)
    requires src != dst && forall k :: k in leaves ==> k.sp != dst
    ensures var from := if cow then CowSpace(leaves, src) else leaves;
      ViewOf(from + CopySpace(from, src, dst), mem, sp) == ViewOf(leaves, mem, if sp == dst then src else sp)
  {
    var from := if cow then CowSpace(leaves, src) else leaves;
    var t := from + CopySpace(from, src, dst);
    var sq := if sp == dst then src else sp;
    forall v: nat
      ensures Slot(sp, v) in t <==> Slot(sq, v) in leaves
      ensures Slot(sq, v) in leaves ==> t[Slot(sp, v)].frame == leaves[Slot(sq, v)].frame
    {
      assert Slot(dst, v) !in leaves;
    }
  }

  lemma UnmapView(leaves: map<Slot, Leaf>, mem: seq<Page>, at: nat, vs: seq<nat>, sp: nat)
    ensures ViewOf(Without(leaves, at, vs), mem, sp) ==
      if sp == at then Drop(ViewOf(leaves, mem, sp), vs) else ViewOf(leaves, mem, sp)
  {
  }

  /** A store through a writable leaf lands in a frame no other leaf names. */
  lemma WriteView(leaves: map<Slot, Leaf>, mem: seq<Page>, k: Slot, p: Page, sp: nat)
    requires Protected(leaves) && k in leaves && leaves[k].rw && leaves[k].frame < |mem|
    ensures ViewOf(leaves, mem[leaves[k].frame := p], sp) ==
      if sp == k.sp then SetPage(ViewOf(leaves, mem, sp), k.v, p) else ViewOf(leaves, mem, sp)
  {
    forall m | m in leaves && m != k ensures leaves[m].frame != leaves[k].frame {}
  }

  /** Steps that only rearrange frames are invisible to every task. */
  lemma QuietStep(s: State, op: Op, sp: nat)
    requires Inv(s) && Can(s, op)
    requires op.NewSpace? || op.LoseRace? || op.CowUpgrade? || op.CowCopy? || op.PutHead? || op.FreeTables?
    ensures ViewOf(Do(s, op).leaves, Do(s, op).mem, sp) == ViewOf(s.leaves, s.mem, sp)
  {
    match op
    case LoseRace(_, f, _) => FreeIsUnnamed(s, f); UnnamedWrite(s.leaves, s.mem, f, ZeroPage(), sp);
    case CowUpgrade(at, v) =>
      SetLeafView(s.leaves, s.mem, Slot(at, v), s.leaves[Slot(at, v)].(rw := true, cow := false), sp);
    case CowCopy(_, at, v, f) =>
      var l := s.leaves[Slot(at, v)];
      FreeIsUnnamed(s, f);
      UnnamedWrite(s.leaves, s.mem, f, s.mem[l.frame], sp);
      SetLeafView(s.leaves, s.mem[f := s.mem[l.frame]], Slot(at, v), Leaf(f, true, false, l.nx), sp);
    case _ =>
  }

  /** The view of one space after a step that maps, unmaps, copies or writes. */
  ghost predicate ViewAfter(s: State, op: Op, sp: nat)
    requires Shaped(s) && Can(s, op)
  {
    var before := ViewOf(s.leaves, s.mem, sp);
    var after := ViewOf(Do(s, op).leaves, Do(s, op).mem, sp);
    match op
    case Fork(src, dst, _) => after == ViewOf(s.leaves, s.mem, if sp == dst then src else sp)
    case Share(src, dst, _) => after == ViewOf(s.leaves, s.mem, if sp == dst then src else sp)
    case MapFresh(at, v, _, _, _, _) => after == if sp == at then SetPage(before, v, ZeroPage()) else before
    case Unmap(_, at, vs) => after == if sp == at then Drop(before, vs) else before
    case Teardown(_, at, vs) => sp != at ==> after == before
    case UserWrite(at, v, i, w) =>
      if sp == at then v in before && after == SetPage(before, v, before[v][i := w]) else after == before
    case _ => after == before
  }

  lemma StepView(s: State, op: Op, sp: nat)
    requires Inv(s) && Can(s, op) && (op.UserWrite? ==> Protected(s.leaves))
    ensures ViewAfter(s, op, sp)
  {
    match op
    case Fork(src, dst, tabs) => ForkView(s.leaves, s.mem, src, dst, true, sp);
    case Share(src, dst, tabs) => ForkView(s.leaves, s.mem, src, dst, false, sp);
    case MapFresh(at, v, f, rw, nx, _) =>
      FreeIsUnnamed(s, f);
      UnnamedWrite(s.leaves, s.mem, f, ZeroPage(), sp);
      SetLeafView(s.leaves, s.mem[f := ZeroPage()], Slot(at, v), Leaf(f, rw, false, nx), sp);
    case Unmap(_, at, vs) => UnmapView(s.leaves, s.mem, at, vs, sp);
    case Teardown(_, at, vs) => UnmapView(s.leaves, s.mem, at, vs, sp);
    case UserWrite(at, v, i, w) =>
      WriteView(s.leaves, s.mem, Slot(at, v), s.mem[s.leaves[Slot(at, v)].frame][i := w], sp);
    case _ => QuietStep(s, op, sp);
  }

  /** Lifting one space at a time: `now` agrees with the private step on every view. */
  lemma LiftViews(m: map<nat, View>, now: map<nat, View>, keys: set<nat>)
    requires m.Keys == keys && now.Keys == keys && forall sp :: sp in keys ==> m[sp] == now[sp]
    ensures m == now
  {
  }

  lemma PrivateFork(s: State, op: Op, sp: nat)
    requires Shaped(s) && Can(s, op) && (op.Fork? || op.Share?) && ViewAfter(s, op, sp)
    ensures sp in PrivateDo(Views(s), op) <==> sp in Do(s, op).live
    ensures sp in Do(s, op).live ==> PrivateDo(Views(s), op)[sp] == ViewOf(Do(s, op).leaves, Do(s, op).mem, sp)
  {
  }

  lemma PrivateWrite(s: State, op: Op, sp: nat)
    requires Shaped(s) && Can(s, op) && op.UserWrite? && op.sp in s.live && ViewAfter(s, op, sp)
    ensures sp in PrivateDo(Views(s), op) <==> sp in Do(s, op).live
    ensures sp in Do(s, op).live ==> PrivateDo(Views(s), op)[sp] == ViewOf(Do(s, op).leaves, Do(s, op).mem, sp)
  {
  }

  lemma PrivateMap(s: State, op: Op, sp: nat)
    requires Shaped(s) && Can(s, op) && (op.MapFresh? || op.Unmap? || op.Teardown?) && ViewAfter(s, op, sp)
    ensures sp in PrivateDo(Views(s), op) <==> sp in Do(s, op).live
    ensures sp in Do(s, op).live ==> PrivateDo(Views(s), op)[sp] == ViewOf(Do(s, op).leaves, Do(s, op).mem, sp)
  {
  }

  lemma PrivateNew(s: State, op: Op, sp: nat)
    requires Shaped(s) && NamesData(s) && Can(s, op) && op.NewSpace? && ViewAfter(s, op, sp)
    ensures sp in PrivateDo(Views(s), op) <==> sp in Do(s, op).live
    ensures sp in Do(s, op).live ==> PrivateDo(Views(s), op)[sp] == ViewOf(Do(s, op).leaves, Do(s, op).mem, sp)
  {
    if sp == op.sp {
      assert forall v: nat :: Slot(sp, v) !in s.leaves;
      assert ViewOf(s.leaves, s.mem, sp) == imap[];
    }
  }

  lemma PrivateQuiet(s: State, op: Op, sp: nat)
    requires Shaped(s) && Can(s, op) && (op.LoseRace? || op.CowUpgrade? || op.CowCopy? || op.PutHead? || op.FreeTables?) && ViewAfter(s, op, sp)
    ensures sp in PrivateDo(Views(s), op) <==> sp in Do(s, op).live
    ensures sp in Do(s, op).live ==> PrivateDo(Views(s), op)[sp] == ViewOf(Do(s, op).leaves, Do(s, op).mem, sp)
  {
  }

  /** One step on shared frames is the same step on private memories: copy-on-write
      fork cannot be told from eager copying.  Only a store needs the frame to be its own. */
  lemma StepRefines(s: State, op: Op)
    requires Inv(s) && Can(s, op) && (op.UserWrite? ==> Protected(s.leaves))
    ensures Views(Do(s, op)) == PrivateDo(Views(s), op)
  {
    var m, now := PrivateDo(Views(s), op), Views(Do(s, op));
    forall sp ensures (sp in m <==> sp in now) && (sp in now ==> m[sp] == now[sp]) {
      StepView(s, op, sp);
      match op
      case Fork(_, _, _) => PrivateFork(s, op, sp);
      case Share(_, _, _) => PrivateFork(s, op, sp);
      case UserWrite(_, _, _, _) => PrivateWrite(s, op, sp);
      case NewSpace(_, _) => PrivateNew(s, op, sp);
      case MapFresh(_, _, _, _, _, _) => PrivateMap(s, op, sp);
      case Unmap(_, _, _) => PrivateMap(s, op, sp);
      case Teardown(_, _, _) => PrivateMap(s, op, sp);
      case _ => PrivateQuiet(s, op, sp);
    }
    LiftViews(m, now, now.Keys);
  }

  /** The steps of a run on private memories. */
  ghost function PrivateAll(m: map<nat, View>, ops: seq<Op>): map<nat, View>
    decreases |ops|
  {
    if ops == [] then m else PrivateAll(PrivateDo(m, ops[0]), ops[1..])
  }

  /** Fork isolation over whole runs: without CLONE, what every task sees after any
      run is what it would see had every fork copied all pages at once. */
  lemma {:induction false} RunRefines(s: State, ops: seq<Op>)
    requires (Boot(s) || (Inv(s) && Protected(s.leaves))) && CanAll(s, ops)
    requires forall i :: 0 <= i < |ops| ==> !ops[i].Share?
    ensures Protected(DoAll(s, ops).leaves)
    ensures Views(DoAll(s, ops)) == PrivateAll(Views(s), ops)
    decreases |ops|
  {
    RunExact(s, []);
    assert Inv(s) && Protected(s.leaves);
    if ops != [] {
      StepKeeps(s, ops[0]);
      StepProtects(s, ops[0]);
      StepRefines(s, ops[0]);
      assert forall i :: 0 <= i < |ops[1..]| ==> ops[1..][i] == ops[i + 1];
      RunRefines(Do(s, ops[0]), ops[1..]);
    }
  }
}
