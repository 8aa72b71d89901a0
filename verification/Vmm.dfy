/** The memory manager: frame allocator, reference counts and the page-table code
    that runs under mem_lock. */
module Vmm {
  import opened PageTables
  import opened Frames
  import opened Snapshots
  import opened SpaceCopy
  import opened CloneSteps
  import opened SpaceTear
  import AS = AddressSpaces

  class Manager {
    var tabs: Heap           // frames read as page tables
    var mem: seq<AS.Page>    // frames read as data
    var bits: seq<bool>      // pmm_bits: true when in use
    var refs: seq<nat>       // frame_ref
    var freeN: nat           // pmm_free_n
    var nxOn: bool
    ghost var lab: Labels    // where each table sits
    const boot: nat          // pml4_boot
    const display: Display   // g_fb, g_fbsize in frames

    ghost predicate FramesOk()
      reads this
    {
      |bits| == NFRAMES && |refs| == NFRAMES && |mem| == NFRAMES && freeN == CountFree(bits) &&
      forall f :: 0 <= f < NFRAMES ==> refs[f] <= REF_MAX
    }

    ghost predicate Valid()
      reads this
    {
      FramesOk() && bits[0] && Tables(tabs, lab, bits)
    }

    ghost function Now(): Snap
      reads this
    {
      Snap(tabs, lab, bits, refs, mem)
    }

    constructor (boot: nat, display: Display, tabs: Heap, ghost lab: Labels, bits: seq<bool>, nxOn: bool)
      requires |bits| == NFRAMES && bits[0] && boot in lab && Tables(tabs, lab, bits)
      ensures Valid() && this.boot == boot && this.display == display && this.tabs == tabs && this.lab == lab && this.bits == bits
      ensures forall f :: 0 <= f < NFRAMES ==> refs[f] == 0
    {
      this.boot := boot;
      this.display := display;
      this.tabs := tabs;
      this.lab := lab;
      this.bits := bits;
      this.refs := seq(NFRAMES, _ => 0);
      this.mem := seq(NFRAMES, _ => AS.ZeroPage());
      this.freeN := CountFree(bits);
      this.nxOn := nxOn;
    }

    /** __pmm_alloc: the lowest free frame, marked, counted once and zeroed; 0 when
        no frame is free. */
    method Alloc() returns (f: nat)
      requires Valid()
      modifies `tabs, `mem, `bits, `refs, `freeN
      ensures Valid()
      ensures f == 0 <==> old(freeN) == 0
      ensures f == 0 ==> tabs == old(tabs) && mem == old(mem) && bits == old(bits) && refs == old(refs) && freeN == old(freeN)
      ensures f != 0 ==> f < NFRAMES && !old(bits)[f] && (forall g :: 0 <= g < f ==> old(bits)[g])
      ensures f != 0 ==> bits == old(bits)[f := true] && refs == old(refs)[f := 1] && freeN == old(freeN) - 1
      ensures f != 0 ==> tabs == old(tabs)[f := ZeroTable()] && mem == old(mem)[f := AS.ZeroPage()]
    {
      f := 0;
      CountFreeZero(bits);
      while f < NFRAMES && bits[f]
        invariant f <= NFRAMES && forall g :: 0 <= g < f ==> bits[g]
        decreases NFRAMES - f
      {
        f := f + 1;
      }
      if f == NFRAMES { return 0; }
      CountFreeUpdate(bits, f, true);
      AllocTables(tabs, lab, bits, f);
      bits := bits[f := true];
      freeN := freeN - 1;
      refs := refs[f := 1];
      tabs := tabs[f := ZeroTable()];
      mem := mem[f := AS.ZeroPage()];
    }

    /** __frame_ref_put: drop one reference, free the frame at the last one. */
    method Put(f: nat) returns (left: nat)
      requires FramesOk()
      modifies `bits, `refs, `freeN
      ensures FramesOk()
      ensures f >= NFRAMES ==> left == 0 && bits == old(bits) && refs == old(refs) && freeN == old(freeN)
      ensures f < NFRAMES ==> left == (if old(refs)[f] > 0 then old(refs)[f] - 1 else 0) && refs == old(refs)[f := left]
      ensures f < NFRAMES ==> bits == if left == 0 then old(bits)[f := false] else old(bits)
      ensures f < NFRAMES ==> freeN == old(freeN) + if left == 0 && old(bits)[f] then 1 else 0
      ensures old(Valid()) && (f < NFRAMES && left == 0 ==> f != 0 && Unnamed(tabs, lab, f)) ==> Valid()
    {
      if f >= NFRAMES { return 0; }
      left := if refs[f] > 0 then refs[f] - 1 else 0;
      refs := refs[f := left];
      if left == 0 {
        CountFreeUpdate(bits, f, false);
        if bits[f] { freeN := freeN + 1; }
        bits := bits[f := false];
      }
    }

    /** __pmm_free_raw: give a table frame back; its count is left alone. */
    method FreeRaw(f: nat)
      requires |bits| == NFRAMES
      modifies `bits, `freeN
      ensures old(FramesOk()) ==> FramesOk()
      ensures f >= NFRAMES ==> bits == old(bits) && freeN == old(freeN)
      ensures f < NFRAMES ==> bits == old(bits)[f := false] && freeN == old(freeN) + if old(bits)[f] then 1 else 0
      ensures old(Valid()) && (f < NFRAMES ==> f != 0 && Unnamed(tabs, lab, f)) ==> Valid()
    {
      if f < NFRAMES {
        CountFreeUpdate(bits, f, false);
        if bits[f] { freeN := freeN + 1; }
        bits := bits[f := false];
      }
    }

    /** next_tab: the table below slot idx, allocated on first use.  Returns 0 at a
        large page or when memory is out. */
    method NextTab(t: nat, idx: nat, us: bool) returns (c: nat)
      requires Valid() && t in lab && lab[t].level > 0 && idx < FAN
      requires us == (lab[t].owner != 0)
      requires var e := tabs[t][idx]; Points(e, lab[t].level) ==> lab[e.frame].owner == lab[t].owner
      modifies `tabs, `mem, `bits, `refs, `freeN, `lab
      ensures Valid() && SameWalks(old(tabs), tabs, old(lab)) && Grown(old(lab), lab, old(bits), bits)
      ensures (Anchored(old(tabs), old(lab)) ==> Anchored(tabs, lab)) && NoRoots(old(lab), lab)
      ensures c == 0 || c in old(lab) ==> unchanged(`tabs, `mem, `bits, `refs, `freeN, `lab)
      ensures c == 0 <==> (if old(tabs)[t][idx].p then old(tabs)[t][idx].ps else old(freeN) == 0)
      ensures c in old(lab) ==> Points(tabs[t][idx], lab[t].level) && tabs[t][idx].frame == c
      ensures c != 0 && c !in old(lab) ==>
        0 < c < NFRAMES && !old(bits)[c] && !old(tabs)[t][idx].p &&
        tabs == SetSlot(old(tabs)[c := ZeroTable()], t, idx, Link(c, us)) &&
        lab == old(lab)[c := Below(old(lab)[t], idx)] && bits == old(bits)[c := true] &&
        refs == old(refs)[c := 1] && mem == old(mem)[c := AS.ZeroPage()] && freeN == old(freeN) - 1
    {
      hide Anchored;
      var e := tabs[t][idx];
      assert EntryOk(lab, t, idx, e);
      if e.p {
        if e.ps { return 0; }
        SetSame(tabs, t, idx);
        tabs := SetSlot(tabs, t, idx, e.(us := e.us || us)); // widen to user
        return e.frame;
      }
      ghost var tabs0, bits0 := tabs, bits;
      c := Alloc();
      if c == 0 { return 0; }
      NewTable(tabs0, lab, bits0, t, idx, Link(c, us));
      tabs := SetSlot(tabs, t, idx, Link(c, us));
      lab := lab[c := Below(lab[t], idx)];
    }

    /** The table of page v under table t, one step further down, in a path that belongs
        to one owner. */
    method Descend(t: nat, level: nat, v: nat, us: bool) returns (c: nat)
      requires Valid() && t in lab && lab[t].level == level > 0 && lab[t].pre == At(v, level + 1)
      requires OwnPath(tabs, lab, t, level, v) && us == (lab[t].owner != 0)
      modifies `tabs, `mem, `bits, `refs, `freeN, `lab
      ensures Valid() && Stepped(old(Now()), Now(), freeN, t, level, v, c) && t in lab && lab[t] == old(lab)[t]
      ensures c != 0 ==> c in lab && lab[c] == Label(lab[t].owner, level - 1, At(v, level)) && OwnPath(tabs, lab, c, level - 1, v)
      ensures c == 0 ==> Blocked(old(tabs), t, level, v) || (old(freeN) == 0 && Absent(old(tabs), t, level, v) > 0)
      ensures c != 0 ==> (Blocked(tabs, c, level - 1, v) <==> Blocked(old(tabs), t, level, v))
      ensures c != 0 ==> old(freeN) - Absent(old(tabs), t, level, v) == freeN - Absent(tabs, c, level - 1, v)
    {
      hide Anchored, Grew;
      ghost var h, l0, i := tabs, lab, Idx(v, level);
      c := NextTab(t, Idx(v, level), us);
      if c != 0 && c !in l0 {
        GrewNext(h, l0, t, i, Link(c, us));
      } else {
        GrewSame(tabs, lab, lab[t].owner);
      }
    }

    /** The next_tab steps of __vmm_map_page from table t down to the leaf table. */
    method LeafTable(t: nat, level: nat, v: nat, us: bool) returns (pt: nat)
      requires Valid() && t in lab && lab[t].level == level && lab[t].pre == At(v, level + 1)
      requires OwnPath(tabs, lab, t, level, v) && us == (lab[t].owner != 0)
      modifies `tabs, `mem, `bits, `refs, `freeN, `lab
      ensures Valid() && Arrived(old(Now()), Now(), freeN, t, level, v, pt)
      ensures pt != 0 <==> !Blocked(old(tabs), t, level, v) && Absent(old(tabs), t, level, v) <= old(freeN)
      decreases level
    {
      hide Stepped, Arrived, Wf, LeavesUsed, CountFree, OwnPath, At, Blocked, Absent;
      ghost var a := Now();
      NoneAbsent(tabs, t, v);
      if level == 0 {
        ArrivedHere(a, freeN, t, v);
        return t;
      }
      var c := Descend(t, level, v, us);
      if c == 0 {
        SteppedNowhere(a, Now(), freeN, t, level, v);
        return 0;
      }
      ghost var b, f1 := Now(), freeN;
      pt := LeafTable(c, level - 1, v, us);
      ArrivedOver(a, b, Now(), f1, freeN, t, level, v, c, pt);
    }

    /** __vmm_map_page into the space of `root`.  On success the page, absent before,
        translates to the frame with the given rights and no other page of any space
        changes; on failure no translation changes at all. */
    method MapPage(root: nat, va: nat, pa: nat, fl: Flags) returns (ok: bool)
      requires Valid() && IsRoot(lab, root) && va < 0x1_0000_0000_0000_0000
      requires OwnPath(tabs, lab, root, ROOT_LEVEL, PageOf(va)) && fl.us == (lab[root].owner != 0)
      requires Mappable(lab, bits, pa / 4096)
      modifies `tabs, `mem, `bits, `refs, `freeN, `lab
      ensures Valid() && Grown(old(lab), lab, old(bits), bits) && KeepsUsed(old(bits), old(refs), refs, old(mem), mem) && lab[root] == old(lab)[root]
      ensures !ok ==> Extends(old(Now()), Now())
      ensures Touched(old(tabs), old(lab), tabs, lab, lab[root].owner, PageOf(va))
      ensures ok ==> Canonical(va) && va % 4096 == 0 && pa % 4096 == 0
      ensures (Anchored(old(tabs), old(lab)) ==> Anchored(tabs, lab)) && NoRoots(old(lab), lab)
      ensures ok ==> Walk(old(tabs), root, ROOT_LEVEL, PageOf(va)) == Miss
      ensures ok ==> Walk(tabs, root, ROOT_LEVEL, PageOf(va)) == Hit(UserEntry(pa / 4096, fl), 0)
      ensures ok ==> SameWalksBut(old(tabs), tabs, old(lab), lab[root].owner, PageOf(va))
      ensures ok <==> Canonical(va) && va % 4096 == 0 && pa % 4096 == 0 && (fl.nx ==> nxOn) &&
                      Walk(old(tabs), root, ROOT_LEVEL, PageOf(va)) == Miss && Absent(old(tabs), root, ROOT_LEVEL, PageOf(va)) <= old(freeN)
    {
      hide Anchored, Grew, Touched, Canonical, PageOf, Wf, LeavesUsed, CountFree;
      GrewSame(tabs, lab, lab[root].owner);
      GrewTouched(tabs, lab, tabs, lab, lab[root].owner, PageOf(va));
      PageBound(va);
      if !Canonical(va) || va % 4096 != 0 || pa % 4096 != 0 { return false; }
      if fl.nx && !nxOn { return false; }
      ok := MapLeaf(root, PageOf(va), LowIndex(va), UserEntry(pa / 4096, fl));
    }

    method MapLeaf(root: nat, v: nat, slot: nat, e: Entry) returns (ok: bool)
      requires Valid() && IsRoot(lab, root) && v < VPAGES && slot == Idx(v, 0) && e.p
      requires OwnPath(tabs, lab, root, ROOT_LEVEL, v) && e.us == (lab[root].owner != 0)
      requires Mappable(lab, bits, e.frame)
      modifies `tabs, `mem, `bits, `refs, `freeN, `lab
      ensures Valid() && MapDone(old(Now()), Now(), freeN, root, v, e, ok)
      ensures ok <==> Walk(old(tabs), root, ROOT_LEVEL, v) == Miss && Absent(old(tabs), root, ROOT_LEVEL, v) <= old(freeN)
    {
      hide LeavesUsed, Wf, CountFree, At, Arrived, MapDone, Mappable, Reaches, Anchored, Grew, Touched, Idx, Absent;
      TopIsZero(v);
      ghost var a := Now();
      var pt := LeafTable(root, ROOT_LEVEL, v, e.us);
      if pt == 0 {
        MapStopped(a, Now(), freeN, root, v, e);
        return false;
      }
      MapArrived(a, Now(), freeN, root, v, pt, e);
      if tabs[pt][slot].p { return false; }
      tabs := SetSlot(tabs, pt, slot, e);
      return true;
    }

    /** The walk that unmap and the COW resolver share: the leaf table of page v, or
        0 where the path is absent or a large page. */
    method FindLeafTable(t: nat, level: nat, v: nat) returns (pt: nat)
      requires Valid() && t in lab && lab[t].level == level && lab[t].pre == At(v, level + 1)
      ensures pt != 0 ==> Leads(tabs, lab, t, level, v, pt)
      ensures pt == 0 ==> Walk(tabs, t, level, v) == Miss || Walk(tabs, t, level, v).level > 0
      decreases level
    {
      if level == 0 { return t; }
      var e := tabs[t][Idx(v, level)];
      assert EntryOk(lab, t, Idx(v, level), e);
      if !e.p || e.ps { return 0; }
      pt := FindLeafTable(e.frame, level - 1, v);
    }

    /** __vmm_unmap_page: clears a 4 KB mapping, and only that.  A user mapping is private,
        so no other space changes; a supervisor mapping may be shared by all. */
    method UnmapPage(root: nat, va: nat) returns (ok: bool)
      requires Valid() && IsRoot(lab, root) && va < 0x1_0000_0000_0000_0000
      modifies `tabs
      ensures Valid()
      ensures ok <==> Canonical(va) && va % 4096 == 0 && Walk(old(tabs), root, ROOT_LEVEL, PageOf(va)).Hit? &&
                      Walk(old(tabs), root, ROOT_LEVEL, PageOf(va)).level == 0
      ensures !ok ==> tabs == old(tabs)
      ensures Anchored(old(tabs), lab) ==> Anchored(tabs, lab)
      ensures ok ==> Walk(tabs, root, ROOT_LEVEL, PageOf(va)) == Miss
      ensures ok ==>
        SameWalksBut(old(tabs), tabs, lab, if Walk(old(tabs), root, ROOT_LEVEL, PageOf(va)).e.us then lab[root].owner else 0, PageOf(va))
      ensures ok && Walk(old(tabs), root, ROOT_LEVEL, PageOf(va)).e.us ==> Touched(old(tabs), lab, tabs, lab, lab[root].owner, PageOf(va))
    {
      hide Anchored, Touched;
      if !Canonical(va) || va % 4096 != 0 { return false; }
      TopIsZero(PageOf(va));
      var pt := FindLeafTable(root, ROOT_LEVEL, PageOf(va));
      if pt == 0 { return false; }
      var slot := LowIndex(va);
      LeafCleared(tabs, lab, bits, root, PageOf(va), pt);
      if !tabs[pt][slot].p { return false; }
      tabs := SetSlot(tabs, pt, slot, ABSENT);
      return true;
    }

    /** __vmm_translate. */
    method Translate(root: nat, va: nat) returns (pa: nat)
      requires Valid() && IsRoot(lab, root) && va < 0x1_0000_0000_0000_0000
      ensures var w := Walk(tabs, root, ROOT_LEVEL, PageOf(va));
        pa == if !Canonical(va) || w.Miss? then 0
              else w.e.frame * 4096 + va % (if w.level == 0 then 0x1000 else if w.level == 1 then 0x20_0000 else if w.level == 2 then 0x4000_0000 else 0x80_0000_0000)
    {
      if !Canonical(va) { return 0; }
      VaIndices(va);
      var e := tabs[root][(va / 0x80_0000_0000) % 512];
      if !e.p { return 0; }
      if e.ps { return e.frame * 4096 + va % 0x80_0000_0000; }
      assert EntryOk(lab, root, Idx(PageOf(va), 3), e);
      var pdpt := e.frame;
      e := tabs[pdpt][(va / 0x4000_0000) % 512];
      if !e.p { return 0; }
      if e.ps { return e.frame * 4096 + va % 0x4000_0000; }
      assert EntryOk(lab, pdpt, Idx(PageOf(va), 2), e);
      var pd := e.frame;
      e := tabs[pd][(va / 0x20_0000) % 512];
      if !e.p { return 0; }
      if e.ps { return e.frame * 4096 + va % 0x20_0000; }
      assert EntryOk(lab, pd, Idx(PageOf(va), 1), e);
      var pt := e.frame;
      e := tabs[pt][(va / 0x1000) % 512];
      if !e.p { return 0; }
      return e.frame * 4096 + va % 4096;
    }

    /** The first locked section of vmm_cow_resolve for page v of the space of `root`:
        the outcome, and the frame whose put is owed once other CPUs have flushed. */
    method CowResolve(root: nat, v: nat) returns (r: CowResult)
      requires Valid() && IsRoot(lab, root) && lab[root].owner != 0 && v < VPAGES
      requires var w := Walk(tabs, root, ROOT_LEVEL, v); w.Hit? && w.level == 0 && w.e.us && w.e.cow ==> w.e.frame < NFRAMES
      modifies `tabs, `mem, `bits, `refs, `freeN
      ensures Valid()
      ensures var w := Walk(old(tabs), root, ROOT_LEVEL, v);
        (r.Spurious? <==> UserLeaf(w) && !w.e.cow && w.e.rw) && (r.Upgraded? <==> SoleCow(w, old(refs))) &&
        (r.Copied? <==> CowLeaf(w) && !SoleCow(w, old(refs)) && old(freeN) > 0) && (r.Copied? ==> r.owed == w.e.frame)
      ensures r.Refused? || r.Spurious? ==> unchanged(`tabs, `mem, `bits, `refs, `freeN)
      ensures r.Upgraded? ==> unchanged(`mem, `bits, `refs, `freeN)
      ensures r.Upgraded? ==>
        Walk(tabs, root, ROOT_LEVEL, v) == Hit(Walk(old(tabs), root, ROOT_LEVEL, v).e.(rw := true, cow := false), 0)
      ensures r.Copied? ==> exists nf: nat :: CopiedTo(old(Now()), Now(), root, v, nf, r.owed)
      ensures SameWalksBut(old(tabs), tabs, lab, root, v)
      ensures (Anchored(old(tabs), lab) ==> Anchored(tabs, lab)) && Touched(old(tabs), lab, tabs, lab, root, v)
    {
      hide Anchored, Grew, Touched;
      GrewSame(tabs, lab, root);
      GrewTouched(tabs, lab, tabs, lab, root, v);
      TopIsZero(v);
      var pt := FindLeafTable(root, ROOT_LEVEL, v);
      if pt == 0 { return Refused; }
      var slot := Idx(v, 0);
      LeafCleared(tabs, lab, bits, root, v, pt);
      var e := tabs[pt][slot];
      if !e.p || !e.us { return Refused; }
      LeadsUser(tabs, lab, root, v, pt);
      if !e.cow {
        return if e.rw then Spurious else Refused;
      }
      var f := e.frame;
      assert e == Walk(tabs, root, ROOT_LEVEL, v).e;
      if refs[f] == 1 {
        var up := e.(rw := true, cow := false);
        assert tabs[pt][slot].p;
        LeafSet(tabs, lab, bits, root, v, pt, up);
        tabs := SetSlot(tabs, pt, slot, up);
        return Upgraded;
      }
      r := CopyLeaf(root, v, pt, e);
    }

    /** The copying half: a fresh frame takes the contents and the slot. */
    method CopyLeaf(root: nat, v: nat, pt: nat, e: Entry) returns (r: CowResult)
      requires Valid() && IsRoot(lab, root) && lab[root].owner == root && v < VPAGES
      requires Reaches(tabs, lab, root, ROOT_LEVEL, v, pt) && Walk(tabs, root, ROOT_LEVEL, v) == Hit(e, 0)
      requires e.us && e.frame < NFRAMES && bits[e.frame]
      modifies `tabs, `mem, `bits, `refs, `freeN
      ensures Valid()
      ensures r == if old(freeN) == 0 then Refused else Copied(e.frame)
      ensures r.Refused? ==> unchanged(`tabs, `mem, `bits, `refs, `freeN)
      ensures r.Copied? ==> exists nf: nat :: CopiedTo(old(Now()), Now(), root, v, nf, e.frame)
      ensures SameWalksBut(old(tabs), tabs, lab, root, v)
      ensures (Anchored(old(tabs), lab) ==> Anchored(tabs, lab)) && Touched(old(tabs), lab, tabs, lab, root, v)
    {
      hide Anchored, Grew, Touched;
      GrewSame(tabs, lab, root);
      GrewTouched(tabs, lab, tabs, lab, root, v);
      ghost var before := Now();
      var nf := Alloc();
      if nf == 0 { return Refused; }
      var i := 0;
      while i < AS.WORDS
        modifies `mem
        invariant i <= AS.WORDS && |mem| == NFRAMES && mem == before.mem[nf := mem[nf]]
        invariant forall j :: 0 <= j < i ==> mem[nf][j] == before.mem[e.frame][j]
      {
        mem := mem[nf := mem[nf][i := mem[e.frame][i]]];
        i := i + 1;
      }
      assert mem[nf] == before.mem[e.frame];
      var copy := Entry(true, true, true, false, false, e.nx, false, nf);
      FreshSlot(before, root, v, pt, copy);
      tabs := SetSlot(tabs, pt, Idx(v, 0), copy);
      assert CopiedTo(before, Now(), root, v, nf, e.frame);
      return Copied(e.frame);
    }

    /** __frame_ref_inc, saturating. */
    method RefInc(f: nat)
      requires Valid()
      modifies `refs
      ensures Valid() && refs == if f < NFRAMES then old(refs)[f := Sat(old(refs)[f] + 1)] else old(refs)
    {
      if f < NFRAMES && refs[f] < REF_MAX {
        refs := refs[f := refs[f] + 1];
      } else if f < NFRAMES {
        assert refs[f := Sat(refs[f] + 1)] == refs;
      }
    }

    /** The job of one clone_level call: the copy of a PML4 starts a space of its own. */
    ghost function CopyJob(cow: bool, src: nat, nf: nat, level: nat, space: nat): Job {
      Job(cow, display, src, nf, level, if level == ROOT_LEVEL then nf else space)
    }

    /** The empty table a copy starts from. */
    method StartCopy(src: nat, level: nat, cow: bool, ghost space: nat) returns (nf: nat)
      requires Valid() && src in lab && lab[src].level == level <= ROOT_LEVEL && (level < ROOT_LEVEL ==> space != 0)
      modifies `tabs, `mem, `bits, `refs, `freeN, `lab
      ensures |bits| == NFRAMES && (nf == 0 <==> old(freeN) == 0)
      ensures nf != 0 ==> Valid() && Progress(CopyJob(cow, src, nf, level, space), old(Now()), old(freeN), Now(), freeN, 0)
    {
      nf := Alloc();
      if nf != 0 {
        CloneStart(CopyJob(cow, src, nf, level, space), old(Now()), old(freeN));
        lab := lab[nf := Label(CopyJob(cow, src, nf, level, space).space, level, lab[src].pre)];
      }
    }

    /** clone_level: a copy of table src and, below it, of every table that can hold
        user mappings.  Fails only when frames run out or at a user large page. */
    method CloneLevel(src: nat, level: nat, cow: bool, ghost space: nat) returns (nf: nat)
      requires Valid() && src in lab && lab[src].level == level <= ROOT_LEVEL && (lab[src].owner == 0 ==> level >= 2)
      requires level < ROOT_LEVEL ==> space != 0
      modifies `tabs, `mem, `bits, `refs, `freeN, `lab
      ensures |bits| == NFRAMES
      ensures nf != 0 ==> Valid()
      ensures nf != 0 ==>
        Cloned(CopyJob(cow, src, nf, level, space), old(Now()), old(freeN), Now(), freeN)
      ensures nf == 0 ==> old(freeN) < CloneCost(old(tabs), src, level) || LargeTo(old(tabs), src, level, FAN)
      decreases level, 1
    {
      hide Progress, Cloned, Tables;
      ghost var a, fa := Now(), freeN;
      nf := StartCopy(src, level, cow, space);
      if nf == 0 { return; }
      ghost var j := CopyJob(cow, src, nf, level, space);
      var i := 0;
      while i < FAN
        invariant i <= FAN && Valid() && Progress(j, a, fa, Now(), freeN, i)
      {
        var ok := CloneEntry(src, nf, i, level, cow, j, a, fa);
        if !ok {
          FreeRaw(nf);
          return 0;
        }
        i := i + 1;
      }
      Finish(j, a, fa, Now(), freeN);
    }

    /** One entry of the copy loop. */
    method CloneEntry(src: nat, nf: nat, i: nat, level: nat, cow: bool, ghost j: Job, ghost a: Snap, ghost fa: nat)
      returns (ok: bool)
      requires Valid() && i < FAN && Progress(j, a, fa, Now(), freeN, i)
      requires j.src == src && j.nf == nf && j.level == level && j.cow == cow && j.fb == display
      requires (a.lab[src].owner == 0 ==> level >= 2) && level <= ROOT_LEVEL
      modifies `tabs, `mem, `bits, `refs, `freeN, `lab
      ensures |bits| == NFRAMES
      ensures ok ==> Valid() && Progress(j, a, fa, Now(), freeN, i + 1)
      ensures !ok ==> fa < CloneCost(a.tabs, src, level) || LargeTo(a.tabs, src, level, FAN)
      decreases level, 0
    {
      var e := tabs[src][i];
      assert e == a.tabs[src][i];
      if !e.p {
        AdvancePlain(j, a, fa, Now(), freeN, i, ABSENT);
        SetSame(tabs, nf, i);
        return true;
      }
      if level > 0 && e.ps {
        if e.us {
          LargeGrows(a.tabs, src, level, i + 1, FAN);
          return false;
        }
        AdvancePlain(j, a, fa, Now(), freeN, i, e);
        tabs := SetSlot(tabs, nf, i, e);
        return true;
      }
      if level == ROOT_LEVEL || e.us {
        if level == 0 {
          CloneLeaf(src, nf, i, cow, j, a, fa);
          return true;
        }
        ghost var b, fb := Now(), freeN;
        var c := CloneLevel(e.frame, level - 1, cow, j.space);
        if c == 0 {
          CloneShort(j, a, fa, b, fb, i);
          return false;
        }
        AdvanceTable(j, a, fa, b, fb, i, Now(), freeN, c);
        tabs := SetSlot(tabs, nf, i, Link(c, true));
        return true;
      }
      if level == 0 {
        AdvanceLeaf(j, a, fa, Now(), freeN, i);
        SetSame(tabs, src, i);
      } else {
        AdvancePlain(j, a, fa, Now(), freeN, i, e);
      }
      tabs := SetSlot(tabs, nf, i, e);
      return true;
    }

    /** A user leaf: display pages stay shared, writable pages turn copy-on-write on
        both sides when `cow`, every other page is shared as it is; all but display
        pages are counted once more. */
    method CloneLeaf(src: nat, nf: nat, i: nat, cow: bool, ghost j: Job, ghost a: Snap, ghost fa: nat)
      requires Valid() && i < FAN && Progress(j, a, fa, Now(), freeN, i)
      requires j.src == src && j.nf == nf && j.level == 0 && j.cow == cow && j.fb == display && a.lab[src].owner != 0
      requires tabs[src][i].p && tabs[src][i].us
      modifies `tabs, `refs
      ensures Valid() && Progress(j, a, fa, Now(), freeN, i + 1)
    {
      hide Progress, Wf, LeavesUsed, CountFree, CopyEntry;
      ProgressAt(j, a, fa, Now(), freeN, i);
      var e := tabs[src][i];
      AdvanceLeaf(j, a, fa, Now(), freeN, i);
      SetSame(tabs, src, i);
      ghost var b := Now();
      var c, counted := SharedLeaf(e, cow);
      if counted {
        RefInc(e.frame);
      }
      assert refs == LeafRefs(j, b.refs, e);
      hide LeafRefs, Shown;
      tabs := SetSlot(SetSlot(tabs, src, i, c), nf, i, c);
    }

    /** The leaf both spaces hold for a user page, and whether it is counted. */
    method SharedLeaf(e: Entry, cow: bool) returns (c: Entry, counted: bool)
      requires e.p && e.us
      ensures c == CopyEntry(cow, display, e) && (counted <==> !Shown(display, e.frame))
    {
      c, counted := e, true;
      if display.lo <= e.frame < display.hi {
        counted := false;
      } else if cow && e.rw {
        c := Entry(true, false, true, false, true, e.nx, false, e.frame);
      }
    }

    /** count_clone: the tables below t that a clone must allocate. */
    method CountClone(t: nat, level: nat) returns (n: nat)
      requires Valid() && t in lab && lab[t].level == level
      ensures n == UserTables(tabs, t, level)
      decreases level
    {
      n := 0;
      var i := 0;
      while i < FAN
        invariant i <= FAN && n == UserTablesTo(tabs, t, level, i)
      {
        var e := tabs[t][i];
        assert EntryOk(lab, t, i, e);
        i := i + 1;
        if !e.p || e.ps || !e.us || level == 0 { continue; }
        var m := CountClone(e.frame, level - 1);
        n := n + 1 + m;
      }
    }

    /** The frames a clone may take: a PML4, a PDPT per present entry, the user tables. */
    method CountNeed(src: nat) returns (need: nat)
      requires Valid() && IsRoot(lab, src)
      ensures need == Reserve(tabs, src)
    {
      hide Wf, LeavesUsed, UserTables, UserTablesTo;
      RootShape(tabs, lab, src);
      need := 1;
      var i := 0;
      while i < FAN
        invariant i <= FAN && need == 1 + PresentTo(tabs[src], i)
      {
        if tabs[src][i].p { need := need + 1; }
        i := i + 1;
      }
      var n := CountClone(src, ROOT_LEVEL);
      need := need + n;
    }

    /** clone_space_reserved: the copy starts only when enough frames are free, and
        then cannot run out midway. */
    method CloneSpace(src: nat, cow: bool) returns (r: nat)
      requires Valid() && IsRoot(lab, src)
      modifies `tabs, `mem, `bits, `refs, `freeN, `lab
      ensures r == 0 && old(freeN) < Reserve(old(tabs), src) ==> Valid() && unchanged(`tabs, `mem, `bits, `refs, `freeN, `lab)
      ensures !LargeTo(old(tabs), src, ROOT_LEVEL, FAN) ==> (r != 0 <==> old(freeN) >= Reserve(old(tabs), src))
      ensures r != 0 ==> Valid()
      ensures r != 0 ==> Cloned(Job(cow, display, src, r, ROOT_LEVEL, r), old(Now()), old(freeN), Now(), freeN)
    {
      hide Cloned, Wf, LeavesUsed, LargeTo, CloneCost, Reserve;
      var need := CountNeed(src);
      if freeN < need { return 0; }
      Reservation(tabs, lab, src);
      r := CloneLevel(src, ROOT_LEVEL, cow, 0);
    }

    /** tear_record. A full list flushes, and the flush waits for a lock this CPU holds. */
    method TearRecord(l: TearList, f: nat, isTab: bool) returns (r: TearList)
      requires Fits(l)
      ensures Recorded(l, r, if isTab then [] else [f], if isTab then [f] else [])
    {
      if isTab {
        if |l.tabs| >= MAX_TABS { return l.(stuck := true); }
        r := l.(tabs := l.tabs + [f]);
      } else {
        if |l.data| >= MAX_DATA { return l.(stuck := true); }
        r := l.(data := l.data + [f]);
      }
      assert l.data + [] == l.data && l.tabs + [] == l.tabs;
    }

    /** tear_collect: empties table tab and the private tables below it, and records
        their frames, sparing what it shares with the boot table btab. */
    method TearCollect(tab: nat, btab: nat, level: nat, l: TearList) returns (r: TearList)
      requires Valid() && tab in lab && lab[tab].level == level && lab[tab].owner != 0 && Fits(l)
      requires btab == 0 || (btab in lab && lab[btab].owner == 0 && lab[btab].level == level)
      requires Apart(tabs, tab, btab, level)
      modifies `tabs
      ensures Recorded(l, r, LeavesTo(old(tabs), tab, level, FAN), TabsTo(old(tabs), tab, level, FAN))
      ensures !r.stuck ==> Fits(r) && Valid() && OnlyBelow(old(tabs), tabs, lab, tab)
      decreases level, 1
    {
      ghost var h := tabs;
      r := l;
      assert l.data + [] == l.data && l.tabs + [] == l.tabs;
      var i := 0;
      while i < FAN
        invariant i <= FAN && Valid() && Fits(r) && Untouched(h, tabs, lab, tab, i)
        invariant Recorded(l, r, LeavesTo(h, tab, level, i), TabsTo(h, tab, level, i))
      {
        ghost var m, h1 := r, tabs;
        EntryReady(h, tabs, lab, tab, btab, i);
        r := TearEntry(tab, btab, i, level, r);
        RecordMore(l, m, r, h, tab, level, i);
        if r.stuck { return; }
        UntouchedStep(h, h1, tabs, lab, tab, i);
        i := i + 1;
      }
      UntouchedIsBelow(h, tabs, lab, tab, FAN);
    }

    method TearEntry(tab: nat, btab: nat, i: nat, level: nat, l: TearList) returns (r: TearList)
      requires Valid() && tab in lab && lab[tab].level == level && lab[tab].owner != 0 && Fits(l) && i < FAN
      requires btab == 0 || (btab in lab && lab[btab].owner == 0 && lab[btab].level == level)
      requires tabs[tab][i].p ==> ApartEntry(tabs, tabs[tab][i], BootEntry(tabs, btab, i), level)
      modifies `tabs
      ensures Recorded(l, r, EntryLeaves(old(tabs), old(tabs)[tab][i], level), EntryTabs(old(tabs), old(tabs)[tab][i], level))
      ensures !r.stuck ==> Fits(r) && Valid() && OnlyEntry(old(tabs), tabs, lab, tab, i)
      decreases level, 0
    {
      hide Apart, LeavesTo, TabsTo, LeavesUsed, CountFree, OnlyBelow, OnlyEntry;
      assert l.data + [] == l.data && l.tabs + [] == l.tabs;
      var e := tabs[tab][i];
      assert EntryOk(lab, tab, i, e);
      OnlyEntrySet(tabs, lab, tab, i, ABSENT);
      if !e.p { return l; }
      var be := if btab != 0 then tabs[btab][i] else ABSENT;
      if btab != 0 && be.p && be.ps == e.ps && be.frame == e.frame { return l; }
      TablesWrite(tabs, lab, bits, tab, i, ABSENT);
      if level == 0 {
        r := l;
        if e.us { r := TearRecord(l, e.frame, false); }
        tabs := SetSlot(tabs, tab, i, ABSENT);
        return;
      }
      if e.ps {
        tabs := SetSlot(tabs, tab, i, ABSENT);
        return l;
      }
      var bchild := if be.p && !be.ps then be.frame else 0;
      if btab != 0 { assert EntryOk(lab, btab, i, be); }
      ghost var h := tabs;
      var m := TearCollect(e.frame, bchild, level - 1, l);
      if m.stuck { return m; }
      r := TearRecord(m, e.frame, true);
      RecordedTwice(l, m, r, LeavesTo(h, e.frame, level - 1, FAN), TabsTo(h, e.frame, level - 1, FAN), [], [e.frame]);
      assert LeavesTo(h, e.frame, level - 1, FAN) + [] == EntryLeaves(h, e, level);
      if r.stuck { return; }
      EntryWork(h, tabs, lab, tab, i, e.frame, ABSENT);
      TablesWrite(tabs, lab, bits, tab, i, ABSENT);
      tabs := SetSlot(tabs, tab, i, ABSENT);
    }

    /** The second half of a teardown, after the flush: put every data frame, free
        every table. */
    method FlushFree(l: TearList)
      requires FramesOk()
      modifies `bits, `refs, `freeN
      ensures FramesOk()
      ensures Freed(old(refs), old(bits), refs, bits, l.data, l.tabs)
    {
      PutAll(l.data);
      FreeAll(l.tabs);
    }

    method PutAll(data: seq<nat>)
      requires FramesOk()
      modifies `bits, `refs, `freeN
      ensures FramesOk()
      ensures Freed(old(refs), old(bits), refs, bits, data, [])
    {
      hide CountFree, Freed;
      ghost var refs0, bits0 := refs, bits;
      PutNone(refs, bits);
      assert data[..0] == [];
      var i := 0;
      while i < |data|
        invariant i <= |data| && FramesOk() && Freed(refs0, bits0, refs, bits, data[..i], [])
      {
        assert data[..i + 1] == data[..i] + [data[i]];
        ghost var refs1, bits1 := refs, bits;
        var left := Put(data[i]);
        PutOne(refs0, bits0, refs1, bits1, refs, bits, data[..i], data[i]);
        i := i + 1;
      }
      assert data[..i] == data;
    }

    method FreeAll(list: seq<nat>)
      requires FramesOk()
      modifies `bits, `freeN
      ensures FramesOk()
      ensures forall f :: 0 <= f < NFRAMES ==> bits[f] == (old(bits)[f] && f !in list)
    {
      hide CountFree;
      ghost var bits0 := bits;
      var i := 0;
      while i < |list|
        invariant i <= |list| && FramesOk()
        invariant forall f :: 0 <= f < NFRAMES ==> bits[f] == (bits0[f] && f !in list[..i])
      {
        assert list[..i + 1] == list[..i] + [list[i]];
        FreeRaw(list[i]);
        i := i + 1;
      }
      assert list[..i] == list;
    }

    /** The first locked section of vmm_teardown_space: the space is emptied and its frames
        are listed, none freed yet.  It hangs exactly when they do not fit the lists. */
    method Collect(root: nat) returns (l: TearList)
      requires Valid() && IsRoot(lab, root) && lab[root].owner == root
      requires IsRoot(lab, boot) && lab[boot].owner == 0 && Apart(tabs, root, boot, ROOT_LEVEL)
      modifies `tabs, `lab
      ensures l.stuck <==> |LeavesTo(old(tabs), root, ROOT_LEVEL, FAN)| > 256 || |TabsTo(old(tabs), root, ROOT_LEVEL, FAN)| > 63
      ensures !l.stuck ==> Valid() && lab == Others(old(lab), root) && forall t :: t in lab ==> t in tabs && t in old(tabs) && tabs[t] == old(tabs)[t]
      ensures !l.stuck ==> Tables(tabs, old(lab), bits) && OnlyBelow(old(tabs), tabs, old(lab), root)
      ensures !l.stuck ==> l.data == LeavesTo(old(tabs), root, ROOT_LEVEL, FAN) && l.tabs == TabsTo(old(tabs), root, ROOT_LEVEL, FAN) + [root]
    {
      hide Apart, OnlyBelow, LeavesTo, TabsTo, Wf, LeavesUsed, CountFree, Others;
      ghost var h := tabs;
      var m := TearCollect(root, boot, ROOT_LEVEL, TearList([], [], false));
      if m.stuck { return m; }
      assert m.data == LeavesTo(h, root, ROOT_LEVEL, FAN) && m.tabs == TabsTo(h, root, ROOT_LEVEL, FAN);
      l := TearRecord(m, root, true);
      if l.stuck { return; }
      assert l.data == m.data && l.tabs == m.tabs + [root];
      TearUnlabels(h, tabs, lab, bits, root);
      lab := Others(lab, root);
    }

    /** vmm_teardown_space: both sections.  The private tables are freed, each user leaf
        drops one reference, and no other table changes; if the counts cover the other
        spaces, every frame they map stays in use. */
    method Teardown(root: nat) returns (l: TearList)
      requires Valid() && IsRoot(lab, root) && lab[root].owner == root
      requires IsRoot(lab, boot) && lab[boot].owner == 0 && Apart(tabs, root, boot, ROOT_LEVEL)
      modifies `tabs, `bits, `refs, `freeN, `lab
      ensures l.stuck <==> |LeavesTo(old(tabs), root, ROOT_LEVEL, FAN)| > 256 || |TabsTo(old(tabs), root, ROOT_LEVEL, FAN)| > 63
      ensures !l.stuck ==> FramesOk() && lab == Others(old(lab), root) && forall t :: t in lab ==> t in tabs && t in old(tabs) && tabs[t] == old(tabs)[t]
      ensures !l.stuck && Spared(old(tabs), old(lab), old(refs), root) ==> Valid()
      ensures !l.stuck ==> Freed(old(refs), old(bits), refs, bits, LeavesTo(old(tabs), root, ROOT_LEVEL, FAN),
                                 TabsTo(old(tabs), root, ROOT_LEVEL, FAN) + [root])
    {
      hide Apart, Spared, Freed, OnlyBelow, LeavesTo, TabsTo, Wf, LeavesUsed, CountFree, Times, Others;
      ghost var h, l0, bits0, refs0 := tabs, lab, bits, refs;
      l := Collect(root);
      if l.stuck { return; }
      FlushFree(l);
      if Spared(h, l0, refs0, root) {
        TearFrees(h, tabs, l0, bits0, refs0, root, bits, refs);
        FrameZeroKept(h, l0, bits0, refs0, root, bits, refs);
      }
    }
  }
}
