/** Mapping a page, looking it up and unmapping it again. */
module MapUndo {
  import opened PageTables
  import opened Snapshots
  import opened SpaceCopy
  import opened Vmm

  /** The bytes of a page share its page number. */
  lemma SamePage(va: nat, off: nat)
    requires va % 4096 == 0 && off < 4096
    ensures PageOf(va + off) == PageOf(va) && (Canonical(va) ==> Canonical(va + off)) && (va + off) % 4096 == off
  {
    var q := va / 4096;
    assert (va + off) / 4096 == q;
    assert va / 0x8000_0000_0000 == q / 0x8_0000_0000 == (va + off) / 0x8000_0000_0000;
    assert va / 0x1_0000_0000_0000 == q / VPAGES == (va + off) / 0x1_0000_0000_0000;
  }

  /** What a user address translates to after a successful map: the frame's byte. */
  method MapThenTranslate(m: Manager, root: nat, va: nat, pa: nat, fl: Flags, off: nat) returns (ok: bool, got: nat)
    requires m.Valid() && IsRoot(m.lab, root) && va < 0x1_0000_0000_0000_0000 && off < 4096
    requires OwnPath(m.tabs, m.lab, root, ROOT_LEVEL, PageOf(va)) && fl.us == (m.lab[root].owner != 0)
    requires Mappable(m.lab, m.bits, pa / 4096)
    modifies m
    ensures ok ==> got == pa + off
  {
    hide OwnPath, Wf, LeavesUsed, Canonical, PageOf, SameWalksBut, KeepsUsed, Mappable;
    got := 0;
    ok := m.MapPage(root, va, pa, fl);
    if !ok { return; }
    SamePage(va, off);
    assert va + off < 0x1_0000_0000_0000_0000;
    got := m.Translate(root, va + off);
  }

  /** Unmap is the inverse of map: no page of any space translates differently. */
  method MapThenUnmap(m: Manager, root: nat, va: nat, pa: nat, fl: Flags) returns (ok: bool, gone: bool)
    requires m.Valid() && IsRoot(m.lab, root) && m.lab[root].owner == root && va < 0x1_0000_0000_0000_0000
    requires OwnPath(m.tabs, m.lab, root, ROOT_LEVEL, PageOf(va)) && fl.us && root != 0
    requires Mappable(m.lab, m.bits, pa / 4096)
    modifies m
    ensures ok ==> gone && m.Valid()
    ensures ok ==> forall r, v: nat :: IsRoot(old(m.lab), r) && v < VPAGES ==>
      Walk(m.tabs, r, ROOT_LEVEL, v) == Walk(old(m.tabs), r, ROOT_LEVEL, v)
  {
    hide OwnPath, Wf, LeavesUsed, Canonical, PageOf, KeepsUsed, Mappable, Walk, At;
    gone := false;
    ok := m.MapPage(root, va, pa, fl);
    if !ok { return; }
    ghost var h, w := m.tabs, PageOf(va);
    gone := m.UnmapPage(root, va);
    forall r, v: nat | IsRoot(old(m.lab), r) && v < VPAGES
      ensures Walk(m.tabs, r, ROOT_LEVEL, v) == Walk(old(m.tabs), r, ROOT_LEVEL, v)
    {
      TopIsZero(v);
      assert Walk(h, r, m.lab[r].level, v) == Walk(old(m.tabs), r, old(m.lab)[r].level, v) || (r == root && v == w);
      assert Walk(m.tabs, r, m.lab[r].level, v) == Walk(h, r, m.lab[r].level, v) || (r == root && v == w);
    }
  }
}
