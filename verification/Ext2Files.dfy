/** The steps that change files, as changes of inodes, tables and blocks: linking a fresh
    block, rewriting a block, dropping pointers. */
module Ext2Files {
  import opened Ext2Layout
  import opened Ext2Blocks

  function PtrKey(i: nat, k: nat): Key { Key(i, if k == 12 then Ind else Direct(k)) }

  function WithPtr(n: Inode, k: nat, v: nat): (r: Inode)
    requires InodeOk(n) && k < 15 && v < U32
    ensures InodeOk(r)
  {
    n.(ptr := n.ptr[k := v])
  }

  /** A fresh block becomes direct block k, or the empty single-indirect table. */
  lemma LinkPtr(g: Geo, bits: seq<seq<bool>>, inodes: seq<Inode>, data: seq<Block>, owner: map<nat, Key>, i: nat, k: nat, b: nat)
    requires GeoOk(g) && BitsOk(g, bits) && InodesOk(inodes) && Owned(g, bits, inodes, data, owner) && |data| == g.blocks
    requires i < |inodes| && k <= 12 && inodes[i].ptr[k] == 0
    requires 0 < b < g.blocks && !Meta(g, b) && !Marked(g, bits, b)
    ensures var inodes2 := inodes[i := WithPtr(inodes[i], k, b)];
      InodesOk(inodes2) &&
      Owned(g, SetBit(g, bits, b, true), inodes2, data[b := Zeros()], owner[b := PtrKey(i, k)]) &&
      SameBytes(inodes, data, inodes2, data[b := Zeros()]) && Retarget(inodes, data, inodes2, data[b := Zeros()], PtrKey(i, k), b)
  {
    var bits2, data2, inodes2 := SetBit(g, bits, b, true), data[b := Zeros()], inodes[i := WithPtr(inodes[i], k, b)];
    UnmarkedUnused(g, bits, inodes, data, owner, b);
    UnusedWrite(inodes, data, b, Zeros());
    UnusedWriteBytes(inodes, data, b, Zeros());
    SetBitMarks(g, bits, b, true);
    OwnedBits(g, bits, bits2, inodes, data, inodes, data2, owner, b);
    SetPtr(inodes, data2, i, k, b);
    OwnedRetarget(g, bits2, inodes, data2, inodes2, data2, owner, PtrKey(i, k), b);
    assert Val(inodes[i], data2, PtrKey(i, k).p) == 0;
    BytesRetarget(inodes, data2, inodes2, data2, PtrKey(i, k), b);
    SameBytesTrans(inodes, data, inodes, data2, inodes2, data2);
  }

  lemma SameBytesTrans(a: seq<Inode>, da: seq<Block>, b: seq<Inode>, db: seq<Block>, c: seq<Inode>, dc: seq<Block>)
    requires InodesOk(a) && InodesOk(b) && InodesOk(c) && SameBytes(a, da, b, db) && SameBytes(b, db, c, dc)
    ensures SameBytes(a, da, c, dc)
  {
    hide ByteAt;
  }

  /** A fresh block becomes entry j of the single-indirect table. */
  lemma LinkEntry(g: Geo, bits: seq<seq<bool>>, inodes: seq<Inode>, data: seq<Block>, owner: map<nat, Key>, i: nat, j: nat, b: nat)
    requires GeoOk(g) && BitsOk(g, bits) && InodesOk(inodes) && Owned(g, bits, inodes, data, owner) && |data| == g.blocks
    requires i < |inodes| && j < PER && 0 < inodes[i].ptr[12] < |data| && Entry(data[inodes[i].ptr[12]], j) == 0
    requires 0 < b < g.blocks && !Meta(g, b) && !Marked(g, bits, b)
    ensures b != inodes[i].ptr[12]
    ensures var tab := inodes[i].ptr[12]; var data2 := data[b := Zeros()][tab := SetEntry(data[tab], j, b)];
      Owned(g, SetBit(g, bits, b, true), inodes, data2, owner[b := Key(i, IndEntry(j))]) &&
      SameBytes(inodes, data, inodes, data2) && Retarget(inodes, data, inodes, data2, Key(i, IndEntry(j)), b)
  {
    var tab := inodes[i].ptr[12];
    UnmarkedUnused(g, bits, inodes, data, owner, b);
    assert GoodPtr(Ind) && Val(inodes[i], data, Ind) == tab;
    assert b != tab;
    var bits2, data1 := SetBit(g, bits, b, true), data[b := Zeros()];
    UnusedWrite(inodes, data, b, Zeros());
    UnusedWriteBytes(inodes, data, b, Zeros());
    SetBitMarks(g, bits, b, true);
    OwnedBits(g, bits, bits2, inodes, data, inodes, data1, owner, b);
    var data2 := data1[tab := SetEntry(data1[tab], j, b)];
    SetTab(g, bits2, inodes, data1, owner, i, j, b);
    OwnedRetarget(g, bits2, inodes, data1, inodes, data2, owner, Key(i, IndEntry(j)), b);
    assert Val(inodes[i], data1, IndEntry(j)) == 0;
    LeafNotTab(g, bits2, inodes, data1, owner, i);
    BytesRetarget(inodes, data1, inodes, data2, Key(i, IndEntry(j)), b);
    SameBytesTrans(inodes, data, inodes, data1, inodes, data2);
  }

  /** No file byte is stored in a single-indirect table. */
  lemma LeafNotTab(g: Geo, bits: seq<seq<bool>>, inodes: seq<Inode>, data: seq<Block>, owner: map<nat, Key>, i: nat)
    requires GeoOk(g) && BitsOk(g, bits) && InodesOk(inodes) && Owned(g, bits, inodes, data, owner)
    requires i < |inodes| && inodes[i].ptr[12] != 0
    ensures forall h, p :: 0 <= h < |inodes| && GoodPtr(p) && Leaf(p) ==> Val(inodes[h], data, p) != inodes[i].ptr[12]
  {
    assert Val(inodes[i], data, Ind) == inodes[i].ptr[12];
    hide Val;
    forall h, p | 0 <= h < |inodes| && GoodPtr(p) && Leaf(p) ensures Val(inodes[h], data, p) != inodes[i].ptr[12] {
      if Val(inodes[h], data, p) == inodes[i].ptr[12] {
        OwnedInjective(g, bits, inodes, data, owner, i, Ind, h, p);
      }
    }
  }

  /** Rewriting a file's block changes that file's bytes in that block and nothing else. */
  lemma PatchBlock(g: Geo, bits: seq<seq<bool>>, inodes: seq<Inode>, data: seq<Block>, owner: map<nat, Key>, i: nat, lb: nat, x: Block)
    requires GeoOk(g) && BitsOk(g, bits) && InodesOk(inodes) && Owned(g, bits, inodes, data, owner) && |data| == g.blocks
    requires i < |inodes| && lb < MAPPED && Val(inodes[i], data, PtrOf(lb)) != 0
    ensures var b := Val(inodes[i], data, PtrOf(lb));
      0 < b < g.blocks && !Meta(g, b) &&
      SamePtrs(inodes, data, inodes, data[b := x]) && Owned(g, bits, inodes, data[b := x], owner) &&
      Replaced(inodes, data, data[b := x], i, lb, x)
  {
    var key := PtrOf(lb);
    var b := Val(inodes[i], data, key);
    assert Holds(g, bits, owner, b, Key(i, key));
    hide Val, Meta, Marked;
    forall h, p | 0 <= h < |inodes| && GoodPtr(p) && Key(h, p) != Key(i, key) ensures Val(inodes[h], data, p) != b {
      if Val(inodes[h], data, p) == b {
        OwnedInjective(g, bits, inodes, data, owner, i, key, h, p);
      }
    }
    forall h, p | 0 <= h < |inodes| && GoodPtr(p) ensures Val(inodes[h], data[b := x], p) == Val(inodes[h], data, p) {
      assert GoodPtr(Ind) && GoodPtr(Dbl) && forall k :: 0 <= k < PER ==> GoodPtr(DblTab(k));
      SameVals(inodes[h], data, b, x, p);
    }
    forall pos: nat ensures ByteAt(inodes[i], data[b := x], pos) == if pos / BS == lb then x[pos % BS] else ByteAt(inodes[i], data, pos) {
      if pos / BS < MAPPED && pos / BS != lb && PtrOf(pos / BS) == key {
        PtrOfInjective(pos / BS, lb);
      }
    }
  }

  /** Pointers were dropped; none moved. */
  ghost predicate Fewer(inodes: seq<Inode>, data: seq<Block>, inodes2: seq<Inode>)
    requires InodesOk(inodes) && InodesOk(inodes2)
  {
    |inodes2| == |inodes| &&
    forall i, p :: 0 <= i < |inodes| && GoodPtr(p) ==> Val(inodes2[i], data, p) == 0 || Val(inodes2[i], data, p) == Val(inodes[i], data, p)
  }

  /** Clearing some of an inode's pointers drops pointers and moves none. */
  lemma Dropping(inodes: seq<Inode>, data: seq<Block>, i: nat, n: Inode)
    requires InodesOk(inodes) && i < |inodes| && InodeOk(n)
    requires forall k :: 0 <= k < 15 ==> n.ptr[k] == 0 || n.ptr[k] == inodes[i].ptr[k]
    ensures InodesOk(inodes[i := n]) && Fewer(inodes, data, inodes[i := n])
  {
  }

  lemma OwnedFewer(g: Geo, bits: seq<seq<bool>>, inodes: seq<Inode>, data: seq<Block>, owner: map<nat, Key>, inodes2: seq<Inode>)
    requires GeoOk(g) && BitsOk(g, bits) && InodesOk(inodes) && InodesOk(inodes2) && Owned(g, bits, inodes, data, owner)
    requires Fewer(inodes, data, inodes2)
    ensures Owned(g, bits, inodes2, data, owner)
  {
    hide Val, Meta, Marked;
    forall i, p | 0 <= i < |inodes2| && GoodPtr(p) && Val(inodes2[i], data, p) != 0
      ensures Holds(g, bits, owner, Val(inodes2[i], data, p), Key(i, p))
    {
      assert Holds(g, bits, owner, Val(inodes[i], data, p), Key(i, p));
    }
  }

  /** A dropped block is nobody's any more. */
  lemma DroppedUnused(g: Geo, bits: seq<seq<bool>>, inodes: seq<Inode>, data: seq<Block>, owner: map<nat, Key>, inodes2: seq<Inode>, i: nat, p: Ptr)
    requires GeoOk(g) && BitsOk(g, bits) && InodesOk(inodes) && InodesOk(inodes2) && Owned(g, bits, inodes, data, owner)
    requires Fewer(inodes, data, inodes2) && i < |inodes| && GoodPtr(p) && Val(inodes[i], data, p) != 0 && Val(inodes2[i], data, p) == 0
    ensures Unused(inodes2, data, Val(inodes[i], data, p))
  {
    hide Val, Meta, Marked;
    var v := Val(inodes[i], data, p);
    forall h, q | 0 <= h < |inodes2| && GoodPtr(q) ensures Val(inodes2[h], data, q) != v {
      if Val(inodes2[h], data, q) == v {
        OwnedInjective(g, bits, inodes, data, owner, i, p, h, q);
      }
    }
  }

  /** Freeing a block nobody names keeps ownership and every other block's mark. */
  lemma FreeKeeps(g: Geo, bits: seq<seq<bool>>, inodes: seq<Inode>, data: seq<Block>, owner: map<nat, Key>, b: nat)
    requires GeoOk(g) && BitsOk(g, bits) && InodesOk(inodes) && Owned(g, bits, inodes, data, owner)
    requires 0 < b < g.blocks && Unused(inodes, data, b)
    ensures Owned(g, SetBit(g, bits, b, false), inodes, data, owner)
  {
    SetBitMarks(g, bits, b, false);
    OwnedBits(g, bits, SetBit(g, bits, b, false), inodes, data, inodes, data, owner, b);
  }

  /** The entries of a table from j on, and the table itself, are still to be freed. */
  ghost predicate Pending(g: Geo, bits: seq<seq<bool>>, owner: map<nat, Key>, table: Block, tab: nat, i: nat, j: nat)
    requires GeoOk(g) && BitsOk(g, bits)
  {
    Holds(g, bits, owner, tab, Key(i, Ind)) &&
    forall k :: j <= k < PER && Entry(table, k) != 0 ==> Holds(g, bits, owner, Entry(table, k), Key(i, IndEntry(k)))
  }

  lemma PendingStart(g: Geo, bits: seq<seq<bool>>, inodes: seq<Inode>, data: seq<Block>, owner: map<nat, Key>, i: nat)
    requires GeoOk(g) && BitsOk(g, bits) && InodesOk(inodes) && Owned(g, bits, inodes, data, owner) && |data| == g.blocks
    requires i < |inodes| && inodes[i].ptr[12] != 0
    ensures inodes[i].ptr[12] < |data| && Pending(g, bits, owner, data[inodes[i].ptr[12]], inodes[i].ptr[12], i, 0)
    ensures InodesOk(inodes[i := WithPtr(inodes[i], 12, 0)]) && Owned(g, bits, inodes[i := WithPtr(inodes[i], 12, 0)], data, owner)
    ensures Unused(inodes[i := WithPtr(inodes[i], 12, 0)], data, inodes[i].ptr[12])
    ensures forall k :: 0 <= k < PER && Entry(data[inodes[i].ptr[12]], k) != 0 ==>
      Unused(inodes[i := WithPtr(inodes[i], 12, 0)], data, Entry(data[inodes[i].ptr[12]], k))
  {
    var tab, n := inodes[i].ptr[12], WithPtr(inodes[i], 12, 0);
    assert Val(inodes[i], data, Ind) == tab;
    assert Holds(g, bits, owner, tab, Key(i, Ind));
    Dropping(inodes, data, i, n);
    OwnedFewer(g, bits, inodes, data, owner, inodes[i := n]);
    DroppedUnused(g, bits, inodes, data, owner, inodes[i := n], i, Ind);
    forall k | 0 <= k < PER && Entry(data[tab], k) != 0
      ensures Holds(g, bits, owner, Entry(data[tab], k), Key(i, IndEntry(k))) && Unused(inodes[i := n], data, Entry(data[tab], k))
    {
      assert Val(inodes[i], data, IndEntry(k)) == Entry(data[tab], k);
      DroppedUnused(g, bits, inodes, data, owner, inodes[i := n], i, IndEntry(k));
    }
  }

  lemma PendingStep(g: Geo, bits: seq<seq<bool>>, owner: map<nat, Key>, table: Block, tab: nat, i: nat, j: nat)
    requires GeoOk(g) && BitsOk(g, bits) && j < PER && Pending(g, bits, owner, table, tab, i, j) && Entry(table, j) != 0
    ensures 0 < Entry(table, j) < g.blocks && Pending(g, SetBit(g, bits, Entry(table, j), false), owner, table, tab, i, j + 1)
  {
    var e := Entry(table, j);
    assert Holds(g, bits, owner, e, Key(i, IndEntry(j)));
    SetBitMarks(g, bits, e, false);
    hide Entry, Marked, Meta, SetBit;
  }

  // ---------------------------------------------------------------- bytes

  /** Block b with src stored from position at on. */
  function Patch(b: Block, at: nat, src: seq<byte>): (r: Block)
    requires at + |src| <= BS
    ensures forall k :: 0 <= k < BS ==> r[k] == if at <= k < at + |src| then src[k - at] else b[k]
  {
    b[..at] + src + b[at + |src|..]
  }

  /** What a write of buf at off makes of a file. */
  function Splice(v: seq<byte>, off: nat, buf: seq<byte>): seq<byte>
    requires off <= |v|
  {
    if off + |buf| >= |v| then v[..off] + buf else v[..off] + buf + v[off + |buf|..]
  }

  /** The first done bytes of buf are in place at off in file i; every other byte of every
      file is as it was. */
  ghost predicate Spliced(inodes: seq<Inode>, data0: seq<Block>, data: seq<Block>, i: nat, n: Inode, off: nat, buf: seq<byte>, done: nat)
    requires InodesOk(inodes) && i < |inodes| && InodeOk(n) && done <= |buf|
  {
    (forall pos :: 0 <= pos ==> ByteAt(n, data, pos) == if off <= pos < off + done then buf[pos - off] else ByteAt(inodes[i], data0, pos)) &&
    (forall h, pos :: 0 <= h < |inodes| && h != i && 0 <= pos ==> ByteAt(inodes[h], data, pos) == ByteAt(inodes[h], data0, pos))
  }

  /** Allocation in between does not show. */
  lemma SplicedAlloc(inodes: seq<Inode>, data0: seq<Block>, data: seq<Block>, data2: seq<Block>, i: nat, n: Inode, n2: Inode, off: nat, buf: seq<byte>, done: nat)
    requires InodesOk(inodes) && i < |inodes| && InodeOk(n) && InodeOk(n2) && done <= |buf|
    requires Spliced(inodes, data0, data, i, n, off, buf, done) && SameBytes(inodes[i := n], data, inodes[i := n2], data2)
    ensures Spliced(inodes, data0, data2, i, n2, off, buf, done)
  {
    hide ByteAt;
    assert inodes[i := n][i] == n && inodes[i := n2][i] == n2;
    assert forall h :: 0 <= h < |inodes| && h != i ==> inodes[i := n][h] == inodes[h] && inodes[i := n2][h] == inodes[h];
  }

  /** A chunk lies within one block. */
  lemma ChunkByte(b: Block, base: nat, src: seq<byte>, pos: nat)
    requires base % BS + |src| <= BS && |src| > 0
    ensures pos / BS == base / BS ==> Patch(b, base % BS, src)[pos % BS] == if base <= pos < base + |src| then src[pos - base] else b[pos % BS]
    ensures pos / BS != base / BS ==> !(base <= pos < base + |src|)
  {
  }

  /** The bytes of file i after its logical block lb was replaced by x. */
  ghost predicate Replaced(inodes: seq<Inode>, data: seq<Block>, data2: seq<Block>, i: nat, lb: nat, x: Block)
    requires InodesOk(inodes) && i < |inodes|
  {
    (forall h, pos :: 0 <= h < |inodes| && h != i && 0 <= pos ==> ByteAt(inodes[h], data2, pos) == ByteAt(inodes[h], data, pos)) &&
    (forall pos :: 0 <= pos ==> ByteAt(inodes[i], data2, pos) == if pos / BS == lb then x[pos % BS] else ByteAt(inodes[i], data, pos))
  }

  /** Storing one chunk. */
  lemma SplicedPatch(inodes: seq<Inode>, data0: seq<Block>, data: seq<Block>, data2: seq<Block>, i: nat, n: Inode, off: nat, buf: seq<byte>, done: nat, take: nat, b: Block)
    requires InodesOk(inodes) && i < |inodes| && InodeOk(n) && done + take <= |buf| && (off + done) % BS + take <= BS && 0 < take
    requires Spliced(inodes, data0, data, i, n, off, buf, done)
    requires forall pos :: 0 <= pos && pos / BS == (off + done) / BS ==> ByteAt(n, data, pos) == b[pos % BS]
    requires Replaced(inodes[i := n], data, data2, i, (off + done) / BS, Patch(b, (off + done) % BS, buf[done..done + take]))
    ensures Spliced(inodes, data0, data2, i, n, off, buf, done + take)
  {
    hide Patch, ByteAt;
    var m, src := inodes[i := n], buf[done..done + take];
    forall pos: nat ensures ByteAt(n, data2, pos) == if off <= pos < off + done + take then buf[pos - off] else ByteAt(inodes[i], data0, pos) {
      ChunkByte(b, off + done, src, pos);
      assert ByteAt(m[i], data2, pos) == if pos / BS == (off + done) / BS then Patch(b, (off + done) % BS, src)[pos % BS] else ByteAt(m[i], data, pos);
    }
    forall h, pos: nat | 0 <= h < |inodes| && h != i ensures ByteAt(inodes[h], data2, pos) == ByteAt(inodes[h], data0, pos) {
      assert m[h] == inodes[h];
    }
  }

  lemma BlockByte(n: Inode, data: seq<Block>, lb: nat)
    requires InodeOk(n) && lb < MAPPED && 0 < Val(n, data, PtrOf(lb)) < |data|
    ensures forall pos :: 0 <= pos && pos / BS == lb ==> ByteAt(n, data, pos) == data[Val(n, data, PtrOf(lb))][pos % BS]
  {
    hide Val;
  }

  /** A finished write is a splice of the file and leaves every other file alone. */
  lemma SplicedView(inodes: seq<Inode>, data0: seq<Block>, data: seq<Block>, i: nat, n: Inode, off: nat, buf: seq<byte>)
    requires InodesOk(inodes) && i < |inodes| && InodeOk(n) && off <= inodes[i].size
    requires Spliced(inodes, data0, data, i, n, off, buf, |buf|)
    requires n.size == if off + |buf| > inodes[i].size then off + |buf| else inodes[i].size
    ensures View(n, data) == Splice(View(inodes[i], data0), off, buf)
    ensures forall h :: 0 <= h < |inodes| && h != i ==> View(inodes[h], data) == View(inodes[h], data0)
  {
    hide ByteAt;
  }

  lemma SameInodeBytes(n: Inode, n2: Inode, data: seq<Block>)
    requires InodeOk(n) && InodeOk(n2) && n.ptr == n2.ptr
    ensures forall p :: GoodPtr(p) ==> Val(n2, data, p) == Val(n, data, p)
    ensures forall pos :: 0 <= pos ==> ByteAt(n2, data, pos) == ByteAt(n, data, pos)
  {
  }
}
