/** Which block every pointer of every inode names, who owns each block, and the bytes a
    file shows. */
module Ext2Blocks {
  import opened Ext2Layout

  datatype Inode = Inode(mode: nat, size: nat, sectors: nat, ptr: seq<nat>)

  predicate InodeOk(n: Inode) {
    |n.ptr| == 15 && n.size < U32 && forall k :: 0 <= k < 15 ==> n.ptr[k] < U32
  }

  predicate IsDir(n: Inode) { n.mode / 0x4000 % 2 == 1 }

  /** A pointer of an inode: direct, the single-indirect table and its entries, the
      double-indirect table, its tables and theirs entries. */
  datatype Ptr = Direct(k: nat) | Ind | IndEntry(j: nat) | Dbl | DblTab(i: nat) | DblEntry(i: nat, j: nat)

  predicate GoodPtr(p: Ptr) {
    match p
    case Direct(k) => k < DIRECT
    case IndEntry(j) => j < PER
    case DblTab(i) => i < PER
    case DblEntry(i, j) => i < PER && j < PER
    case _ => true
  }

  /** Pointers whose block holds file bytes rather than more pointers. */
  predicate Leaf(p: Ptr) { p.Direct? || p.IndEntry? || p.DblEntry? }

  /** ex_ind: an entry of a table block, or 0 without a table. */
  function Tab(data: seq<Block>, b: nat, j: nat): (v: nat)
    requires j < PER
    ensures v < U32
  {
    if b == 0 || b >= |data| then 0 else Entry(data[b], j)
  }

  /** The block a pointer names, or 0. */
  function Val(n: Inode, data: seq<Block>, p: Ptr): (v: nat)
    requires InodeOk(n) && GoodPtr(p)
    ensures v < U32
  {
    match p
    case Direct(k) => n.ptr[k]
    case Ind => n.ptr[12]
    case IndEntry(j) => Tab(data, n.ptr[12], j)
    case Dbl => n.ptr[13]
    case DblTab(i) => Tab(data, n.ptr[13], i)
    case DblEntry(i, j) => Tab(data, Tab(data, n.ptr[13], i), j)
  }

  const MAPPED: nat := DIRECT + PER + PER * PER

  /** The pointer for logical block lb, as ex_bmap picks it. */
  function PtrOf(lb: nat): (p: Ptr)
    requires lb < MAPPED
    ensures GoodPtr(p) && Leaf(p)
  {
    if lb < DIRECT then Direct(lb)
    else if lb - DIRECT < PER then IndEntry(lb - DIRECT)
    else DblEntry((lb - DIRECT - PER) / PER, (lb - DIRECT - PER) % PER)
  }

  /** The leaf pointers in file order: the direct ones, the entries of the single-indirect
      table, then those of each table behind the double-indirect one. */
  function NextPtr(p: Ptr): Ptr {
    match p
    case Direct(k) => if k + 1 < DIRECT then Direct(k + 1) else IndEntry(0)
    case IndEntry(j) => if j + 1 < PER then IndEntry(j + 1) else DblEntry(0, 0)
    case DblEntry(i, j) => if j + 1 < PER then DblEntry(i, j + 1) else DblEntry(i + 1, 0)
    case _ => p
  }

  /** Logical blocks run through the pointers in that order, without a gap. */
  lemma PtrOrder(lb: nat)
    ensures PtrOf(0) == Direct(0) && (lb + 1 < MAPPED ==> PtrOf(lb + 1) == NextPtr(PtrOf(lb)))
  {
    if DIRECT + PER <= lb {
      var m := lb - DIRECT - PER;
      assert m + 1 == PER * (m / PER) + (m % PER + 1);
    }
  }

  lemma PtrOfInjective(a: nat, b: nat)
    requires a < MAPPED && b < MAPPED && PtrOf(a) == PtrOf(b)
    ensures a == b
  {
  }

  /** ex_bmap: the block of logical block lb; 0 for a hole and past the double map. */
  function Bmap(n: Inode, data: seq<Block>, lb: nat): nat
    requires InodeOk(n)
  {
    if lb < MAPPED then Val(n, data, PtrOf(lb)) else 0
  }

  /** The byte of a file at position pos: zero in a hole. */
  function ByteAt(n: Inode, data: seq<Block>, pos: nat): byte
    requires InodeOk(n)
  {
    var b := Bmap(n, data, pos / BS);
    if b == 0 || b >= |data| then 0 else data[b][pos % BS]
  }

  /** The file: what a reader of the whole of it sees. */
  function View(n: Inode, data: seq<Block>): (v: seq<byte>)
    requires InodeOk(n)
    ensures |v| == n.size
  {
    seq(n.size, pos requires 0 <= pos < n.size => ByteAt(n, data, pos))
  }

  // ---------------------------------------------------------------- bitmaps

  predicate BitsOk(g: Geo, bits: seq<seq<bool>>) {
    |bits| == |g.desc| && forall k :: 0 <= k < |bits| ==> |bits[k]| == g.bpg
  }

  predicate Marked(g: Geo, bits: seq<seq<bool>>, blk: nat)
    requires GeoOk(g) && BitsOk(g, bits)
  {
    0 < blk < g.blocks && (BlockOfBit(g, blk); bits[GroupOf(g, blk)][SlotOf(g, blk)])
  }

  function SetBit(g: Geo, bits: seq<seq<bool>>, blk: nat, on: bool): (r: seq<seq<bool>>)
    requires GeoOk(g) && BitsOk(g, bits) && 0 < blk < g.blocks
    ensures BitsOk(g, r)
  {
    BlockOfBit(g, blk);
    bits[GroupOf(g, blk) := bits[GroupOf(g, blk)][SlotOf(g, blk) := on]]
  }

  /** One bit, one block. */
  lemma SetBitMarks(g: Geo, bits: seq<seq<bool>>, blk: nat, on: bool)
    requires GeoOk(g) && BitsOk(g, bits) && 0 < blk < g.blocks
    ensures forall b :: 0 < b < g.blocks ==> Marked(g, SetBit(g, bits, blk, on), b) == if b == blk then on else Marked(g, bits, b)
  {
    hide GroupOf, SlotOf, BlockOf, Groups;
    forall b | 0 < b < g.blocks
      ensures Marked(g, SetBit(g, bits, blk, on), b) == if b == blk then on else Marked(g, bits, b)
    {
      BlockOfBit(g, blk);
      BlockOfBit(g, b);
    }
  }

  // ---------------------------------------------------------------- ownership

  datatype Key = Key(i: nat, p: Ptr)

  /** Block v belongs to this pointer and to no other: it exists, is not metadata, is
      marked, and the owner map, which gives each block one owner, says so. */
  ghost predicate Holds(g: Geo, bits: seq<seq<bool>>, owner: map<nat, Key>, v: nat, key: Key)
    requires GeoOk(g) && BitsOk(g, bits)
  {
    0 < v < g.blocks && !Meta(g, v) && Marked(g, bits, v) && v in owner && owner[v] == key
  }

  ghost predicate InodesOk(inodes: seq<Inode>) {
    forall i :: 0 <= i < |inodes| ==> InodeOk(inodes[i])
  }

  /** Every block reached from an inode is reached by exactly one pointer, is marked and
      is not metadata.  Inode number i + 1 is inodes[i]. */
  ghost predicate Owned(g: Geo, bits: seq<seq<bool>>, inodes: seq<Inode>, data: seq<Block>, owner: map<nat, Key>)
    requires GeoOk(g) && BitsOk(g, bits) && InodesOk(inodes)
  {
    forall i, p :: 0 <= i < |inodes| && GoodPtr(p) && Val(inodes[i], data, p) != 0 ==>
      Holds(g, bits, owner, Val(inodes[i], data, p), Key(i, p))
  }

  /** No pointer names block b. */
  ghost predicate Unused(inodes: seq<Inode>, data: seq<Block>, b: nat)
    requires InodesOk(inodes)
  {
    forall i, p :: 0 <= i < |inodes| && GoodPtr(p) ==> Val(inodes[i], data, p) != b
  }

  /** The two statements of ownership agree: distinct pointers, distinct blocks. */
  lemma OwnedInjective(g: Geo, bits: seq<seq<bool>>, inodes: seq<Inode>, data: seq<Block>, owner: map<nat, Key>, i: nat, p: Ptr, j: nat, q: Ptr)
    requires GeoOk(g) && BitsOk(g, bits) && InodesOk(inodes) && Owned(g, bits, inodes, data, owner)
    requires i < |inodes| && j < |inodes| && GoodPtr(p) && GoodPtr(q)
    requires Val(inodes[i], data, p) == Val(inodes[j], data, q) != 0
    ensures i == j && p == q
  {
    assert Holds(g, bits, owner, Val(inodes[i], data, p), Key(i, p));
    assert Holds(g, bits, owner, Val(inodes[j], data, q), Key(j, q));
  }

  /** An unmarked block is nobody's. */
  lemma UnmarkedUnused(g: Geo, bits: seq<seq<bool>>, inodes: seq<Inode>, data: seq<Block>, owner: map<nat, Key>, b: nat)
    requires GeoOk(g) && BitsOk(g, bits) && InodesOk(inodes) && Owned(g, bits, inodes, data, owner)
    requires b != 0 && !Marked(g, bits, b)
    ensures Unused(inodes, data, b)
  {
  }

  /** Rewriting a block that is no table leaves every pointer alone. */
  lemma SameVals(n: Inode, data: seq<Block>, b: nat, x: Block, p: Ptr)
    requires InodeOk(n) && b < |data| && GoodPtr(p)
    requires Val(n, data, Ind) != b && Val(n, data, Dbl) != b
    requires forall i :: 0 <= i < PER ==> Val(n, data, DblTab(i)) != b
    ensures Val(n, data[b := x], p) == Val(n, data, p)
  {
    if p.DblEntry? {
      assert Val(n, data, DblTab(p.i)) != b;
    }
  }

  /** Every pointer names what it named before. */
  ghost predicate SamePtrs(inodes: seq<Inode>, data: seq<Block>, inodes2: seq<Inode>, data2: seq<Block>)
    requires InodesOk(inodes) && InodesOk(inodes2)
  {
    |inodes2| == |inodes| && forall i, p :: 0 <= i < |inodes| && GoodPtr(p) ==> Val(inodes2[i], data2, p) == Val(inodes[i], data, p)
  }

  /** Only the pointer `key` changed; it now names v. */
  ghost predicate Retarget(inodes: seq<Inode>, data: seq<Block>, inodes2: seq<Inode>, data2: seq<Block>, key: Key, v: nat)
    requires InodesOk(inodes) && InodesOk(inodes2)
  {
    |inodes2| == |inodes| && key.i < |inodes| && GoodPtr(key.p) &&
    forall i, p :: 0 <= i < |inodes| && GoodPtr(p) ==>
      Val(inodes2[i], data2, p) == if Key(i, p) == key then v else Val(inodes[i], data, p)
  }

  /** Every file shows the bytes it showed before. */
  ghost predicate SameBytes(inodes: seq<Inode>, data: seq<Block>, inodes2: seq<Inode>, data2: seq<Block>)
    requires InodesOk(inodes) && InodesOk(inodes2)
  {
    |inodes2| == |inodes| && forall i, pos :: 0 <= i < |inodes| && 0 <= pos ==> ByteAt(inodes2[i], data2, pos) == ByteAt(inodes[i], data, pos)
  }

  /** A block nobody names can be rewritten without moving a pointer. */
  lemma UnusedWrite(inodes: seq<Inode>, data: seq<Block>, b: nat, x: Block)
    requires InodesOk(inodes) && b < |data| && Unused(inodes, data, b)
    ensures SamePtrs(inodes, data, inodes, data[b := x])
  {
    hide Val;
    forall i, p | 0 <= i < |inodes| && GoodPtr(p) ensures Val(inodes[i], data[b := x], p) == Val(inodes[i], data, p) {
      assert GoodPtr(Ind) && GoodPtr(Dbl) && forall k :: 0 <= k < PER ==> GoodPtr(DblTab(k));
      SameVals(inodes[i], data, b, x, p);
    }
  }

  lemma UnusedWriteBytes(inodes: seq<Inode>, data: seq<Block>, b: nat, x: Block)
    requires InodesOk(inodes) && 0 < b < |data| && Unused(inodes, data, b)
    ensures SameBytes(inodes, data, inodes, data[b := x])
  {
    UnusedWrite(inodes, data, b, x);
    hide Val;
  }

  /** Marking more, or unmarking a block nobody names, keeps ownership. */
  lemma OwnedBits(g: Geo, bits: seq<seq<bool>>, bits2: seq<seq<bool>>, inodes: seq<Inode>, data: seq<Block>, inodes2: seq<Inode>, data2: seq<Block>, owner: map<nat, Key>, b: nat)
    requires GeoOk(g) && BitsOk(g, bits) && BitsOk(g, bits2) && InodesOk(inodes) && InodesOk(inodes2) && Owned(g, bits, inodes, data, owner)
    requires SamePtrs(inodes, data, inodes2, data2)
    requires forall v :: 0 < v < g.blocks && v != b && Marked(g, bits, v) ==> Marked(g, bits2, v)
    requires Unused(inodes, data, b)
    ensures Owned(g, bits2, inodes2, data2, owner) && Unused(inodes2, data2, b)
  {
    hide Val, Marked, Meta;
    forall i, p | 0 <= i < |inodes2| && GoodPtr(p) && Val(inodes2[i], data2, p) != 0
      ensures Holds(g, bits2, owner, Val(inodes2[i], data2, p), Key(i, p))
    {
      assert Holds(g, bits, owner, Val(inodes[i], data, p), Key(i, p));
    }
  }

  /** Dropping a pointer, or aiming it at a block nobody names, keeps ownership. */
  lemma OwnedRetarget(g: Geo, bits: seq<seq<bool>>, inodes: seq<Inode>, data: seq<Block>, inodes2: seq<Inode>, data2: seq<Block>, owner: map<nat, Key>, key: Key, v: nat)
    requires GeoOk(g) && BitsOk(g, bits) && InodesOk(inodes) && InodesOk(inodes2) && Owned(g, bits, inodes, data, owner)
    requires Retarget(inodes, data, inodes2, data2, key, v)
    requires v != 0 ==> Unused(inodes, data, v) && 0 < v < g.blocks && !Meta(g, v) && Marked(g, bits, v)
    ensures Owned(g, bits, inodes2, data2, if v == 0 then owner else owner[v := key])
  {
    hide Val, Marked, Meta;
    var owner2 := if v == 0 then owner else owner[v := key];
    forall i, p | 0 <= i < |inodes2| && GoodPtr(p) && Val(inodes2[i], data2, p) != 0
      ensures Holds(g, bits, owner2, Val(inodes2[i], data2, p), Key(i, p))
    {
      if Key(i, p) != key {
        assert Holds(g, bits, owner, Val(inodes[i], data, p), Key(i, p));
        assert v != 0 ==> Val(inodes[i], data, p) != v;
      }
    }
  }

  /** Filling a hole with a zeroed block shows no new byte. */
  lemma BytesRetarget(inodes: seq<Inode>, data: seq<Block>, inodes2: seq<Inode>, data2: seq<Block>, key: Key, v: nat)
    requires InodesOk(inodes) && InodesOk(inodes2) && |data2| == |data|
    requires Retarget(inodes, data, inodes2, data2, key, v) && Val(inodes[key.i], data, key.p) == 0
    requires 0 < v < |data| && data2[v] == Zeros()
    requires forall i, p :: 0 <= i < |inodes| && GoodPtr(p) && Leaf(p) && 0 < Val(inodes[i], data, p) < |data| ==>
      data2[Val(inodes[i], data, p)] == data[Val(inodes[i], data, p)]
    ensures SameBytes(inodes, data, inodes2, data2)
  {
    hide Val;
  }

  /** Setting direct pointer k, or the table pointer 12 to a zeroed table, moves one pointer. */
  lemma SetPtr(inodes: seq<Inode>, data: seq<Block>, i: nat, k: nat, v: nat)
    requires InodesOk(inodes) && i < |inodes| && k <= 12 && v < U32
    requires k == 12 ==> inodes[i].ptr[12] == 0 && 0 < v < |data| && data[v] == Zeros()
    ensures var n := inodes[i].(ptr := inodes[i].ptr[k := v]);
      InodeOk(n) && InodesOk(inodes[i := n]) &&
      Retarget(inodes, data, inodes[i := n], data, Key(i, if k == 12 then Ind else Direct(k)), v)
  {
    var n := inodes[i].(ptr := inodes[i].ptr[k := v]);
    if k == 12 {
      forall j | 0 <= j < PER ensures Tab(data, v, j) == 0 {
        ZeroEntry(j);
      }
    }
  }

  /** Setting an entry of the single-indirect table moves one pointer. */
  lemma SetTab(g: Geo, bits: seq<seq<bool>>, inodes: seq<Inode>, data: seq<Block>, owner: map<nat, Key>, i: nat, j: nat, v: nat)
    requires GeoOk(g) && BitsOk(g, bits) && InodesOk(inodes) && Owned(g, bits, inodes, data, owner)
    requires i < |inodes| && j < PER && v < U32 && 0 < inodes[i].ptr[12] < |data|
    ensures var tab := inodes[i].ptr[12];
      Retarget(inodes, data, inodes, data[tab := SetEntry(data[tab], j, v)], Key(i, IndEntry(j)), v)
  {
    var tab := inodes[i].ptr[12];
    var data2 := data[tab := SetEntry(data[tab], j, v)];
    assert Val(inodes[i], data, Ind) == tab;
    forall h, p | 0 <= h < |inodes| && GoodPtr(p)
      ensures Val(inodes[h], data2, p) == if Key(h, p) == Key(i, IndEntry(j)) then v else Val(inodes[h], data, p)
    {
      TabElsewhere(g, bits, inodes, data, owner, i, h);
      if h == i && p.IndEntry? {
      } else if h == i && p.DblEntry? {
        assert Val(inodes[i], data, DblTab(p.i)) != tab;
      } else if h != i {
        SameVals(inodes[h], data, tab, data2[tab], p);
      }
    }
  }

  /** Inode i's single-indirect table serves no other purpose. */
  lemma TabElsewhere(g: Geo, bits: seq<seq<bool>>, inodes: seq<Inode>, data: seq<Block>, owner: map<nat, Key>, i: nat, h: nat)
    requires GeoOk(g) && BitsOk(g, bits) && InodesOk(inodes) && Owned(g, bits, inodes, data, owner)
    requires i < |inodes| && h < |inodes| && inodes[i].ptr[12] != 0
    ensures h != i ==> Val(inodes[h], data, Ind) != inodes[i].ptr[12]
    ensures Val(inodes[h], data, Dbl) != inodes[i].ptr[12]
    ensures forall k :: 0 <= k < PER ==> Val(inodes[h], data, DblTab(k)) != inodes[i].ptr[12]
  {
    assert Val(inodes[i], data, Ind) == inodes[i].ptr[12];
    hide Val;
    forall p: Ptr | GoodPtr(p) && Key(h, p) != Key(i, Ind) ensures Val(inodes[h], data, p) != inodes[i].ptr[12] {
      if Val(inodes[h], data, p) == inodes[i].ptr[12] {
        OwnedInjective(g, bits, inodes, data, owner, i, Ind, h, p);
      }
    }
  }

  // ---------------------------------------------------------------- free counts

  /** Clear bits of group k among its first n slots, not counting padding past the last block. */
  function ClearIn(g: Geo, row: seq<bool>, k: nat, n: nat): nat
    requires n <= |row|
  {
    if n == 0 then 0
    else ClearIn(g, row, k, n - 1) + if BlockOf(g, k, n - 1) < g.blocks && !row[n - 1] then 1 else 0
  }

  function Sum(f: seq<nat>): nat {
    if f == [] then 0 else Sum(f[..|f| - 1]) + f[|f| - 1]
  }

  /** Every group's count is its number of clear bits, and the superblock's is their sum. */
  predicate Counts(g: Geo, bits: seq<seq<bool>>, gfree: seq<nat>, sbFree: nat)
    requires BitsOk(g, bits)
  {
    |gfree| == |bits| && sbFree == Sum(gfree) && forall k :: 0 <= k < |bits| ==> gfree[k] == ClearIn(g, bits[k], k, g.bpg)
  }

  function Bool(b: bool): nat { if b then 1 else 0 }

  lemma {:induction false} ClearUpdate(g: Geo, row: seq<bool>, k: nat, n: nat, s: nat, on: bool)
    requires n <= |row| && s < |row| && BlockOf(g, k, s) < g.blocks
    ensures ClearIn(g, row[s := on], k, n) + (if s < n then Bool(!row[s]) else 0) == ClearIn(g, row, k, n) + (if s < n then Bool(!on) else 0)
  {
    hide BlockOf;
    if n > 0 {
      ClearUpdate(g, row, k, n - 1, s, on);
    }
  }

  lemma {:induction false} SumUpdate(f: seq<nat>, k: nat, v: nat)
    requires k < |f|
    ensures Sum(f[k := v]) + f[k] == Sum(f) + v
  {
    var n := |f| - 1;
    if k == n {
      assert f[k := v][..n] == f[..n];
    } else {
      assert f[k := v][..n] == f[..n][k := v];
      SumUpdate(f[..n], k, v);
    }
  }

  lemma {:induction false} SumAtLeast(f: seq<nat>, k: nat)
    requires k < |f|
    ensures Sum(f) >= f[k]
  {
    var n := |f| - 1;
    if k < n {
      SumAtLeast(f[..n], k);
    }
  }

  /** Flipping one bit moves its group's count and the superblock's by one. */
  lemma CountsFlip(g: Geo, bits: seq<seq<bool>>, gfree: seq<nat>, sbFree: nat, blk: nat, on: bool)
    requires GeoOk(g) && BitsOk(g, bits) && Counts(g, bits, gfree, sbFree) && 0 < blk < g.blocks && Marked(g, bits, blk) != on
    ensures GroupOf(g, blk) < |gfree|
    ensures on ==> gfree[GroupOf(g, blk)] > 0 && sbFree > 0
    ensures var k: nat, d: int := GroupOf(g, blk), if on then -1 else 1;
      Counts(g, SetBit(g, bits, blk, on), gfree[k := gfree[k] + d], sbFree + d)
  {
    BlockOfBit(g, blk);
    var k, s := GroupOf(g, blk), SlotOf(g, blk);
    hide GroupOf, SlotOf, BlockOf, Groups;
    ClearUpdate(g, bits[k], k, g.bpg, s, on);
    SumAtLeast(gfree, k);
    SumUpdate(gfree, k, gfree[k] + if on then -1 else 1);
  }
}
