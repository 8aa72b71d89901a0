/** How many blocks a write needs and how many there are: the logical blocks of a range that
    are not mapped yet, the table they hang under, and the blocks nobody has taken. */
module Ext2Space {
  import opened Ext2Layout
  import opened Ext2Blocks
  import opened Ext2Files

  const REACH: nat := DIRECT + PER      // logical blocks a write can reach

  // ---------------------------------------------------------------- what is there

  /** The blocks that can still be given out. */
  ghost function Spare(g: Geo, bits: seq<seq<bool>>): set<nat>
    requires GeoOk(g) && BitsOk(g, bits)
  {
    set b | 0 < b < g.blocks && !Meta(g, b) && !Marked(g, bits, b)
  }

  ghost function SpareCount(g: Geo, bits: seq<seq<bool>>): nat
    requires GeoOk(g) && BitsOk(g, bits)
  {
    |Spare(g, bits)|
  }

  /** Taking a block takes exactly one. */
  lemma SpareTake(g: Geo, bits: seq<seq<bool>>, b: nat)
    requires GeoOk(g) && BitsOk(g, bits) && 0 < b < g.blocks && !Meta(g, b) && !Marked(g, bits, b)
    ensures SpareCount(g, bits) > 0 && SpareCount(g, SetBit(g, bits, b, true)) == SpareCount(g, bits) - 1
  {
    hide Meta, Marked, SetBit;
    SetBitMarks(g, bits, b, true);
    assert b in Spare(g, bits) && Spare(g, SetBit(g, bits, b, true)) == Spare(g, bits) - {b};
  }

  // ---------------------------------------------------------------- what is needed

  /** Logical blocks from a to b that have no block. */
  ghost function Missing(n: Inode, data: seq<Block>, a: nat, b: nat): nat
    requires InodeOk(n)
    decreases b - a
  {
    if a >= b then 0 else (if Bmap(n, data, a) == 0 then 1 else 0) + Missing(n, data, a + 1, b)
  }

  /** Blocks it takes to map them all: one for each, and one for the table if the range
      reaches it and there is none. */
  ghost function Needs(n: Inode, data: seq<Block>, a: nat, b: nat): nat
    requires InodeOk(n)
  {
    Missing(n, data, a, b) + if a < b && b > DIRECT && n.ptr[12] == 0 then 1 else 0
  }

  /** Every logical block in reach but lb is mapped as it was. */
  ghost predicate MapsAs(n: Inode, data: seq<Block>, n2: Inode, data2: seq<Block>, lb: nat)
    requires InodeOk(n) && InodeOk(n2)
  {
    forall l :: 0 <= l < REACH && l != lb ==> Bmap(n2, data2, l) == Bmap(n, data, l)
  }

  lemma {:induction false} MissingSame(n: Inode, data: seq<Block>, n2: Inode, data2: seq<Block>, lb: nat, a: nat, b: nat)
    requires InodeOk(n) && InodeOk(n2) && MapsAs(n, data, n2, data2, lb) && lb < a && b <= REACH
    ensures Missing(n2, data2, a, b) == Missing(n, data, a, b)
    decreases b - a
  {
    hide Bmap;
    if a < b {
      MissingSame(n, data, n2, data2, lb, a + 1, b);
    }
  }

  /** Mapping the first block of a range leaves the needs of the rest. */
  lemma NeedsNext(n: Inode, data: seq<Block>, n2: Inode, data2: seq<Block>, a: nat, b: nat)
    requires InodeOk(n) && InodeOk(n2) && a < b <= REACH && MapsAs(n, data, n2, data2, a)
    requires n2.ptr[12] == n.ptr[12] || (a >= DIRECT && n.ptr[12] == 0)
    requires a >= DIRECT ==> n2.ptr[12] != 0
    ensures Needs(n, data, a, b) == Needs(n, data, a, a + 1) + Needs(n2, data2, a + 1, b)
  {
    hide Bmap;
    MissingSame(n, data, n2, data2, a, a + 1, b);
    assert Missing(n, data, a + 1, a + 1) == 0;
  }

  /** Without a table nothing behind it is mapped. */
  lemma NoTable(n: Inode, data: seq<Block>, lb: nat)
    requires InodeOk(n) && DIRECT <= lb < REACH && n.ptr[12] == 0
    ensures Bmap(n, data, lb) == 0
  {
  }

  /** What one block needs: itself, and the table in front of it. */
  lemma NeedsOne(n: Inode, data: seq<Block>, lb: nat)
    requires InodeOk(n) && lb < REACH
    ensures Needs(n, data, lb, lb + 1) == (if Bmap(n, data, lb) != 0 then 0 else if lb >= DIRECT && n.ptr[12] == 0 then 2 else 1)
  {
    if lb >= DIRECT && n.ptr[12] == 0 {
      NoTable(n, data, lb);
    }
    hide Bmap;
    assert Missing(n, data, lb + 1, lb + 1) == 0;
  }

  lemma MapsRetarget(inodes: seq<Inode>, data: seq<Block>, inodes2: seq<Inode>, data2: seq<Block>, i: nat, p: Ptr, v: nat, lb: nat)
    requires InodesOk(inodes) && InodesOk(inodes2) && Retarget(inodes, data, inodes2, data2, Key(i, p), v)
    requires lb <= REACH && (lb < REACH ==> PtrOf(lb) == p) && (lb == REACH ==> !Leaf(p))
    ensures MapsAs(inodes[i], data, inodes2[i], data2, lb)
  {
    hide Val;
    forall l | 0 <= l < REACH && l != lb ensures Bmap(inodes2[i], data2, l) == Bmap(inodes[i], data, l) {
      if PtrOf(l) == p {
        PtrOfInjective(l, lb);
        assert false;
      }
    }
  }

  lemma MapsSame(inodes: seq<Inode>, data: seq<Block>, data2: seq<Block>, i: nat)
    requires InodesOk(inodes) && i < |inodes| && SamePtrs(inodes, data, inodes, data2)
    ensures MapsAs(inodes[i], data, inodes[i], data2, REACH)
  {
    hide Val;
  }

  lemma MapsTrans(n: Inode, data: seq<Block>, n1: Inode, data1: seq<Block>, n2: Inode, data2: seq<Block>, lb: nat)
    requires InodeOk(n) && InodeOk(n1) && InodeOk(n2)
    requires (MapsAs(n, data, n1, data1, REACH) && MapsAs(n1, data1, n2, data2, lb)) || (MapsAs(n, data, n1, data1, lb) && MapsAs(n1, data1, n2, data2, REACH))
    ensures MapsAs(n, data, n2, data2, lb)
  {
    hide Bmap;
  }
}
