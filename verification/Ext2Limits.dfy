/** Volumes at which the driver does not do what its design promises: files whose blocks the
    mount audit marks free, and a file whose blocks past its end stay taken. */
module Ext2Limits {
  import opened Ext2Layout
  import opened Ext2Blocks
  import opened Ext2Files
  import opened Ext2Volume
  import opened Ext2Names
  import opened Ext2Audit

  /** Two groups of 16 blocks and 16 inodes. */
  const PAIR: Geo := Geo(32, 16, 32, 16, 128, [Desc(3, 4, 5), Desc(17, 18, 19)])

  /** The data blocks of both groups. */
  predicate DataBlock(b: nat) { 7 <= b <= 16 || 21 <= b < 32 }

  /** A file whose first block is b. */
  function OneBlock(b: nat): Inode { Inode(0x81A4, 1024, 2, [b, 0, 0, 0, 0, 0, 0, 0, 0, 0, 0, 0, 0, 0, 0]) }

  function NoFile(): Inode { Inode(0, 0, 0, [0, 0, 0, 0, 0, 0, 0, 0, 0, 0, 0, 0, 0, 0, 0]) }

  /** inodes[f] is that file, marked in use; the volume has no other. */
  function PairInodes(f: nat, b: nat): seq<Inode> { seq(32, i => if i == f then OneBlock(b) else NoFile()) }

  function PairUse(f: nat): seq<seq<bool>> { [seq(16, k => k == f), seq(16, k => 16 + k == f)] }

  function Blank(): seq<Block> { seq(32, _ => Zeros()) }

  lemma PairGeo(f: nat, b: nat)
    requires f < 32 && DataBlock(b)
    ensures GeoOk(PAIR) && LayoutOk(PAIR) && !Meta(PAIR, b) && 0 < b < 32 && GroupOf(PAIR, b) == (b - 1) / 16 && InodeGroup(PAIR, f + 1) == f / 16
    ensures InodeBitsOk(PAIR, PairUse(f)) && InUse(PAIR, PairUse(f), f + 1)
  {
    assert Groups(PAIR) == 2 && TableBlocks(PAIR) == 2;
    assert !MetaOf(PAIR, 0, b) && !MetaOf(PAIR, 1, b);
  }

  lemma PairFiles(f: nat, b: nat)
    requires f < 32 && DataBlock(b)
    ensures |PairInodes(f, b)| == |Blank()| == 32 && InodesOk(PairInodes(f, b)) && !HasTriple(PairInodes(f, b))
    ensures PairInodes(f, b)[f] == OneBlock(b) && forall i :: 0 <= i < 32 && i != f ==> PairInodes(f, b)[i] == NoFile()
  {
    var inodes := PairInodes(f, b);
    assert InodeOk(OneBlock(b)) && InodeOk(NoFile());
    assert forall i :: 0 <= i < 32 ==> inodes[i] == OneBlock(b) || inodes[i] == NoFile();
  }

  /** The only pointer of the volume is that of the file. */
  lemma PairPointers(f: nat, b: nat, i: nat, p: Ptr)
    requires f < 32 && DataBlock(b) && i < 32 && GoodPtr(p)
    ensures i < |PairInodes(f, b)| && InodeOk(PairInodes(f, b)[i])
    ensures Val(PairInodes(f, b)[i], Blank(), p) == if i == f && p == Direct(0) then b else 0
  {
    hide PairInodes, Blank, HasTriple;
    PairFiles(f, b);
  }

  lemma PairClaimed(f: nat, b: nat, owner: map<nat, Key>, bits: seq<seq<bool>>)
    requires f < 32 && DataBlock(b) && owner == map[b := Key(f, Direct(0))] && bits == [seq(16, _ => true), seq(16, _ => true)]
    ensures GeoOk(PAIR) && InodesOk(PairInodes(f, b)) && |PairInodes(f, b)| == 32 && BitsOk(PAIR, bits)
    ensures Claimed(PAIR, PairInodes(f, b), Blank(), owner) && Owned(PAIR, bits, PairInodes(f, b), Blank(), owner)
  {
    hide Val, Meta, LayoutOk, GeoOk, PairInodes, Blank, HasTriple, InUse, PairUse, GroupOf, InodeGroup, Marked, BitsOk, Counts, InodeBitsOk, GoodPtr;
    PairGeo(f, b);
    PairFiles(f, b);
    PairMarked(f, b, bits);
    forall i, p | 0 <= i < 32 && GoodPtr(p) && Val(PairInodes(f, b)[i], Blank(), p) != 0
      ensures i == f && p == Direct(0) && Val(PairInodes(f, b)[i], Blank(), p) == b
    {
      PairPointers(f, b, i, p);
    }
  }

  lemma PairMarked(f: nat, b: nat, bits: seq<seq<bool>>)
    requires f < 32 && DataBlock(b) && bits == [seq(16, _ => true), seq(16, _ => true)]
    ensures GeoOk(PAIR) && BitsOk(PAIR, bits) && Marked(PAIR, bits, b) && Counts(PAIR, bits, [0, 0], 0)
  {
    PairGeo(f, b);
    FullRow(bits[0], 0, 16);
    FullRow(bits[1], 1, 16);
    assert Sum([0]) == 0 && [0, 0][..1] == [0];
  }

  lemma {:induction false} FullRow(row: seq<bool>, k: nat, n: nat)
    requires n <= |row| && forall s :: 0 <= s < |row| ==> row[s]
    ensures ClearIn(PAIR, row, k, n) == 0
  {
    if n > 0 {
      FullRow(row, k, n - 1);
    }
  }

  /** A volume in order with one file, after the audit: its block is still marked exactly if
      the inode is not reserved and the block lies in the inode's group. */
  method AuditLone(f: nat, b: nat) returns (v: Volume)
    requires f < 32 && DataBlock(b)
    ensures v.Sized() && v.geo == PAIR && f < |v.inodes| && Val(v.inodes[f], v.data, Direct(0)) == b
    ensures Marked(v.geo, v.bits, b) <==> f + 1 != 1 && !(3 <= f + 1 <= 10) && (b - 1) / 16 == f / 16
    ensures v.Valid() <==> Marked(v.geo, v.bits, b)
  {
    hide Claimed, InPlace, RowIs, Meta, GeoOk, InodesOk, Val, LayoutOk, HasTriple, Counts, Marked, PairInodes, PairUse, Blank, BitsOk, InodeBitsOk, InUse, GroupOf, InodeGroup, Owned, Readable;
    var bits := [seq(16, _ => true), seq(16, _ => true)];
    ghost var owner := map[b := Key(f, Direct(0))];
    PairGeo(f, b);
    PairFiles(f, b);
    PairClaimed(f, b, owner, bits);
    PairMarked(f, b, bits);
    PairPointers(f, b, f, Direct(0));
    v := new Volume(PAIR, bits, [0, 0], 0, PairUse(f), PairInodes(f, b), Blank(), owner);
    assert v.Valid();
    ClaimedReadable(PAIR, PairUse(f), v.inodes, v.data, owner);
    var done := Audit(v);
    CrossGroupLost(PAIR, PairUse(f), v.inodes, v.data, owner, v.bits, f, Direct(0));
    AuditSound(PAIR, PairUse(f), v.inodes, v.data, owner, v.bits);
    PairInPlace(f, b);
  }

  lemma PairInPlace(f: nat, b: nat)
    requires f < 32 && DataBlock(b)
    ensures GeoOk(PAIR) && InodeBitsOk(PAIR, PairUse(f)) && InodesOk(PairInodes(f, b)) && |PairInodes(f, b)| == 32
    ensures Visited(PAIR, PairUse(f), PairInodes(f, b), f) <==> !Reserved(f + 1)
    ensures InPlace(PAIR, PairUse(f), PairInodes(f, b), Blank()) <==>
      Visited(PAIR, PairUse(f), PairInodes(f, b), f) && GroupOf(PAIR, b) == InodeGroup(PAIR, f + 1)
  {
    hide Val, Meta, LayoutOk, GeoOk, PairInodes, Blank, HasTriple, InUse, PairUse, GroupOf, InodeGroup, InodeBitsOk, GoodPtr;
    PairGeo(f, b);
    PairFiles(f, b);
    forall i, p | 0 <= i < 32 && GoodPtr(p) && Val(PairInodes(f, b)[i], Blank(), p) != 0
      ensures i == f && p == Direct(0) && Val(PairInodes(f, b)[i], Blank(), p) == b
    {
      PairPointers(f, b, i, p);
    }
    FirstPtr();
    PairPointers(f, b, f, Direct(0));
  }

  lemma FirstPtr()
    ensures GoodPtr(Direct(0))
  {
  }

  /** Inode 12, of group 0, with its block in group 1. */
  method AuditLoses() returns (v: Volume)
    ensures v.Sized() && v.geo == PAIR && |v.inodes| > 11 && Val(v.inodes[11], v.data, Direct(0)) == 25 && !Marked(v.geo, v.bits, 25)
  {
    v := AuditLone(11, 25);
  }

  /** Inode 8, which is reserved, with its block in its own group. */
  method AuditSkips() returns (v: Volume)
    ensures v.Sized() && v.geo == PAIR && |v.inodes| > 7 && Val(v.inodes[7], v.data, Direct(0)) == 10 && !Marked(v.geo, v.bits, 10)
  {
    v := AuditLone(7, 10);
  }

  // ---------------------------------------------------------------- a cut that frees nothing

  /** A file of 14 blocks: all holes but the last, behind the table. */
  function TableFile(): Inode { Inode(0x81A4, 14 * BS, 4, [0, 0, 0, 0, 0, 0, 0, 0, 0, 0, 0, 0, 22, 0, 0]) }

  function TableInodes(): seq<Inode> { seq(32, i => if i == 11 then TableFile() else NoFile()) }

  function TableData(): seq<Block> { Blank()[22 := SetEntry(Zeros(), 1, 23)] }

  lemma TablePointers(i: nat, p: Ptr)
    requires i < 32 && GoodPtr(p)
    ensures i < |TableInodes()| && InodeOk(TableInodes()[i]) && |TableData()| == 32
    ensures Val(TableInodes()[i], TableData(), p) == if i == 11 && p == Ind then 22 else if i == 11 && p == IndEntry(1) then 23 else 0
  {
    hide Entry;
    assert TableInodes()[i] == if i == 11 then TableFile() else NoFile();
    assert forall j :: 0 <= j < PER ==> Entry(Zeros(), j) == 0 by {
      forall j | 0 <= j < PER ensures Entry(Zeros(), j) == 0 {
        ZeroEntry(j);
      }
    }
    assert TableData()[22] == SetEntry(Zeros(), 1, 23);
  }

  lemma TableOwned(owner: map<nat, Key>, bits: seq<seq<bool>>)
    requires owner == map[22 := Key(11, Ind), 23 := Key(11, IndEntry(1))] && bits == [seq(16, _ => true), seq(16, _ => true)]
    ensures GeoOk(PAIR) && BitsOk(PAIR, bits) && InodesOk(TableInodes()) && |TableInodes()| == |TableData()| == 32
    ensures Marked(PAIR, bits, 23) && Counts(PAIR, bits, [0, 0], 0) && Owned(PAIR, bits, TableInodes(), TableData(), owner)
  {
    hide Val, Meta, LayoutOk, GeoOk, TableInodes, TableData, InUse, PairUse, GroupOf, InodeGroup, Marked, BitsOk, Counts, InodeBitsOk, GoodPtr;
    FirstPtr();
    PairGeo(0, 22);
    PairGeo(0, 23);
    PairMarked(0, 22, bits);
    PairMarked(0, 23, bits);
    forall i | 0 <= i < 32 ensures i < |TableInodes()| && InodeOk(TableInodes()[i]) {
      TablePointers(i, Direct(0));
    }
    TableCount();
    forall i, p | 0 <= i < 32 && GoodPtr(p) && Val(TableInodes()[i], TableData(), p) != 0
      ensures Holds(PAIR, bits, owner, Val(TableInodes()[i], TableData(), p), Key(i, p))
    {
      TablePointers(i, p);
    }
  }

  lemma TableCount()
    ensures |TableInodes()| == |TableData()| == 32 && TableInodes()[11] == TableFile()
  {
  }

  /** Cutting it to 13 blocks leaves the block past the end marked and mapped. */
  method CutKeeps() returns (v: Volume, rc: int)
    ensures v.Valid() && rc == 0 && v.geo == PAIR && |v.inodes| > 11 && v.inodes[11].size == 13 * BS
    ensures Bmap(v.inodes[11], v.data, 13) == 23 && Marked(v.geo, v.bits, 23)
  {
    hide Meta, GeoOk, Marked, BitsOk, Owned, Counts, TableInodes, TableData, View, Tab, Val;
    var bits := [seq(16, _ => true), seq(16, _ => true)];
    ghost var owner := map[22 := Key(11, Ind), 23 := Key(11, IndEntry(1))];
    TableOwned(owner, bits);
    TableCount();
    v := new Volume(PAIR, bits, [0, 0], 0, PairUse(11), TableInodes(), TableData(), owner);
    rc := v.Truncate(12, 13 * BS);
    TablePointers(11, IndEntry(1));
    SameTable(TableFile(), v.inodes[11], v.data);
  }

  lemma SameTable(n: Inode, n2: Inode, data: seq<Block>)
    requires InodeOk(n) && InodeOk(n2) && n2.ptr[12] == n.ptr[12]
    ensures Bmap(n2, data, 13) == Val(n, data, IndEntry(1))
  {
  }
}
