/** The mounted volume: bitmaps, counts, inodes and blocks, changed in place by the
    driver's loops.  The disk is reliable; metadata blocks are kept in decoded form, and
    only blocks that are not metadata may be read or written as data. */
module Ext2Volume {
  import opened Ext2Layout
  import opened Ext2Blocks
  import opened Ext2Files
  import opened Ext2Space

  class Volume {
    const geo: Geo
    var bits: seq<seq<bool>>
    var gfree: seq<nat>
    var sbFree: nat
    var ibits: seq<seq<bool>>
    var igfree: seq<nat>
    var sbIfree: nat
    var inodes: seq<Inode>
    var data: seq<Block>
    ghost var owner: map<nat, Key>

    constructor (geo: Geo, bits: seq<seq<bool>>, gfree: seq<nat>, sbFree: nat, ibits: seq<seq<bool>>, inodes: seq<Inode>, data: seq<Block>, ghost owner: map<nat, Key>)
      ensures this.geo == geo && this.bits == bits && this.gfree == gfree && this.sbFree == sbFree && this.ibits == ibits
      ensures this.inodes == inodes && this.data == data && this.owner == owner
    {
      this.geo, this.bits, this.gfree, this.sbFree, this.ibits := geo, bits, gfree, sbFree, ibits;
      this.inodes, this.data, this.owner := inodes, data, owner;
      this.igfree, this.sbIfree := seq(|geo.desc|, _ => 0), 0;
    }

    /** Sizes agree with the superblock. */
    ghost predicate Sized()
      reads this
    {
      GeoOk(geo) && BitsOk(geo, bits) && InodesOk(inodes) && |inodes| == geo.inodes && |data| == geo.blocks
    }

    ghost predicate Shape()
      reads this
    {
      Sized() && Counts(geo, bits, gfree, sbFree)
    }

    /** Ownership and the free counts, of the volume as it is on disk. */
    ghost predicate Valid()
      reads this
    {
      Shape() && Owned(geo, bits, inodes, data, owner)
    }

    /** The same with inode i held in memory as n, not yet written back. */
    ghost predicate With(i: nat, n: Inode)
      reads this
    {
      Shape() && i < |inodes| && InodeOk(n) && Owned(geo, bits, inodes[i := n], data, owner)
    }

    // -------------------------------------------------------------- blocks

    /** Data and metadata never mix: only blocks that are not metadata are read as data. */
    method ReadBlock(b: nat) returns (x: Block)
      requires Sized() && b < geo.blocks && !Meta(geo, b)
      ensures x == data[b]
    {
      x := data[b];
    }

    /** Nor is metadata ever overwritten by data. */
    method WriteBlock(b: nat, x: Block)
      requires Sized() && b < geo.blocks && !Meta(geo, b)
      modifies this`data
      ensures data == old(data)[b := x]
    {
      data := data[b := x];
    }

    method IsMeta(blk: nat) returns (m: bool)
      requires GeoOk(geo)
      ensures m == Meta(geo, blk)
    {
      if blk <= 1 {
        return true;
      }
      var k := 0;
      while k < |geo.desc|
        invariant 0 <= k <= |geo.desc|
        invariant forall j :: 0 <= j < k ==> !MetaOf(geo, j, blk)
      {
        if MetaOf(geo, k, blk) {
          return true;
        }
        k := k + 1;
      }
      m := false;
    }

    /** The first block that is neither metadata nor marked, scanning group by group;
        0 when there is none. */
    method FirstFit() returns (blk: nat)
      requires GeoOk(geo) && BitsOk(geo, bits)
      ensures blk != 0 ==> blk < geo.blocks && !Meta(geo, blk) && !Marked(geo, bits, blk) && FullBelow(geo, bits, blk)
      ensures blk == 0 ==> FullBelow(geo, bits, geo.blocks)
    {
      hide Groups, GroupOf, SlotOf, Meta;
      var k := 0;
      while k < |geo.desc|
        invariant 0 <= k <= |geo.desc|
        invariant FullBelow(geo, bits, BlockOf(geo, k, 0))
      {
        var slot := 0;
        while slot < geo.bpg && BlockOf(geo, k, slot) < geo.blocks
          invariant 0 <= slot <= geo.bpg
          invariant FullBelow(geo, bits, BlockOf(geo, k, slot))
        {
          var abs := BlockOf(geo, k, slot);
          BitOfBlock(geo, k, slot);
          BlockOfBit(geo, abs);
          var meta := IsMeta(abs);
          if !meta && !bits[k][slot] {
            return abs;
          }
          FullNext(geo, bits, abs);
          slot := slot + 1;
        }
        NextGroup(geo, bits, k, slot);
        k := k + 1;
      }
      AllGroups(geo);
      blk := 0;
    }

    /** Takes the first fit and zeroes it.  Fails only on a full disk. */
    method AllocBlock() returns (rc: int, blk: nat)
      requires Shape()
      modifies this`bits, this`gfree, this`sbFree, this`data
      ensures Shape()
      ensures rc == 0 || rc == EFBIG
      ensures rc == 0 ==> 0 < blk < geo.blocks && !Meta(geo, blk) && !Marked(geo, old(bits), blk) && FullBelow(geo, old(bits), blk)
      ensures rc == 0 ==> bits == SetBit(geo, old(bits), blk, true) && data == old(data)[blk := Zeros()]
      ensures rc != 0 ==> bits == old(bits) && gfree == old(gfree) && sbFree == old(sbFree) && data == old(data)
      ensures rc != 0 ==> FullBelow(geo, bits, geo.blocks)
      ensures (rc == 0 <==> SpareCount(geo, old(bits)) > 0) && SpareCount(geo, bits) == SpareCount(geo, old(bits)) - if rc == 0 then 1 else 0
    {
      blk := FirstFit();
      if blk == 0 {
        SpareNone(geo, bits);
        return EFBIG, 0;
      }
      SpareTake(geo, bits, blk);
      CountsFlip(geo, bits, gfree, sbFree, blk, true);
      var k := GroupOf(geo, blk);
      bits := SetBit(geo, bits, blk, true);
      if sbFree > 0 {
        sbFree := sbFree - 1;
      }
      if gfree[k] > 0 {
        gfree := gfree[k := gfree[k] - 1];
      }
      WriteBlock(blk, Zeros());
      rc := 0;
    }

    method FreeBlock(blk: nat) returns (rc: int)
      requires Shape()
      modifies this`bits, this`gfree, this`sbFree
      ensures Meta(geo, blk) ==> rc == EINVAL && bits == old(bits) && gfree == old(gfree) && sbFree == old(sbFree)
      ensures BitsOk(geo, bits)
      ensures blk < geo.blocks && !Meta(geo, blk) && Marked(geo, old(bits), blk) ==> rc == 0 && Shape() && bits == SetBit(geo, old(bits), blk, false)
    {
      var meta := IsMeta(blk);
      if meta {
        return EINVAL;
      }
      var k, slot := GroupOf(geo, blk), SlotOf(geo, blk);
      if k >= |geo.desc| {
        if blk < geo.blocks {
          BlockOfBit(geo, blk);
        }
        return EINVAL;
      }
      if blk < geo.blocks && Marked(geo, bits, blk) {
        CountsFlip(geo, bits, gfree, sbFree, blk, false);
      }
      bits := bits[k := bits[k][slot := false]];
      sbFree, gfree := sbFree + 1, gfree[k := gfree[k] + 1];
      rc := 0;
    }

    // -------------------------------------------------------------- the block map

    /** Gives pointer k of the inode in memory, a direct pointer or the table's, a block. */
    method GrowPtr(ghost i: nat, n: Inode, k: nat) returns (rc: int, n2: Inode)
      requires With(i, n) && k <= 12 && n.ptr[k] == 0
      modifies this`bits, this`gfree, this`sbFree, this`data, this`owner
      ensures With(i, n2) && SameBytes(inodes[i := n], old(data), inodes[i := n2], data)
      ensures rc == 0 ==> n2.ptr[k] != 0 && n2 == WithPtr(n, k, n2.ptr[k])
      ensures rc == 0 && k == 12 ==> n2.ptr[12] < |data| && data[n2.ptr[12]] == Zeros()
      ensures rc != 0 ==> rc == EFBIG && n2 == n && FullBelow(geo, bits, geo.blocks) && data == old(data)
      ensures MapsAs(n, old(data), n2, data, if k < DIRECT then k else REACH)
      ensures (rc == 0 <==> SpareCount(geo, old(bits)) > 0) && SpareCount(geo, bits) == SpareCount(geo, old(bits)) - if rc == 0 then 1 else 0
    {
      hide Owned, Counts, FullBelow, Meta, SameBytes, SpareCount, Retarget, MapsAs;
      MapsRefl(n, data);
      ghost var bits0, data0 := bits, data;
      var blk;
      rc, blk := AllocBlock();
      n2 := n;
      if rc == 0 {
        n2 := WithPtr(n, k, blk);
        LinkPtr(geo, bits0, inodes[i := n], data0, owner, i, k, blk);
        owner := owner[blk := PtrKey(i, k)];
        assert inodes[i := n][i := n2] == inodes[i := n2];
        MapsRetarget(inodes[i := n], data0, inodes[i := n2], data, i, PtrKey(i, k).p, blk, if k < DIRECT then k else REACH);
      } else {
        SameBytesRefl(inodes[i := n], data);
      }
    }

    /** Gives entry j of the single-indirect table a block and stores it in the table. */
    method GrowEntry(ghost i: nat, n: Inode, j: nat) returns (rc: int, blk: nat)
      requires With(i, n) && j < PER && 0 < n.ptr[12] < |data| && Entry(data[n.ptr[12]], j) == 0
      modifies this`bits, this`gfree, this`sbFree, this`data, this`owner
      ensures With(i, n) && SameBytes(inodes[i := n], old(data), inodes[i := n], data)
      ensures rc == 0 ==> blk == Val(n, data, IndEntry(j)) != 0
      ensures rc != 0 ==> rc == EFBIG && FullBelow(geo, bits, geo.blocks) && data == old(data)
      ensures MapsAs(n, old(data), n, data, DIRECT + j)
      ensures (rc == 0 <==> SpareCount(geo, old(bits)) > 0) && SpareCount(geo, bits) == SpareCount(geo, old(bits)) - if rc == 0 then 1 else 0
    {
      hide Owned, Counts, FullBelow, Meta, SameBytes, SpareCount, Retarget, MapsAs;
      MapsRefl(n, data);
      ghost var bits0, data0 := bits, data;
      var tab := n.ptr[12];
      assert inodes[i := n][i] == n;
      TableExists(geo, bits, inodes[i := n], data, owner, i);
      var bind := ReadBlock(tab);
      rc, blk := AllocBlock();
      if rc == 0 {
        LinkEntry(geo, bits0, inodes[i := n], data0, owner, i, j, blk);
        WriteBlock(tab, SetEntry(bind, j, blk));
        owner := owner[blk := Key(i, IndEntry(j))];
        EntryThere(inodes[i := n], data0, data, i, j, blk);
        MapsRetarget(inodes[i := n], data0, inodes[i := n], data, i, IndEntry(j), blk, DIRECT + j);
      } else {
        SameBytesRefl(inodes[i := n], data);
      }
    }

    /** ex_get_block: the block behind logical block lb, allocated on request. */
    method GetBlock(ghost i: nat, n: Inode, lb: nat, alloc: bool) returns (rc: int, n2: Inode, pb: nat)
      requires With(i, n)
      modifies this`bits, this`gfree, this`sbFree, this`data, this`owner
      ensures With(i, n2) && SameBytes(inodes[i := n], old(data), inodes[i := n2], data)
      ensures n2 == n.(ptr := n2.ptr) && forall k :: 0 <= k < 15 && (n.ptr[k] != 0 || k >= 13) ==> n2.ptr[k] == n.ptr[k]
      ensures rc == 0 && alloc ==> lb < DIRECT + PER && pb == Val(n2, data, PtrOf(lb)) != 0
      ensures rc == 0 && !alloc ==> lb < DIRECT + PER && pb == Bmap(n, data, lb)
      ensures !alloc || Bmap(n, old(data), lb) != 0 ==> n2 == n && data == old(data) && bits == old(bits) && owner == old(owner)
      ensures lb < DIRECT + PER && (!alloc || Bmap(n, old(data), lb) != 0) ==> rc == 0
      ensures rc == 0 || (rc == EFBIG && (lb >= DIRECT + PER || (alloc && FullBelow(geo, bits, geo.blocks))))
      ensures MapsAs(n, old(data), n2, data, lb) && (lb < DIRECT ==> n2.ptr[12] == n.ptr[12])
      ensures alloc && lb < REACH ==> (rc == 0 <==> Needs(n, old(data), lb, lb + 1) <= SpareCount(geo, old(bits)))
      ensures alloc && rc == 0 ==> SpareCount(geo, bits) == SpareCount(geo, old(bits)) - Needs(n, old(data), lb, lb + 1) && (lb >= DIRECT ==> n2.ptr[12] != 0)
    {
      hide Counts, FullBelow, Meta, SameBytes, SpareCount, MapsAs, Needs;
      SameBytesRefl(inodes[i := n], data);
      MapsRefl(n, data);
      if lb < REACH {
        NeedsOne(n, data, lb);
      }
      rc, n2, pb := 0, n, 0;
      if lb < DIRECT {
        if n.ptr[lb] == 0 && alloc {
          hide Owned;
          rc, n2 := GrowPtr(i, n, lb);
        }
        pb := n2.ptr[lb];
      } else if lb - DIRECT < PER {
        if n.ptr[12] == 0 {
          if !alloc {
            return;
          }
          hide Owned;
          rc, n2 := GrowPtr(i, n, 12);
          if rc != 0 {
            return;
          }
        }
        ghost var mid := data;
        assert MapsAs(n, old(data), n2, mid, REACH);
        TableExists(geo, bits, inodes[i := n2], data, owner, i);
        hide Owned;
        var bind := ReadBlock(n2.ptr[12]);
        pb := Entry(bind, lb - DIRECT);
        if pb == 0 && alloc {
          rc, pb := GrowEntry(i, n2, lb - DIRECT);
        }
        SameBytesTrans(inodes[i := n], old(data), inodes[i := n2], mid, inodes[i := n2], data);
        MapsTrans(n, old(data), n2, mid, n2, data, lb);
      } else {
        rc := EFBIG;
      }
    }

    // -------------------------------------------------------------- files

    /** ex_inode: inode numbers run from 1. */
    predicate HasInode(ino: nat)
      reads this
    {
      1 <= ino <= |inodes|
    }

    /** ex_read_ino: the bytes from off on, at most len of them; holes read as zeros. */
    method ReadIno(ino: nat, off: nat, len: nat) returns (rc: int, out: seq<byte>)
      requires Valid()
      ensures !HasInode(ino) ==> rc == EIO
      ensures HasInode(ino) && IsDir(inodes[ino - 1]) ==> rc == EISDIR
      ensures HasInode(ino) && !IsDir(inodes[ino - 1]) ==>
        var v := View(inodes[ino - 1], data);
        var to := if off >= |v| then off else if off + len > |v| then |v| else off + len;
        if off < to && (to - 1) / BS >= MAPPED then rc == EFBIG
        else rc == |out| && out == if off >= |v| then [] else v[off..to]
    {
      hide Owned, Counts, Meta, Bmap, ByteAt;
      out := [];
      if !HasInode(ino) {
        return EIO, [];
      }
      var n := inodes[ino - 1];
      if IsDir(n) {
        return EISDIR, [];
      }
      if off >= n.size {
        return 0, [];
      }
      var want := if off + len > n.size then n.size - off else len;
      var unsupported := false;
      while |out| < want
        invariant |out| <= want
        invariant forall k :: 0 <= k < |out| ==> out[k] == ByteAt(n, data, off + k)
        invariant unsupported <==> |out| > 0 && (off + |out| - 1) / BS >= MAPPED
      {
        var pos := off + |out|;
        var lb, inb := pos / BS, pos % BS;
        var take := if BS - inb > want - |out| then want - |out| else BS - inb;
        unsupported := unsupported || lb >= MAPPED;
        var pb := Bmap(n, data, lb);
        var chunk: seq<byte>;
        if pb != 0 {
          BlockExists(geo, bits, inodes, data, owner, ino - 1, lb);
          var b := ReadBlock(pb);
          chunk := b[inb..inb + take];
        } else {
          chunk := Zeros()[..take];
        }
        ChunkBytes(n, data, pos, chunk);
        out := out + chunk;
      }
      if unsupported {
        return EFBIG, [];
      }
      rc := |out|;
    }

    /** ex_count_blocks: 512-byte sectors behind the direct and single-indirect pointers. */
    method CountBlocks(n: Inode) returns (sectors: nat)
      requires Shape() && InodeOk(n) && (n.ptr[12] != 0 ==> n.ptr[12] < geo.blocks && !Meta(geo, n.ptr[12]))
      ensures sectors == Sectors(n, data)
      ensures sectors == 2 * NonZero(n.ptr[..DIRECT]) + if n.ptr[12] == 0 then 0 else 2 + 2 * NonZeroEntries(data[n.ptr[12]], PER)
    {
      sectors := 0;
      var k := 0;
      while k < DIRECT
        invariant 0 <= k <= DIRECT && sectors == 2 * NonZero(n.ptr[..k])
      {
        assert n.ptr[..k + 1][..k] == n.ptr[..k];
        if n.ptr[k] != 0 {
          sectors := sectors + 2;
        }
        k := k + 1;
      }
      if n.ptr[12] != 0 {
        sectors := sectors + 2;
        var bind := ReadBlock(n.ptr[12]);
        k := 0;
        while k < PER
          invariant 0 <= k <= PER && sectors == 2 * NonZero(n.ptr[..DIRECT]) + 2 + 2 * NonZeroEntries(bind, k)
        {
          if Entry(bind, k) != 0 {
            sectors := sectors + 2;
          }
          k := k + 1;
        }
      }
    }

    /** One turn of the write loop: find or allocate the block, merge, store. */
    method WriteChunk(i: nat, n: Inode, ghost data0: seq<Block>, off: nat, buf: seq<byte>, done: nat, take: nat) returns (rc: int, n2: Inode)
      requires With(i, n) && done + take <= |buf| && 0 < take && (off + done) % BS + take <= BS && (off + done) / BS < DIRECT + PER
      requires Spliced(inodes, data0, data, i, n, off, buf, done)
      modifies this`bits, this`gfree, this`sbFree, this`data, this`owner
      ensures With(i, n2) && n2 == n.(ptr := n2.ptr) && forall k :: 0 <= k < 15 && (n.ptr[k] != 0 || k >= 13) ==> n2.ptr[k] == n.ptr[k]
      ensures Spliced(inodes, data0, data, i, n2, off, buf, if rc == 0 then done + take else done)
      ensures rc == 0 || rc == EFBIG
      ensures var lb := (off + done) / BS; rc == 0 <==> Needs(n, old(data), lb, lb + 1) <= SpareCount(geo, old(bits))
      ensures var lb := (off + done) / BS; rc == 0 ==>
        SpareCount(geo, bits) == SpareCount(geo, old(bits)) - Needs(n, old(data), lb, lb + 1) && MapsAs(n, old(data), n2, data, lb) &&
        (if lb < DIRECT then n2.ptr[12] == n.ptr[12] else n2.ptr[12] != 0)
    {
      hide Owned, Counts, FullBelow, Meta, SameBytes, Spliced, Val, SpareCount, Needs, MapsAs;
      ghost var data1 := data;
      var lb, inb := (off + done) / BS, (off + done) % BS;
      var pb;
      rc, n2, pb := GetBlock(i, n, lb, true);
      SplicedAlloc(inodes, data0, data1, data, i, n, n2, off, buf, done);
      if rc == 0 {
        assert inodes[i := n2][i] == n2;
        BlockExists(geo, bits, inodes[i := n2], data, owner, i, lb);
        BlockByte(n2, data, lb);
        var x := ReadBlock(pb);
        var y := Patch(x, inb, buf[done..done + take]);
        PatchBlock(geo, bits, inodes[i := n2], data, owner, i, lb, y);
        SplicedPatch(inodes, data0, data, data[pb := y], i, n2, off, buf, done, take, x);
        MapsSame(inodes[i := n2], data, data[pb := y], i);
        MapsTrans(n, old(data), n2, data, n2, data[pb := y], lb);
        WriteBlock(pb, y);
      }
    }

    /** ex_write_data_locked: overwrite and append, never past the end, one block at a time. */
    method WriteData(ino: nat, off: nat, buf: seq<byte>) returns (rc: int)
      requires Valid()
      modifies this`bits, this`gfree, this`sbFree, this`data, this`inodes, this`owner
      ensures Valid() && |inodes| == old(|inodes|)
      ensures rc == EIO <==> !HasInode(ino)
      ensures rc == EISDIR <==> HasInode(ino) && IsDir(old(inodes[ino - 1]))
      ensures HasInode(ino) && !IsDir(old(inodes[ino - 1])) && old(inodes[ino - 1].ptr[13]) != 0 ==> rc == EFBIG
      ensures rc == EINVAL <==> HasInode(ino) && !IsDir(old(inodes[ino - 1])) && old(inodes[ino - 1].ptr[13]) == 0 && off > old(inodes[ino - 1].size)
      ensures rc == |buf| <==> (HasInode(ino) && !IsDir(old(inodes[ino - 1])) && old(inodes[ino - 1].ptr[13]) == 0 &&
        off <= old(inodes[ino - 1].size) && Writable(geo, old(bits), old(inodes[ino - 1]), old(data), off, |buf|))
      ensures rc == |buf| || rc in {EIO, EISDIR, EFBIG, EINVAL} || 0 < rc < |buf|
      ensures rc == |buf| ==> inodes[ino - 1].mode == old(inodes[ino - 1].mode) && View(inodes[ino - 1], data) == Splice(old(View(inodes[ino - 1], data)), off, buf)
      ensures rc != |buf| ==> inodes == old(inodes)
      ensures forall h :: 0 <= h < |inodes| && h + 1 != ino ==> inodes[h] == old(inodes[h]) && View(inodes[h], data) == old(View(inodes[h], data))
    {
      hide Owned, Counts, FullBelow, Meta, SameBytes, Spliced, View, Splice, SpareCount, Needs, MapsAs, Turn, KeepOf, Marked, IsDir, NonZero, NonZeroEntries, Sectors;
      if !HasInode(ino) {
        return EIO;
      }
      var n := inodes[ino - 1];
      if IsDir(n) {
        return EISDIR;
      }
      if n.ptr[13] != 0 {
        return EFBIG;
      }
      if off > n.size {
        return EINVAL;
      }
      var i := ino - 1;
      ghost var data0 := data;
      assert inodes[i := n] == inodes;
      SplicedStart(inodes, data, i, off, buf);
      ghost var a, z := off / BS, KeepOf(off + |buf|);
      ghost var lack := Needs(n, data, a, z) - SpareCount(geo, bits);
      ghost var at: nat := a;
      TurnStart(off, |buf|);
      var done := 0;
      while done < |buf|
        modifies this`bits, this`gfree, this`sbFree, this`data, this`owner
        invariant done <= |buf| && With(i, n)
        invariant n == inodes[i].(ptr := n.ptr) && forall k :: 0 <= k < 15 && (inodes[i].ptr[k] != 0 || k >= 13) ==> n.ptr[k] == inodes[i].ptr[k]
        invariant Spliced(inodes, data0, data, i, n, off, buf, done)
        invariant done > 0 ==> off + done <= (DIRECT + PER) * BS
        invariant Turn(off, |buf|, done, at)
        invariant z <= REACH ==> Needs(n, data, at, z) - SpareCount(geo, bits) == lack
      {
        var pos := off + done;
        var lb, inb := pos / BS, pos % BS;
        var take := if BS - inb > |buf| - done then |buf| - done else BS - inb;
        TurnNext(off, |buf|, done, at, take);
        if lb >= DIRECT + PER {
          BackOut(i, n, data0, off, buf, done);
          return EFBIG;
        }
        ghost var n1, data1 := n, data;
        if z <= REACH {
          NeedsFirst(n, data, at, z);
        }
        rc, n := WriteChunk(i, n, data0, off, buf, done, take);
        if rc != 0 {
          BackOut(i, n, data0, off, buf, done);
          return if done > 0 then done else rc;
        }
        if z <= REACH {
          NeedsNext(n1, data1, n, data, at, z);
        }
        done, at := done + take, at + 1;
      }
      TurnEnd(off, |buf|, at);
      NeedsNone(n, data, z);
      assert inodes[i := n][i] == n;
      if n.ptr[12] != 0 {
        TableExists(geo, bits, inodes[i := n], data, owner, i);
      }
      var sectors := CountBlocks(n);
      var n2 := n.(size := if off + done > n.size then off + done else n.size, sectors := sectors);
      SameInodeBytes(n, n2, data);
      SplicedFinish(inodes, data0, data, i, n, n2, off, buf);
      OwnedSwap(geo, bits, inodes, data, owner, i, n, n2);
      inodes := inodes[i := n2];
      rc := done;
    }

    /** Giving up a write: the inode on disk keeps its old pointers; blocks already taken
        for it stay marked, and nothing else changed. */
    lemma BackOut(i: nat, n: Inode, data0: seq<Block>, off: nat, buf: seq<byte>, done: nat)
      requires With(i, n) && done <= |buf| && Spliced(inodes, data0, data, i, n, off, buf, done)
      requires forall k :: 0 <= k < 15 && inodes[i].ptr[k] != 0 ==> n.ptr[k] == inodes[i].ptr[k]
      ensures Valid()
      ensures forall h :: 0 <= h < |inodes| && h != i ==> View(inodes[h], data) == View(inodes[h], data0)
    {
      Dropping(inodes[i := n], data, i, inodes[i]);
      assert inodes[i := n][i := inodes[i]] == inodes;
      OwnedFewer(geo, bits, inodes[i := n], data, owner, inodes);
      hide ByteAt, Owned;
    }

    // -------------------------------------------------------------- truncation

    /** Frees the direct blocks from `from` on and clears their pointers in memory. */
    method FreeDirect(ghost i: nat, n: Inode, from: nat) returns (n2: Inode)
      requires With(i, n)
      modifies this`bits, this`gfree, this`sbFree
      ensures With(i, n2) && n2 == n.(ptr := n2.ptr)
      ensures forall k :: 0 <= k < 15 ==> n2.ptr[k] == if from <= k < DIRECT then 0 else n.ptr[k]
      ensures FreedSet(geo, old(bits), bits, DirectTo(n, from, DIRECT))
    {
      hide Owned, Counts, Meta, Marked, FreedSet, DirectTo;
      n2 := n;
      var k := from;
      FreedStart(geo, bits, n, from);
      while k < DIRECT
        invariant from <= k && With(i, n2) && n2 == n.(ptr := n2.ptr)
        invariant FreedSet(geo, old(bits), bits, DirectTo(n, from, k))
        invariant forall j :: 0 <= j < 15 ==> n2.ptr[j] == if from <= j < k && j < DIRECT then 0 else n.ptr[j]
      {
        DirectNext(n, from, k);
        if n2.ptr[k] != 0 {
          FreedMore(geo, old(bits), bits, DirectTo(n, from, k), n2.ptr[k]);
          DropDirect(geo, bits, inodes[i := n2], data, owner, i, k);
          assert inodes[i := n2][i := WithPtr(n2, k, 0)] == inodes[i := WithPtr(n2, k, 0)];
          FreeKeeps(geo, bits, inodes[i := WithPtr(n2, k, 0)], data, owner, n2.ptr[k]);
          var rc := FreeBlock(n2.ptr[k]);
          assert rc == 0;
          n2 := WithPtr(n2, k, 0);
        } else {
          FreedZero(geo, old(bits), bits, DirectTo(n, from, k));
        }
        k := k + 1;
      }
      DirectAll(n, from, k);
    }

    /** Frees the blocks behind the single-indirect table; the table as the loop leaves it
        in its buffer. */
    method FreeEntries(ghost i: nat, n: Inode) returns (bind: Block)
      requires With(i, n) && n.ptr[12] != 0
      modifies this`bits, this`gfree, this`sbFree
      ensures With(i, WithPtr(n, 12, 0)) && n.ptr[12] < geo.blocks
      ensures Holds(geo, bits, owner, n.ptr[12], Key(i, Ind)) && Unused(inodes[i := WithPtr(n, 12, 0)], data, n.ptr[12])
      ensures forall k :: 0 <= k < PER ==> Entry(bind, k) == 0
      ensures FreedSet(geo, old(bits), bits, EntriesTo(data, n.ptr[12], PER))
    {
      hide Owned, Counts, Meta, Marked, Entry, Unused, FreedSet, EntriesTo;
      ghost var m := inodes[i := WithPtr(n, 12, 0)];
      assert inodes[i := n][i] == n && inodes[i := n][i := WithPtr(n, 12, 0)] == m;
      TableExists(geo, bits, inodes[i := n], data, owner, i);
      PendingStart(geo, bits, inodes[i := n], data, owner, i);
      var table := ReadBlock(n.ptr[12]);
      bind := table;
      var j := 0;
      EntriesStart(geo, bits, data, n.ptr[12]);
      while j < PER
        invariant 0 <= j <= PER && With(i, WithPtr(n, 12, 0)) && table == data[n.ptr[12]]
        invariant FreedSet(geo, old(bits), bits, EntriesTo(data, n.ptr[12], j))
        invariant Pending(geo, bits, owner, table, n.ptr[12], i, j)
        invariant forall k :: 0 <= k < PER ==> Entry(bind, k) == if k < j then 0 else Entry(table, k)
      {
        var b := Entry(bind, j);
        EntriesNext(data, n.ptr[12], j);
        if b != 0 {
          FreedMore(geo, old(bits), bits, EntriesTo(data, n.ptr[12], j), b);
          PendingStep(geo, bits, owner, table, n.ptr[12], i, j);
          assert Holds(geo, bits, owner, b, Key(i, IndEntry(j)));
          FreeKeeps(geo, bits, m, data, owner, b);
          var rc := FreeBlock(b);
          assert rc == 0;
          bind := SetEntry(bind, j, 0);
        } else {
          FreedZero(geo, old(bits), bits, EntriesTo(data, n.ptr[12], j));
        }
        j := j + 1;
      }
    }

    /** Frees the emptied table itself. */
    method FreeTable(ghost i: nat, n: Inode) returns (n2: Inode)
      requires InodeOk(n) && With(i, WithPtr(n, 12, 0)) && Holds(geo, bits, owner, n.ptr[12], Key(i, Ind)) && Unused(inodes[i := WithPtr(n, 12, 0)], data, n.ptr[12])
      modifies this`bits, this`gfree, this`sbFree
      ensures n2 == WithPtr(n, 12, 0) && With(i, n2) && FreedSet(geo, old(bits), bits, {n.ptr[12]})
    {
      hide Owned, Counts, Meta, Marked, Unused, FreedSet;
      FreedOne(geo, bits, n.ptr[12]);
      FreeKeeps(geo, bits, inodes[i := WithPtr(n, 12, 0)], data, owner, n.ptr[12]);
      var rc := FreeBlock(n.ptr[12]);
      assert rc == 0;
      n2 := WithPtr(n, 12, 0);
    }

    /** The blocks behind the table, and the table: all of it goes. */
    method FreeSingle(ghost i: nat, n: Inode) returns (n2: Inode)
      requires With(i, n)
      modifies this`bits, this`gfree, this`sbFree
      ensures n2 == WithPtr(n, 12, 0) && With(i, n2) && FreedSet(geo, old(bits), bits, SingleBlocks(n, data))
    {
      hide Owned, Counts, Meta, Marked, Unused, FreedSet, EntriesTo, Holds;
      n2 := n;
      SingleNone(geo, bits, n, data);
      if n.ptr[12] != 0 {
        var bind := FreeEntries(i, n);
        var any := AnyEntry(bind);
        assert !any;
        ghost var bits1 := bits;
        n2 := FreeTable(i, n);
        FreedTwice(geo, old(bits), bits1, bits, EntriesTo(data, n.ptr[12], PER), {n.ptr[12]});
      }
    }

    /** ex_truncate_locked: shrink only.  The direct blocks from the new end on are freed, and
        everything behind the table if the new end lies before it; nothing behind it
        otherwise. */
    method Truncate(ino: nat, size: nat) returns (rc: int)
      requires Valid()
      modifies this`bits, this`gfree, this`sbFree, this`inodes
      ensures Valid() && |inodes| == old(|inodes|)
      ensures rc == EIO <==> !HasInode(ino)
      ensures rc == EISDIR <==> HasInode(ino) && IsDir(old(inodes[ino - 1]))
      ensures rc == EINVAL <==> HasInode(ino) && !IsDir(old(inodes[ino - 1])) && old(inodes[ino - 1].ptr[13]) == 0 && size > old(inodes[ino - 1].size)
      ensures rc == 0 <==> (HasInode(ino) && !IsDir(old(inodes[ino - 1])) && old(inodes[ino - 1].ptr[13]) == 0 &&
        size <= old(inodes[ino - 1].size) && (size > 0 || old(inodes[ino - 1].size) == 0 || old(inodes[ino - 1].ptr[14]) == 0))
      ensures rc in {0, EIO, EISDIR, EINVAL, EFBIG}
      ensures rc != 0 ==> inodes == old(inodes) && bits == old(bits)
      ensures rc == 0 ==> View(inodes[ino - 1], data) == old(View(inodes[ino - 1], data))[..size]
      ensures rc == 0 && size < old(inodes[ino - 1].size) ==> FreedSet(geo, old(bits), bits, CutBlocks(old(inodes[ino - 1]), data, KeepOf(size)))
      ensures rc == 0 && size < old(inodes[ino - 1].size) ==> Shortened(old(inodes[ino - 1]), inodes[ino - 1], size)
      ensures forall h :: 0 <= h < |inodes| && h + 1 != ino ==> inodes[h] == old(inodes[h])
    {
      hide Owned, Counts, Meta, Marked, Unused, View, Holds, FreedSet, SingleBlocks, DirectTo;
      if !HasInode(ino) {
        return EIO;
      }
      var i, n := ino - 1, inodes[ino - 1];
      if IsDir(n) {
        return EISDIR;
      }
      if n.ptr[13] != 0 {
        return EFBIG;
      }
      if size >= n.size {
        ViewPrefix(n, n, data, size);
        return if size == n.size then 0 else EINVAL;
      }
      assert inodes[i := n] == inodes;
      var n1, n2 := n, n;
      ghost var bits1 := bits;
      if size == 0 {
        if n.ptr[14] != 0 {
          return EFBIG;
        }
        n1 := FreeDirect(i, n, 0);
        bits1 := bits;
        n2 := FreeSingle(i, n1);
        SameSingle(n, n1, data);
        FreedTwice(geo, old(bits), bits1, bits, DirectTo(n, 0, DIRECT), SingleBlocks(n, data));
        n2 := n2.(size := 0, sectors := 0);
      } else {
        var keep := KeepOf(size);
        n1 := FreeDirect(i, n, keep);
        bits1, n2 := bits, n1;
        if keep < DIRECT {
          n2 := FreeSingle(i, n1);
          SameSingle(n, n1, data);
          FreedTwice(geo, old(bits), bits1, bits, DirectTo(n, keep, DIRECT), SingleBlocks(n, data));
        }
        if n2.ptr[12] != 0 {
          assert inodes[i := n2][i] == n2;
          TableExists(geo, bits, inodes[i := n2], data, owner, i);
        }
        var sectors := CountBlocks(n2);
        n2 := n2.(size := size, sectors := sectors);
      }
      ViewPrefix(n, n2, data, size);
      OwnedSwap(geo, bits, inodes, data, owner, i, n2.(size := n.size, sectors := n.sectors), n2);
      inodes := inodes[i := n2];
      rc := 0;
    }

    method AnyEntry(bind: Block) returns (any: bool)
      ensures any <==> exists k :: 0 <= k < PER && Entry(bind, k) != 0
    {
      var j := 0;
      while j < PER
        invariant 0 <= j <= PER && forall k :: 0 <= k < j ==> Entry(bind, k) == 0
      {
        if Entry(bind, j) != 0 {
          return true;
        }
        j := j + 1;
      }
      any := false;
    }

    // -------------------------------------------------------------- runs

    /** One edit: it succeeds exactly when the disk admits it. */
    method Apply(e: Edit) returns (ok: bool)
      requires Valid()
      modifies this`bits, this`gfree, this`sbFree, this`data, this`inodes, this`owner
      ensures Valid() && (ok <==> Admits(geo, old(Disk(bits, inodes, data)), e))
      ensures ok ==> Stepped(old(Disk(bits, inodes, data)), Disk(bits, inodes, data), e)
    {
      hide Owned, Counts, View, SpareCount, Needs, Writable;
      var rc;
      match e {
        case Write(ino, off, buf) =>
          rc := WriteData(ino, off, buf);
          ok := rc == |buf|;
        case Cut(ino, size) =>
          rc := Truncate(ino, size);
          ok := rc == 0;
      }
    }

    /** Any run of writes and truncations, up to the first that fails: each edit succeeds
        exactly when the disk before it admits it, and what the whole run leaves of every
        file is what the same edits make of a plain byte sequence. */
    method RunEdits(edits: seq<Edit>) returns (ok: bool, ghost trace: seq<Disk>)
      requires Valid()
      modifies this`bits, this`gfree, this`sbFree, this`data, this`inodes, this`owner
      ensures Valid() && |inodes| == old(|inodes|)
      ensures EditsTraced(geo, trace, edits) && trace[0] == old(Disk(bits, inodes, data)) && (ok <==> |trace| == |edits| + 1)
      ensures ok ==> trace[|edits|] == Disk(bits, inodes, data)
      ensures !ok ==> !Admits(geo, trace[|trace| - 1], edits[|trace| - 1])
      ensures ok ==> forall h :: 0 <= h < |inodes| ==> View(inodes[h], data) == Edited(edits, h + 1, old(View(inodes[h], data)))
    {
      hide Owned, Counts, View, Admits, Edited, Stepped;
      trace := [Disk(bits, inodes, data)];
      var k := 0;
      while k < |edits|
        invariant 0 <= k <= |edits| && Valid() && |trace| == k + 1
        invariant EditsTraced(geo, trace, edits) && trace[0] == old(Disk(bits, inodes, data)) && trace[k] == Disk(bits, inodes, data)
      {
        ok := Apply(edits[k]);
        if !ok {
          TraceLength(geo, trace, edits, k);
          return;
        }
        trace := trace + [Disk(bits, inodes, data)];
        k := k + 1;
      }
      ok := true;
      TraceViews(geo, trace, edits, k);
      assert edits[..k] == edits;
    }
  }

  /** Every block below n that could be given out has been. */
  ghost predicate FullBelow(g: Geo, bits: seq<seq<bool>>, n: nat)
    requires GeoOk(g) && BitsOk(g, bits)
  {
    forall b :: 0 < b < n && b < g.blocks && !Meta(g, b) ==> Marked(g, bits, b)
  }

  lemma SpareNone(g: Geo, bits: seq<seq<bool>>)
    requires GeoOk(g) && BitsOk(g, bits)
    ensures FullBelow(g, bits, g.blocks) <==> SpareCount(g, bits) == 0
  {
    hide Meta, Marked;
    if SpareCount(g, bits) == 0 {
      forall b | 0 < b < g.blocks && !Meta(g, b) ensures Marked(g, bits, b) {
        assert b !in Spare(g, bits);
      }
    } else {
      var b :| b in Spare(g, bits);
    }
    if FullBelow(g, bits, g.blocks) {
      assert Spare(g, bits) == {};
    }
  }

  lemma FullNext(g: Geo, bits: seq<seq<bool>>, n: nat)
    requires GeoOk(g) && BitsOk(g, bits) && FullBelow(g, bits, n) && 0 < n < g.blocks && (Meta(g, n) || Marked(g, bits, n))
    ensures FullBelow(g, bits, n + 1)
  {
  }

  lemma NextGroup(g: Geo, bits: seq<seq<bool>>, k: nat, slot: nat)
    requires GeoOk(g) && BitsOk(g, bits) && FullBelow(g, bits, BlockOf(g, k, slot)) && (slot == g.bpg || BlockOf(g, k, slot) >= g.blocks)
    ensures FullBelow(g, bits, BlockOf(g, k + 1, 0))
  {
    assert (k + 1) * g.bpg == k * g.bpg + g.bpg;
    hide Marked, Meta;
  }

  /** The last block lies in the last group. */
  lemma AllGroups(g: Geo)
    requires GeoOk(g)
    ensures g.blocks <= BlockOf(g, |g.desc|, 0)
  {
    var n, top := Groups(g), g.blocks + g.bpg - 1;
    assert top == n * g.bpg + top % g.bpg;
  }

  lemma MapsRefl(n: Inode, data: seq<Block>)
    requires InodeOk(n)
    ensures forall lb :: MapsAs(n, data, n, data, lb)
  {
  }

  lemma EntryThere(inodes: seq<Inode>, data: seq<Block>, data2: seq<Block>, i: nat, j: nat, b: nat)
    requires InodesOk(inodes) && j < PER && Retarget(inodes, data, inodes, data2, Key(i, IndEntry(j)), b)
    ensures i < |inodes| && Val(inodes[i], data2, IndEntry(j)) == b
  {
    hide Val;
  }

  lemma SameBytesRefl(inodes: seq<Inode>, data: seq<Block>)
    requires InodesOk(inodes)
    ensures SameBytes(inodes, data, inodes, data)
  {
  }

  lemma TableExists(g: Geo, bits: seq<seq<bool>>, inodes: seq<Inode>, data: seq<Block>, owner: map<nat, Key>, i: nat)
    requires GeoOk(g) && BitsOk(g, bits) && InodesOk(inodes) && Owned(g, bits, inodes, data, owner)
    requires i < |inodes| && inodes[i].ptr[12] != 0
    ensures inodes[i].ptr[12] < g.blocks && !Meta(g, inodes[i].ptr[12])
  {
    assert GoodPtr(Ind) && Val(inodes[i], data, Ind) == inodes[i].ptr[12];
    assert Holds(g, bits, owner, inodes[i].ptr[12], Key(i, Ind));
  }

  lemma BlockExists(g: Geo, bits: seq<seq<bool>>, inodes: seq<Inode>, data: seq<Block>, owner: map<nat, Key>, i: nat, lb: nat)
    requires GeoOk(g) && BitsOk(g, bits) && InodesOk(inodes) && Owned(g, bits, inodes, data, owner)
    requires i < |inodes| && Bmap(inodes[i], data, lb) != 0
    ensures Bmap(inodes[i], data, lb) < g.blocks && !Meta(g, Bmap(inodes[i], data, lb))
  {
    hide Val;
    assert Holds(g, bits, owner, Val(inodes[i], data, PtrOf(lb)), Key(i, PtrOf(lb)));
  }

  /** A run of bytes within one block of a file. */
  lemma ChunkBytes(n: Inode, data: seq<Block>, pos: nat, chunk: seq<byte>)
    requires InodeOk(n) && pos % BS + |chunk| <= BS
    requires var b := Bmap(n, data, pos / BS);
      if b != 0 then b < |data| && chunk == data[b][pos % BS..pos % BS + |chunk|] else chunk == Zeros()[..|chunk|]
    ensures forall k :: 0 <= k < |chunk| ==> chunk[k] == ByteAt(n, data, pos + k)
  {
    hide Bmap;
    forall k | 0 <= k < |chunk| ensures chunk[k] == ByteAt(n, data, pos + k) {
      assert (pos + k) / BS == pos / BS && (pos + k) % BS == pos % BS + k;
    }
  }

  function NonZero(s: seq<nat>): nat {
    if s == [] then 0 else NonZero(s[..|s| - 1]) + if s[|s| - 1] != 0 then 1 else 0
  }

  function NonZeroEntries(b: Block, n: nat): nat
    requires n <= PER
  {
    if n == 0 then 0 else NonZeroEntries(b, n - 1) + if Entry(b, n - 1) != 0 then 1 else 0
  }

  /** Two sectors for every block behind the direct and single-indirect pointers. */
  function Sectors(n: Inode, data: seq<Block>): nat
    requires InodeOk(n) && (n.ptr[12] != 0 ==> n.ptr[12] < |data|)
  {
    2 * NonZero(n.ptr[..DIRECT]) + if n.ptr[12] == 0 then 0 else 2 + 2 * NonZeroEntries(data[n.ptr[12]], PER)
  }

  lemma SplicedStart(inodes: seq<Inode>, data: seq<Block>, i: nat, off: nat, buf: seq<byte>)
    requires InodesOk(inodes) && i < |inodes|
    ensures Spliced(inodes, data, data, i, inodes[i], off, buf, 0)
  {
  }

  lemma SplicedFinish(inodes: seq<Inode>, data0: seq<Block>, data: seq<Block>, i: nat, n: Inode, n2: Inode, off: nat, buf: seq<byte>)
    requires InodesOk(inodes) && i < |inodes| && InodeOk(n) && InodeOk(n2) && n.ptr == n2.ptr && off <= inodes[i].size
    requires Spliced(inodes, data0, data, i, n, off, buf, |buf|)
    requires n2.size == if off + |buf| > inodes[i].size then off + |buf| else inodes[i].size
    ensures View(n2, data) == Splice(View(inodes[i], data0), off, buf)
    ensures forall h :: 0 <= h < |inodes| && h != i ==> View(inodes[h], data) == View(inodes[h], data0)
  {
    SameInodeBytes(n, n2, data);
    hide ByteAt, View;
    assert Spliced(inodes, data0, data, i, n2, off, buf, |buf|);
    SplicedView(inodes, data0, data, i, n2, off, buf);
  }

  /** Only the pointers of an inode matter for ownership. */
  lemma OwnedSwap(g: Geo, bits: seq<seq<bool>>, inodes: seq<Inode>, data: seq<Block>, owner: map<nat, Key>, i: nat, n: Inode, n2: Inode)
    requires GeoOk(g) && BitsOk(g, bits) && InodesOk(inodes) && i < |inodes| && InodeOk(n) && InodeOk(n2) && n.ptr == n2.ptr
    requires Owned(g, bits, inodes[i := n], data, owner)
    ensures Owned(g, bits, inodes[i := n2], data, owner)
  {
    Dropping(inodes[i := n], data, i, n2);
    assert inodes[i := n][i := n2] == inodes[i := n2];
    OwnedFewer(g, bits, inodes[i := n], data, owner, inodes[i := n2]);
  }

  /** How many blocks of a file of this size are kept. */
  function KeepOf(size: nat): (k: nat)
    ensures size <= k * BS < size + BS
  {
    (size + BS - 1) / BS
  }

  function DirectTo(n: Inode, from: nat, to: nat): set<nat>
    requires InodeOk(n)
  {
    set k | from <= k < to && k < DIRECT :: n.ptr[k]
  }

  function EntriesTo(data: seq<Block>, b: nat, to: nat): set<nat>
    requires to <= PER
  {
    set j | 0 <= j < to :: Tab(data, b, j)
  }

  /** The table of an inode and the blocks behind it. */
  function SingleBlocks(n: Inode, data: seq<Block>): set<nat>
    requires InodeOk(n)
  {
    EntriesTo(data, n.ptr[12], PER) + {n.ptr[12]}
  }

  /** What a cut to `keep` blocks frees. */
  function CutBlocks(n: Inode, data: seq<Block>, keep: nat): set<nat>
    requires InodeOk(n)
  {
    if keep < DIRECT then DirectTo(n, keep, DIRECT) + SingleBlocks(n, data) else DirectTo(n, keep, DIRECT)
  }

  /** What it leaves in the inode. */
  predicate Shortened(n: Inode, n2: Inode, size: nat)
    requires InodeOk(n) && InodeOk(n2)
  {
    n2.size == size && n2.mode == n.mode &&
    forall k :: 0 <= k < 15 ==> n2.ptr[k] == if KeepOf(size) <= k < DIRECT || (k == 12 && KeepOf(size) < DIRECT) then 0 else n.ptr[k]
  }

  /** Exactly the marked blocks among `gone` lost their marks. */
  ghost predicate FreedSet(g: Geo, bits: seq<seq<bool>>, bits2: seq<seq<bool>>, gone: set<nat>)
    requires GeoOk(g) && BitsOk(g, bits) && BitsOk(g, bits2)
  {
    forall b :: 0 < b < g.blocks ==> (Marked(g, bits2, b) <==> Marked(g, bits, b) && b !in gone)
  }

  lemma FreedStart(g: Geo, bits: seq<seq<bool>>, n: Inode, from: nat)
    requires GeoOk(g) && BitsOk(g, bits) && InodeOk(n)
    ensures FreedSet(g, bits, bits, DirectTo(n, from, from))
  {
    hide Marked;
  }

  lemma FreedMore(g: Geo, bits0: seq<seq<bool>>, bits: seq<seq<bool>>, gone: set<nat>, b: nat)
    requires GeoOk(g) && BitsOk(g, bits0) && BitsOk(g, bits) && FreedSet(g, bits0, bits, gone)
    ensures 0 < b < g.blocks ==> FreedSet(g, bits0, SetBit(g, bits, b, false), gone + {b})
  {
    hide Marked, SetBit;
    if 0 < b < g.blocks {
      SetBitMarks(g, bits, b, false);
    }
  }

  lemma FreedZero(g: Geo, bits0: seq<seq<bool>>, bits: seq<seq<bool>>, gone: set<nat>)
    requires GeoOk(g) && BitsOk(g, bits0) && BitsOk(g, bits) && FreedSet(g, bits0, bits, gone)
    ensures FreedSet(g, bits0, bits, gone + {0})
  {
    hide Marked;
  }

  lemma FreedOne(g: Geo, bits: seq<seq<bool>>, b: nat)
    requires GeoOk(g) && BitsOk(g, bits) && 0 < b < g.blocks
    ensures FreedSet(g, bits, SetBit(g, bits, b, false), {b})
  {
    hide Marked, SetBit;
    SetBitMarks(g, bits, b, false);
  }

  lemma FreedTwice(g: Geo, bits0: seq<seq<bool>>, bits1: seq<seq<bool>>, bits2: seq<seq<bool>>, a: set<nat>, b: set<nat>)
    requires GeoOk(g) && BitsOk(g, bits0) && BitsOk(g, bits1) && BitsOk(g, bits2) && FreedSet(g, bits0, bits1, a) && FreedSet(g, bits1, bits2, b)
    ensures FreedSet(g, bits0, bits2, a + b)
  {
    hide Marked;
  }

  lemma DirectNext(n: Inode, from: nat, k: nat)
    requires InodeOk(n) && from <= k < DIRECT
    ensures DirectTo(n, from, k + 1) == DirectTo(n, from, k) + {n.ptr[k]}
  {
  }

  lemma DirectAll(n: Inode, from: nat, k: nat)
    requires InodeOk(n) && k >= DIRECT
    ensures DirectTo(n, from, k) == DirectTo(n, from, DIRECT)
  {
  }

  lemma EntriesStart(g: Geo, bits: seq<seq<bool>>, data: seq<Block>, b: nat)
    requires GeoOk(g) && BitsOk(g, bits)
    ensures FreedSet(g, bits, bits, EntriesTo(data, b, 0))
  {
    hide Marked;
  }

  lemma EntriesNext(data: seq<Block>, b: nat, j: nat)
    requires j < PER
    ensures EntriesTo(data, b, j + 1) == EntriesTo(data, b, j) + {Tab(data, b, j)}
  {
    hide Tab;
  }

  lemma SingleNone(g: Geo, bits: seq<seq<bool>>, n: Inode, data: seq<Block>)
    requires GeoOk(g) && BitsOk(g, bits) && InodeOk(n)
    ensures n.ptr[12] == 0 ==> FreedSet(g, bits, bits, SingleBlocks(n, data)) && WithPtr(n, 12, 0) == n
  {
    hide Marked;
    assert n.ptr[12] == 0 ==> n.ptr[12 := 0] == n.ptr;
  }

  lemma SameSingle(n: Inode, n1: Inode, data: seq<Block>)
    requires InodeOk(n) && InodeOk(n1) && n1.ptr[12] == n.ptr[12]
    ensures SingleBlocks(n1, data) == SingleBlocks(n, data)
  {
  }

  /** Every block past the new end is freed if and only if the end lies before the table or
      the table maps nothing past it. */
  lemma CutComplete(n: Inode, data: seq<Block>, keep: nat)
    requires InodeOk(n)
    ensures (forall lb :: keep <= lb < DIRECT + PER && Bmap(n, data, lb) != 0 ==> Bmap(n, data, lb) in CutBlocks(n, data, keep)) <==>
      keep < DIRECT || forall j :: keep - DIRECT <= j < PER ==> Tab(data, n.ptr[12], j) == 0
  {
    hide Tab;
    if keep < DIRECT {
      forall lb | keep <= lb < DIRECT + PER ensures Bmap(n, data, lb) in CutBlocks(n, data, keep) {
        if lb < DIRECT {
          assert n.ptr[lb] in DirectTo(n, keep, DIRECT);
        } else {
          assert Tab(data, n.ptr[12], lb - DIRECT) in EntriesTo(data, n.ptr[12], PER);
        }
      }
    } else {
      forall j | keep - DIRECT <= j < PER ensures Bmap(n, data, DIRECT + j) == Tab(data, n.ptr[12], j) {
      }
    }
  }

  lemma DropDirect(g: Geo, bits: seq<seq<bool>>, inodes: seq<Inode>, data: seq<Block>, owner: map<nat, Key>, i: nat, k: nat)
    requires GeoOk(g) && BitsOk(g, bits) && InodesOk(inodes) && Owned(g, bits, inodes, data, owner)
    requires i < |inodes| && k < DIRECT && inodes[i].ptr[k] != 0
    ensures InodesOk(inodes[i := WithPtr(inodes[i], k, 0)]) && Owned(g, bits, inodes[i := WithPtr(inodes[i], k, 0)], data, owner)
    ensures Unused(inodes[i := WithPtr(inodes[i], k, 0)], data, inodes[i].ptr[k])
    ensures Holds(g, bits, owner, inodes[i].ptr[k], Key(i, Direct(k)))
  {
    var m := inodes[i := WithPtr(inodes[i], k, 0)];
    assert Val(inodes[i], data, Direct(k)) == inodes[i].ptr[k];
    Dropping(inodes, data, i, WithPtr(inodes[i], k, 0));
    OwnedFewer(g, bits, inodes, data, owner, m);
    DroppedUnused(g, bits, inodes, data, owner, m, i, Direct(k));
  }

  /** Dropping pointers past the new end leaves the bytes before it. */
  lemma ViewPrefix(n: Inode, n2: Inode, data: seq<Block>, size: nat)
    requires InodeOk(n) && InodeOk(n2)
    requires forall k :: 0 <= k < 15 && ((k < DIRECT && k * BS < size) || size > DIRECT * BS) ==> n2.ptr[k] == n.ptr[k]
    ensures size <= n.size && n2.size == size ==> View(n2, data) == View(n, data)[..size]
  {
    if size <= n.size && n2.size == size {
      forall pos | 0 <= pos < size ensures ByteAt(n2, data, pos) == ByteAt(n, data, pos) {
        if size <= DIRECT * BS {
          assert pos / BS < DIRECT && pos / BS * BS < size;
          assert n2.ptr[pos / BS] == n.ptr[pos / BS];
        } else {
          assert n2.ptr == n.ptr;
        }
      }
    }
  }

  /** What a disk holds between two edits. */
  datatype Disk = Disk(bits: seq<seq<bool>>, inodes: seq<Inode>, data: seq<Block>)

  ghost predicate Sane(g: Geo, d: Disk) { GeoOk(g) && BitsOk(g, d.bits) && InodesOk(d.inodes) }

  /** A range of a file can be written: it is empty, or within reach of the single-indirect
      map with blocks enough for what is missing. */
  ghost predicate Writable(g: Geo, bits: seq<seq<bool>>, n: Inode, data: seq<Block>, off: nat, len: nat)
    requires GeoOk(g) && BitsOk(g, bits) && InodeOk(n)
  {
    len == 0 || (off + len <= (DIRECT + PER) * BS && Needs(n, data, off / BS, KeepOf(off + len)) <= SpareCount(g, bits))
  }

  /** The edit succeeds on this disk. */
  ghost predicate Admits(g: Geo, d: Disk, e: Edit)
    requires Sane(g, d)
  {
    1 <= e.ino <= |d.inodes| &&
    var n := d.inodes[e.ino - 1];
    !IsDir(n) && n.ptr[13] == 0 &&
    match e
    case Write(_, off, buf) => off <= n.size && Writable(g, d.bits, n, d.data, off, |buf|)
    case Cut(_, size) => size <= n.size && (size > 0 || n.size == 0 || n.ptr[14] == 0)
  }

  /** The next block the write loop turns to is `at`. */
  predicate Turn(off: nat, len: nat, done: nat, at: nat) {
    if done == 0 then at == off / BS else if done == len then at == KeepOf(off + len) else (off + done) % BS == 0 && at == (off + done) / BS
  }

  lemma TurnStart(off: nat, len: nat)
    ensures Turn(off, len, 0, off / BS)
  {
  }

  lemma TurnEnd(off: nat, len: nat, at: nat)
    requires Turn(off, len, len, at)
    ensures 0 < len ==> at == KeepOf(off + len)
  {
  }

  lemma TurnNext(off: nat, len: nat, done: nat, at: nat, take: nat)
    requires done < len && Turn(off, len, done, at)
    requires take == var inb := (off + done) % BS; if BS - inb > len - done then len - done else BS - inb
    ensures at == (off + done) / BS && 0 < take && Turn(off, len, done + take, at + 1) && at < KeepOf(off + len)
  {
    var pos := off + done;
    assert pos == at * BS + pos % BS;
    if done + take == len {
      assert at * BS < off + len <= at * BS + BS;
    } else {
      assert pos + take == (at + 1) * BS;
    }
  }

  lemma NeedsFirst(n: Inode, data: seq<Block>, a: nat, b: nat)
    requires InodeOk(n) && a < b <= REACH
    ensures Needs(n, data, a, b) >= Needs(n, data, a, a + 1)
  {
    hide Bmap;
    assert Missing(n, data, a + 1, a + 1) == 0;
  }

  lemma NeedsNone(n: Inode, data: seq<Block>, z: nat)
    requires InodeOk(n)
    ensures Needs(n, data, z, z) == 0
  {
  }

  datatype Edit = Write(ino: nat, off: nat, buf: seq<byte>) | Cut(ino: nat, size: nat)

  /** What one edit makes of the bytes of file ino. */
  function EditOne(e: Edit, ino: nat, w: seq<byte>): seq<byte> {
    match e
    case Write(f, off, buf) => if f == ino && off <= |w| then Splice(w, off, buf) else w
    case Cut(f, size) => if f == ino && size <= |w| then w[..size] else w
  }

  /** What edits make of the plain byte sequence of file ino. */
  function Edited(edits: seq<Edit>, ino: nat, v: seq<byte>): seq<byte> {
    if edits == [] then v else EditOne(edits[|edits| - 1], ino, Edited(edits[..|edits| - 1], ino, v))
  }

  ghost predicate Stepped(d: Disk, d2: Disk, e: Edit) {
    InodesOk(d.inodes) && InodesOk(d2.inodes) && |d2.inodes| == |d.inodes| &&
    forall h :: 0 <= h < |d.inodes| ==> View(d2.inodes[h], d2.data) == EditOne(e, h + 1, View(d.inodes[h], d.data))
  }

  /** The disks a run passes through. */
  ghost predicate EditsTraced(g: Geo, trace: seq<Disk>, edits: seq<Edit>) {
    0 < |trace| <= |edits| + 1 && (forall k :: 0 <= k < |trace| ==> Sane(g, trace[k])) &&
    forall k :: 0 <= k < |trace| - 1 ==> Admits(g, trace[k], edits[k]) && Stepped(trace[k], trace[k + 1], edits[k])
  }

  lemma {:induction false} TraceLength(g: Geo, trace: seq<Disk>, edits: seq<Edit>, k: nat)
    requires EditsTraced(g, trace, edits) && k < |trace|
    ensures |trace[k].inodes| == |trace[0].inodes|
  {
    hide Admits, View;
    if k > 0 {
      TraceLength(g, trace, edits, k - 1);
      assert Stepped(trace[k - 1], trace[k - 1 + 1], edits[k - 1]);
    }
  }

  lemma {:induction false} TraceViews(g: Geo, trace: seq<Disk>, edits: seq<Edit>, k: nat)
    requires EditsTraced(g, trace, edits) && k < |trace|
    ensures |trace[k].inodes| == |trace[0].inodes|
    ensures forall h :: 0 <= h < |trace[0].inodes| ==> View(trace[k].inodes[h], trace[k].data) == Edited(edits[..k], h + 1, View(trace[0].inodes[h], trace[0].data))
  {
    hide Admits, View, EditOne;
    TraceLength(g, trace, edits, k);
    if k > 0 {
      TraceViews(g, trace, edits, k - 1);
      assert Stepped(trace[k - 1], trace[k - 1 + 1], edits[k - 1]);
      assert edits[..k][..k - 1] == edits[..k - 1];
    }
  }
}
