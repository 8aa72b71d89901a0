/** Directories as files of record blocks: lookup, listing, insertion and file creation on
    a mounted volume. */
module Ext2Names {
  import opened Arith
  import opened Ext2Layout
  import opened Ext2Blocks
  import opened Ext2Files
  import opened Ext2Dirs
  import opened Ext2Space
  import opened Ext2Volume

  const MAX_DIR_BLOCKS: nat := DIRECT + PER

  /** Logical block lb of a directory, as its bytes read. */
  function DirBlock(n: Inode, data: seq<Block>, lb: nat): Block
    requires InodeOk(n)
  {
    Bytes(n, data, lb * BS, BS)
  }

  function Bytes(n: Inode, data: seq<Block>, at: nat, len: nat): (s: seq<byte>)
    requires InodeOk(n)
    ensures |s| == len && forall k :: 0 <= k < len ==> s[k] == ByteAt(n, data, at + k)
  {
    seq<byte>(len, k requires 0 <= k < len => ByteAt(n, data, at + k))
  }

  /** The live entries of the first k blocks. */
  function DirList(n: Inode, data: seq<Block>, k: nat): seq<Ent>
    requires InodeOk(n)
  {
    if k == 0 then [] else DirList(n, data, k - 1) + Entries(DirBlock(n, data, k - 1), 0)
  }

  function DirBlocks(n: Inode): nat { (n.size + BS - 1) / BS }

  function Listing(n: Inode, data: seq<Block>): seq<Ent>
    requires InodeOk(n)
  {
    DirList(n, data, DirBlocks(n))
  }

  /** A well-formed directory: whole blocks, every one tiled, within the write scope. */
  ghost predicate DirOk(n: Inode, data: seq<Block>)
    requires InodeOk(n)
  {
    n.size % BS == 0 && n.size / BS <= MAX_DIR_BLOCKS && n.ptr[13] == 0 && forall lb :: 0 <= lb < n.size / BS ==> Tiled(DirBlock(n, data, lb), 0)
  }

  // ---------------------------------------------------------------- listings

  lemma WholeBlocks(n: Inode)
    requires n.size % BS == 0
    ensures DirBlocks(n) == n.size / BS
  {
  }

  lemma BlockIs(n: Inode, data: seq<Block>, lb: nat)
    requires InodeOk(n) && lb < MAPPED && Bmap(n, data, lb) < |data|
    ensures DirBlock(n, data, lb) == if Bmap(n, data, lb) == 0 then Zeros() else data[Bmap(n, data, lb)]
  {
    hide Bmap;
    forall k | 0 <= k < BS ensures DirBlock(n, data, lb)[k] == (if Bmap(n, data, lb) == 0 then Zeros() else data[Bmap(n, data, lb)])[k] {
      assert (lb * BS + k) / BS == lb && (lb * BS + k) % BS == k;
    }
  }

  /** A tiled block is not a hole. */
  lemma TiledMapped(n: Inode, data: seq<Block>, lb: nat)
    requires InodeOk(n) && lb < MAPPED && Bmap(n, data, lb) < |data| && Tiled(DirBlock(n, data, lb), 0)
    ensures Bmap(n, data, lb) != 0
  {
    BlockIs(n, data, lb);
    assert Rlen(Zeros(), 0) == 0;
  }

  lemma ZerosEmpty()
    ensures Entries(Zeros(), 0) == []
  {
    assert Rlen(Zeros(), 0) == 0;
  }

  lemma {:induction false} SameList(n: Inode, data: seq<Block>, n2: Inode, data2: seq<Block>, k: nat)
    requires InodeOk(n) && InodeOk(n2)
    requires forall lb :: 0 <= lb < k ==> DirBlock(n2, data2, lb) == DirBlock(n, data, lb)
    ensures DirList(n2, data2, k) == DirList(n, data, k)
  {
    hide DirBlock, Entries;
    if k > 0 {
      SameList(n, data, n2, data2, k - 1);
    }
  }

  lemma {:induction false} EntriesBound(b: Block, off: nat)
    ensures forall j :: 0 <= j < |Entries(b, off)| ==> Entries(b, off)[j].ino != 0
    decreases BS - off
  {
    hide Ino, Nlen;
    if !Stops(b, off) {
      EntriesBound(b, off + Rlen(b, off));
    }
  }

  lemma {:induction false} ListBound(n: Inode, data: seq<Block>, k: nat)
    requires InodeOk(n)
    ensures forall j :: 0 <= j < |DirList(n, data, k)| ==> DirList(n, data, k)[j].ino != 0
  {
    hide DirBlock;
    if k > 0 {
      ListBound(n, data, k - 1);
      EntriesBound(DirBlock(n, data, k - 1), 0);
    }
  }

  /** Lookup goes through a listing piece by piece. */
  lemma BindingConcat(a: seq<Ent>, b: seq<Ent>, comp: seq<byte>)
    requires forall j :: 0 <= j < |a| ==> a[j].ino != 0
    ensures Binding(a + b, comp) == if Binding(a, comp) != 0 then Binding(a, comp) else Binding(b, comp)
  {
    hide First, Matches;
    var f := First(a, comp);
    if f < |a| {
      FirstUnique(a + b, comp, f);
    } else {
      FirstUnique(a + b, comp, |a| + First(b, comp));
    }
  }

  lemma {:induction false} ListPrefix(n: Inode, data: seq<Block>, j: nat, k: nat)
    requires InodeOk(n) && j <= k
    ensures DirList(n, data, j) <= DirList(n, data, k)
  {
    hide DirBlock, Entries;
    if j < k {
      ListPrefix(n, data, j, k - 1);
    }
  }

  /** A match in the first blocks is the match. */
  lemma BindingPrefix(n: Inode, data: seq<Block>, j: nat, k: nat, comp: seq<byte>)
    requires InodeOk(n) && j <= k && Binding(DirList(n, data, j), comp) != 0
    ensures Binding(DirList(n, data, k), comp) == Binding(DirList(n, data, j), comp)
  {
    ListPrefix(n, data, j, k);
    var a, b := DirList(n, data, j), DirList(n, data, k);
    assert b == a + b[|a|..];
    ListBound(n, data, j);
    BindingConcat(a, b[|a|..], comp);
  }

  /** One block gained an entry: so did the directory. */
  lemma {:induction false} ListOneMore(n: Inode, data: seq<Block>, n2: Inode, data2: seq<Block>, lb: nat, k: nat, e: Ent)
    requires InodeOk(n) && InodeOk(n2) && lb < k
    requires forall j :: 0 <= j < k && j != lb ==> DirBlock(n2, data2, j) == DirBlock(n, data, j)
    requires OneMore(Entries(DirBlock(n, data, lb), 0), Entries(DirBlock(n2, data2, lb), 0), e)
    ensures OneMore(DirList(n, data, k), DirList(n2, data2, k), e)
  {
    hide DirBlock, Entries, OneMore;
    if lb == k - 1 {
      SameList(n, data, n2, data2, k - 1);
      OneMoreRight(DirList(n, data, k - 1), Entries(DirBlock(n, data, lb), 0), Entries(DirBlock(n2, data2, lb), 0), e);
    } else {
      ListOneMore(n, data, n2, data2, lb, k - 1, e);
      OneMoreLeft(DirList(n, data, k - 1), DirList(n2, data2, k - 1), Entries(DirBlock(n, data, k - 1), 0), e);
    }
  }

  lemma OneMoreLeft(a: seq<Ent>, a2: seq<Ent>, b: seq<Ent>, e: Ent)
    requires OneMore(a, a2, e)
    ensures OneMore(a + b, a2 + b, e)
  {
    var m :| 0 <= m <= |a| && a2 == a[..m] + [e] + a[m..];
    assert a2 + b == (a + b)[..m] + [e] + (a + b)[m..];
  }

  lemma OneMoreRight(a: seq<Ent>, b: seq<Ent>, b2: seq<Ent>, e: Ent)
    requires OneMore(b, b2, e)
    ensures OneMore(a + b, a + b2, e)
  {
    var m :| 0 <= m <= |b| && b2 == b[..m] + [e] + b[m..];
    assert a + b2 == (a + b)[..|a| + m] + [e] + (a + b)[|a| + m..];
  }

  // ---------------------------------------------------------------- lookup and readdir

  /** The scan of one block for a component. */
  method ScanFor(b: Block, comp: seq<byte>) returns (ino: nat)
    ensures ino == Binding(Entries(b, 0), comp)
  {
    hide Ino, Nlen, Matches;
    var off := 0;
    while !Stops(b, off)
      invariant Binding(Entries(b, 0), comp) == Binding(Entries(b, off), comp)
      decreases BS - off
    {
      if Live(b, off) && Matches(EntAt(b, off)[0], comp) {
        return EntAt(b, off)[0].ino;
      }
      BindingSkip(b, off, comp);
      off := off + Rlen(b, off);
    }
    ino := 0;
  }

  lemma BindingSkip(b: Block, off: nat, comp: seq<byte>)
    requires !Stops(b, off) && (Live(b, off) ==> !Matches(EntAt(b, off)[0], comp))
    ensures Binding(Entries(b, off), comp) == Binding(Entries(b, off + Rlen(b, off)), comp)
  {
    hide Ino, Nlen, Rlen, Matches, First;
    var rest := Entries(b, off + Rlen(b, off));
    if Live(b, off) {
      FirstUnique(EntAt(b, off) + rest, comp, 1 + First(rest, comp));
    } else {
      assert EntAt(b, off) + rest == rest;
    }
  }

  /** How much of a component is searched for, and of an entry's name is listed: the copy
      loops stop at 63 bytes. */
  function Cut63(name: seq<byte>): (r: seq<byte>)
    ensures |r| <= 63 && r <= name
  {
    if |name| <= 63 then name else name[..63]
  }

  const DOT: seq<byte> := [46]

  /** One component of ex_lookup, cut to 63 bytes: `.` is the directory itself; any other
      is the inode number bound in the directory, or why there is none. */
  method Lookup(v: Volume, dirIno: nat, comp: seq<byte>) returns (rc: int, ino: nat)
    requires v.Valid() && v.HasInode(dirIno)
    ensures Cut63(comp) == DOT ==> rc == 0 && ino == dirIno
    ensures Cut63(comp) != DOT && !IsDir(v.inodes[dirIno - 1]) ==> rc == ENOTDIR
    ensures Cut63(comp) != DOT && IsDir(v.inodes[dirIno - 1]) ==>
      var n := v.inodes[dirIno - 1];
      var seen := if DirBlocks(n) < MAX_DIR_BLOCKS then DirBlocks(n) else MAX_DIR_BLOCKS;
      var bound := Binding(DirList(n, v.data, seen), Cut63(comp));
      if bound != 0 then (if v.HasInode(bound) then rc == 0 && ino == bound else rc == EIO)
      else rc == if DirBlocks(n) > MAX_DIR_BLOCKS then EFBIG else ENOENT
  {
    hide Binding, Entries, Owned, Counts, Meta, Bmap, DirBlock;
    ino := 0;
    var n := v.inodes[dirIno - 1];
    var cut := Cut63(comp);
    if cut == DOT {
      return 0, dirIno;
    }
    if !IsDir(n) {
      return ENOTDIR, 0;
    }
    var lb := 0;
    EmptyBinding(cut);
    while lb * BS < n.size
      invariant lb <= DirBlocks(n) && lb <= MAX_DIR_BLOCKS
      invariant Binding(DirList(n, v.data, lb), cut) == 0
      decreases DirBlocks(n) - lb
    {
      if lb == MAX_DIR_BLOCKS {
        return EFBIG, 0;
      }
      var pb := Bmap(n, v.data, lb);
      var found := 0;
      if pb != 0 {
        BlockExists(v.geo, v.bits, v.inodes, v.data, v.owner, dirIno - 1, lb);
        var b := v.ReadBlock(pb);
        found := ScanFor(b, cut);
      } else {
        ZerosEmpty();
        EmptyBinding(cut);
      }
      BlockIs(n, v.data, lb);
      ListBound(n, v.data, lb);
      BindingConcat(DirList(n, v.data, lb), Entries(DirBlock(n, v.data, lb), 0), cut);
      lb := lb + 1;
      if found != 0 {
        BindingPrefix(n, v.data, lb, if DirBlocks(n) < MAX_DIR_BLOCKS then DirBlocks(n) else MAX_DIR_BLOCKS, cut);
        return if v.HasInode(found) then 0 else EIO, found;
      }
    }
    rc := ENOENT;
  }

  lemma EmptyBinding(comp: seq<byte>)
    ensures Binding([], comp) == 0
  {
  }

  /** The scan of one block for its entry number `want`. */
  method ScanNth(b: Block, want: nat) returns (found: bool, e: Ent, passed: nat)
    ensures found <==> want < |Entries(b, 0)|
    ensures found ==> e == Entries(b, 0)[want]
    ensures !found ==> passed == |Entries(b, 0)|
  {
    hide Ino, Nlen, Rlen;
    var off := 0;
    passed, e := 0, Ent(0, []);
    ghost var all := Entries(b, 0);
    while !Stops(b, off)
      invariant passed <= want && passed <= |all| && all[passed..] == Entries(b, off)
      decreases BS - off
    {
      var here := EntAt(b, off);
      ghost var rest := Entries(b, off + Rlen(b, off));
      assert all[passed..] == here + rest;
      if Live(b, off) {
        assert all[passed] == here[0];
        if passed == want {
          return true, here[0], passed;
        }
        assert all[passed + 1..] == all[passed..][1..] == rest;
        passed := passed + 1;
      }
      off := off + Rlen(b, off);
    }
    found := false;
  }

  /** ex_readdir_ino: entry number index of the listing, its name cut to 63 bytes; 0 past
      the end. */
  method ReadDir(v: Volume, dirIno: nat, index: nat) returns (rc: int, ino: nat, isDir: bool, name: seq<byte>)
    requires v.Valid()
    ensures !v.HasInode(dirIno) ==> rc == EIO
    ensures v.HasInode(dirIno) && !IsDir(v.inodes[dirIno - 1]) ==> rc == ENOTDIR
    ensures v.HasInode(dirIno) && IsDir(v.inodes[dirIno - 1]) ==>
      var n := v.inodes[dirIno - 1];
      var seen := if DirBlocks(n) < MAX_DIR_BLOCKS then DirBlocks(n) else MAX_DIR_BLOCKS;
      var list := DirList(n, v.data, seen);
      if index >= |list| then rc == if DirBlocks(n) > MAX_DIR_BLOCKS then EFBIG else 0
      else if !v.HasInode(list[index].ino) then rc == EIO
      else rc == 1 && ino == list[index].ino && isDir == IsDir(v.inodes[ino - 1]) && name == Cut63(list[index].name)
  {
    hide Entries, Owned, Counts, Meta, Bmap, DirBlock;
    ino, isDir, name := 0, false, [];
    if !v.HasInode(dirIno) {
      return EIO, 0, false, [];
    }
    var n := v.inodes[dirIno - 1];
    if !IsDir(n) {
      return ENOTDIR, 0, false, [];
    }
    var lb, seenEntries := 0, 0;
    while lb * BS < n.size
      invariant lb <= DirBlocks(n) && lb <= MAX_DIR_BLOCKS
      invariant seenEntries == |DirList(n, v.data, lb)| <= index
      decreases DirBlocks(n) - lb
    {
      if lb == MAX_DIR_BLOCKS {
        return EFBIG, 0, false, [];
      }
      var pb := Bmap(n, v.data, lb);
      var found, e, passed := false, Ent(0, []), 0;
      if pb != 0 {
        BlockExists(v.geo, v.bits, v.inodes, v.data, v.owner, dirIno - 1, lb);
        var b := v.ReadBlock(pb);
        found, e, passed := ScanNth(b, index - seenEntries);
      } else {
        ZerosEmpty();
      }
      BlockIs(n, v.data, lb);
      if found {
        ListPrefix(n, v.data, lb + 1, if DirBlocks(n) < MAX_DIR_BLOCKS then DirBlocks(n) else MAX_DIR_BLOCKS);
        if !v.HasInode(e.ino) {
          return EIO, 0, false, [];
        }
        return 1, e.ino, IsDir(v.inodes[e.ino - 1]), Cut63(e.name);
      }
      seenEntries := seenEntries + passed;
      lb := lb + 1;
    }
    rc := 0;
  }

  // ---------------------------------------------------------------- insertion

  /** The scan of one block for room. */
  method FindRoom(b: Block, need: nat) returns (p: nat)
    ensures p == Place(b, 0, need)
  {
    hide Ino, Nlen, Rlen, Fits;
    p := 0;
    while !Stops(b, p) && !Fits(b, p, need)
      invariant Place(b, 0, need) == Place(b, p, need)
      decreases BS - p
    {
      p := p + Rlen(b, p);
    }
    if Stops(b, p) {
      p := BS;
    }
  }

  /** How many bytes of a name are stored: the length loop stops at 64. */
  function Cut64(name: seq<byte>): (r: seq<byte>)
    ensures |r| <= 64 && r <= name
  {
    if |name| <= 64 then name else name[..64]
  }

  /** Files other than i show the same bytes. */
  ghost predicate OthersSame(inodes: seq<Inode>, data: seq<Block>, data2: seq<Block>, i: int)
    requires InodesOk(inodes)
  {
    forall h, pos :: 0 <= h < |inodes| && h != i && 0 <= pos ==> ByteAt(inodes[h], data2, pos) == ByteAt(inodes[h], data, pos)
  }

  /** Rewriting block lb of a well-formed directory with one entry more. */
  lemma BlockGains(g: Geo, bits: seq<seq<bool>>, inodes: seq<Inode>, data: seq<Block>, owner: map<nat, Key>, i: nat, lb: nat, pb: nat, x: Block, e: Ent)
    requires GeoOk(g) && BitsOk(g, bits) && InodesOk(inodes) && Owned(g, bits, inodes, data, owner) && |data| == g.blocks
    requires i < |inodes| && DirOk(inodes[i], data) && lb < inodes[i].size / BS && Tiled(x, 0)
    requires 0 < pb < g.blocks && Bmap(inodes[i], data, lb) == pb
    requires OneMore(Entries(data[pb], 0), Entries(x, 0), e)
    ensures Owned(g, bits, inodes, data[pb := x], owner) && DirOk(inodes[i], data[pb := x])
    ensures OneMore(Listing(inodes[i], data), Listing(inodes[i], data[pb := x]), e)
    ensures OthersSame(inodes, data, data[pb := x], i)
  {
    hide Owned, Entries, Tiled, Val, ByteAt, DirBlock;
    PatchBlock(g, bits, inodes, data, owner, i, lb, x);
    BlockIs(inodes[i], data, lb);
    var data2 := data[pb := x];
    forall j | 0 <= j < inodes[i].size / BS ensures DirBlock(inodes[i], data2, j) == if j == lb then x else DirBlock(inodes[i], data, j) {
      OneBlock(inodes, data, data2, i, lb, x, j);
    }
    ListOneMore(inodes[i], data, inodes[i], data2, lb, inodes[i].size / BS, e);
  }

  lemma MapBound(g: Geo, bits: seq<seq<bool>>, inodes: seq<Inode>, data: seq<Block>, owner: map<nat, Key>, i: nat, lb: nat)
    requires GeoOk(g) && BitsOk(g, bits) && InodesOk(inodes) && Owned(g, bits, inodes, data, owner) && i < |inodes|
    ensures Bmap(inodes[i], data, lb) < g.blocks
  {
    if Bmap(inodes[i], data, lb) != 0 {
      BlockExists(g, bits, inodes, data, owner, i, lb);
    }
  }

  lemma OneBlock(inodes: seq<Inode>, data: seq<Block>, data2: seq<Block>, i: nat, lb: nat, x: Block, j: nat)
    requires InodesOk(inodes) && i < |inodes| && Replaced(inodes, data, data2, i, lb, x)
    ensures DirBlock(inodes[i], data2, j) == if j == lb then x else DirBlock(inodes[i], data, j)
  {
    hide ByteAt;
    forall k | 0 <= k < BS ensures DirBlock(inodes[i], data2, j)[k] == (if j == lb then x else DirBlock(inodes[i], data, j))[k] {
      assert (j * BS + k) / BS == j && (j * BS + k) % BS == k;
    }
  }

  /** The bytes of a directory's first k blocks decide its listing. */
  lemma SameBlocks(n: Inode, data: seq<Block>, n2: Inode, data2: seq<Block>, j: nat)
    requires InodeOk(n) && InodeOk(n2) && forall pos :: 0 <= pos ==> ByteAt(n2, data2, pos) == ByteAt(n, data, pos)
    ensures DirBlock(n2, data2, j) == DirBlock(n, data, j)
  {
    hide ByteAt;
  }

  /** Growing a well-formed directory by a block with one entry. */
  lemma DirGrows(inodes: seq<Inode>, data0: seq<Block>, data: seq<Block>, data2: seq<Block>, i: nat, n: Inode, n2: Inode, n3: Inode, x: Block, e: Ent)
    requires InodesOk(inodes) && i < |inodes| && n == inodes[i] && InodeOk(n2) && InodeOk(n3) && n3.ptr == n2.ptr
    requires DirOk(n, data0) && SameBytes(inodes, data0, inodes[i := n2], data)
    requires Replaced(inodes[i := n2], data, data2, i, n.size / BS, x) && Tiled(x, 0) && Entries(x, 0) == [e]
    requires n3.size == n.size + BS && n.size / BS < MAX_DIR_BLOCKS && n3.ptr[13] == 0
    ensures DirOk(n3, data2) && OneMore(Listing(n, data0), Listing(n3, data2), e)
    ensures OthersSame(inodes, data0, data2, i)
  {
    hide ByteAt, Tiled, Entries, DirBlock;
    var lb, m := n.size / BS, inodes[i := n2];
    SameInodeBytes(n2, n3, data2);
    assert forall pos :: 0 <= pos ==> ByteAt(m[i], data, pos) == ByteAt(inodes[i], data0, pos);
    forall j | 0 <= j < lb + 1 ensures DirBlock(n3, data2, j) == if j == lb then x else DirBlock(n, data0, j) {
      SameBlocks(n2, data2, n3, data2, j);
      OneBlock(m, data, data2, i, lb, x, j);
      SameBlocks(n, data0, n2, data, j);
    }
    SameList(n, data0, n3, data2, lb);
    var list := DirList(n, data0, lb);
    assert DirList(n3, data2, lb + 1) == list[..|list|] + [e] + list[|list|..];
    forall h, pos: nat | 0 <= h < |inodes| && h != i ensures ByteAt(inodes[h], data2, pos) == ByteAt(inodes[h], data0, pos) {
      assert m[h] == inodes[h];
    }
  }

  /** Directory i of the volume lists one entry more, is still well-formed, and nothing
      else changed. */
  ghost predicate Added(inodes: seq<Inode>, data: seq<Block>, inodes2: seq<Inode>, data2: seq<Block>, i: nat, e: Ent)
    requires InodesOk(inodes) && InodesOk(inodes2)
  {
    |inodes2| == |inodes| && i < |inodes| && inodes2[i].mode == inodes[i].mode && DirOk(inodes2[i], data2) &&
    OneMore(Listing(inodes[i], data), Listing(inodes2[i], data2), e) &&
    (forall h :: 0 <= h < |inodes| && h != i ==> inodes2[h] == inodes[h]) && OthersSame(inodes, data, data2, i)
  }

  /** Directory i could not take the entry: it lists what it did, and nothing else changed. */
  ghost predicate NotAdded(inodes: seq<Inode>, data: seq<Block>, inodes2: seq<Inode>, data2: seq<Block>, i: nat)
    requires InodesOk(inodes)
  {
    inodes2 == inodes && i < |inodes| && Listing(inodes[i], data2) == Listing(inodes[i], data) && OthersSame(inodes, data, data2, i)
  }

  /** Some block of the directory has room for a record of need bytes. */
  ghost predicate DirRoom(n: Inode, data: seq<Block>, need: nat)
    requires InodeOk(n)
  {
    exists lb: nat :: lb * BS < n.size && Room(DirBlock(n, data, lb), 0, need)
  }

  /** The directory can have one block more: it is not at its limit, and the blocks for that
      one are there. */
  ghost predicate CanGrow(g: Geo, bits: seq<seq<bool>>, n: Inode, data: seq<Block>)
    requires GeoOk(g) && BitsOk(g, bits) && InodeOk(n)
  {
    n.size / BS < MAX_DIR_BLOCKS && Needs(n, data, n.size / BS, n.size / BS + 1) <= SpareCount(g, bits)
  }

  /** The directory takes the entry: there is room in it, or it can grow. */
  ghost predicate Takes(g: Geo, bits: seq<seq<bool>>, n: Inode, data: seq<Block>, name: seq<byte>)
    requires GeoOk(g) && BitsOk(g, bits) && InodeOk(n)
  {
    n.ptr[13] == 0 && (DirRoom(n, data, Round4(8 + |Cut64(name)|)) || CanGrow(g, bits, n, data))
  }

  /** ex_dir_add: into the first hole or slack with room, else into a fresh block.  A
      name is cut at 64 bytes. */
  method DirAdd(v: Volume, dirIno: nat, ino: nat, name: seq<byte>, isDir: bool) returns (rc: int)
    requires v.Valid() && 0 < ino < U32 && NoNul(name)
    requires v.HasInode(dirIno) && IsDir(v.inodes[dirIno - 1]) && v.inodes[dirIno - 1].ptr[13] == 0 ==> DirOk(v.inodes[dirIno - 1], v.data)
    modifies v`bits, v`gfree, v`sbFree, v`data, v`inodes, v`owner
    ensures v.Valid()
    ensures rc == EINVAL <==> name == []
    ensures rc == EIO <==> name != [] && !v.HasInode(dirIno)
    ensures rc == ENOTDIR <==> name != [] && v.HasInode(dirIno) && !IsDir(old(v.inodes[dirIno - 1]))
    ensures rc == 0 <==> (name != [] && v.HasInode(dirIno) && IsDir(old(v.inodes[dirIno - 1])) &&
      Takes(v.geo, old(v.bits), old(v.inodes[dirIno - 1]), old(v.data), name))
    ensures rc in {0, EINVAL, EIO, ENOTDIR, EFBIG}
    ensures rc == 0 ==> Added(old(v.inodes), old(v.data), v.inodes, v.data, dirIno - 1, Ent(ino, Cut64(name)))
    ensures rc != 0 ==> v.inodes == old(v.inodes)
    ensures rc == EFBIG && old(v.inodes[dirIno - 1].ptr[13]) == 0 ==> NotAdded(old(v.inodes), old(v.data), v.inodes, v.data, dirIno - 1)
    ensures rc in {EINVAL, EIO, ENOTDIR} || (rc == EFBIG && old(v.inodes[dirIno - 1].ptr[13]) != 0) ==> v.data == old(v.data)
  {
    hide Owned, Counts, DirOk, Added, NotAdded, CanGrow, Room, Round4;
    if name == [] {
      return EINVAL;
    }
    if !v.HasInode(dirIno) {
      return EIO;
    }
    var n := v.inodes[dirIno - 1];
    if !IsDir(n) {
      return ENOTDIR;
    }
    if n.ptr[13] != 0 {
      return EFBIG;
    }
    ghost var need := Round4(8 + |Cut64(name)|);
    var lb := 0;
    while lb * BS < n.size
      invariant lb * BS <= n.size + BS && v.inodes == old(v.inodes) && v.data == old(v.data) && v.bits == old(v.bits)
      invariant v.Valid() && DirOk(n, v.data)
      invariant forall l: nat :: l < lb ==> !Room(DirBlock(n, v.data, l), 0, need)
      decreases n.size - lb * BS
    {
      var done := AddInBlock(v, dirIno, lb, ino, Cut64(name), if isDir then 2 else 1);
      if done {
        return 0;
      }
      lb := lb + 1;
    }
    assert !DirRoom(n, v.data, need);
    rc := GrowDir(v, dirIno, ino, Cut64(name), if isDir then 2 else 1);
    if rc != 0 {
      NotAddedLists(old(v.inodes), old(v.data), v.inodes, v.data, dirIno - 1);
    }
  }

  /** A turn of ex_dir_add within the directory. */
  method AddInBlock(v: Volume, dirIno: nat, lb: nat, ino: nat, name: seq<byte>, kind: byte) returns (done: bool)
    requires v.Valid() && v.HasInode(dirIno) && 0 < ino < U32 && 0 < |name| <= 64 && NoNul(name)
    requires DirOk(v.inodes[dirIno - 1], v.data) && lb * BS < v.inodes[dirIno - 1].size
    modifies v`bits, v`gfree, v`sbFree, v`data, v`owner
    ensures v.Valid()
    ensures done ==> Added(v.inodes, old(v.data), v.inodes, v.data, dirIno - 1, Ent(ino, name))
    ensures !done ==> v.data == old(v.data) && v.bits == old(v.bits)
    ensures done <==> Room(DirBlock(v.inodes[dirIno - 1], old(v.data), lb), 0, Round4(8 + |name|))
  {
    hide Owned, Counts, Meta, Val, ByteAt, DirBlock, Tiled, Entries, Place, SameBytes, Listing, Room, Needs, SpareCount, MapsAs, Stops, Fits, Round4, Added;
    var i, n := dirIno - 1, v.inodes[dirIno - 1];
    assert v.inodes[i := n] == v.inodes;
    MapBound(v.geo, v.bits, v.inodes, v.data, v.owner, i, lb);
    TiledMapped(n, v.data, lb);
    var rc, n2, pb := v.GetBlock(i, n, lb, true);
    BlockExists(v.geo, v.bits, v.inodes, v.data, v.owner, i, lb);
    BlockIs(n, v.data, lb);
    var b := v.ReadBlock(pb);
    var p := FindRoom(b, Round4(8 + |name|));
    PlaceRoom(b, 0, Round4(8 + |name|));
    done := p < BS;
    if done {
      StoreEntry(v, i, lb, pb, p, ino, name, kind);
    }
  }

  /** The entry goes into the record with room, and the block to disk. */
  method StoreEntry(v: Volume, i: nat, lb: nat, pb: nat, p: nat, ino: nat, name: seq<byte>, kind: byte)
    requires v.Valid() && i < |v.inodes| && DirOk(v.inodes[i], v.data) && lb < v.inodes[i].size / BS
    requires 0 < pb < v.geo.blocks && !Meta(v.geo, pb) && Bmap(v.inodes[i], v.data, lb) == pb && Tiled(v.data[pb], 0)
    requires 0 < ino < U32 && 0 < |name| <= 64 && NoNul(name) && p == Place(v.data[pb], 0, Round4(8 + |name|)) < BS
    modifies v`data
    ensures v.Valid() && Added(v.inodes, old(v.data), v.inodes, v.data, i, Ent(ino, name))
  {
    hide Owned, Counts, Meta, Bmap, ByteAt, Tiled, Entries, Place, SameBytes, Listing, Insert, Round4, Stops, Fits, DirBlock;
    var b := v.ReadBlock(pb);
    var x := Insert(b, p, ino, kind, name);
    ghost var k := InsertKeeps(b, 0, ino, kind, name);
    assert OneMore(Entries(b, 0), Entries(x, 0), Ent(ino, name));
    BlockGains(v.geo, v.bits, v.inodes, v.data, v.owner, i, lb, pb, x, Ent(ino, name));
    v.WriteBlock(pb, x);
  }

  /** The last turn of ex_dir_add: a fresh block past the end. */
  method GrowDir(v: Volume, dirIno: nat, ino: nat, name: seq<byte>, kind: byte) returns (rc: int)
    requires v.Valid() && v.HasInode(dirIno) && 0 < ino < U32 && 0 < |name| <= 64 && NoNul(name)
    requires DirOk(v.inodes[dirIno - 1], v.data)
    modifies v`bits, v`gfree, v`sbFree, v`data, v`inodes, v`owner
    ensures v.Valid()
    ensures rc == 0 ==> Added(old(v.inodes), old(v.data), v.inodes, v.data, dirIno - 1, Ent(ino, name))
    ensures rc != 0 ==> rc == EFBIG && NotAdded(old(v.inodes), old(v.data), v.inodes, v.data, dirIno - 1)
    ensures rc == 0 <==> CanGrow(v.geo, old(v.bits), old(v.inodes[dirIno - 1]), old(v.data))
  {
    hide Owned, Counts, Meta, Val, ByteAt, DirBlock, Tiled, Entries, Place, Listing, Needs, SpareCount, MapsAs;
    var i, n := dirIno - 1, v.inodes[dirIno - 1];
    assert v.inodes[i := n] == v.inodes;
    var lb := n.size / BS;
    if lb >= MAX_DIR_BLOCKS {
      return EFBIG;
    }
    var pb, n2;
    ghost var data0 := v.data;
    rc, n2, pb := v.GetBlock(i, n, lb, true);
    ghost var data1 := v.data;
    ghost var m := v.inodes[i := n2];
    if rc != 0 {
      forall j | 0 <= j < MAX_DIR_BLOCKS ensures Bmap(n, data0, j) < v.geo.blocks {
        MapBound(v.geo, old(v.bits), v.inodes, data0, old(v.owner), i, j);
      }
      GiveUpOwned(v.geo, v.bits, v.inodes, data1, v.owner, i, n2);
      GiveUpLists(v.inodes, data0, data1, i, n2);
      return;
    }
    var x := FreshBlock(ino, kind, name);
    FreshKeeps(ino, kind, name);
    PatchBlock(v.geo, v.bits, m, data1, v.owner, i, lb, x);
    v.WriteBlock(pb, x);
    if n2.ptr[12] != 0 {
      TableExists(v.geo, v.bits, m, v.data, v.owner, i);
    }
    var sectors := v.CountBlocks(n2);
    var n3 := n2.(size := n.size + BS, sectors := sectors);
    DirGrows(v.inodes, data0, data1, v.data, i, n, n2, n3, x, Ent(ino, name));
    OwnedSwap(v.geo, v.bits, v.inodes, v.data, v.owner, i, n2, n3);
    v.inodes := v.inodes[i := n3];
  }

  /** Dropping what was prepared in memory keeps ownership. */
  lemma GiveUpOwned(g: Geo, bits: seq<seq<bool>>, inodes: seq<Inode>, data: seq<Block>, owner: map<nat, Key>, i: nat, n2: Inode)
    requires GeoOk(g) && BitsOk(g, bits) && InodesOk(inodes) && i < |inodes| && InodeOk(n2)
    requires Owned(g, bits, inodes[i := n2], data, owner)
    requires forall k :: 0 <= k < 15 && inodes[i].ptr[k] != 0 ==> n2.ptr[k] == inodes[i].ptr[k]
    ensures Owned(g, bits, inodes, data, owner)
  {
    Dropping(inodes[i := n2], data, i, inodes[i]);
    assert inodes[i := n2][i := inodes[i]] == inodes;
    OwnedFewer(g, bits, inodes[i := n2], data, owner, inodes);
  }

  /** A directory that could not grow lists what it did. */
  lemma GiveUpLists(inodes: seq<Inode>, data0: seq<Block>, data: seq<Block>, i: nat, n2: Inode)
    requires InodesOk(inodes) && i < |inodes| && InodeOk(n2) && |data| == |data0|
    requires SameBytes(inodes, data0, inodes[i := n2], data) && DirOk(inodes[i], data0)
    requires forall k :: 0 <= k < 15 && inodes[i].ptr[k] != 0 ==> n2.ptr[k] == inodes[i].ptr[k]
    requires forall lb :: 0 <= lb < MAX_DIR_BLOCKS ==> Bmap(inodes[i], data0, lb) < |data0|
    ensures OthersSame(inodes, data0, data, i)
    ensures Listing(inodes[i], data) == Listing(inodes[i], data0)
  {
    hide Tiled, ByteAt, DirBlock, Val, SameBytes, Bmap, DirList, DirBlocks;
    SameBytesSplit(inodes, data0, data, i, n2);
    var n := inodes[i];
    WholeBlocks(n);
    forall j | 0 <= j < n.size / BS ensures DirBlock(n, data, j) == DirBlock(n, data0, j) {
      GiveUpBlock(n, n2, data0, data, j);
    }
    SameList(n, data0, n, data, n.size / BS);
  }

  lemma GiveUpBlock(n: Inode, n2: Inode, data0: seq<Block>, data: seq<Block>, j: nat)
    requires InodeOk(n) && InodeOk(n2) && j < MAX_DIR_BLOCKS && Bmap(n, data0, j) < |data0| && Tiled(DirBlock(n, data0, j), 0)
    requires forall k :: 0 <= k < 15 && n.ptr[k] != 0 ==> n2.ptr[k] == n.ptr[k]
    requires forall pos :: 0 <= pos ==> ByteAt(n2, data, pos) == ByteAt(n, data0, pos)
    ensures DirBlock(n, data, j) == DirBlock(n, data0, j)
  {
    hide Tiled, ByteAt, DirBlock, Val;
    TiledMapped(n, data0, j);
    StillThere(n, n2, data0, data, j);
    SameBlocks(n, data0, n2, data, j);
    SameMap(n, n2, data, j);
  }

  lemma SameBytesSplit(inodes: seq<Inode>, data0: seq<Block>, data: seq<Block>, i: nat, n2: Inode)
    requires InodesOk(inodes) && i < |inodes| && InodeOk(n2) && SameBytes(inodes, data0, inodes[i := n2], data)
    ensures OthersSame(inodes, data0, data, i) && forall pos :: 0 <= pos ==> ByteAt(n2, data, pos) == ByteAt(inodes[i], data0, pos)
  {
    hide ByteAt;
    var m := inodes[i := n2];
    assert m[i] == n2;
    forall h, pos: nat | 0 <= h < |inodes| && h != i ensures ByteAt(inodes[h], data, pos) == ByteAt(inodes[h], data0, pos) {
      assert m[h] == inodes[h];
    }
  }

  /** Pointers that were set are still set, to the same blocks. */
  lemma StillThere(n: Inode, n2: Inode, data0: seq<Block>, data: seq<Block>, lb: nat)
    requires InodeOk(n) && InodeOk(n2) && lb < MAX_DIR_BLOCKS && Val(n, data0, PtrOf(lb)) != 0
    requires forall k :: 0 <= k < 15 && n.ptr[k] != 0 ==> n2.ptr[k] == n.ptr[k]
    ensures Val(n, data, PtrOf(lb)) == Val(n2, data, PtrOf(lb))
  {
  }

  lemma SameMap(n: Inode, n2: Inode, data: seq<Block>, lb: nat)
    requires InodeOk(n) && InodeOk(n2) && lb < MAPPED && Val(n, data, PtrOf(lb)) == Val(n2, data, PtrOf(lb))
    ensures DirBlock(n, data, lb) == DirBlock(n2, data, lb)
  {
    hide Val;
    forall k | 0 <= k < BS ensures DirBlock(n, data, lb)[k] == DirBlock(n2, data, lb)[k] {
      assert (lb * BS + k) / BS == lb;
    }
  }

  // ---------------------------------------------------------------- creation

  predicate InodeBitsOk(g: Geo, ibits: seq<seq<bool>>) {
    |ibits| == |g.desc| && forall k :: 0 <= k < |ibits| ==> |ibits[k]| == g.ipg
  }

  /** Inode number ino is marked in its group's inode bitmap. */
  predicate InUse(g: Geo, ibits: seq<seq<bool>>, ino: nat)
    requires GeoOk(g) && InodeBitsOk(g, ibits)
  {
    1 <= ino <= g.inodes && (InodeBit(g, ino); ibits[InodeGroup(g, ino)][InodeSlot(g, ino)])
  }

  function InodeGroup(g: Geo, ino: nat): nat
    requires g.ipg > 0 && ino > 0
  {
    (ino - 1) / g.ipg
  }

  function InodeSlot(g: Geo, ino: nat): nat
    requires g.ipg > 0 && ino > 0
  {
    (ino - 1) % g.ipg
  }

  /** The inode that a bit of group k stands for. */
  function InodeOf(g: Geo, k: nat, bit: nat): nat { k * g.ipg + bit + 1 }

  lemma InodeBit(g: Geo, ino: nat)
    requires GeoOk(g) && 1 <= ino <= g.inodes
    ensures InodeGroup(g, ino) < |g.desc| && InodeSlot(g, ino) < g.ipg && InodeOf(g, InodeGroup(g, ino), InodeSlot(g, ino)) == ino
  {
    var k := (ino - 1) / g.ipg;
    assert ino - 1 == k * g.ipg + (ino - 1) % g.ipg;
    assert k >= |g.desc| ==> k * g.ipg >= |g.desc| * g.ipg;
  }

  /** Every inode from 12 to below n is taken. */
  ghost predicate TakenBelow(g: Geo, ibits: seq<seq<bool>>, n: nat)
    requires GeoOk(g) && InodeBitsOk(g, ibits)
  {
    forall ino :: 12 <= ino < n && ino <= g.inodes ==> InUse(g, ibits, ino)
  }

  lemma BitOfInode(g: Geo, k: nat, bit: nat)
    requires GeoOk(g) && bit < g.ipg
    ensures InodeGroup(g, InodeOf(g, k, bit)) == k && InodeSlot(g, InodeOf(g, k, bit)) == bit
  {
    DivMod(k, g.ipg, bit);
  }

  /** How many of the first n inodes of group k are free. */
  function FreeInodes(g: Geo, row: seq<bool>, k: nat, n: nat): nat
    requires n <= |row|
  {
    if n == 0 then 0 else FreeInodes(g, row, k, n - 1) + if InodeOf(g, k, n - 1) <= g.inodes && !row[n - 1] then 1 else 0
  }

  /** The free inode counts on disk are exact. */
  ghost predicate InodeCounts(g: Geo, ibits: seq<seq<bool>>, igfree: seq<nat>, sbIfree: nat)
    requires InodeBitsOk(g, ibits)
  {
    |igfree| == |ibits| && sbIfree == Sum(igfree) && forall k :: 0 <= k < |ibits| ==> igfree[k] == FreeInodes(g, ibits[k], k, g.ipg)
  }

  lemma {:induction false} FreeTaken(g: Geo, row: seq<bool>, k: nat, n: nat, bit: nat)
    requires n <= |row| && bit < |row| && !row[bit] && InodeOf(g, k, bit) <= g.inodes
    ensures FreeInodes(g, row, k, n) == FreeInodes(g, row[bit := true], k, n) + if bit < n then 1 else 0
  {
    if n > 0 {
      FreeTaken(g, row, k, n - 1, bit);
    }
  }

  /** Both counts can be taken down by one, and are exact again. */
  lemma CountsTake(g: Geo, ibits: seq<seq<bool>>, igfree: seq<nat>, sbIfree: nat, k: nat, bit: nat)
    requires InodeBitsOk(g, ibits) && InodeCounts(g, ibits, igfree, sbIfree) && k < |ibits| && bit < g.ipg && !ibits[k][bit] && InodeOf(g, k, bit) <= g.inodes
    ensures k < |igfree| && igfree[k] > 0 && sbIfree > 0 && InodeBitsOk(g, ibits[k := ibits[k][bit := true]])
    ensures InodeCounts(g, ibits[k := ibits[k][bit := true]], igfree[k := igfree[k] - 1], sbIfree - 1)
  {
    FreeTaken(g, ibits[k], k, g.ipg, bit);
    SumAtLeast(igfree, k);
    SumUpdate(igfree, k, igfree[k] - 1);
  }

  /** ex_alloc_inode: the first free inode from 12 on, with both free counts taken down. */
  method AllocInode(v: Volume) returns (rc: int, ino: nat)
    requires v.Valid() && InodeBitsOk(v.geo, v.ibits) && |v.igfree| == |v.geo.desc|
    modifies v`ibits, v`igfree, v`sbIfree
    ensures InodeBitsOk(v.geo, v.ibits) && |v.igfree| == |v.geo.desc|
    ensures InodeCounts(v.geo, old(v.ibits), old(v.igfree), old(v.sbIfree)) ==> InodeCounts(v.geo, v.ibits, v.igfree, v.sbIfree)
    ensures rc == 0 ==> 12 <= ino <= v.geo.inodes && !InUse(v.geo, old(v.ibits), ino) && TakenBelow(v.geo, old(v.ibits), ino)
    ensures rc == 0 ==> forall h :: 1 <= h <= v.geo.inodes ==> InUse(v.geo, v.ibits, h) == (h == ino || InUse(v.geo, old(v.ibits), h))
    ensures rc != 0 ==> rc == EFBIG && v.ibits == old(v.ibits) && TakenBelow(v.geo, v.ibits, v.geo.inodes + 1)
  {
    hide Owned, Counts, Groups, InUse, InodeGroup, InodeSlot, TakenBelow, InodeOf, InodeCounts;
    TakenNone(v.geo, v.ibits);
    ino := 0;
    var k := 0;
    while k < |v.geo.desc|
      invariant 0 <= k <= |v.geo.desc| && v.ibits == old(v.ibits) && v.igfree == old(v.igfree) && v.sbIfree == old(v.sbIfree)
      invariant TakenBelow(v.geo, v.ibits, InodeOf(v.geo, k, 0))
    {
      var bit := 0;
      while bit < v.geo.ipg
        invariant 0 <= bit <= v.geo.ipg && v.ibits == old(v.ibits) && v.igfree == old(v.igfree) && v.sbIfree == old(v.sbIfree)
        invariant TakenBelow(v.geo, v.ibits, InodeOf(v.geo, k, bit))
      {
        ino := InodeOf(v.geo, k, bit);
        if 12 <= ino <= v.geo.inodes {
          UseOf(v.geo, v.ibits, k, bit, ino);
          if !v.ibits[k][bit] {
            SetUse(v.geo, v.ibits, k, bit, ino);
            if InodeCounts(v.geo, v.ibits, v.igfree, v.sbIfree) {
              CountsTake(v.geo, v.ibits, v.igfree, v.sbIfree, k, bit);
            }
            v.ibits := v.ibits[k := v.ibits[k][bit := true]];
            if v.sbIfree > 0 {
              v.sbIfree := v.sbIfree - 1;
            }
            if v.igfree[k] > 0 {
              v.igfree := v.igfree[k := v.igfree[k] - 1];
            }
            return 0, ino;
          }
        }
        TakenNext(v.geo, v.ibits, k, bit);
        bit := bit + 1;
      }
      NextRow(v.geo, k);
      k := k + 1;
    }
    TakenAll(v.geo, v.ibits);
    rc := EFBIG;
  }

  lemma TakenNone(g: Geo, ibits: seq<seq<bool>>)
    requires GeoOk(g) && InodeBitsOk(g, ibits)
    ensures TakenBelow(g, ibits, InodeOf(g, 0, 0))
  {
  }

  lemma TakenNext(g: Geo, ibits: seq<seq<bool>>, k: nat, bit: nat)
    requires GeoOk(g) && InodeBitsOk(g, ibits) && TakenBelow(g, ibits, InodeOf(g, k, bit))
    requires 12 <= InodeOf(g, k, bit) <= g.inodes ==> InUse(g, ibits, InodeOf(g, k, bit))
    ensures TakenBelow(g, ibits, InodeOf(g, k, bit + 1))
  {
    hide InUse;
    assert InodeOf(g, k, bit + 1) == InodeOf(g, k, bit) + 1;
  }

  lemma NextRow(g: Geo, k: nat)
    ensures InodeOf(g, k, g.ipg) == InodeOf(g, k + 1, 0)
  {
  }

  lemma TakenAll(g: Geo, ibits: seq<seq<bool>>)
    requires GeoOk(g) && InodeBitsOk(g, ibits) && TakenBelow(g, ibits, InodeOf(g, |g.desc|, 0))
    ensures TakenBelow(g, ibits, g.inodes + 1)
  {
    hide InUse;
  }

  lemma UseOf(g: Geo, ibits: seq<seq<bool>>, k: nat, bit: nat, ino: nat)
    requires GeoOk(g) && InodeBitsOk(g, ibits) && k < |ibits| && bit < g.ipg && ino == InodeOf(g, k, bit) <= g.inodes
    ensures InUse(g, ibits, ino) == ibits[k][bit]
  {
    BitOfInode(g, k, bit);
    assert ino >= 1;
    hide InodeGroup, InodeSlot, InodeOf, Groups;
  }

  lemma SetUse(g: Geo, ibits: seq<seq<bool>>, k: nat, bit: nat, ino: nat)
    requires GeoOk(g) && InodeBitsOk(g, ibits) && k < |ibits| && bit < g.ipg && ino == InodeOf(g, k, bit) <= g.inodes
    ensures InodeBitsOk(g, ibits[k := ibits[k][bit := true]])
    ensures forall h :: 1 <= h <= g.inodes ==> InUse(g, ibits[k := ibits[k][bit := true]], h) == (h == ino || InUse(g, ibits, h))
  {
    BitOfInode(g, k, bit);
    var ibits2 := ibits[k := ibits[k][bit := true]];
    hide InodeGroup, InodeSlot, InodeOf, Groups;
    forall h | 1 <= h <= g.inodes ensures InUse(g, ibits2, h) == (h == ino || InUse(g, ibits, h)) {
      InodeBit(g, h);
    }
  }

  function EmptyFile(): Inode { Inode(0x81A4, 0, 0, seq(15, _ => 0)) }

  lemma NotAddedLists(inodes: seq<Inode>, data: seq<Block>, inodes2: seq<Inode>, data2: seq<Block>, i: nat)
    requires InodesOk(inodes) && NotAdded(inodes, data, inodes2, data2, i)
    ensures inodes2 == inodes && i < |inodes| && Listing(inodes[i], data2) == Listing(inodes[i], data)
  {
  }

  /** ex_create_locked: a fresh inode, an empty file, an entry in the directory.  When the
      entry cannot be added the inode stays taken. */
  method Create(v: Volume, dirIno: nat, name: seq<byte>) returns (rc: int, ino: nat)
    requires v.Valid() && InodeBitsOk(v.geo, v.ibits) && |v.igfree| == |v.geo.desc| && NoNul(name)
    requires v.HasInode(dirIno) && IsDir(v.inodes[dirIno - 1]) ==> InUse(v.geo, v.ibits, dirIno)
    requires v.HasInode(dirIno) && IsDir(v.inodes[dirIno - 1]) && v.inodes[dirIno - 1].ptr[13] == 0 ==> DirOk(v.inodes[dirIno - 1], v.data)
    modifies v`bits, v`gfree, v`sbFree, v`data, v`inodes, v`owner, v`ibits, v`igfree, v`sbIfree
    ensures v.Valid() && InodeBitsOk(v.geo, v.ibits)
    ensures InodeCounts(v.geo, old(v.ibits), old(v.igfree), old(v.sbIfree)) ==> InodeCounts(v.geo, v.ibits, v.igfree, v.sbIfree)
    ensures rc == ENOTDIR <==> v.HasInode(dirIno) && !IsDir(old(v.inodes[dirIno - 1]))
    ensures rc == EFBIG <==> v.HasInode(dirIno) && IsDir(old(v.inodes[dirIno - 1])) && TakenBelow(v.geo, old(v.ibits), v.geo.inodes + 1)
    ensures rc == 0 <==> (v.HasInode(dirIno) && IsDir(old(v.inodes[dirIno - 1])) && !TakenBelow(v.geo, old(v.ibits), v.geo.inodes + 1) &&
      name != [] && Takes(v.geo, old(v.bits), old(v.inodes[dirIno - 1]), old(v.data), name))
    ensures rc in {0, ENOTDIR, EFBIG, EIO}
    ensures rc == 0 ==> 12 <= ino <= |v.inodes| && ino != dirIno && !InUse(v.geo, old(v.ibits), ino) && InUse(v.geo, v.ibits, ino)
    ensures rc == 0 ==> v.inodes[ino - 1] == EmptyFile() && View(v.inodes[ino - 1], v.data) == []
    ensures rc == 0 ==> Added(old(v.inodes)[ino - 1 := EmptyFile()], old(v.data), v.inodes, v.data, dirIno - 1, Ent(ino, Cut64(name)))
    ensures rc != 0 && v.HasInode(dirIno) ==> v.inodes[dirIno - 1] == old(v.inodes[dirIno - 1]) && Listing(v.inodes[dirIno - 1], v.data) == old(Listing(v.inodes[dirIno - 1], v.data))
  {
    hide Owned, Counts, DirOk, Added, NotAdded, InUse, Listing, InodeCounts, Takes;
    ino := 0;
    if !v.HasInode(dirIno) {
      return EIO, 0;
    }
    if !IsDir(v.inodes[dirIno - 1]) {
      return ENOTDIR, 0;
    }
    rc, ino := AllocInode(v);
    if rc != 0 {
      return EFBIG, 0;
    }
    assert !TakenBelow(v.geo, old(v.ibits), v.geo.inodes + 1);
    ghost var inodes0, dir := v.inodes, v.inodes[dirIno - 1];
    Dropping(v.inodes, v.data, ino - 1, EmptyFile());
    OwnedFewer(v.geo, v.bits, v.inodes, v.data, v.owner, v.inodes[ino - 1 := EmptyFile()]);
    v.inodes := v.inodes[ino - 1 := EmptyFile()];
    rc := DirAdd(v, dirIno, ino, name, false);
    if rc != 0 {
      if name != [] && dir.ptr[13] == 0 {
        NotAddedLists(inodes0[ino - 1 := EmptyFile()], old(v.data), v.inodes, v.data, dirIno - 1);
      }
      rc := EIO;
    } else {
      AddedOthers(inodes0[ino - 1 := EmptyFile()], old(v.data), v.inodes, v.data, dirIno - 1, Ent(ino, Cut64(name)), ino - 1);
    }
  }

  lemma AddedOthers(inodes: seq<Inode>, data: seq<Block>, inodes2: seq<Inode>, data2: seq<Block>, i: nat, e: Ent, h: nat)
    requires InodesOk(inodes) && InodesOk(inodes2) && Added(inodes, data, inodes2, data2, i, e) && h < |inodes| && h != i
    ensures inodes2[h] == inodes[h] && View(inodes2[h], data2) == View(inodes[h], data)
  {
    hide ByteAt;
  }

  /** What lookup finds after an insertion: a name of at most 63 bytes is bound to the new
      inode if nothing bound it before; a component that is not the stored name is bound as
      before.  The entry of a longer name is found by no component. */
  lemma AddedFound(inodes: seq<Inode>, data: seq<Block>, inodes2: seq<Inode>, data2: seq<Block>, i: nat, e: Ent, comp: seq<byte>)
    requires InodesOk(inodes) && InodesOk(inodes2) && Added(inodes, data, inodes2, data2, i, e) && NoNul(e.name)
    ensures comp != e.name || |e.name| > 63 ==> Binding(Listing(inodes2[i], data2), comp) == Binding(Listing(inodes[i], data), comp)
    ensures comp == e.name && |e.name| <= 63 ==>
      Binding(Listing(inodes2[i], data2), comp) == e.ino ||
      (Binding(Listing(inodes[i], data), comp) != 0 && Binding(Listing(inodes2[i], data2), comp) == Binding(Listing(inodes[i], data), comp))
  {
    hide DirOk, First, DirList;
    var list := Listing(inodes[i], data);
    ListBound(inodes[i], data, DirBlocks(inodes[i]));
    assert CString(e.name) == e.name;
    BindingInserted(list, Listing(inodes2[i], data2), e, comp);
  }

  lemma AddedBinding(inodes: seq<Inode>, data: seq<Block>, inodes2: seq<Inode>, data2: seq<Block>, i: nat, ino: nat, name: seq<byte>)
    requires InodesOk(inodes) && InodesOk(inodes2) && Added(inodes, data, inodes2, data2, i, Ent(ino, Cut64(name))) && NoNul(name)
    ensures |inodes2| == |inodes| && i < |inodes|
    ensures var bound, now := Binding(Listing(inodes[i], data), Cut63(name)), Binding(Listing(inodes2[i], data2), Cut63(name));
      if |name| > 63 then now == bound else now == ino || (bound != 0 && now == bound)
  {
    hide Binding, Listing, OthersSame, DirOk, OneMore;
    AddedFound(inodes, data, inodes2, data2, i, Ent(ino, Cut64(name)), Cut63(name));
  }

  lemma CutDot(name: seq<byte>)
    ensures Cut63(name) == DOT <==> name == DOT
  {
  }

  /** What ex_lookup answers for the inode number a component is bound to. */
  function Answer(bound: nat, inodes: nat): int {
    if bound == 0 then ENOENT else if bound <= inodes then 0 else EIO
  }

  /** Insert, then look up.  A name of at most 63 bytes, not bound before and not `.`, is
      found.  A longer one is not: the answer is the one for its first 63 bytes before the
      insertion, ENOENT exactly if nothing was bound to them. */
  method AddThenLookup(v: Volume, dirIno: nat, ino: nat, name: seq<byte>, isDir: bool) returns (rc: int, rc2: int, found: nat)
    requires v.Valid() && v.HasInode(ino) && ino < U32 && NoNul(name)
    requires v.HasInode(dirIno) && IsDir(v.inodes[dirIno - 1]) && DirOk(v.inodes[dirIno - 1], v.data)
    modifies v`bits, v`gfree, v`sbFree, v`data, v`inodes, v`owner
    ensures v.Valid() && (rc == 0 <==> name != [] && Takes(v.geo, old(v.bits), old(v.inodes[dirIno - 1]), old(v.data), name))
    ensures rc == 0 ==>
      var bound := Binding(old(Listing(v.inodes[dirIno - 1], v.data)), Cut63(name));
      if name == DOT then rc2 == 0 && found == dirIno
      else if |name| > 63 then rc2 == Answer(bound, |v.inodes|) && (rc2 == 0 ==> found == bound)
      else if bound == 0 then rc2 == 0 && found == ino
      else (rc2 == 0 && found == ino) || (rc2 == Answer(bound, |v.inodes|) && (rc2 == 0 ==> found == bound))
  {
    hide Owned, Counts, Added, NotAdded, Listing, Binding, DirOk, DirList, Cut63, Cut64, InodesOk, Takes;
    rc := DirAdd(v, dirIno, ino, name, isDir);
    rc2, found := 0, 0;
    if rc == 0 {
      var i := dirIno - 1;
      CutDot(name);
      AddedBinding(old(v.inodes), old(v.data), v.inodes, v.data, i, ino, name);
      AddedShape(old(v.inodes), old(v.data), v.inodes, v.data, i, Ent(ino, Cut64(name)));
      rc2, found := Lookup(v, dirIno, name);
    }
  }

  /** A listing where it shows: the 63 bytes p are bound to inode 20; after the insertion of
      p and one byte more as inode 21, a lookup of that name still answers 20. */
  lemma LongNameMissed()
    ensures var p: seq<byte> := seq(63, _ => 97);
      var name, list := p + [98], [Ent(20, p)];
      var list2 := list + [Ent(21, Cut64(name))];
      OneMore(list, list2, Ent(21, Cut64(name))) && Binding(list, Cut64(name)) == 0 && Binding(list2, Cut63(name)) == 20
  {
    var p: seq<byte> := seq(63, _ => 97);
    var name, list := p + [98], [Ent(20, p)];
    var list2 := list + [Ent(21, Cut64(name))];
    assert list2 == list[..1] + [Ent(21, Cut64(name))] + list[1..];
    assert Cut63(name) == p && CString(p) == p;
    FirstUnique(list2, Cut63(name), 0);
    FirstUnique(list, Cut64(name), 1);
  }

  lemma AddedShape(inodes: seq<Inode>, data: seq<Block>, inodes2: seq<Inode>, data2: seq<Block>, i: nat, e: Ent)
    requires InodesOk(inodes) && InodesOk(inodes2) && Added(inodes, data, inodes2, data2, i, e)
    ensures |inodes2| == |inodes| && i < |inodes| && inodes2[i].mode == inodes[i].mode && DirBlocks(inodes2[i]) <= MAX_DIR_BLOCKS
    ensures Listing(inodes2[i], data2) == DirList(inodes2[i], data2, DirBlocks(inodes2[i]))
  {
    WholeBlocks(inodes2[i]);
  }
}
