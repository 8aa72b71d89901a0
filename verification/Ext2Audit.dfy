/** The mount-time rebuild of the block bitmaps: what it marks, what it counts, and when
    the result is sound. */
module Ext2Audit {
  import opened Arith
  import opened Ext2Layout
  import opened Ext2Blocks
  import opened Ext2Files
  import opened Ext2Volume
  import opened Ext2Names

  // ---------------------------------------------------------------- what is marked

  /** row2 is row with the existing blocks of a list marked, as far as they lie in group k. */
  ghost predicate Marks(g: Geo, k: nat, row: seq<bool>, row2: seq<bool>, list: seq<nat>) {
    |row2| == |row| && forall s :: 0 <= s < |row| ==> (row2[s] <==> row[s] || (BlockOf(g, k, s) < g.blocks && BlockOf(g, k, s) in list))
  }

  lemma MarksThen(g: Geo, k: nat, row: seq<bool>, row2: seq<bool>, row3: seq<bool>, a: seq<nat>, b: seq<nat>)
    requires Marks(g, k, row, row2, a) && Marks(g, k, row2, row3, b)
    ensures Marks(g, k, row, row3, a + b)
  {
    hide BlockOf;
  }

  /** All entries of a table block. */
  function Ents(b: Block, n: nat): (s: seq<nat>)
    requires n <= PER
    ensures |s| == n && forall j :: 0 <= j < n ==> s[j] == Entry(b, j)
  {
    if n == 0 then [] else Ents(b, n - 1) + [Entry(b, n - 1)]
  }

  function TableList(data: seq<Block>, b: nat): seq<nat>
    requires b < |data|
  {
    [b] + Ents(data[b], PER)
  }

  /** The tables behind the first n entries of a double-indirect block, and their entries. */
  function DoubleList(data: seq<Block>, b: nat, n: nat): seq<nat>
    requires b < |data| && n <= PER
  {
    if n == 0 then []
    else
      var l1 := Entry(data[b], n - 1);
      DoubleList(data, b, n - 1) + if l1 == 0 || l1 >= |data| then [] else TableList(data, l1)
  }

  predicate Exists(data: seq<Block>, b: nat) { 0 < b < |data| }

  /** Every block the audit finds behind an inode whose tables exist. */
  function PtrList(n: Inode, data: seq<Block>): seq<nat>
    requires InodeOk(n)
  {
    n.ptr[..DIRECT] + (if Exists(data, n.ptr[12]) then TableList(data, n.ptr[12]) else []) +
    (if Exists(data, n.ptr[13]) then [n.ptr[13]] + DoubleList(data, n.ptr[13], PER) else [])
  }

  /** Block v is the table l1 or one of its entries. */
  predicate InTable(data: seq<Block>, l1: nat, v: nat) { l1 == v || exists j :: 0 <= j < PER && Tab(data, l1, j) == v }

  ghost predicate InDouble(data: seq<Block>, b: nat, n: nat, v: nat)
    requires n <= PER
  {
    exists i :: 0 <= i < n && InTable(data, Tab(data, b, i), v)
  }

  lemma DoubleStep(data: seq<Block>, b: nat, n: nat, v: nat)
    requires 0 < b < |data| && 0 < n <= PER && 0 < v < |data|
    ensures v in DoubleList(data, b, n) <==> v in DoubleList(data, b, n - 1) || InTable(data, Tab(data, b, n - 1), v)
  {
    hide Entry;
    var l1 := Tab(data, b, n - 1);
    assert l1 == Entry(data[b], n - 1);
    if l1 == 0 || l1 >= |data| {
      assert !InTable(data, l1, v);
    } else {
      TableListIs(data, l1, v);
    }
    hide InTable, TableList;
  }

  lemma {:induction false} DoubleListIs(data: seq<Block>, b: nat, n: nat, v: nat)
    requires 0 < b < |data| && n <= PER && 0 < v < |data|
    ensures v in DoubleList(data, b, n) <==> InDouble(data, b, n, v)
  {
    hide InTable, TableList, Tab;
    if n > 0 {
      DoubleListIs(data, b, n - 1, v);
      DoubleStep(data, b, n, v);
      hide DoubleList;
    }
  }

  lemma TableListIs(data: seq<Block>, b: nat, v: nat)
    requires 0 < b < |data|
    ensures v in TableList(data, b) <==> InTable(data, b, v)
  {
    var e := Ents(data[b], PER);
    if j :| 0 <= j < PER && Tab(data, b, j) == v {
      assert e[j] == v;
    }
    if v in e {
      var j :| 0 <= j < |e| && e[j] == v;
      assert Tab(data, b, j) == v;
    }
  }

  /** The audit finds exactly the blocks that pointers name. */
  lemma PtrListIs(n: Inode, data: seq<Block>, v: nat)
    requires InodeOk(n) && 0 < v < |data|
    ensures v in PtrList(n, data) <==> exists p :: GoodPtr(p) && Val(n, data, p) == v
  {
    if v in PtrList(n, data) {
      PtrListNamed(n, data, v);
    }
    if p :| GoodPtr(p) && Val(n, data, p) == v {
      NamedInList(n, data, v, p);
    }
  }

  lemma PtrListNamed(n: Inode, data: seq<Block>, v: nat)
    requires InodeOk(n) && 0 < v < |data| && v in PtrList(n, data)
    ensures exists p :: GoodPtr(p) && Val(n, data, p) == v
  {
    hide TableList, DoubleList;
    if v in n.ptr[..DIRECT] {
      var k: nat :| k < DIRECT && n.ptr[k] == v;
      assert Val(n, data, Direct(k)) == v;
    } else if Exists(data, n.ptr[12]) && v in TableList(data, n.ptr[12]) {
      TableNamed(n, data, v);
    } else if n.ptr[13] == v {
      assert Val(n, data, Dbl) == v;
    } else {
      DoubleNamed(n, data, v);
    }
  }

  lemma TableNamed(n: Inode, data: seq<Block>, v: nat)
    requires InodeOk(n) && 0 < n.ptr[12] < |data| && v in TableList(data, n.ptr[12])
    ensures exists p :: GoodPtr(p) && Val(n, data, p) == v
  {
    TableListIs(data, n.ptr[12], v);
    hide TableList;
    if n.ptr[12] == v {
      assert Val(n, data, Ind) == v;
    } else {
      var j: nat :| j < PER && Tab(data, n.ptr[12], j) == v;
      assert Val(n, data, IndEntry(j)) == v;
    }
  }

  lemma DoubleNamed(n: Inode, data: seq<Block>, v: nat)
    requires InodeOk(n) && 0 < n.ptr[13] < |data| && 0 < v < |data| && v in DoubleList(data, n.ptr[13], PER)
    ensures exists p :: GoodPtr(p) && Val(n, data, p) == v
  {
    DoubleListIs(data, n.ptr[13], PER, v);
    hide DoubleList;
    var i: nat :| i < PER && InTable(data, Tab(data, n.ptr[13], i), v);
    if Tab(data, n.ptr[13], i) == v {
      assert Val(n, data, DblTab(i)) == v;
    } else {
      var j: nat :| j < PER && Tab(data, Tab(data, n.ptr[13], i), j) == v;
      assert Val(n, data, DblEntry(i, j)) == v;
    }
  }

  lemma NamedInList(n: Inode, data: seq<Block>, v: nat, p: Ptr)
    requires InodeOk(n) && 0 < v < |data| && GoodPtr(p) && Val(n, data, p) == v
    ensures v in PtrList(n, data)
  {
    hide TableList, DoubleList, Entry;
    match p
    case Direct(k) => assert n.ptr[..DIRECT][k] == v;
    case Ind => TableListIs(data, v, v);
    case IndEntry(j) => TableListIs(data, n.ptr[12], v);
    case Dbl =>
    case DblTab(i) => DoubleListIs(data, n.ptr[13], PER, v);
    case DblEntry(i, j) => DoubleListIs(data, n.ptr[13], PER, v);
  }

  function Range(a: nat, b: nat): (s: seq<nat>)
    ensures forall v :: v in s <==> a <= v < b
    decreases b - a
  {
    if a >= b then [] else [a] + Range(a + 1, b)
  }

  function GroupEnd(g: Geo, k: nat): nat { if k * g.bpg + g.bpg > g.blocks then g.blocks else k * g.bpg + g.bpg }

  /** The metadata the audit marks in group k: everything up to the block bitmap, the two
      bitmaps and the inode table. */
  function MetaList(g: Geo, k: nat): seq<nat>
    requires k < |g.desc|
  {
    var d := g.desc[k];
    Range(k * g.bpg + 1, if d.bbm < GroupEnd(g, k) then d.bbm else GroupEnd(g, k)) + [d.bbm, d.ibm] + Range(d.itab, d.itab + TableBlocks(g))
  }

  predicate Reserved(ino: nat) { ino == 1 || 3 <= ino <= 10 }

  /** The inodes the audit visits: marked in use, not reserved, with a mode. */
  predicate Visited(g: Geo, ibits: seq<seq<bool>>, inodes: seq<Inode>, i: nat)
    requires GeoOk(g) && InodeBitsOk(g, ibits) && i < |inodes| == g.inodes
  {
    InUse(g, ibits, i + 1) && !Reserved(i + 1) && inodes[i].mode != 0
  }

  /** Where group k begins in the inode table. */
  function InodeBase(g: Geo, k: nat): nat { k * g.ipg }

  /** The blocks behind the visited inodes among the first n of group k. */
  function GroupList(g: Geo, ibits: seq<seq<bool>>, inodes: seq<Inode>, data: seq<Block>, k: nat, n: nat): seq<nat>
    requires GeoOk(g) && InodeBitsOk(g, ibits) && |inodes| == g.inodes && InodesOk(inodes)
  {
    if n == 0 then []
    else
      var i := InodeBase(g, k) + n - 1;
      GroupList(g, ibits, inodes, data, k, n - 1) + if i < |inodes| && Visited(g, ibits, inodes, i) then PtrList(inodes[i], data) else []
  }

  // ---------------------------------------------------------------- the loops

  /** ex_audit_mark over a run of pointers. */
  method MarkEach(g: Geo, k: nat, row: seq<bool>, list: seq<nat>) returns (row2: seq<bool>)
    requires GeoOk(g) && |row| == g.bpg
    ensures Marks(g, k, row, row2, list)
  {
    row2 := row;
    var j := 0;
    while j < |list|
      invariant 0 <= j <= |list| && Marks(g, k, row, row2, list[..j])
    {
      var b := list[j];
      MarkNext(g, k, row, row2, list, j);
      if 0 < b < g.blocks && k * g.bpg <= b - 1 < k * g.bpg + g.bpg {
        row2 := row2[b - 1 - k * g.bpg := true];
      }
      j := j + 1;
    }
    assert list[..j] == list;
  }

  lemma MarkNext(g: Geo, k: nat, row: seq<bool>, row2: seq<bool>, list: seq<nat>, j: nat)
    requires g.bpg > 0 && |row| == g.bpg && j < |list| && Marks(g, k, row, row2, list[..j])
    ensures var b := list[j];
      if 0 < b < g.blocks && k * g.bpg <= b - 1 < k * g.bpg + g.bpg then Marks(g, k, row, row2[b - 1 - k * g.bpg := true], list[..j + 1])
      else Marks(g, k, row, row2, list[..j + 1])
  {
    assert list[..j + 1] == list[..j] + [list[j]];
  }

  /** The blocks behind one inode. */
  method MarkInode(v: Volume, k: nat, row: seq<bool>, n: Inode) returns (row2: seq<bool>)
    requires v.Sized() && |row| == v.geo.bpg && InodeOk(n) && TablesOk(v.geo, n, v.data)
    ensures Marks(v.geo, k, row, row2, PtrList(n, v.data))
  {
    hide Marks, Meta, Ents, DoubleList;
    row2 := MarkEach(v.geo, k, row, n.ptr[..DIRECT]);
    ghost var list := n.ptr[..DIRECT];
    MarksLen(v.geo, k, row, row2, list);
    if n.ptr[12] != 0 {
      row2 := MarkTable(v, k, row, row2, n.ptr[12], list);
      list := list + TableList(v.data, n.ptr[12]);
      MarksLen(v.geo, k, row, row2, list);
    }
    assert list == n.ptr[..DIRECT] + if n.ptr[12] == 0 then [] else TableList(v.data, n.ptr[12]);
    if n.ptr[13] != 0 {
      var row1 := row2;
      row2 := MarkDouble(v, k, row2, n);
      MarksThen(v.geo, k, row, row1, row2, list, [n.ptr[13]] + DoubleList(v.data, n.ptr[13], PER));
    } else {
      assert list + [] == list;
    }
  }

  /** A table and its entries, after what was marked before. */
  method MarkTable(v: Volume, k: nat, ghost row0: seq<bool>, row: seq<bool>, b: nat, ghost list: seq<nat>) returns (row2: seq<bool>)
    requires v.Sized() && |row| == v.geo.bpg && 0 < b < |v.data| && !Meta(v.geo, b) && Marks(v.geo, k, row0, row, list)
    ensures Marks(v.geo, k, row0, row2, list + TableList(v.data, b))
  {
    hide Marks, Meta;
    var row1 := MarkEach(v.geo, k, row, [b]);
    var table := v.ReadBlock(b);
    MarksLen(v.geo, k, row, row1, [b]);
    row2 := MarkEach(v.geo, k, row1, Ents(table, PER));
    MarksThen(v.geo, k, row, row1, row2, [b], Ents(table, PER));
    MarksThen(v.geo, k, row0, row, row2, list, [b] + Ents(table, PER));
  }

  lemma MarksLen(g: Geo, k: nat, row: seq<bool>, row2: seq<bool>, list: seq<nat>)
    requires Marks(g, k, row, row2, list)
    ensures |row2| == |row|
  {
  }

  lemma DoubleNone(data: seq<Block>, b: nat)
    requires b < |data|
    ensures [b] + DoubleList(data, b, 0) == [b]
  {
  }

  lemma DoubleNext(data: seq<Block>, b: nat, j: nat)
    requires b < |data| && j < PER
    ensures var l1 := Entry(data[b], j);
      [b] + DoubleList(data, b, j + 1) == if l1 == 0 || l1 >= |data| then [b] + DoubleList(data, b, j) else [b] + DoubleList(data, b, j) + TableList(data, l1)
  {
    hide TableList, Entry;
  }

  lemma TabVal(n: Inode, data: seq<Block>, j: nat)
    requires InodeOk(n) && 0 < n.ptr[13] < |data| && j < PER
    ensures Tab(data, n.ptr[13], j) == Entry(data[n.ptr[13]], j)
  {
  }

  /** The double-indirect block, its tables and their entries. */
  method MarkDouble(v: Volume, k: nat, row: seq<bool>, n: Inode) returns (row2: seq<bool>)
    requires v.Sized() && |row| == v.geo.bpg && InodeOk(n) && n.ptr[13] != 0 && TablesOk(v.geo, n, v.data)
    ensures Marks(v.geo, k, row, row2, [n.ptr[13]] + DoubleList(v.data, n.ptr[13], PER))
  {
    hide Marks, Meta, Ents, DoubleList, TableList, Tab;
    var b := n.ptr[13];
    row2 := MarkEach(v.geo, k, row, [b]);
    var table := v.ReadBlock(b);
    var j := 0;
    DoubleNone(v.data, b);
    while j < PER
      invariant 0 <= j <= PER && Marks(v.geo, k, row, row2, [b] + DoubleList(v.data, b, j))
    {
      var l1 := Entry(table, j);
      MarksLen(v.geo, k, row, row2, [b] + DoubleList(v.data, b, j));
      if l1 != 0 && l1 < v.geo.blocks {
        TabVal(n, v.data, j);
        row2 := MarkTable(v, k, row, row2, l1, [b] + DoubleList(v.data, b, j));
      }
      DoubleNext(v.data, b, j);
      j := j + 1;
    }
  }

  /** Padding is set and clear bits are counted. */
  method CountRow(g: Geo, k: nat, row: seq<bool>) returns (row2: seq<bool>, free: nat)
    requires GeoOk(g) && |row| == g.bpg
    ensures |row2| == g.bpg && forall s :: 0 <= s < g.bpg ==> row2[s] == (row[s] || BlockOf(g, k, s) >= g.blocks)
    ensures free == ClearIn(g, row2, k, g.bpg)
  {
    hide BlockOf;
    row2, free := row, 0;
    var b := 0;
    while b < g.bpg
      invariant 0 <= b <= g.bpg && |row2| == g.bpg && free == ClearIn(g, row2, k, b)
      invariant forall s :: 0 <= s < g.bpg ==> row2[s] == (row[s] || (s < b && BlockOf(g, k, s) >= g.blocks))
    {
      if BlockOf(g, k, b) >= g.blocks {
        ClearLocal(g, row2, row2[b := true], k, b);
        row2 := row2[b := true];
      } else if !row2[b] {
        free := free + 1;
      }
      b := b + 1;
    }
  }

  lemma {:induction false} ClearLocal(g: Geo, row: seq<bool>, row2: seq<bool>, k: nat, n: nat)
    requires n <= |row| == |row2| && forall s :: 0 <= s < n ==> row[s] == row2[s]
    ensures ClearIn(g, row, k, n) == ClearIn(g, row2, k, n)
  {
    if n > 0 {
      ClearLocal(g, row, row2, k, n - 1);
    }
  }

  /** The tables of the inodes the audit visits can be read as tables. */
  ghost predicate Readable(g: Geo, ibits: seq<seq<bool>>, inodes: seq<Inode>, data: seq<Block>)
    requires GeoOk(g) && InodeBitsOk(g, ibits) && InodesOk(inodes) && |inodes| == g.inodes
  {
    forall i :: 0 <= i < |inodes| && Visited(g, ibits, inodes, i) ==> TablesOk(g, inodes[i], data)
  }

  ghost predicate TablesOk(g: Geo, n: Inode, data: seq<Block>)
    requires InodeOk(n)
  {
    TableOk(g, data, n.ptr[12]) && TableOk(g, data, n.ptr[13]) &&
    forall j :: 0 <= j < PER && Exists(data, Tab(data, n.ptr[13], j)) ==> !Meta(g, Tab(data, n.ptr[13], j))
  }

  ghost predicate TableOk(g: Geo, data: seq<Block>, b: nat) { b != 0 ==> Exists(data, b) && !Meta(g, b) }

  /** What the pointers of the volume claim, marks aside: every block behind an inode
      exists, is not metadata, and belongs to one pointer. */
  ghost predicate Claimed(g: Geo, inodes: seq<Inode>, data: seq<Block>, owner: map<nat, Key>)
    requires GeoOk(g) && InodesOk(inodes)
  {
    forall i, p :: 0 <= i < |inodes| && GoodPtr(p) && Val(inodes[i], data, p) != 0 ==>
      var v := Val(inodes[i], data, p);
      0 < v < g.blocks && !Meta(g, v) && v in owner && owner[v] == Key(i, p)
  }

  lemma ClaimedReadable(g: Geo, ibits: seq<seq<bool>>, inodes: seq<Inode>, data: seq<Block>, owner: map<nat, Key>)
    requires GeoOk(g) && InodeBitsOk(g, ibits) && InodesOk(inodes) && |inodes| == g.inodes && |data| == g.blocks && Claimed(g, inodes, data, owner)
    ensures Readable(g, ibits, inodes, data)
  {
    hide Visited, Meta, Tab;
    forall i | 0 <= i < |inodes| ensures TablesOk(g, inodes[i], data) {
      var n := inodes[i];
      assert GoodPtr(Ind) && Val(n, data, Ind) == n.ptr[12] && GoodPtr(Dbl) && Val(n, data, Dbl) == n.ptr[13];
      forall j | 0 <= j < PER && Exists(data, Tab(data, n.ptr[13], j)) ensures !Meta(g, Tab(data, n.ptr[13], j)) {
        assert GoodPtr(DblTab(j)) && Val(n, data, DblTab(j)) == Tab(data, n.ptr[13], j);
      }
    }
  }

  /** One inode of the pass, after what was marked before. */
  method VisitInode(v: Volume, k: nat, ghost none: seq<bool>, row: seq<bool>, i: nat, ghost before: seq<nat>) returns (row2: seq<bool>)
    requires v.Sized() && InodeBitsOk(v.geo, v.ibits) && Readable(v.geo, v.ibits, v.inodes, v.data) && i < |v.inodes|
    requires |none| == v.geo.bpg && Marks(v.geo, k, none, row, before)
    ensures Marks(v.geo, k, none, row2, before + if Visited(v.geo, v.ibits, v.inodes, i) then PtrList(v.inodes[i], v.data) else [])
  {
    hide Marks, Meta, PtrList, TablesOk, Groups, Val;
    MarksLen(v.geo, k, none, row, before);
    var ino := i + 1;
    if InUse(v.geo, v.ibits, ino) && !(ino == 1 || (3 <= ino && ino <= 10)) && v.inodes[i].mode != 0 {
      row2 := MarkInode(v, k, row, v.inodes[i]);
      MarksThen(v.geo, k, none, row, row2, before, PtrList(v.inodes[i], v.data));
    } else {
      assert before + [] == before;
      row2 := row;
    }
  }

  /** One pass: the bitmap of group k from its metadata and its own inodes. */
  method AuditGroup(v: Volume, k: nat) returns (row: seq<bool>, free: nat)
    requires v.Sized() && InodeBitsOk(v.geo, v.ibits) && k < |v.geo.desc| && Readable(v.geo, v.ibits, v.inodes, v.data)
    ensures |row| == v.geo.bpg && free == ClearIn(v.geo, row, k, v.geo.bpg)
    ensures RowIs(v.geo, v.ibits, v.inodes, v.data, k, row)
  {
    hide Marks, Meta, MetaList, PtrList, Readable, GroupList, BlockOf, RowIs, Visited, Groups, InodeBase, InodesOk;
    var none := seq(v.geo.bpg, _ => false);
    row := MarkEach(v.geo, k, none, MetaList(v.geo, k));
    ghost var list := MetaList(v.geo, k);
    var idx := 0;
    GroupListNone(v.geo, v.ibits, v.inodes, v.data, k);
    assert list == list + [];
    while idx < v.geo.ipg && InodeBase(v.geo, k) + idx < |v.inodes|
      invariant 0 <= idx <= v.geo.ipg
      invariant Marks(v.geo, k, none, row, list + GroupList(v.geo, v.ibits, v.inodes, v.data, k, idx))
    {
      ghost var before := list + GroupList(v.geo, v.ibits, v.inodes, v.data, k, idx);
      var i := InodeBase(v.geo, k) + idx;
      row := VisitInode(v, k, none, row, i, before);
      GroupListStep(v.geo, v.ibits, v.inodes, v.data, k, idx, list);
      idx := idx + 1;
    }
    GroupListEnd(v.geo, v.ibits, v.inodes, v.data, k, idx, v.geo.ipg);
    MarksLen(v.geo, k, none, row, list + GroupList(v.geo, v.ibits, v.inodes, v.data, k, idx));
    RowMarked(v.geo, v.ibits, v.inodes, v.data, k, none, row);
    ghost var marked := row;
    row, free := CountRow(v.geo, k, row);
    RowPadded(v.geo, v.ibits, v.inodes, v.data, k, marked, row);
  }

  lemma GroupListNone(g: Geo, ibits: seq<seq<bool>>, inodes: seq<Inode>, data: seq<Block>, k: nat)
    requires GeoOk(g) && InodeBitsOk(g, ibits) && |inodes| == g.inodes && InodesOk(inodes)
    ensures GroupList(g, ibits, inodes, data, k, 0) == []
  {
  }

  lemma GroupListStep(g: Geo, ibits: seq<seq<bool>>, inodes: seq<Inode>, data: seq<Block>, k: nat, n: nat, list: seq<nat>)
    requires GeoOk(g) && InodeBitsOk(g, ibits) && |inodes| == g.inodes && InodesOk(inodes) && InodeBase(g, k) + n < |inodes|
    ensures var i := InodeBase(g, k) + n;
      list + GroupList(g, ibits, inodes, data, k, n + 1) ==
      list + GroupList(g, ibits, inodes, data, k, n) + if Visited(g, ibits, inodes, i) then PtrList(inodes[i], data) else []
  {
    hide Visited, PtrList;
  }

  lemma RowPadded(g: Geo, ibits: seq<seq<bool>>, inodes: seq<Inode>, data: seq<Block>, k: nat, row: seq<bool>, row2: seq<bool>)
    requires GeoOk(g) && InodeBitsOk(g, ibits) && |inodes| == g.inodes && InodesOk(inodes) && k < |g.desc| && |row| == |row2| == g.bpg
    requires forall s :: 0 <= s < g.bpg ==>
      (row[s] <==> BlockOf(g, k, s) < g.blocks && (BlockOf(g, k, s) in MetaList(g, k) || BlockOf(g, k, s) in GroupList(g, ibits, inodes, data, k, g.ipg)))
    requires forall s :: 0 <= s < g.bpg ==> row2[s] == (row[s] || BlockOf(g, k, s) >= g.blocks)
    ensures RowIs(g, ibits, inodes, data, k, row2)
  {
    hide BlockOf, MetaList, GroupList;
  }

  /** A bit of the rebuilt bitmap: padding, metadata, or behind an inode of the group. */
  ghost predicate RowIs(g: Geo, ibits: seq<seq<bool>>, inodes: seq<Inode>, data: seq<Block>, k: nat, row: seq<bool>)
    requires GeoOk(g) && InodeBitsOk(g, ibits) && |inodes| == g.inodes && InodesOk(inodes) && k < |g.desc|
  {
    |row| == g.bpg && forall s :: 0 <= s < g.bpg ==>
      (row[s] <==> BlockOf(g, k, s) >= g.blocks || BlockOf(g, k, s) in MetaList(g, k) || BlockOf(g, k, s) in GroupList(g, ibits, inodes, data, k, g.ipg))
  }

  lemma RowMarked(g: Geo, ibits: seq<seq<bool>>, inodes: seq<Inode>, data: seq<Block>, k: nat, none: seq<bool>, row: seq<bool>)
    requires GeoOk(g) && InodeBitsOk(g, ibits) && |inodes| == g.inodes && InodesOk(inodes) && k < |g.desc|
    requires |none| == g.bpg && (forall s :: 0 <= s < g.bpg ==> !none[s])
    requires Marks(g, k, none, row, MetaList(g, k) + GroupList(g, ibits, inodes, data, k, g.ipg))
    ensures |row| == g.bpg && forall s :: 0 <= s < g.bpg ==>
      (row[s] <==> BlockOf(g, k, s) < g.blocks && (BlockOf(g, k, s) in MetaList(g, k) || BlockOf(g, k, s) in GroupList(g, ibits, inodes, data, k, g.ipg)))
  {
    hide BlockOf, MetaList, GroupList;
  }

  lemma {:induction false} GroupListEnd(g: Geo, ibits: seq<seq<bool>>, inodes: seq<Inode>, data: seq<Block>, k: nat, n: nat, m: nat)
    requires GeoOk(g) && InodeBitsOk(g, ibits) && |inodes| == g.inodes && InodesOk(inodes) && n <= m && (n == m || InodeBase(g, k) + n >= |inodes|)
    ensures GroupList(g, ibits, inodes, data, k, n) == GroupList(g, ibits, inodes, data, k, m)
  {
    if n < m {
      GroupListEnd(g, ibits, inodes, data, k, n, m - 1);
    }
  }

  // ---------------------------------------------------------------- the audit

  /** Some inode the pre-pass looks at has a triple-indirect map. */
  ghost predicate HasTriple(inodes: seq<Inode>)
    requires InodesOk(inodes)
  {
    exists i :: 0 <= i < |inodes| && !Reserved(i + 1) && inodes[i].mode != 0 && inodes[i].ptr[14] != 0
  }

  /** Every group's bitmap is what its pass makes of it. */
  ghost predicate Rebuilt(g: Geo, ibits: seq<seq<bool>>, inodes: seq<Inode>, data: seq<Block>, bits: seq<seq<bool>>)
    requires GeoOk(g) && InodeBitsOk(g, ibits) && |inodes| == g.inodes && InodesOk(inodes)
  {
    BitsOk(g, bits) && forall k :: 0 <= k < |bits| ==> RowIs(g, ibits, inodes, data, k, bits[k])
  }

  method FindTriple(v: Volume) returns (found: bool)
    requires v.Sized()
    ensures found <==> HasTriple(v.inodes)
  {
    var i := 0;
    while i < |v.inodes|
      invariant 0 <= i <= |v.inodes|
      invariant forall j :: 0 <= j < i ==> Reserved(j + 1) || v.inodes[j].mode == 0 || v.inodes[j].ptr[14] == 0
    {
      if !Reserved(i + 1) && v.inodes[i].mode != 0 && v.inodes[i].ptr[14] != 0 {
        return true;
      }
      i := i + 1;
    }
    found := false;
  }

  /** Slots past the last block are marked. */
  lemma RowPads(g: Geo, ibits: seq<seq<bool>>, inodes: seq<Inode>, data: seq<Block>, k: nat, row: seq<bool>, slot: nat)
    requires GeoOk(g) && InodeBitsOk(g, ibits) && InodesOk(inodes) && |inodes| == g.inodes && k < |g.desc| && |row| == g.bpg
    requires RowIs(g, ibits, inodes, data, k, row) && slot < g.bpg && k * g.bpg + slot + 1 >= g.blocks
    ensures row[slot]
  {
  }

  /** ex_audit_bitmaps: skipped when a triple-indirect map exists, else every bitmap is
      rebuilt and every count recomputed. */
  method Audit(v: Volume) returns (done: bool)
    requires v.Sized() && InodeBitsOk(v.geo, v.ibits) && Readable(v.geo, v.ibits, v.inodes, v.data) && |v.gfree| == |v.bits|
    modifies v`bits, v`gfree, v`sbFree
    ensures done <==> !HasTriple(v.inodes)
    ensures !done ==> v.bits == old(v.bits) && v.gfree == old(v.gfree) && v.sbFree == old(v.sbFree)
    ensures done ==> Rebuilt(v.geo, v.ibits, v.inodes, v.data, v.bits) && Counts(v.geo, v.bits, v.gfree, v.sbFree)
  {
    hide Readable, HasTriple, RowIs, ClearIn, Groups;
    var triple := FindTriple(v);
    if triple {
      return false;
    }
    var k, sbFree := 0, 0;
    while k < |v.geo.desc|
      modifies v`bits, v`gfree
      invariant 0 <= k <= |v.geo.desc| && v.Sized() && |v.gfree| == |v.bits| && sbFree == Sum(v.gfree[..k])
      invariant forall j :: 0 <= j < k ==> RowIs(v.geo, v.ibits, v.inodes, v.data, j, v.bits[j]) && v.gfree[j] == ClearIn(v.geo, v.bits[j], j, v.geo.bpg)
    {
      var row, free := AuditGroup(v, k);
      v.bits := v.bits[k := row];
      v.gfree := v.gfree[k := free];
      assert v.gfree[..k + 1] == v.gfree[..k] + [free];
      assert (v.gfree[..k] + [free])[..k] == v.gfree[..k];
      sbFree := sbFree + free;
      k := k + 1;
    }
    assert v.gfree[..k] == v.gfree;
    v.sbFree := sbFree;
    done := true;
  }

  // ---------------------------------------------------------------- when the result is sound

  /** Every group's bitmaps and inode table lie in the group, and the descriptor block
      comes before group 0's bitmap. */
  predicate LayoutOk(g: Geo)
    requires GeoOk(g)
  {
    |g.desc| > 0 && g.desc[0].bbm > 2 &&
    forall k :: 0 <= k < |g.desc| ==>
      Within(g, k, g.desc[k].bbm) && Within(g, k, g.desc[k].ibm) &&
      Within(g, k, g.desc[k].itab) && Within(g, k, g.desc[k].itab + TableBlocks(g))
  }

  predicate Within(g: Geo, k: nat, b: nat) { k * g.bpg < b <= k * g.bpg + g.bpg && b < g.blocks }

  lemma WithinGroup(g: Geo, k: nat, b: nat)
    requires GeoOk(g) && 0 < b < g.blocks
    ensures Within(g, k, b) <==> GroupOf(g, b) == k
  {
    DivRange(b - 1, g.bpg, k);
  }

  /** Group k's metadata is in group k, and only group 0 holds the descriptors. */
  lemma MetaOfGroup(g: Geo, k: nat, b: nat)
    requires GeoOk(g) && LayoutOk(g) && k < |g.desc| && 1 < b < g.blocks && MetaOf(g, k, b)
    ensures b == 2 || Within(g, k, b)
  {
    assert k * 32 / BS == 0;
  }

  /** In its own group, what the audit calls metadata is metadata. */
  lemma MetaListIs(g: Geo, b: nat)
    requires GeoOk(g) && LayoutOk(g) && 0 < b < g.blocks
    ensures GroupOf(g, b) < |g.desc| && (b in MetaList(g, GroupOf(g, b)) <==> Meta(g, b))
  {
    BlockOfBit(g, b);
    var k := GroupOf(g, b);
    WithinGroup(g, k, b);
    WithinGroup(g, 0, b);
    hide GroupOf, SlotOf, Groups;
    assert b in MetaList(g, k) <==> MetaOf(g, k, b) || (k == 0 && b == 1) by {
      MetaListOwn(g, k, b);
    }
    if b > 1 && Meta(g, b) {
      var j :| 0 <= j < |g.desc| && MetaOf(g, j, b);
      MetaOfGroup(g, j, b);
      WithinGroup(g, j, b);
      if b == 2 {
        assert MetaOf(g, 0, b);
      }
    }
  }

  lemma MetaListOwn(g: Geo, k: nat, b: nat)
    requires GeoOk(g) && LayoutOk(g) && k < |g.desc| && Within(g, k, b) && 0 < b < g.blocks
    ensures b in MetaList(g, k) <==> MetaOf(g, k, b) || (k == 0 && b == 1)
  {
    hide Range, TableBlocks, Groups;
    assert k * 32 / BS == 0;
    assert Within(g, k, g.desc[k].bbm);
    assert Within(g, 0, g.desc[0].bbm);
    if k > 0 {
      Grows(k, g.bpg);
    }
  }

  /** Visited inode i points at block v. */
  predicate Finds(g: Geo, ibits: seq<seq<bool>>, inodes: seq<Inode>, data: seq<Block>, i: nat, v: nat)
    requires GeoOk(g) && InodeBitsOk(g, ibits) && |inodes| == g.inodes && InodesOk(inodes) && i < |inodes|
  {
    Visited(g, ibits, inodes, i) && v in PtrList(inodes[i], data)
  }

  ghost predicate AnyFinds(g: Geo, ibits: seq<seq<bool>>, inodes: seq<Inode>, data: seq<Block>, lo: nat, n: nat, v: nat)
    requires GeoOk(g) && InodeBitsOk(g, ibits) && |inodes| == g.inodes && InodesOk(inodes)
  {
    exists i :: lo <= i < lo + n && i < |inodes| && Finds(g, ibits, inodes, data, i, v)
  }

  lemma FindStep(g: Geo, ibits: seq<seq<bool>>, inodes: seq<Inode>, data: seq<Block>, k: nat, lo: nat, n: nat, v: nat)
    requires GeoOk(g) && InodeBitsOk(g, ibits) && |inodes| == g.inodes && InodesOk(inodes) && lo == InodeBase(g, k)
    ensures v in GroupList(g, ibits, inodes, data, k, n + 1) <==>
      v in GroupList(g, ibits, inodes, data, k, n) || (lo + n < |inodes| && Finds(g, ibits, inodes, data, lo + n, v))
  {
    hide Visited, PtrList, InodesOk, GeoOk, InodeBitsOk;
  }

  lemma {:induction false} GroupListIs(g: Geo, ibits: seq<seq<bool>>, inodes: seq<Inode>, data: seq<Block>, k: nat, lo: nat, n: nat, v: nat)
    requires GeoOk(g) && InodeBitsOk(g, ibits) && |inodes| == g.inodes && InodesOk(inodes) && lo == InodeBase(g, k)
    ensures v in GroupList(g, ibits, inodes, data, k, n) <==> AnyFinds(g, ibits, inodes, data, lo, n, v)
  {
    hide Finds, GroupList, InodesOk, GeoOk, InodeBitsOk;
    if n > 0 {
      GroupListIs(g, ibits, inodes, data, k, lo, n - 1, v);
      FindStep(g, ibits, inodes, data, k, lo, n - 1, v);
    } else {
      GroupListNone(g, ibits, inodes, data, k);
    }
  }

  /** After the rebuild a block of a group is marked exactly if it is metadata or an inode
      of the same group points at it. */
  lemma RebuiltMarks(g: Geo, ibits: seq<seq<bool>>, inodes: seq<Inode>, data: seq<Block>, bits: seq<seq<bool>>, v: nat)
    requires GeoOk(g) && InodeBitsOk(g, ibits) && InodesOk(inodes) && |inodes| == g.inodes && |data| == g.blocks
    requires Rebuilt(g, ibits, inodes, data, bits) && LayoutOk(g) && 0 < v < g.blocks
    ensures Marked(g, bits, v) <==>
      Meta(g, v) || exists i, p :: 0 <= i < |inodes| && InodeGroup(g, i + 1) == GroupOf(g, v) && Visited(g, ibits, inodes, i) && GoodPtr(p) && Val(inodes[i], data, p) == v
  {
    hide GroupOf, SlotOf, Groups, MetaList, GroupList, Visited, PtrList, Val, Meta, Marked, InodeBase, InodeGroup, Rebuilt, LayoutOk;
    MetaListIs(g, v);
    var k := GroupOf(g, v);
    RebuiltRow(g, ibits, inodes, data, bits, v);
    GroupListIs(g, ibits, inodes, data, k, InodeBase(g, k), g.ipg, v);
    if AnyFinds(g, ibits, inodes, data, InodeBase(g, k), g.ipg, v) {
      var i: nat :| InodeBase(g, k) <= i < InodeBase(g, k) + g.ipg && i < |inodes| && Finds(g, ibits, inodes, data, i, v);
      PtrListIs(inodes[i], data, v);
      InodeRow(g, k, i);
      var p :| GoodPtr(p) && Val(inodes[i], data, p) == v;
    }
    if i: nat, p :| i < |inodes| && InodeGroup(g, i + 1) == k && Visited(g, ibits, inodes, i) && GoodPtr(p) && Val(inodes[i], data, p) == v {
      PtrListIs(inodes[i], data, v);
      InodeRow(g, k, i);
      assert Finds(g, ibits, inodes, data, i, v);
    }
  }

  /** The bit of block v in the rebuilt bitmap of its group. */
  lemma RebuiltRow(g: Geo, ibits: seq<seq<bool>>, inodes: seq<Inode>, data: seq<Block>, bits: seq<seq<bool>>, v: nat)
    requires GeoOk(g) && InodeBitsOk(g, ibits) && |inodes| == g.inodes && InodesOk(inodes)
    requires Rebuilt(g, ibits, inodes, data, bits) && 0 < v < g.blocks
    ensures var k := GroupOf(g, v);
      k < |g.desc| && (Marked(g, bits, v) <==> v in MetaList(g, k) || v in GroupList(g, ibits, inodes, data, k, g.ipg))
  {
    BlockOfBit(g, v);
    hide GroupOf, SlotOf, BlockOf, Groups, MetaList, GroupList, InodesOk;
    var k := GroupOf(g, v);
    assert RowIs(g, ibits, inodes, data, k, bits[k]);
  }

  lemma InodeRow(g: Geo, k: nat, i: nat)
    requires GeoOk(g)
    ensures InodeBase(g, k) <= i < InodeBase(g, k) + g.ipg <==> InodeGroup(g, i + 1) == k
  {
    DivRange(i, g.ipg, k);
  }

  /** Every inode that holds a pointer is one the audit visits, and every block behind it
      lies in the inode's own group. */
  ghost predicate InPlace(g: Geo, ibits: seq<seq<bool>>, inodes: seq<Inode>, data: seq<Block>)
    requires GeoOk(g) && InodeBitsOk(g, ibits) && InodesOk(inodes) && |inodes| == g.inodes
  {
    forall i, p :: 0 <= i < |inodes| && GoodPtr(p) && Val(inodes[i], data, p) != 0 ==>
      Visited(g, ibits, inodes, i) && GroupOf(g, Val(inodes[i], data, p)) == InodeGroup(g, i + 1)
  }

  lemma MarkKept(g: Geo, ibits: seq<seq<bool>>, inodes: seq<Inode>, data: seq<Block>, owner: map<nat, Key>, bits: seq<seq<bool>>, i: nat, p: Ptr)
    requires GeoOk(g) && InodeBitsOk(g, ibits) && InodesOk(inodes) && |inodes| == g.inodes && |data| == g.blocks
    requires Claimed(g, inodes, data, owner) && Rebuilt(g, ibits, inodes, data, bits) && LayoutOk(g)
    requires i < |inodes| && GoodPtr(p) && Val(inodes[i], data, p) != 0
    ensures var v := Val(inodes[i], data, p);
      0 < v < g.blocks && (Marked(g, bits, v) <==> Visited(g, ibits, inodes, i) && GroupOf(g, v) == InodeGroup(g, i + 1))
  {
    hide Val, Visited, Marked, Meta, GroupOf, InodeGroup;
    var v := Val(inodes[i], data, p);
    assert owner[v] == Key(i, p) && 0 < v < g.blocks && !Meta(g, v);
    RebuiltMarks(g, ibits, inodes, data, bits, v);
    if j, q :| 0 <= j < |inodes| && InodeGroup(g, j + 1) == GroupOf(g, v) && Visited(g, ibits, inodes, j) && GoodPtr(q) && Val(inodes[j], data, q) == v {
      assert owner[v] == Key(j, q);
    }
  }

  /** A block behind an inode of another group, or behind one that is reserved, not marked in
      use or without a mode, loses its mark; every other block keeps it. */
  lemma CrossGroupLost(g: Geo, ibits: seq<seq<bool>>, inodes: seq<Inode>, data: seq<Block>, owner: map<nat, Key>, bits: seq<seq<bool>>, i: nat, p: Ptr)
    requires GeoOk(g) && InodeBitsOk(g, ibits) && InodesOk(inodes) && |inodes| == g.inodes && |data| == g.blocks
    requires Claimed(g, inodes, data, owner) && Rebuilt(g, ibits, inodes, data, bits) && LayoutOk(g)
    requires i < |inodes| && GoodPtr(p) && Val(inodes[i], data, p) != 0
    ensures var v := Val(inodes[i], data, p);
      0 < v < g.blocks &&
      (Marked(g, bits, v) <==>
        InUse(g, ibits, i + 1) && inodes[i].mode != 0 && i + 1 != 1 && !(3 <= i + 1 <= 10) && (v - 1) / g.bpg == i / g.ipg)
  {
    hide Val, Marked, Meta, InUse, Claimed, Rebuilt, LayoutOk;
    MarkKept(g, ibits, inodes, data, owner, bits, i, p);
  }

  /** The audit establishes the allocator's invariant if and only if the pointers of the
      volume claim it and all of them are in place. */
  lemma AuditSound(g: Geo, ibits: seq<seq<bool>>, inodes: seq<Inode>, data: seq<Block>, owner: map<nat, Key>, bits: seq<seq<bool>>)
    requires GeoOk(g) && InodeBitsOk(g, ibits) && InodesOk(inodes) && |inodes| == g.inodes && |data| == g.blocks
    requires Rebuilt(g, ibits, inodes, data, bits) && LayoutOk(g)
    ensures Owned(g, bits, inodes, data, owner) <==> Claimed(g, inodes, data, owner) && InPlace(g, ibits, inodes, data)
  {
    hide Val, Visited, Marked, Meta, GroupOf, InodeGroup, LayoutOk, RowIs;
    if Claimed(g, inodes, data, owner) {
      forall i, p | 0 <= i < |inodes| && GoodPtr(p) && Val(inodes[i], data, p) != 0
        ensures Holds(g, bits, owner, Val(inodes[i], data, p), Key(i, p)) <==>
          Visited(g, ibits, inodes, i) && GroupOf(g, Val(inodes[i], data, p)) == InodeGroup(g, i + 1)
      {
        MarkKept(g, ibits, inodes, data, owner, bits, i, p);
      }
    } else if Owned(g, bits, inodes, data, owner) {
      OwnedClaims(g, bits, inodes, data, owner);
    }
  }

  lemma OwnedClaims(g: Geo, bits: seq<seq<bool>>, inodes: seq<Inode>, data: seq<Block>, owner: map<nat, Key>)
    requires GeoOk(g) && BitsOk(g, bits) && InodesOk(inodes) && Owned(g, bits, inodes, data, owner)
    ensures Claimed(g, inodes, data, owner)
  {
    hide Val, Marked, Meta;
    forall i, p | 0 <= i < |inodes| && GoodPtr(p) && Val(inodes[i], data, p) != 0
      ensures var v := Val(inodes[i], data, p); 0 < v < g.blocks && !Meta(g, v) && v in owner && owner[v] == Key(i, p)
    {
      assert Holds(g, bits, owner, Val(inodes[i], data, p), Key(i, p));
    }
  }

  /** Then a bit is set exactly for metadata, blocks in use and padding. */
  lemma AuditExact(g: Geo, ibits: seq<seq<bool>>, inodes: seq<Inode>, data: seq<Block>, bits: seq<seq<bool>>, v: nat)
    requires GeoOk(g) && InodeBitsOk(g, ibits) && InodesOk(inodes) && |inodes| == g.inodes && |data| == g.blocks
    requires Rebuilt(g, ibits, inodes, data, bits) && LayoutOk(g) && InPlace(g, ibits, inodes, data) && 0 < v < g.blocks
    ensures Marked(g, bits, v) <==> Meta(g, v) || !Unused(inodes, data, v)
  {
    hide Val, Visited, Marked, Meta, GroupOf, InodeGroup;
    RebuiltMarks(g, ibits, inodes, data, bits, v);
    if i, p :| 0 <= i < |inodes| && GoodPtr(p) && Val(inodes[i], data, p) == v {
      assert Visited(g, ibits, inodes, i) && GroupOf(g, v) == InodeGroup(g, i + 1);
    }
  }
}
