/** The open-file table: per-task tables of global entries, shared by reference count. */
module FileDescriptors {

  const PER_TASK: nat := 16
  const GLOBAL: nat := 64
  const NTASK: nat := 32

  const EBADF: int := -9
  const ENOMEM: int := -12

  datatype Fildes = Fildes(inUse: bool, ref: int, ino: nat, off: nat, flags: int)

  // ---------------------------------------------------------------- counting cells

  function RowCount(row: seq<int>, g: int): nat {
    if row == [] then 0 else RowCount(row[..|row| - 1], g) + if row[|row| - 1] == g then 1 else 0
  }

  /** How many cells of all tables hold entry g. */
  function Count(tables: seq<seq<int>>, g: int): nat {
    if tables == [] then 0 else Count(tables[..|tables| - 1], g) + RowCount(tables[|tables| - 1], g)
  }

  function One(b: bool): nat { if b then 1 else 0 }

  lemma {:induction false} RowUpdate(row: seq<int>, i: nat, v: int, g: int)
    requires i < |row|
    ensures RowCount(row[i := v], g) + One(row[i] == g) == RowCount(row, g) + One(v == g)
  {
    var n := |row| - 1;
    if i == n {
      assert row[i := v][..n] == row[..n];
    } else {
      assert row[i := v][..n] == row[..n][i := v];
      RowUpdate(row[..n], i, v, g);
    }
  }

  lemma {:induction false} CountUpdate(tables: seq<seq<int>>, t: nat, row: seq<int>, g: int)
    requires t < |tables|
    ensures Count(tables[t := row], g) + RowCount(tables[t], g) == Count(tables, g) + RowCount(row, g)
  {
    var n := |tables| - 1;
    if t == n {
      assert tables[t := row][..n] == tables[..n];
    } else {
      assert tables[t := row][..n] == tables[..n][t := row];
      CountUpdate(tables[..n], t, row, g);
    }
  }

  lemma {:induction false} RowHolds(row: seq<int>, i: nat, g: int)
    requires i < |row| && row[i] == g
    ensures RowCount(row, g) >= 1
  {
    var n := |row| - 1;
    if i < n {
      RowHolds(row[..n], i, g);
    }
  }

  lemma {:induction false} CountHolds(tables: seq<seq<int>>, t: nat, g: int)
    requires t < |tables|
    ensures Count(tables, g) >= RowCount(tables[t], g)
  {
    var n := |tables| - 1;
    if t < n {
      CountHolds(tables[..n], t, g);
    }
  }

  lemma {:induction false} RowNone(row: seq<int>, g: int)
    requires forall i :: 0 <= i < |row| ==> row[i] != g
    ensures RowCount(row, g) == 0
  {
    if row != [] {
      RowNone(row[..|row| - 1], g);
    }
  }

  lemma {:induction false} CountNone(tables: seq<seq<int>>, g: int)
    requires forall t :: 0 <= t < |tables| ==> RowCount(tables[t], g) == 0
    ensures Count(tables, g) == 0
  {
    if tables != [] {
      CountNone(tables[..|tables| - 1], g);
    }
  }

  /** One cell changes: the counts of what it held and of what it holds move by one. */
  lemma CellUpdate(tables: seq<seq<int>>, t: nat, i: nat, v: int, g: int)
    requires t < |tables| && i < |tables[t]|
    ensures Count(tables[t := tables[t][i := v]], g) + One(tables[t][i] == g) == Count(tables, g) + One(v == g)
  {
    RowUpdate(tables[t], i, v, g);
    CountUpdate(tables, t, tables[t][i := v], g);
  }

  // ---------------------------------------------------------------- the invariant

  predicate Shaped(fds: seq<Fildes>, tables: seq<seq<int>>) {
    |fds| == GLOBAL && |tables| == NTASK && forall t :: 0 <= t < NTASK ==> |tables[t]| == PER_TASK
  }

  /** An entry's count is the number of cells that hold it, and it is in use exactly when
      there is one. */
  predicate EntryOk(e: Fildes, n: nat) { e.inUse == (n >= 1) && (e.inUse ==> e.ref == n) }

  ghost predicate Counted(fds: seq<Fildes>, tables: seq<seq<int>>) {
    Shaped(fds, tables) && forall g :: 0 <= g < GLOBAL ==> EntryOk(fds[g], Count(tables, g))
  }

  ghost predicate CellsOk(tables: seq<seq<int>>) {
    forall t, i :: 0 <= t < |tables| && 0 <= i < |tables[t]| ==> -1 <= tables[t][i] < GLOBAL
  }

  /** No cell holds an entry that is not in use. */
  lemma CellInUse(fds: seq<Fildes>, tables: seq<seq<int>>, t: nat, i: nat)
    requires Counted(fds, tables) && CellsOk(tables) && t < NTASK && i < PER_TASK && tables[t][i] >= 0
    ensures fds[tables[t][i]].inUse && fds[tables[t][i]].ref >= 1
  {
    var g := tables[t][i];
    RowHolds(tables[t], i, g);
    CountHolds(tables, t, g);
    assert EntryOk(fds[g], Count(tables, g));
  }

  function Dropped(e: Fildes): Fildes {
    if e.ref - 1 <= 0 then e.(inUse := false, ref := 0) else e.(ref := e.ref - 1)
  }

  /** Emptying a cell that holds g and dropping one reference. */
  lemma DropKeeps(fds: seq<Fildes>, tables: seq<seq<int>>, t: nat, i: nat)
    requires Counted(fds, tables) && CellsOk(tables) && t < NTASK && i < PER_TASK && tables[t][i] >= 0
    ensures var g := tables[t][i]; Counted(fds[g := Dropped(fds[g])], tables[t := tables[t][i := -1]]) && CellsOk(tables[t := tables[t][i := -1]])
  {
    var g := tables[t][i];
    CellInUse(fds, tables, t, i);
    var tables2 := tables[t := tables[t][i := -1]];
    hide Count;
    forall h | 0 <= h < GLOBAL ensures EntryOk(fds[g := Dropped(fds[g])][h], Count(tables2, h)) {
      CellUpdate(tables, t, i, -1, h);
      assert EntryOk(fds[h], Count(tables, h));
    }
  }

  /** Filling an empty cell with g and adding one reference. */
  lemma AddKeeps(fds: seq<Fildes>, tables: seq<seq<int>>, t: nat, i: nat, g: nat, e: Fildes)
    requires Counted(fds, tables) && CellsOk(tables) && t < NTASK && i < PER_TASK && tables[t][i] < 0 && g < GLOBAL
    requires e.inUse && e.ref == if fds[g].inUse then fds[g].ref + 1 else 1
    ensures Counted(fds[g := e], tables[t := tables[t][i := g]]) && CellsOk(tables[t := tables[t][i := g]])
  {
    var tables2 := tables[t := tables[t][i := g]];
    hide Count;
    forall h | 0 <= h < GLOBAL ensures EntryOk(fds[g := e][h], Count(tables2, h)) {
      CellUpdate(tables, t, i, g, h);
      assert EntryOk(fds[h], Count(tables, h));
    }
  }

  // ---------------------------------------------------------------- the table

  class OpenFiles {
    var fds: seq<Fildes>
    var tables: seq<seq<int>>

    ghost predicate Valid()
      reads this
    {
      Counted(fds, tables) && CellsOk(tables)
    }

    constructor ()
      ensures Valid() && forall t, i :: 0 <= t < NTASK && 0 <= i < PER_TASK ==> tables[t][i] == -1
    {
      fds := seq(GLOBAL, _ => Fildes(false, 0, 0, 0, 0));
      tables := seq(NTASK, _ => seq(PER_TASK, _ => -1));
      new;
      forall g | 0 <= g < GLOBAL ensures Count(tables, g) == 0 {
        forall t | 0 <= t < NTASK ensures RowCount(tables[t], g) == 0 {
          RowNone(tables[t], g);
        }
        CountNone(tables, g);
      }
    }

    /** fd_alloc_global's scan. */
    method FreeEntry() returns (g: int)
      requires Valid()
      ensures -1 <= g < GLOBAL && (g >= 0 ==> !fds[g].inUse) && forall k :: 0 <= k < (if g < 0 then GLOBAL else g) ==> fds[k].inUse
    {
      g := 0;
      while g < GLOBAL && fds[g].inUse
        invariant 0 <= g <= GLOBAL && forall k :: 0 <= k < g ==> fds[k].inUse
      {
        g := g + 1;
      }
      if g == GLOBAL {
        g := -1;
      }
    }

    /** fd_map_local's scan. */
    method FreeCell(t: nat) returns (fd: int)
      requires Valid() && t < NTASK
      ensures -1 <= fd < PER_TASK && (fd >= 0 ==> tables[t][fd] < 0) && forall k :: 0 <= k < (if fd < 0 then PER_TASK else fd) ==> tables[t][k] >= 0
    {
      fd := 0;
      while fd < PER_TASK && tables[t][fd] >= 0
        invariant 0 <= fd <= PER_TASK && forall k :: 0 <= k < fd ==> tables[t][k] >= 0
      {
        fd := fd + 1;
      }
      if fd == PER_TASK {
        fd := -1;
      }
    }

    /** The locked half of fd_open: the first free entry, offset 0, in the lowest free cell. */
    method Open(t: nat, ino: nat, flags: int) returns (fd: int)
      requires Valid() && t < NTASK
      modifies this
      ensures Valid()
      ensures fd >= 0 <==> (exists k :: 0 <= k < GLOBAL && !old(fds)[k].inUse) && exists k :: 0 <= k < PER_TASK && old(tables[t])[k] < 0
      ensures fd >= 0 ==> fd < PER_TASK && old(tables[t][fd]) < 0 && (forall k :: 0 <= k < fd ==> old(tables[t])[k] >= 0) && tables == old(tables)[t := old(tables[t])[fd := tables[t][fd]]]
      ensures fd >= 0 ==> tables[t][fd] >= 0 && fds == old(fds)[tables[t][fd] := Fildes(true, 1, ino, 0, flags)] && !old(fds)[tables[t][fd]].inUse
      ensures fd >= 0 ==> forall k :: 0 <= k < tables[t][fd] ==> old(fds)[k].inUse
      ensures fd < 0 ==> tables == old(tables) && forall k :: 0 <= k < GLOBAL ==> fds[k].inUse == old(fds)[k].inUse
      ensures fd < 0 ==> (fd == -1 && forall k :: 0 <= k < GLOBAL ==> fds[k].inUse) || (fd == ENOMEM && forall k :: 0 <= k < PER_TASK ==> tables[t][k] >= 0)
    {
      var g := FreeEntry();
      if g < 0 {
        return -1;
      }
      var entry := Fildes(true, 1, ino, 0, flags);
      fd := FreeCell(t);
      if fd < 0 {
        fds := fds[g := entry.(inUse := false)];
        return ENOMEM;
      }
      AddKeeps(fds, tables, t, fd, g, entry);
      fds := fds[g := entry];
      tables := tables[t := tables[t][fd := g]];
    }

    predicate Bad(t: nat, fd: int)
      reads this
      requires Shaped(fds, tables) && t < NTASK
    {
      !(0 <= fd < PER_TASK) || !(0 <= tables[t][fd] < GLOBAL) || !fds[tables[t][fd]].inUse
    }

    /** fd_close: the cell is emptied; the entry goes with its last cell. */
    method Close(t: nat, fd: int) returns (ret: int)
      requires Valid() && t < NTASK
      modifies this
      ensures Valid()
      ensures ret == if old(Bad(t, fd)) then EBADF else 0
      ensures ret != 0 ==> fds == old(fds) && tables == old(tables)
      ensures ret == 0 ==> tables == old(tables)[t := old(tables[t])[fd := -1]]
      ensures ret == 0 ==> var g := old(tables[t][fd]); fds == old(fds)[g := Dropped(old(fds)[g])] && fds[g].inUse == (Count(tables, g) >= 1)
    {
      if Bad(t, fd) {
        return EBADF;
      }
      var g := tables[t][fd];
      DropKeeps(fds, tables, t, fd);
      fds := fds[g := Dropped(fds[g])];
      tables := tables[t := tables[t][fd := -1]];
      assert EntryOk(fds[g], Count(tables, g));
      ret := 0;
    }

    /** fd_close_all. */
    method CloseAll(t: nat)
      requires Valid() && t < NTASK
      modifies this
      ensures Valid()
      ensures |tables[t]| == PER_TASK && (forall i :: 0 <= i < PER_TASK ==> tables[t][i] == -1) && tables == old(tables)[t := tables[t]]
      ensures forall g :: 0 <= g < GLOBAL && fds[g].inUse ==> fds[g] == old(fds)[g].(ref := fds[g].ref) && old(fds)[g].inUse
    {
      hide Counted, CellsOk;
      ShapedIs(fds, tables);
      var i := 0;
      while i < PER_TASK
        invariant 0 <= i <= PER_TASK && Valid() && Shaped(fds, tables)
        invariant tables == old(tables)[t := tables[t]] && forall k :: 0 <= k < i ==> tables[t][k] == -1
        invariant forall k :: i <= k < PER_TASK ==> tables[t][k] == old(tables[t][k])
        invariant forall g :: 0 <= g < GLOBAL && fds[g].inUse ==> fds[g] == old(fds)[g].(ref := fds[g].ref) && old(fds)[g].inUse
      {
        CellRange(tables, t, i);
        var g := tables[t][i];
        if g >= 0 {
          CellInUse(fds, tables, t, i);
        }
        if 0 <= g < GLOBAL && fds[g].inUse {
          DropKeeps(fds, tables, t, i);
          fds := fds[g := Dropped(fds[g])];
        }
        tables := tables[t := tables[t][i := -1]];
        i := i + 1;
      }
    }

    /** fd_inherit into a fresh task: the same entries, each with one more reference. */
    method Inherit(dst: nat, src: nat)
      requires Valid() && dst < NTASK && src < NTASK && dst != src && forall i :: 0 <= i < PER_TASK ==> tables[dst][i] == -1
      modifies this
      ensures Valid()
      ensures tables == old(tables)[dst := old(tables[src])]
      ensures forall g :: 0 <= g < GLOBAL ==> fds[g] == old(fds)[g].(ref := fds[g].ref)
    {
      hide Counted, CellsOk;
      ShapedIs(fds, tables);
      var i := 0;
      while i < PER_TASK
        invariant 0 <= i <= PER_TASK && Valid() && Shaped(fds, tables)
        invariant tables == old(tables)[dst := tables[dst]] && forall k :: 0 <= k < PER_TASK ==> tables[dst][k] == if k < i then old(tables[src][k]) else -1
        invariant forall g :: 0 <= g < GLOBAL ==> fds[g] == old(fds)[g].(ref := fds[g].ref)
      {
        var g := tables[src][i];
        CellRange(tables, src, i);
        CellRange(tables, dst, i);
        if g >= 0 {
          CellInUse(fds, tables, src, i);
          AddKeeps(fds, tables, dst, i, g, fds[g].(ref := fds[g].ref + 1));
          fds := fds[g := fds[g].(ref := fds[g].ref + 1)];
        }
        tables := tables[dst := tables[dst][i := g]];
        i := i + 1;
      }
      assert tables[dst] == old(tables[src]);
    }
  }

  lemma ShapedIs(fds: seq<Fildes>, tables: seq<seq<int>>)
    requires Counted(fds, tables)
    ensures Shaped(fds, tables)
  {
  }

  lemma CellRange(tables: seq<seq<int>>, t: nat, i: nat)
    requires CellsOk(tables) && t < |tables| && i < |tables[t]|
    ensures -1 <= tables[t][i] < GLOBAL && (tables[t][i] == -1 ==> tables[t := tables[t][i := -1]] == tables)
  {
    assert tables[t][i := tables[t][i]] == tables[t];
  }
}
