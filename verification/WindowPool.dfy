/** The window pool's allocator: a sorted free list with first fit, and a bump pointer. */
module WindowPool {

  const POOL_BYTES: nat := 8 * 1024 * 1024
  const WIN_MAX: nat := 8
  const FREE_MAX: nat := WIN_MAX + 1

  datatype Ext = Ext(off: nat, size: nat)

  predicate In(e: Ext, b: nat) { e.off <= b < e.off + e.size }

  /** Byte b is on the free list. */
  ghost predicate Free(f: seq<Ext>, b: nat) { exists i :: 0 <= i < |f| && In(f[i], b) }

  /** Entries in order, none empty, none overlapping. */
  ghost predicate Ordered(f: seq<Ext>) {
    (forall i :: 0 <= i < |f| ==> f[i].size > 0) &&
    (forall i, j :: 0 <= i < j < |f| ==> f[i].off + f[i].size <= f[j].off)
  }

  /** No two of the first n entries touch. */
  ghost predicate Apart(f: seq<Ext>, n: nat) {
    forall i, j :: 0 <= i < j < n && j < |f| ==> f[i].off + f[i].size < f[j].off
  }

  /** Whole words only. */
  ghost predicate Aligned(f: seq<Ext>) { forall i :: 0 <= i < |f| ==> f[i].off % 4 == 0 && f[i].size % 4 == 0 }

  function Total(f: seq<Ext>): nat {
    if f == [] then 0 else Total(f[..|f| - 1]) + f[|f| - 1].size
  }

  lemma {:induction false} TotalConcat(a: seq<Ext>, b: seq<Ext>)
    ensures Total(a + b) == Total(a) + Total(b)
  {
    if b == [] {
      assert a + b == a;
    } else {
      assert (a + b)[..|a + b| - 1] == a + b[..|b| - 1];
      TotalConcat(a, b[..|b| - 1]);
    }
  }

  lemma TotalOne(e: Ext)
    ensures Total([e]) == e.size
  {
    assert [e][..0] == [];
  }

  // ---------------------------------------------------------------- allocation

  /** What is left of a free list after the first size bytes of entry i were taken. */
  function Taken(f: seq<Ext>, i: nat, size: nat): seq<Ext>
    requires i < |f| && size <= f[i].size
  {
    if f[i].size == size then f[..i] + f[i + 1..] else f[i := Ext(f[i].off + size, f[i].size - size)]
  }

  /** Taking the front of an entry. */
  lemma TakenKeeps(f: seq<Ext>, i: nat, size: nat)
    requires Ordered(f) && Apart(f, |f|) && i < |f| && 0 < size <= f[i].size
    ensures Ordered(Taken(f, i, size)) && Apart(Taken(f, i, size), |Taken(f, i, size)|) && |Taken(f, i, size)| <= |f|
  {
    var t := Taken(f, i, size);
    if f[i].size == size {
      assert forall k :: 0 <= k < |t| ==> t[k] == f[if k < i then k else k + 1];
    }
  }

  lemma TakenAligned(f: seq<Ext>, i: nat, size: nat)
    requires Aligned(f) && i < |f| && size <= f[i].size && size % 4 == 0
    ensures Aligned(Taken(f, i, size))
  {
    var t := Taken(f, i, size);
    if f[i].size == size {
      assert forall k :: 0 <= k < |t| ==> t[k] == f[if k < i then k else k + 1];
    }
  }

  lemma TakenTotal(f: seq<Ext>, i: nat, size: nat)
    requires i < |f| && size <= f[i].size
    ensures Total(Taken(f, i, size)) + size == Total(f)
  {
    hide Total;
    var a, b := f[..i], f[i + 1..];
    TotalAround(a, f[i], b);
    assert f == a + [f[i]] + b;
    if f[i].size == size {
      TotalConcat(a, b);
    } else {
      var r := Ext(f[i].off + size, f[i].size - size);
      TotalAround(a, r, b);
      assert f[i := r] == a + [r] + b;
    }
  }

  lemma TotalAround(a: seq<Ext>, e: Ext, b: seq<Ext>)
    ensures Total(a + [e] + b) == Total(a) + e.size + Total(b)
  {
    TotalConcat(a + [e], b);
    TotalConcat(a, [e]);
    TotalOne(e);
  }

  lemma TakenFree(f: seq<Ext>, i: nat, size: nat, b: nat)
    requires Ordered(f) && i < |f| && 0 < size <= f[i].size
    ensures Free(f, b) <==> Free(Taken(f, i, size), b) || In(Ext(f[i].off, size), b)
    ensures !(Free(Taken(f, i, size), b) && In(Ext(f[i].off, size), b))
  {
    var rest, r := f[..i] + f[i + 1..], Ext(f[i].off + size, f[i].size - size);
    assert f == With(rest, i, f[i]) && f[i := r] == With(rest, i, r);
    WithFree(rest, i, f[i], b);
    WithFree(rest, i, r, b);
    if In(f[i], b) {
      RestFree(f, i, b);
    }
    hide Free, With;
  }

  /** No byte of an entry is in another. */
  lemma RestFree(f: seq<Ext>, i: nat, b: nat)
    requires Ordered(f) && i < |f| && In(f[i], b)
    ensures !Free(f[..i] + f[i + 1..], b)
  {
    var rest := f[..i] + f[i + 1..];
    assert forall k :: 0 <= k < |rest| ==> rest[k] == f[if k < i then k else k + 1];
  }

  /** pool_alloc: first fit from the free list, else the bump pointer. */
  method PoolAlloc(f: seq<Ext>, bump: nat, size: nat) returns (ok: bool, off: nat, f2: seq<Ext>, bump2: nat)
    requires Ordered(f) && Apart(f, |f|) && size > 0 && bump <= POOL_BYTES
    ensures ok <==> (exists i :: 0 <= i < |f| && f[i].size >= size) || bump + size <= POOL_BYTES
    ensures !ok ==> f2 == f && bump2 == bump
    ensures ok ==> Ordered(f2) && Apart(f2, |f2|) && |f2| <= |f| && bump <= bump2 <= POOL_BYTES
    ensures ok ==> Total(f2) + size == Total(f) + bump2 - bump
    ensures ok && Aligned(f) && bump % 4 == 0 && size % 4 == 0 ==> Aligned(f2) && off % 4 == 0 && bump2 % 4 == 0
    ensures ok ==> bump2 == bump || (off == bump && f2 == f && bump2 == bump + size)
    ensures ok && bump2 == bump ==> exists i :: 0 <= i < |f| && f[i].size >= size && off == f[i].off && forall k :: 0 <= k < i ==> f[k].size < size
    ensures ok && bump2 != bump ==> forall k :: 0 <= k < |f| ==> f[k].size < size
    ensures ok && bump2 == bump ==> forall b: nat :: Free(f, b) <==> Free(f2, b) || In(Ext(off, size), b)
    ensures ok && bump2 == bump ==> forall b: nat :: !(Free(f2, b) && In(Ext(off, size), b))
  {
    off, f2, bump2 := 0, f, bump;
    var i := 0;
    while i < |f|
      invariant 0 <= i <= |f| && forall k :: 0 <= k < i ==> f[k].size < size
    {
      if f[i].size >= size {
        TakenKeeps(f, i, size);
        TakenTotal(f, i, size);
        if Aligned(f) && size % 4 == 0 {
          TakenAligned(f, i, size);
        }
        forall b: nat ensures (Free(f, b) <==> Free(Taken(f, i, size), b) || In(Ext(f[i].off, size), b)) && !(Free(Taken(f, i, size), b) && In(Ext(f[i].off, size), b)) {
          TakenFree(f, i, size, b);
        }
        return true, f[i].off, Taken(f, i, size), bump;
      }
      i := i + 1;
    }
    if bump + size > POOL_BYTES {
      return false, 0, f, bump;
    }
    ok, off, bump2 := true, bump, bump + size;
  }

  // ---------------------------------------------------------------- release

  function With(f: seq<Ext>, i: nat, e: Ext): seq<Ext>
    requires i <= |f|
  {
    f[..i] + [e] + f[i..]
  }

  lemma WithKeeps(f: seq<Ext>, i: nat, e: Ext)
    requires Ordered(f) && e.size > 0 && i <= |f|
    requires forall k :: 0 <= k < i ==> f[k].off + f[k].size <= e.off
    requires forall k :: i <= k < |f| ==> e.off + e.size <= f[k].off
    ensures Ordered(With(f, i, e)) && (Aligned(f) && e.off % 4 == 0 && e.size % 4 == 0 ==> Aligned(With(f, i, e)))
  {
    var t := With(f, i, e);
    assert forall k :: 0 <= k < |t| ==> t[k] == if k == i then e else f[if k < i then k else k - 1];
    hide With;
  }

  lemma WithTotal(f: seq<Ext>, i: nat, e: Ext)
    requires i <= |f|
    ensures Total(With(f, i, e)) == Total(f) + e.size
  {
    hide Total;
    TotalAround(f[..i], e, f[i..]);
    TotalConcat(f[..i], f[i..]);
    assert f[..i] + f[i..] == f;
  }

  lemma WithFree(f: seq<Ext>, i: nat, e: Ext, b: nat)
    requires i <= |f|
    ensures Free(With(f, i, e), b) <==> Free(f, b) || In(e, b)
  {
    var t := With(f, i, e);
    if k :| 0 <= k < |f| && In(f[k], b) {
      assert In(t[if k < i then k else k + 1], b);
    }
    if In(e, b) {
      assert In(t[i], b);
    }
    if k :| 0 <= k < |t| && In(t[k], b) {
      assert k == i || In(f[if k < i then k else k - 1], b);
    }
  }

  /** Entries i and i + 1 made one. */
  function Merged(f: seq<Ext>, i: nat): seq<Ext>
    requires i + 1 < |f|
  {
    f[..i] + [Ext(f[i].off, f[i].size + f[i + 1].size)] + f[i + 2..]
  }

  lemma MergedKeeps(f: seq<Ext>, i: nat)
    requires Ordered(f) && i + 1 < |f| && f[i].off + f[i].size == f[i + 1].off && Apart(f, i + 1)
    ensures Ordered(Merged(f, i)) && Apart(Merged(f, i), i + 1) && (Aligned(f) ==> Aligned(Merged(f, i)))
  {
    var t := Merged(f, i);
    assert t[i] == Ext(f[i].off, f[i].size + f[i + 1].size);
    assert forall k :: 0 <= k < |t| && k != i ==> t[k] == f[if k < i then k else k + 1];
    hide Merged;
  }

  lemma MergedTotal(f: seq<Ext>, i: nat)
    requires i + 1 < |f|
    ensures Total(Merged(f, i)) == Total(f)
  {
    hide Total;
    var m := Ext(f[i].off, f[i].size + f[i + 1].size);
    TotalAround(f[..i], m, f[i + 2..]);
    TotalAround(f[..i] + [f[i]], f[i + 1], f[i + 2..]);
    TotalConcat(f[..i], [f[i]]);
    TotalOne(f[i]);
    assert f == f[..i] + [f[i]] + [f[i + 1]] + f[i + 2..];
  }

  lemma MergedFree(f: seq<Ext>, i: nat, b: nat)
    requires i + 1 < |f| && f[i].off + f[i].size == f[i + 1].off
    ensures Free(Merged(f, i), b) <==> Free(f, b)
  {
    var t := Merged(f, i);
    if k :| 0 <= k < |f| && In(f[k], b) {
      assert In(t[if k <= i then k else k - 1], b);
    }
    if k :| 0 <= k < |t| && In(t[k], b) {
      assert if k < i then In(f[k], b) else if k > i then In(f[k + 1], b) else In(f[i], b) || In(f[i + 1], b);
    }
  }

  /** pool_free: insert in order and merge neighbours; a full list drops the extent. */
  method PoolFree(f: seq<Ext>, e: Ext) returns (f2: seq<Ext>)
    requires Ordered(f) && Apart(f, |f|) && |f| <= FREE_MAX && e.size > 0
    requires forall i :: 0 <= i < |f| ==> f[i].off + f[i].size <= e.off || e.off + e.size <= f[i].off
    ensures Ordered(f2) && Apart(f2, |f2|) && |f2| <= FREE_MAX
    ensures Aligned(f) && e.off % 4 == 0 && e.size % 4 == 0 ==> Aligned(f2)
    ensures |f| == FREE_MAX ==> f2 == f
    ensures |f| < FREE_MAX ==> Total(f2) == Total(f) + e.size && forall b: nat :: Free(f2, b) <==> Free(f, b) || In(e, b)
  {
    if |f| >= FREE_MAX {
      return f;
    }
    f2 := InsertSorted(f, e);
    f2 := MergeAll(f2);
  }

  /** The new entry sinks to its place. */
  method InsertSorted(f: seq<Ext>, e: Ext) returns (f2: seq<Ext>)
    requires Ordered(f) && e.size > 0
    requires forall i :: 0 <= i < |f| ==> f[i].off + f[i].size <= e.off || e.off + e.size <= f[i].off
    ensures Aligned(f) && e.off % 4 == 0 && e.size % 4 == 0 ==> Aligned(f2)
    ensures Ordered(f2) && |f2| == |f| + 1 && Total(f2) == Total(f) + e.size && forall b: nat :: Free(f2, b) <==> Free(f, b) || In(e, b)
  {
    hide Total, Free;
    var i := |f|;
    f2 := f + [e];
    assert f2 == With(f, i, e);
    while i > 0 && f2[i].off < f2[i - 1].off
      invariant 0 <= i <= |f| && f2 == With(f, i, e)
      invariant forall k :: i <= k < |f| ==> e.off + e.size <= f[k].off
    {
      assert f2[i] == e && f2[i - 1] == f[i - 1];
      f2 := f2[i := f2[i - 1]][i - 1 := f2[i]];
      i := i - 1;
      assert f2 == With(f, i, e);
    }
    assert i > 0 ==> f2[i - 1] == f[i - 1] && f2[i] == e;
    WithKeeps(f, i, e);
    WithTotal(f, i, e);
    forall b: nat ensures Free(f2, b) <==> Free(f, b) || In(e, b) {
      WithFree(f, i, e, b);
    }
  }

  /** Touching neighbours become one. */
  method MergeAll(f: seq<Ext>) returns (f2: seq<Ext>)
    requires Ordered(f)
    ensures Aligned(f) ==> Aligned(f2)
    ensures Ordered(f2) && Apart(f2, |f2|) && |f2| <= |f| && Total(f2) == Total(f) && forall b: nat :: Free(f2, b) <==> Free(f, b)
  {
    hide Total, Free;
    f2 := f;
    var i := 0;
    while i + 1 < |f2|
      invariant 0 <= i && |f2| <= |f| && Ordered(f2) && Apart(f2, i + 1) && Total(f2) == Total(f)
      invariant (Aligned(f) ==> Aligned(f2)) && forall b: nat :: Free(f2, b) <==> Free(f, b)
      decreases |f2| - i
    {
      if f2[i].off + f2[i].size == f2[i + 1].off {
        MergedKeeps(f2, i);
        MergedTotal(f2, i);
        forall b: nat ensures Free(Merged(f2, i), b) <==> Free(f2, b) {
          MergedFree(f2, i, b);
        }
        f2 := Merged(f2, i);
      } else {
        i := i + 1;
      }
    }
  }
}
