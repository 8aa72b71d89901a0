/** Window slots: creation and release over the pool, clipped drawing, compositing,
    hit-testing and stacking. */
module Windows {
  import opened Arith
  import opened WindowPool

  const MAX_DIM: nat := 1024
  const U32: nat := 0x1_0000_0000

  datatype Win = Win(used: bool, x: nat, y: nat, w: nat, h: nat, off: nat, owner: nat)

  function Bytes(w: Win): nat { w.w * w.h * 4 }

  function ExtOf(w: Win): Ext { Ext(w.off, Bytes(w)) }

  // ---------------------------------------------------------------- the pool's invariant

  /** A live window's geometry and place in the pool. */
  predicate WinOk(w: Win, bump: nat) {
    1 <= w.w <= MAX_DIM && 1 <= w.h <= MAX_DIM && w.off % 4 == 0 && w.off + Bytes(w) <= bump && w.x + w.w < U32 && w.y + w.h < U32
  }

  predicate Disjoint(a: Ext, b: Ext) { a.off + a.size <= b.off || b.off + b.size <= a.off }

  function LiveTotal(wins: seq<Win>): nat {
    if wins == [] then 0
    else LiveTotal(wins[..|wins| - 1]) + if wins[|wins| - 1].used then Bytes(wins[|wins| - 1]) else 0
  }

  /** No byte of extent e is free. */
  ghost predicate NotFree(f: seq<Ext>, e: Ext) { forall b: nat :: In(e, b) ==> !Free(f, b) }

  /** Byte b belongs to a live window. */
  ghost predicate Held(wins: seq<Win>, b: nat) { exists i :: 0 <= i < |wins| && wins[i].used && In(ExtOf(wins[i]), b) }

  ghost predicate Covered(wins: seq<Win>, f: seq<Ext>, bump: nat) { forall b: nat :: b < bump ==> Free(f, b) || Held(wins, b) }

  /** Live windows and free entries are disjoint parts of [0, bump) that make up all of it,
      and the free list is never full. */
  ghost predicate PoolOk(wins: seq<Win>, f: seq<Ext>, bump: nat) {
    |wins| == WIN_MAX && Ordered(f) && Apart(f, |f|) && Aligned(f) && |f| <= WIN_MAX && bump <= POOL_BYTES && bump % 4 == 0 &&
    (forall b: nat :: Free(f, b) ==> b < bump) &&
    (forall i :: 0 <= i < |wins| && wins[i].used ==> WinOk(wins[i], bump) && NotFree(f, ExtOf(wins[i]))) &&
    (forall i, j :: 0 <= i < j < |wins| && wins[i].used && wins[j].used ==> Disjoint(ExtOf(wins[i]), ExtOf(wins[j]))) &&
    Total(f) + LiveTotal(wins) == bump && Covered(wins, f, bump)
  }

  lemma {:induction false} LiveUpdate(wins: seq<Win>, i: nat, w: Win)
    requires i < |wins|
    ensures LiveTotal(wins[i := w]) + (if wins[i].used then Bytes(wins[i]) else 0) == LiveTotal(wins) + if w.used then Bytes(w) else 0
  {
    hide Bytes;
    var n := |wins| - 1;
    if i == n {
      assert wins[i := w][..n] == wins[..n];
    } else {
      assert wins[i := w][..n] == wins[..n][i := w];
      LiveUpdate(wins[..n], i, w);
    }
  }

  /** Extents that share no byte do not overlap. */
  lemma NoShare(a: Ext, f: seq<Ext>, i: nat)
    requires NotFree(f, a) && i < |f| && a.size > 0 && f[i].size > 0
    ensures Disjoint(a, f[i])
  {
    var b: nat := if a.off > f[i].off then a.off else f[i].off;
    if In(f[i], b) {
      assert Free(f, b);
    }
  }

  lemma SizePositive(w: Win)
    requires w.w >= 1 && w.h >= 1
    ensures Bytes(w) > 0 && Bytes(w) % 4 == 0
  {
    assert w.w * w.h >= 1;
  }

  /** A window takes over bytes that were free, or new ones. */
  lemma CreateKeeps(wins: seq<Win>, f: seq<Ext>, bump: nat, id: nat, w: Win, f2: seq<Ext>, bump2: nat)
    requires PoolOk(wins, f, bump) && id < |wins| && !wins[id].used && w.used && WinOk(w, bump2) && bump <= bump2 <= POOL_BYTES && bump2 % 4 == 0
    requires Ordered(f2) && Apart(f2, |f2|) && Aligned(f2) && |f2| <= |f| && Total(f2) + Bytes(w) == Total(f) + bump2 - bump
    requires bump2 == bump ==> forall b: nat :: (Free(f, b) <==> Free(f2, b) || In(ExtOf(w), b)) && !(Free(f2, b) && In(ExtOf(w), b))
    requires bump2 != bump ==> f2 == f && w.off == bump && bump2 == bump + Bytes(w)
    ensures PoolOk(wins[id := w], f2, bump2)
  {
    LiveUpdate(wins, id, w);
    SizePositive(w);
    CreateCovers(wins, f, bump, id, w, f2, bump2);
    hide Bytes, Ordered, Apart, Aligned, Total, LiveTotal, NotFree, WinOk, Disjoint, Covered;
    forall i | 0 <= i < |wins| && i != id && wins[i].used
      ensures WinOk(wins[i], bump2) && Disjoint(ExtOf(wins[i]), ExtOf(w)) && Disjoint(ExtOf(w), ExtOf(wins[i])) && NotFree(f2, ExtOf(wins[i]))
    {
      CreateOther(wins[i], f, bump, w, f2, bump2);
    }
    NewNotFree(f, bump, w, f2, bump2);
  }

  lemma CreateCovers(wins: seq<Win>, f: seq<Ext>, bump: nat, id: nat, w: Win, f2: seq<Ext>, bump2: nat)
    requires Covered(wins, f, bump) && id < |wins| && !wins[id].used && w.used
    requires bump2 == bump ==> forall b: nat :: Free(f, b) <==> Free(f2, b) || In(ExtOf(w), b)
    requires bump2 != bump ==> f2 == f && w.off == bump && bump2 == bump + Bytes(w)
    ensures Covered(wins[id := w], f2, bump2)
  {
    hide Free, Bytes;
    var more := wins[id := w];
    forall b: nat | b < bump2 ensures Free(f2, b) || Held(more, b) {
      if In(ExtOf(w), b) {
        assert more[id].used && In(ExtOf(more[id]), b);
      } else if Held(wins, b) {
        var i :| 0 <= i < |wins| && wins[i].used && In(ExtOf(wins[i]), b);
        assert more[i].used && In(ExtOf(more[i]), b);
      }
    }
  }

  /** A window that was live before is clear of the new one. */
  lemma CreateOther(o: Win, f: seq<Ext>, bump: nat, w: Win, f2: seq<Ext>, bump2: nat)
    requires WinOk(o, bump) && NotFree(f, ExtOf(o)) && WinOk(w, bump2) && bump <= bump2
    requires bump2 == bump ==> forall b: nat :: Free(f, b) <==> Free(f2, b) || In(ExtOf(w), b)
    requires bump2 != bump ==> f2 == f && w.off == bump
    ensures WinOk(o, bump2) && Disjoint(ExtOf(o), ExtOf(w)) && Disjoint(ExtOf(w), ExtOf(o)) && NotFree(f2, ExtOf(o))
  {
    SizePositive(o);
    SizePositive(w);
    hide Bytes, Free;
    if bump2 == bump {
      OverlapByte(ExtOf(o), ExtOf(w), f);
    }
  }

  lemma NewNotFree(f: seq<Ext>, bump: nat, w: Win, f2: seq<Ext>, bump2: nat)
    requires bump <= bump2 && forall b: nat :: Free(f, b) ==> b < bump
    requires bump2 == bump ==> forall b: nat :: (Free(f, b) <==> Free(f2, b) || In(ExtOf(w), b)) && !(Free(f2, b) && In(ExtOf(w), b))
    requires bump2 != bump ==> f2 == f && w.off == bump
    ensures NotFree(f2, ExtOf(w)) && forall b: nat :: Free(f2, b) ==> b < bump2
  {
    hide Free, Bytes;
  }

  lemma OverlapByte(a: Ext, e: Ext, f: seq<Ext>)
    requires NotFree(f, a) && a.size > 0 && e.size > 0 && forall b: nat :: In(e, b) ==> Free(f, b)
    ensures Disjoint(a, e)
  {
    var b := if a.off > e.off then a.off else e.off;
    assert !(In(a, b) && In(e, b));
  }

  // ---------------------------------------------------------------- the free list is never full

  function LiveSet(wins: seq<Win>): set<int> { set i | 0 <= i < |wins| && wins[i].used }

  /** Between two free entries stands a live window that touches the first of them. */
  lemma GapWindow(wins: seq<Win>, f: seq<Ext>, bump: nat, k: nat) returns (i: nat)
    requires Ordered(f) && Apart(f, |f|) && Covered(wins, f, bump) && k + 1 < |f| && forall b: nat :: Free(f, b) ==> b < bump
    requires forall i :: 0 <= i < |wins| && wins[i].used ==> NotFree(f, ExtOf(wins[i]))
    ensures i < |wins| && wins[i].used && f[k].off < wins[i].off < f[k + 1].off
  {
    hide Bytes;
    var b := f[k].off + f[k].size;
    assert In(f[k + 1], f[k + 1].off) && Free(f, f[k + 1].off);
    assert !Free(f, b) by {
      NotInList(f, k, b);
    }
    i :| 0 <= i < |wins| && wins[i].used && In(ExtOf(wins[i]), b);
    assert In(f[k], b - 1) && Free(f, b - 1);
    assert NotFree(f, ExtOf(wins[i]));
    assert !In(ExtOf(wins[i]), b - 1);
  }

  lemma NotInList(f: seq<Ext>, k: nat, b: nat)
    requires Ordered(f) && Apart(f, |f|) && k + 1 < |f| && b == f[k].off + f[k].size
    ensures !Free(f, b)
  {
    forall j | 0 <= j < |f| ensures !In(f[j], b) {
      if j < k {
        assert f[j].off + f[j].size < f[k].off;
      } else if j > k {
        assert f[k].off + f[k].size < f[j].off;
      }
    }
  }

  /** So the first k gaps hold k different windows. */
  lemma {:induction false} GapWindows(wins: seq<Win>, f: seq<Ext>, bump: nat, k: nat) returns (s: set<int>)
    requires Ordered(f) && Apart(f, |f|) && Covered(wins, f, bump) && k < |f| && forall b: nat :: Free(f, b) ==> b < bump
    requires forall i :: 0 <= i < |wins| && wins[i].used ==> NotFree(f, ExtOf(wins[i]))
    ensures s <= LiveSet(wins) && |s| == k && forall i :: i in s ==> wins[i].off < f[k].off
  {
    hide Bytes, NotFree, Free, Covered;
    if k == 0 {
      s := {};
    } else {
      s := GapWindows(wins, f, bump, k - 1);
      var i := GapWindow(wins, f, bump, k - 1);
      assert i !in s;
      s := s + {i};
    }
  }

  lemma ListShort(wins: seq<Win>, f: seq<Ext>, bump: nat)
    requires Ordered(f) && Apart(f, |f|) && Covered(wins, f, bump) && forall b: nat :: Free(f, b) ==> b < bump
    requires forall i :: 0 <= i < |wins| && wins[i].used ==> NotFree(f, ExtOf(wins[i]))
    ensures |f| <= |LiveSet(wins)| + 1
  {
    hide Bytes, NotFree, Free, Covered, Ordered, Apart;
    if |f| > 0 {
      var s := GapWindows(wins, f, bump, |f| - 1);
      Smaller(s, LiveSet(wins));
    }
  }

  lemma Smaller(a: set<int>, b: set<int>)
    requires a <= b
    ensures |a| <= |b|
  {
    assert b == a + (b - a);
  }

  lemma {:induction false} Numbers(n: nat) returns (s: set<int>)
    ensures |s| == n && forall i :: i in s <==> 0 <= i < n
  {
    if n == 0 {
      s := {};
    } else {
      s := Numbers(n - 1);
      s := s + {n - 1};
    }
  }

  /** With a slot unused, fewer windows are live than there are slots. */
  lemma SomeUnused(wins: seq<Win>, id: nat)
    requires id < |wins| && !wins[id].used
    ensures |LiveSet(wins)| < |wins|
  {
    var all := Numbers(|wins|);
    Smaller(LiveSet(wins), all - {id});
    assert all == (all - {id}) + {id};
  }

  /** A window's bytes go back to the list, which has room for them. */
  lemma CloseKeeps(wins: seq<Win>, f: seq<Ext>, bump: nat, id: nat, w: Win, f2: seq<Ext>)
    requires PoolOk(wins, f, bump) && id < |wins| && wins[id].used && !w.used
    requires Ordered(f2) && Apart(f2, |f2|) && Aligned(f2)
    requires Total(f2) == Total(f) + Bytes(wins[id]) && forall b: nat :: Free(f2, b) <==> Free(f, b) || In(ExtOf(wins[id]), b)
    ensures PoolOk(wins[id := w], f2, bump)
  {
    hide Bytes, Ordered, Apart, Aligned, Total, LiveTotal, Covered, Free, LiveSet;
    LiveUpdate(wins, id, w);
    CloseCovers(wins, f, bump, id, w, f2);
    CloseClear(wins, f, bump, id, w, f2);
    ListShort(wins[id := w], f2, bump);
    SomeUnused(wins[id := w], id);
  }

  lemma CloseCovers(wins: seq<Win>, f: seq<Ext>, bump: nat, id: nat, w: Win, f2: seq<Ext>)
    requires Covered(wins, f, bump) && id < |wins| && !w.used && forall b: nat :: Free(f2, b) <==> Free(f, b) || In(ExtOf(wins[id]), b)
    ensures Covered(wins[id := w], f2, bump)
  {
    hide Free, Bytes;
    var less := wins[id := w];
    forall b: nat | b < bump ensures Free(f2, b) || Held(less, b) {
      if Held(wins, b) {
        var i :| 0 <= i < |wins| && wins[i].used && In(ExtOf(wins[i]), b);
        if i != id {
          assert less[i].used && In(ExtOf(less[i]), b);
        }
      }
    }
  }

  /** The other windows do not touch what was given back. */
  lemma CloseClear(wins: seq<Win>, f: seq<Ext>, bump: nat, id: nat, w: Win, f2: seq<Ext>)
    requires PoolOk(wins, f, bump) && id < |wins| && wins[id].used && !w.used
    requires forall b: nat :: Free(f2, b) <==> Free(f, b) || In(ExtOf(wins[id]), b)
    ensures forall i :: 0 <= i < |wins| && i != id && wins[i].used ==> NotFree(f2, ExtOf(wins[i]))
    ensures forall b: nat :: Free(f2, b) ==> b < bump
  {
    hide Free, Bytes, Ordered, Apart, Aligned, Total, LiveTotal, Covered;
  }

  /** What closing a window needs of the pool. */
  lemma CloseReady(wins: seq<Win>, f: seq<Ext>, bump: nat, id: nat)
    requires PoolOk(wins, f, bump) && id < |wins| && wins[id].used
    ensures Bytes(wins[id]) > 0 && Bytes(wins[id]) % 4 == 0 && wins[id].off % 4 == 0
    ensures forall i :: 0 <= i < |f| ==> f[i].off + f[i].size <= wins[id].off || wins[id].off + Bytes(wins[id]) <= f[i].off
  {
    SizePositive(wins[id]);
    hide Bytes;
    forall i | 0 <= i < |f| ensures Disjoint(ExtOf(wins[id]), f[i]) {
      NoShare(ExtOf(wins[id]), f, i);
    }
  }

  // ---------------------------------------------------------------- stacking

  predicate Covers(w: Win, x: nat, y: nat) { w.used && w.x <= x < w.x + w.w && w.y <= y < w.y + w.h }

  /** The topmost of the first n slots at (x, y), or -1. */
  function HitBelow(wins: seq<Win>, n: nat, x: nat, y: nat): (r: int)
    requires n <= |wins|
    ensures -1 <= r < n && (r >= 0 ==> Covers(wins[r], x, y)) && forall i :: r < i < n ==> !Covers(wins[i], x, y)
  {
    if n == 0 then -1 else if Covers(wins[n - 1], x, y) then n - 1 else HitBelow(wins, n - 1, x, y)
  }

  function HitAt(wins: seq<Win>, x: nat, y: nat): int { HitBelow(wins, |wins|, x, y) }

  lemma HitUnique(wins: seq<Win>, x: nat, y: nat, r: int)
    requires -1 <= r < |wins| && (r >= 0 ==> Covers(wins[r], x, y)) && forall i :: r < i < |wins| ==> !Covers(wins[i], x, y)
    ensures HitAt(wins, x, y) == r
  {
    var h := HitAt(wins, x, y);
    assert !(h < r) && !(r < h);
  }

  /** The highest used slot. */
  function Top(wins: seq<Win>, n: nat): (t: int)
    requires n <= |wins|
    ensures -1 <= t < n && (t >= 0 ==> wins[t].used) && forall i :: t < i < n ==> !wins[i].used
  {
    if n == 0 then -1 else if wins[n - 1].used then n - 1 else Top(wins, n - 1)
  }

  /** Slot id moved to the top, the slots in between down by one. */
  function Raised(wins: seq<Win>, id: nat, top: nat): (r: seq<Win>)
    requires id <= top < |wins|
    ensures |r| == |wins|
  {
    wins[..id] + wins[id + 1..top + 1] + [wins[id]] + wins[top + 1..]
  }

  /** Where a slot's window is after the rotation. */
  function Moved(id: nat, top: nat, i: int): int {
    if i == id then top else if id < i <= top then i - 1 else i
  }

  /** The rotation moves every window, keeps each what it is, and keeps the others' order. */
  lemma RaisedIs(wins: seq<Win>, id: nat, top: nat)
    requires id <= top < |wins|
    ensures forall i :: 0 <= i < |wins| ==> 0 <= Moved(id, top, i) < |wins| && Raised(wins, id, top)[Moved(id, top, i)] == wins[i]
    ensures forall i, j :: 0 <= i < j < |wins| && i != id && j != id ==> Moved(id, top, i) < Moved(id, top, j)
    ensures multiset(Raised(wins, id, top)) == multiset(wins)
  {
    assert wins == wins[..id] + [wins[id]] + wins[id + 1..top + 1] + wins[top + 1..];
  }

  /** After a raise the window wins every point it covers, and elsewhere the same window
      wins as before. */
  lemma RaiseWins(wins: seq<Win>, id: nat, x: nat, y: nat)
    requires id < |wins| && wins[id].used
    ensures id <= Top(wins, |wins|)
    ensures var top := Top(wins, |wins|);
      HitAt(Raised(wins, id, top), x, y) == if Covers(wins[id], x, y) then top else Moved(id, top, HitAt(wins, x, y))
  {
    var top := Top(wins, |wins|);
    if Covers(wins[id], x, y) {
      RaisedHit(wins, id, top, x, y);
    } else {
      RaisedMiss(wins, id, top, x, y);
    }
  }

  /** The slot whose window is at j after the rotation. */
  function Source(id: nat, top: nat, j: int): int { if j == top then id else if id <= j < top then j + 1 else j }

  lemma RaisedAt(wins: seq<Win>, id: nat, top: nat, j: nat)
    requires id <= top < |wins| && j < |wins|
    ensures 0 <= Source(id, top, j) < |wins| && Raised(wins, id, top)[j] == wins[Source(id, top, j)]
  {
  }

  lemma RaisedHit(wins: seq<Win>, id: nat, top: nat, x: nat, y: nat)
    requires id <= top < |wins| && Covers(wins[id], x, y) && forall i :: top < i < |wins| ==> !wins[i].used
    ensures HitAt(Raised(wins, id, top), x, y) == top
  {
    hide Raised;
    var r := Raised(wins, id, top);
    RaisedAt(wins, id, top, top);
    forall i | top < i < |wins| ensures !Covers(r[i], x, y) {
      RaisedAt(wins, id, top, i);
    }
    HitUnique(r, x, y, top);
  }

  lemma RaisedMiss(wins: seq<Win>, id: nat, top: nat, x: nat, y: nat)
    requires id <= top < |wins| && !Covers(wins[id], x, y)
    ensures HitAt(Raised(wins, id, top), x, y) == Moved(id, top, HitAt(wins, x, y))
  {
    hide Raised, Covers, HitAt;
    HitFacts(wins, x, y);
    var r, h := Raised(wins, id, top), HitAt(wins, x, y);
    var m := Moved(id, top, h);
    if h >= 0 {
      RaisedAt(wins, id, top, m);
    }
    forall i | m < i < |wins| ensures !Covers(r[i], x, y) {
      RaisedAt(wins, id, top, i);
      assert Source(id, top, i) == id || Source(id, top, i) > h;
    }
    HitUnique(r, x, y, m);
  }

  lemma HitFacts(wins: seq<Win>, x: nat, y: nat)
    ensures var r := HitAt(wins, x, y); -1 <= r < |wins| && (r >= 0 ==> Covers(wins[r], x, y)) && forall i :: r < i < |wins| ==> !Covers(wins[i], x, y)
  {
  }

  // ---------------------------------------------------------------- pixels

  /** The pool word of a window's pixel. */
  function Word(w: Win, px: nat, py: nat): nat { w.off / 4 + py * w.w + px }

  lemma WordIn(w: Win, bump: nat, px: nat, py: nat)
    requires WinOk(w, bump) && px < w.w && py < w.h
    ensures w.off <= 4 * Word(w, px, py) && 4 * Word(w, px, py) + 4 <= w.off + Bytes(w)
  {
    RowIn(w.w, w.h, px, py);
  }

  lemma RowIn(w: nat, h: nat, px: nat, py: nat)
    requires px < w && py < h
    ensures py * w + px < w * h
  {
    assert h * w == (h - 1 - py) * w + py * w + w;
    assert (h - 1 - py) * w >= 0;
  }

  lemma RowInjective(w: nat, px: nat, py: nat, qx: nat, qy: nat)
    requires px < w && qx < w && py * w + px == qy * w + qx
    ensures px == qx && py == qy
  {
    DivMod(py, w, px);
    DivMod(qy, w, qx);
  }

  /** Different pixels of a window are different words. */
  lemma WordInjective(w: Win, px: nat, py: nat, qx: nat, qy: nat)
    requires px < w.w && qx < w.w && Word(w, px, py) == Word(w, qx, qy)
    ensures px == qx && py == qy
  {
    RowInjective(w.w, px, py, qx, qy);
  }

  /** A word of the window's extent. */
  predicate OwnWord(w: Win, k: nat) { w.off <= 4 * k < w.off + Bytes(w) }

  /** From a to b, the pixels of the rectangle [x, x1) by [y, y1) of a window took the
      colours c; no other pixel of it changed, and no word outside its extent. */
  ghost predicate Drawn(a: seq<nat>, b: seq<nat>, w: Win, x: nat, y: nat, x1: nat, y1: nat, c: (nat, nat) -> nat)
    requires |a| == |b| && 4 * |a| >= w.off + Bytes(w) && WinOk(w, w.off + Bytes(w))
  {
    (forall px: nat, py: nat :: px < w.w && py < w.h ==> (WordIn(w, w.off + Bytes(w), px, py);
      b[Word(w, px, py)] == if x <= px < x1 && y <= py < y1 then c(px, py) else a[Word(w, px, py)])) &&
    (forall k: nat :: k < |a| && !OwnWord(w, k) ==> b[k] == a[k])
  }

  lemma DrawnNothing(a: seq<nat>, w: Win, x: nat, y: nat, x1: nat, c: (nat, nat) -> nat)
    requires 4 * |a| >= w.off + Bytes(w) && WinOk(w, w.off + Bytes(w))
    ensures Drawn(a, a, w, x, y, x1, y, c)
  {
  }

  /** One more row. */
  lemma DrawnRow(a: seq<nat>, b: seq<nat>, b2: seq<nat>, w: Win, x: nat, y: nat, x1: nat, yy: nat, c: (nat, nat) -> nat)
    requires |a| == |b| == |b2| && 4 * |a| >= w.off + Bytes(w) && WinOk(w, w.off + Bytes(w)) && x1 <= w.w && y <= yy < w.h
    requires Drawn(a, b, w, x, y, x1, yy, c)
    requires forall k: nat :: k < |b| ==> b2[k] == if Word(w, x, yy) <= k < Word(w, x1, yy) then c(k - Word(w, 0, yy), yy) else b[k]
    ensures Drawn(a, b2, w, x, y, x1, yy + 1, c)
  {
    hide Word, Bytes, WinOk;
    forall px: nat, py: nat | px < w.w && py < w.h
      ensures Word(w, px, py) < |a| && b2[Word(w, px, py)] == if x <= px < x1 && y <= py < yy + 1 then c(px, py) else a[Word(w, px, py)]
    {
      WordIn(w, w.off + Bytes(w), px, py);
      RowOf(w, px, py, x, x1, yy);
    }
    forall k: nat | k < |a| && !OwnWord(w, k) ensures b2[k] == a[k] {
      if Word(w, x, yy) <= k < Word(w, x1, yy) {
        RowOwn(w, x, x1, yy, k);
      }
    }
  }

  /** Which pixels lie in a row's stretch. */
  lemma RowOf(w: Win, px: nat, py: nat, x: nat, x1: nat, yy: nat)
    requires px < w.w && x1 <= w.w
    ensures Word(w, x, yy) <= Word(w, px, py) < Word(w, x1, yy) <==> py == yy && x <= px < x1
    ensures py == yy ==> Word(w, px, py) - Word(w, 0, yy) == px
  {
    if Word(w, x, yy) <= Word(w, px, py) < Word(w, x1, yy) {
      WordInjective(w, px, py, Word(w, px, py) - Word(w, 0, yy), yy);
    }
  }

  lemma RowOwn(w: Win, x: nat, x1: nat, yy: nat, k: nat)
    requires WinOk(w, w.off + Bytes(w)) && x1 <= w.w && yy < w.h && Word(w, x, yy) <= k < Word(w, x1, yy)
    ensures OwnWord(w, k)
  {
    WordIn(w, w.off + Bytes(w), k - Word(w, 0, yy), yy);
  }

  /** Drawing in one window leaves every pixel of every other live window alone. */
  lemma DrawnElsewhere(wins: seq<Win>, f: seq<Ext>, bump: nat, i: nat, j: nat, px: nat, py: nat)
    requires PoolOk(wins, f, bump) && i < |wins| && j < |wins| && i != j && wins[i].used && wins[j].used && px < wins[j].w && py < wins[j].h
    ensures !OwnWord(wins[i], Word(wins[j], px, py))
  {
    WordIn(wins[j], bump, px, py);
    assert if i < j then Disjoint(ExtOf(wins[i]), ExtOf(wins[j])) else Disjoint(ExtOf(wins[j]), ExtOf(wins[i]));
  }

  // ---------------------------------------------------------------- compositing

  /** The colour at (x, y) after the first n slots were painted over a background. */
  function Shown(wins: seq<Win>, pool: seq<nat>, n: nat, x: nat, y: nat, back: nat): nat
    requires n <= |wins|
  {
    var h := HitBelow(wins, n, x, y);
    if h < 0 then back
    else
      var k := Word(wins[h], x - wins[h].x, y - wins[h].y);
      if k < |pool| then pool[k] else back
  }

  // ---------------------------------------------------------------- raising keeps the pool

  /** The rotation loop after the slots below i have been shifted down. */
  function Shifted(wins: seq<Win>, id: nat, i: nat): (r: seq<Win>)
    requires id <= i < |wins|
    ensures |r| == |wins|
  {
    wins[..id] + wins[id + 1..i + 1] + wins[i..]
  }

  lemma ShiftStart(wins: seq<Win>, id: nat)
    requires id < |wins|
    ensures Shifted(wins, id, id) == wins
  {
  }

  lemma ShiftStep(wins: seq<Win>, id: nat, i: nat)
    requires id <= i && i + 1 < |wins|
    ensures Shifted(wins, id, i)[i := Shifted(wins, id, i)[i + 1]] == Shifted(wins, id, i + 1)
  {
  }

  lemma ShiftEnd(wins: seq<Win>, id: nat, top: nat)
    requires id <= top < |wins|
    ensures Shifted(wins, id, top)[top := wins[id]] == Raised(wins, id, top)
  {
  }

  lemma {:induction false} LiveConcat(a: seq<Win>, b: seq<Win>)
    ensures LiveTotal(a + b) == LiveTotal(a) + LiveTotal(b)
  {
    if b == [] {
      assert a + b == a;
    } else {
      assert (a + b)[..|a + b| - 1] == a + b[..|b| - 1];
      LiveConcat(a, b[..|b| - 1]);
    }
  }

  lemma RaisedLive(wins: seq<Win>, id: nat, top: nat)
    requires id <= top < |wins|
    ensures LiveTotal(Raised(wins, id, top)) == LiveTotal(wins)
  {
    var a, b, c, d := wins[..id], [wins[id]], wins[id + 1..top + 1], wins[top + 1..];
    LiveFour(a, b, c, d);
    LiveFour(a, c, b, d);
    Parts(wins, id, top);
    hide LiveTotal;
  }

  lemma Parts(wins: seq<Win>, id: nat, top: nat)
    requires id <= top < |wins|
    ensures wins == wins[..id] + [wins[id]] + wins[id + 1..top + 1] + wins[top + 1..]
  {
  }

  lemma LiveFour(a: seq<Win>, b: seq<Win>, c: seq<Win>, d: seq<Win>)
    ensures LiveTotal(a + b + c + d) == LiveTotal(a) + LiveTotal(b) + LiveTotal(c) + LiveTotal(d)
  {
    hide LiveTotal;
    LiveConcat(a + b + c, d);
    LiveConcat(a + b, c);
    LiveConcat(a, b);
  }

  lemma RaisedCovers(wins: seq<Win>, f: seq<Ext>, bump: nat, id: nat, top: nat)
    requires Covered(wins, f, bump) && id <= top < |wins|
    ensures Covered(Raised(wins, id, top), f, bump)
  {
    hide Free, ExtOf, Raised;
    var r := Raised(wins, id, top);
    forall b: nat | b < bump ensures Free(f, b) || Held(r, b) {
      if Held(wins, b) {
        var i: nat :| i < |wins| && wins[i].used && In(ExtOf(wins[i]), b);
        var j := RaisedTo(wins, id, top, i);
        assert r[j].used && In(ExtOf(r[j]), b);
      }
    }
  }

  lemma RaisedTo(wins: seq<Win>, id: nat, top: nat, i: nat) returns (j: nat)
    requires id <= top < |wins| && i < |wins|
    ensures j < |Raised(wins, id, top)| && Raised(wins, id, top)[j] == wins[i]
  {
    j := if i == id then top else if id < i <= top then i - 1 else i;
    RaisedAt(wins, id, top, j);
  }

  lemma RaiseKeeps(wins: seq<Win>, f: seq<Ext>, bump: nat, id: nat, top: nat)
    requires PoolOk(wins, f, bump) && id <= top < |wins|
    ensures PoolOk(Raised(wins, id, top), f, bump)
  {
    RaisedLive(wins, id, top);
    RaisedCovers(wins, f, bump, id, top);
    hide Raised, LiveTotal, WinOk, NotFree, Ordered, Apart, Aligned, Total, ExtOf, Covered;
    var r := Raised(wins, id, top);
    forall i | 0 <= i < |r| ensures 0 <= Source(id, top, i) < |wins| && r[i] == wins[Source(id, top, i)] {
      RaisedAt(wins, id, top, i);
    }
    forall i, j | 0 <= i < j < |r| && r[i].used && r[j].used ensures Disjoint(ExtOf(r[i]), ExtOf(r[j])) {
      var s, t := Source(id, top, i), Source(id, top, j);
      assert if s < t then Disjoint(ExtOf(wins[s]), ExtOf(wins[t])) else Disjoint(ExtOf(wins[t]), ExtOf(wins[s]));
    }
  }
}
