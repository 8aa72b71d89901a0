/** The window slots as the kernel keeps them, changed in place by its system calls. */
module WindowServer {
  import opened WindowPool
  import opened Windows

  const EINVAL: int := -22
  const ENOMEM: int := -12
  const ENODEV: int := -19

  class Server {
    var wins: seq<Win>
    var free: seq<Ext>
    var bump: nat
    var focus: int
    var hover: int
    const pool: array<nat>

    /** Nothing, or a live window. */
    predicate Points(i: int)
      reads this`wins
    {
      i == -1 || (0 <= i < |wins| && wins[i].used)
    }

    ghost predicate Valid()
      reads this
    {
      PoolOk(wins, free, bump) && pool.Length == POOL_BYTES / 4 && Points(focus) && Points(hover)
    }

    constructor ()
      ensures Valid() && fresh(pool) && forall i :: 0 <= i < WIN_MAX ==> !wins[i].used
    {
      wins := seq(WIN_MAX, _ => Win(false, 0, 0, 0, 0, 0, 0));
      free, bump, focus, hover := [], 0, -1, -1;
      pool := new nat[POOL_BYTES / 4](_ => 0);
      new;
      NoneLive(wins);
    }

    method FirstUnused() returns (id: nat)
      requires |wins| == WIN_MAX
      ensures id <= WIN_MAX && (forall i :: 0 <= i < id ==> wins[i].used) && (id < WIN_MAX ==> !wins[id].used)
    {
      id := 0;
      while id < WIN_MAX && wins[id].used
        invariant 0 <= id <= WIN_MAX && forall i :: 0 <= i < id ==> wins[i].used
      {
        id := id + 1;
      }
    }

    /** win_create: the first unused slot, and pixels from the pool. */
    method Create(self: nat, w: nat, h: nat) returns (ret: int)
      requires Valid()
      modifies this`wins, this`free, this`bump
      ensures Valid()
      ensures ret == EINVAL <==> !(1 <= w <= MAX_DIM && 1 <= h <= MAX_DIM)
      ensures ret < 0 ==> wins == old(wins) && free == old(free) && bump == old(bump)
      ensures ret >= 0 ==> ret < WIN_MAX && !old(wins[ret].used) && (forall i :: 0 <= i < ret ==> old(wins[i].used)) && wins == old(wins)[ret := wins[ret]]
      ensures ret >= 0 ==> wins[ret].(off := 0) == Win(true, 64 + ret * 32, 64 + ret * 24, w, h, 0, self)
      ensures ret >= 0 <==>
        1 <= w <= MAX_DIM && 1 <= h <= MAX_DIM && (exists i :: 0 <= i < WIN_MAX && !old(wins[i].used)) &&
        (old(bump) + w * h * 4 <= POOL_BYTES || exists i :: 0 <= i < |old(free)| && old(free)[i].size >= w * h * 4)
      ensures ret == EINVAL || ret == ENOMEM || ret >= 0
    {
      if w == 0 || h == 0 || w > MAX_DIM || h > MAX_DIM {
        return EINVAL;
      }
      var id := FirstUnused();
      if id == WIN_MAX {
        return ENOMEM;
      }
      var ok := Place(id, self, w, h);
      ret := if ok then id else ENOMEM;
    }

    /** A window in slot id, if the pool has room. */
    method Place(id: nat, self: nat, w: nat, h: nat) returns (ok: bool)
      requires Valid() && 1 <= w <= MAX_DIM && 1 <= h <= MAX_DIM && id < WIN_MAX && !wins[id].used
      modifies this`wins, this`free, this`bump
      ensures Valid()
      ensures ok ==> wins == old(wins)[id := wins[id]] && wins[id].(off := 0) == Win(true, 64 + id * 32, 64 + id * 24, w, h, 0, self)
      ensures !ok ==> wins == old(wins) && free == old(free) && bump == old(bump)
      ensures ok <==> old(bump) + w * h * 4 <= POOL_BYTES || exists i :: 0 <= i < |old(free)| && old(free)[i].size >= w * h * 4
    {
      hide NotFree, WinOk, LiveTotal, Total, Disjoint, Free;
      var win := Win(true, 64 + id * 32, 64 + id * 24, w, h, 0, self);
      SizePositive(win);
      var off, f2, bump2;
      ok, off, f2, bump2 := PoolAlloc(free, bump, Bytes(win));
      if ok {
        win := win.(off := off);
        AllocFits(free, bump, bump2, win);
        CreateKeeps(wins, free, bump, id, win, f2, bump2);
        hide PoolOk;
        wins, free, bump := wins[id := win], f2, bump2;
      }
    }

    /** The slot of window id if self owns it. */
    predicate Owns(id: int, self: nat)
      reads this`wins
    {
      0 <= id < |wins| && wins[id].used && wins[id].owner == self
    }

    /** Releases a live slot: its bytes return to the list, which is never full, and neither
        focus nor hover stays on it. */
    method Release(id: nat)
      requires Valid() && id < |wins| && wins[id].used
      modifies this`wins, this`free, this`focus, this`hover
      ensures Valid()
      ensures wins == old(wins)[id := old(wins[id]).(used := false, owner := 0)]
      ensures Total(free) == old(Total(free)) + Bytes(old(wins[id])) && forall b: nat :: Free(free, b) <==> old(Free(free, b)) || In(ExtOf(old(wins[id])), b)
      ensures focus == (if old(focus) == id then -1 else old(focus)) && hover == (if old(hover) == id then -1 else old(hover))
    {
      CloseReady(wins, free, bump, id);
      var f2 := PoolFree(free, Ext(wins[id].off, wins[id].w * wins[id].h * 4));
      var w := wins[id].(used := false, owner := 0);
      CloseKeeps(wins, free, bump, id, w, f2);
      wins, free := wins[id := w], f2;
      if focus == id {
        focus := -1;
      }
      if hover == id {
        hover := -1;
      }
    }

    /** win_close. */
    method Close(id: int, self: nat) returns (ret: int)
      requires Valid()
      modifies this`wins, this`free, this`focus, this`hover
      ensures Valid()
      ensures ret == (if old(Owns(id, self)) then 0 else EINVAL)
      ensures wins == if ret == 0 then old(wins)[id := old(wins[id]).(used := false, owner := 0)] else old(wins)
    {
      if !Owns(id, self) {
        return EINVAL;
      }
      Release(id);
      ret := 0;
    }

    /** win_owner_release: every window of a task that exits. */
    method OwnerRelease(t: nat)
      requires Valid()
      modifies this`wins, this`free, this`focus, this`hover
      ensures Valid()
      ensures forall i :: 0 <= i < WIN_MAX ==>
        wins[i] == if old(wins[i]).used && old(wins[i]).owner == t then old(wins[i]).(used := false, owner := 0) else old(wins[i])
    {
      hide PoolOk;
      LengthIs(wins, free, bump);
      var i := 0;
      while i < WIN_MAX
        invariant 0 <= i <= WIN_MAX && Valid() && |wins| == WIN_MAX == old(|wins|)
        invariant forall k :: 0 <= k < WIN_MAX ==>
          wins[k] == if k < i && old(wins[k]).used && old(wins[k]).owner == t then old(wins[k]).(used := false, owner := 0) else old(wins[k])
      {
        if wins[i].used && wins[i].owner == t {
          Release(i);
        }
        i := i + 1;
      }
    }

    /** The rotation of the slots from id to top. */
    method Rotate(id: nat, top: nat)
      requires id < top < |wins|
      modifies this`wins
      ensures wins == Raised(old(wins), id, top)
    {
      hide Raised, Shifted;
      var tmp, i := wins[id], id;
      ShiftStart(wins, id);
      while i < top
        invariant id <= i <= top && wins == Shifted(old(wins), id, i)
      {
        ShiftStep(old(wins), id, i);
        wins := wins[i := wins[i + 1]];
        i := i + 1;
      }
      ShiftEnd(old(wins), id, top);
      wins := wins[top := tmp];
    }

    /** win_raise: rotate the slot to the top; focus and hover follow their windows. */
    method Raise(id: int) returns (ret: int)
      requires Valid()
      modifies this`wins, this`focus, this`hover
      ensures Valid()
      ensures ret == (if 0 <= id < WIN_MAX && old(wins[id]).used then 0 else EINVAL)
      ensures ret != 0 ==> wins == old(wins) && focus == old(focus) && hover == old(hover)
      ensures ret == 0 ==> var top := Top(old(wins), WIN_MAX);
        id <= top && wins == Raised(old(wins), id, top) && focus == Moved(id, top, old(focus)) && hover == Moved(id, top, old(hover))
    {
      LengthIs(wins, free, bump);
      if !(0 <= id < WIN_MAX) || !wins[id].used {
        return EINVAL;
      }
      hide PoolOk, Raised;
      var top := WIN_MAX - 1;
      while top >= 0 && !wins[top].used
        invariant -1 <= top < WIN_MAX && id <= top && Top(wins, WIN_MAX) == Top(wins, top + 1)
      {
        top := top - 1;
      }
      RaiseKeeps(wins, free, bump, id, top);
      MovedUsed(wins, id, top, focus);
      MovedUsed(wins, id, top, hover);
      if id != top {
        Rotate(id, top);
        focus, hover := Moved(id, top, focus), Moved(id, top, hover);
      } else {
        RaisedSame(wins, id);
      }
      ret := 0;
    }

    /** win_setpos: a window that fits on the screen stays on it. */
    method SetPos(id: int, x: nat, y: nat, sw: nat, sh: nat) returns (ret: int)
      requires Valid() && sw < U32 && sh < U32
      modifies this`wins
      ensures Valid()
      ensures ret == (if sw == 0 then ENODEV else if 0 <= id < WIN_MAX && old(wins[id]).used then 0 else EINVAL)
      ensures ret != 0 ==> wins == old(wins)
      ensures ret == 0 ==> wins == old(wins)[id := old(wins[id]).(x := wins[id].x, y := wins[id].y)]
      ensures ret == 0 && wins[id].w <= sw ==> if x + wins[id].w <= sw then wins[id].x == x else wins[id].x + wins[id].w == sw
      ensures ret == 0 && wins[id].w > sw ==> wins[id].x == 0
      ensures ret == 0 && wins[id].h <= sh ==> if y + wins[id].h <= sh then wins[id].y == y else wins[id].y + wins[id].h == sh
      ensures ret == 0 && wins[id].h > sh ==> wins[id].y == 0
    {
      if sw == 0 {
        return ENODEV;
      }
      if !(0 <= id < WIN_MAX) || !wins[id].used {
        return EINVAL;
      }
      var s := wins[id];
      var nx := if s.w > sw then 0 else if x > sw - s.w then sw - s.w else x;
      var ny := if s.h > sh then 0 else if y > sh - s.h then sh - s.h else y;
      MoveKeeps(wins, free, bump, id, nx, ny);
      wins := wins[id := s.(x := nx, y := ny)];
      ret := 0;
    }

    /** win_focus_set, as far as the slot goes. */
    method FocusSet(id: int) returns (ret: int)
      requires Valid()
      modifies this`focus
      ensures Valid() && ret == (if -1 <= id < WIN_MAX && Points(id) then 0 else EINVAL) && focus == if ret == 0 then id else old(focus)
    {
      if id < -1 || id >= WIN_MAX || !Points(id) {
        return EINVAL;
      }
      focus := id;
      ret := 0;
    }

    /** win_route_mouse, as far as the slot goes: hover follows the pointer. */
    method RouteMouse(x: nat, y: nat)
      requires Valid()
      modifies this`hover
      ensures Valid() && hover == HitAt(wins, x, y)
    {
      var hit := Hit(x, y);
      hover := hit;
    }

    // -------------------------------------------------------------- drawing

    /** win_fill: a rectangle clipped to the window; its far edges wrap as 32-bit sums. */
    method Fill(id: int, self: nat, x: nat, y: nat, w: nat, h: nat, rgb: nat) returns (ret: int)
      requires Valid()
      modifies pool
      ensures ret == if Owns(id, self) then 0 else EINVAL
      ensures ret != 0 ==> pool[..] == old(pool[..])
      ensures ret == 0 ==> WinOk(wins[id], wins[id].off + Bytes(wins[id])) && 4 * pool.Length >= wins[id].off + Bytes(wins[id])
      ensures ret == 0 ==> Drawn(old(pool[..]), pool[..], wins[id], x, y, (x + w) % 0x1_0000_0000, (y + h) % 0x1_0000_0000, (px, py) => rgb)
    {
      if !Owns(id, self) {
        return EINVAL;
      }
      var s := wins[id];
      InPool(wins, free, bump, id);
      hide PoolOk, Drawn, WinOk;
      var x1, y1 := Clip(x, w, s.w), Clip(y, h, s.h);
      ghost var a, c := pool[..], (px: nat, py: nat) => rgb;
      DrawnNothing(a, s, x, y, x1, c);
      ret := 0;
      if y > y1 || x > x1 {
        DrawnEmpty(a, s, x, y, x1, y1, c);
        DrawnClipped(a, a, s, x, y, (x + w) % U32, (y + h) % U32, c);
        return;
      }
      FillRows(s, x, y, x1, y1, rgb, c);
      DrawnClipped(a, pool[..], s, x, y, (x + w) % U32, (y + h) % U32, c);
    }

    /** The rows of a fill. */
    method FillRows(s: Win, x: nat, y: nat, x1: nat, y1: nat, rgb: nat, ghost c: (nat, nat) -> nat)
      requires WinOk(s, s.off + Bytes(s)) && 4 * pool.Length >= s.off + Bytes(s) && x <= x1 <= s.w && y <= y1 <= s.h
      requires forall px: nat, py: nat :: c(px, py) == rgb
      modifies pool
      ensures Drawn(old(pool[..]), pool[..], s, x, y, x1, y1, c)
    {
      hide Drawn, WinOk, Word, Bytes;
      ghost var a := pool[..];
      DrawnNothing(a, s, x, y, x1, c);
      var yy := y;
      while yy < y1
        invariant y <= yy <= y1 && Drawn(a, pool[..], s, x, y, x1, yy, c)
      {
        ghost var b := pool[..];
        RowInPool(s, x1, yy, pool.Length);
        RowStart(s, yy, x);
        FillRow(s, x, x1, yy, rgb);
        DrawnRow(a, b, pool[..], s, x, y, x1, yy, c);
        yy := yy + 1;
      }
    }

    /** One row of a fill. */
    method FillRow(s: Win, x: nat, x1: nat, yy: nat, rgb: nat)
      requires x <= x1 && Word(s, x1, yy) <= pool.Length
      modifies pool
      ensures forall k: nat :: k < pool.Length ==> pool[k] == if Word(s, x, yy) <= k < Word(s, x1, yy) then rgb else old(pool[k])
    {
      hide Word;
      RowStart(s, yy, x);
      RowStart(s, yy, x1);
      var base := Word(s, 0, yy);
      var xx := x;
      while xx < x1
        invariant x <= xx <= x1
        invariant forall k: nat :: k < pool.Length ==> pool[k] == if base + x <= k < base + xx then rgb else old(pool[k])
      {
        pool[base + xx] := rgb;
        xx := xx + 1;
      }
    }

    /** One row of an image. */
    method CopyRow(s: Win, x: nat, y: nat, x1: nat, yy: nat, img: seq<nat>, w: nat, h: nat)
      requires x <= x1 && x1 - x <= w && y <= yy < y + h && |img| == w * h && Word(s, x1, yy) <= pool.Length
      modifies pool
      ensures forall k: nat :: k < pool.Length ==> pool[k] == if Word(s, x, yy) <= k < Word(s, x1, yy) then Texel(img, w, k - Word(s, 0, yy) - x, yy - y) else old(pool[k])
    {
      hide Texel, Word;
      RowStart(s, yy, x);
      RowStart(s, yy, x1);
      var base := Word(s, 0, yy);
      var xx := x;
      while xx < x1
        invariant x <= xx <= x1
        invariant forall k: nat :: k < pool.Length ==> pool[k] == if base + x <= k < base + xx then Texel(img, w, k - base - x, yy - y) else old(pool[k])
      {
        TexelIn(img, w, h, xx - x, yy - y);
        pool[base + xx] := img[(yy - y) * w + xx - x];
        xx := xx + 1;
      }
    }

    /** win_blit: an image of w by h pixels, clipped to the window. */
    method Blit(id: int, self: nat, x: nat, y: nat, w: nat, h: nat, img: seq<nat>) returns (ret: int)
      requires Valid() && x < U32 && y < U32 && w < U32 && h < U32 && |img| == w * h
      modifies pool
      ensures ret == if Owns(id, self) then 0 else EINVAL
      ensures ret != 0 ==> pool[..] == old(pool[..])
      ensures ret == 0 ==> WinOk(wins[id], wins[id].off + Bytes(wins[id])) && 4 * pool.Length >= wins[id].off + Bytes(wins[id])
      ensures ret == 0 ==> Drawn(old(pool[..]), pool[..], wins[id], x, y, (x + w) % 0x1_0000_0000, (y + h) % 0x1_0000_0000, (px, py) => Texel(img, w, px - x, py - y))
    {
      if !Owns(id, self) {
        return EINVAL;
      }
      var s := wins[id];
      InPool(wins, free, bump, id);
      hide PoolOk, Drawn, WinOk, Texel, Word, Bytes;
      var x1, y1 := Clip(x, w, s.w), Clip(y, h, s.h);
      ghost var a, c := pool[..], (px: nat, py: nat) => Texel(img, w, px - x, py - y);
      DrawnNothing(a, s, x, y, x1, c);
      ret := 0;
      if y > y1 || x > x1 {
        DrawnEmpty(a, s, x, y, x1, y1, c);
        DrawnClipped(a, a, s, x, y, (x + w) % U32, (y + h) % U32, c);
        return;
      }
      ClipWithin(x, w, s.w);
      ClipWithin(y, h, s.h);
      BlitRows(s, x, y, x1, y1, img, w, h, c);
      DrawnClipped(a, pool[..], s, x, y, (x + w) % U32, (y + h) % U32, c);
    }

    /** The rows of a blit. */
    method BlitRows(s: Win, x: nat, y: nat, x1: nat, y1: nat, img: seq<nat>, w: nat, h: nat, ghost c: (nat, nat) -> nat)
      requires WinOk(s, s.off + Bytes(s)) && 4 * pool.Length >= s.off + Bytes(s) && x <= x1 <= s.w && y <= y1 <= s.h
      requires x1 - x <= w && y1 - y <= h && |img| == w * h && forall px: nat, py: nat :: c(px, py) == Texel(img, w, px - x, py - y)
      modifies pool
      ensures Drawn(old(pool[..]), pool[..], s, x, y, x1, y1, c)
    {
      hide Drawn, WinOk, Texel, Word, Bytes;
      ghost var a := pool[..];
      DrawnNothing(a, s, x, y, x1, c);
      var yy := y;
      while yy < y1
        invariant y <= yy <= y1 && Drawn(a, pool[..], s, x, y, x1, yy, c)
      {
        ghost var b := pool[..];
        RowInPool(s, x1, yy, pool.Length);
        RowStart(s, yy, x);
        CopyRow(s, x, y, x1, yy, img, w, h);
        DrawnRow(a, b, pool[..], s, x, y, x1, yy, c);
        yy := yy + 1;
      }
    }

    /** win_composite_scanline: painting bottom to top leaves at every point the pixel of
        the window that hit-testing finds there, or the background. */
    method Composite(y: nat, row: array<nat>, width: nat)
      requires Valid() && width <= row.Length && row != pool
      modifies row
      ensures forall x: nat :: x < width ==> Painted(wins, pool[..], x, y, old(row[x]), row[x])
      ensures forall x :: width <= x < row.Length ==> row[x] == old(row[x])
    {
      hide Shown, Covers, Pixel, PoolOk, HitBelow, Painted;
      ghost var words := pool[..];
      LengthIs(wins, free, bump);
      forall x | 0 <= x < width ensures row[x] == Shown(wins, words, 0, x, y, row[x]) {
        NoSlot(wins, words, x, y, row[x]);
      }
      var i := 0;
      while i < WIN_MAX
        invariant 0 <= i <= WIN_MAX && pool[..] == words
        invariant forall x :: 0 <= x < width ==> row[x] == Shown(wins, words, i, x, y, old(row[x]))
        invariant forall x :: width <= x < row.Length ==> row[x] == old(row[x])
      {
        PaintSlot(i, y, row, width);
        forall x | 0 <= x < width ensures row[x] == Shown(wins, words, i + 1, x, y, old(row[x])) {
          OneSlot(wins, words, free, bump, i, x, y, old(row[x]));
        }
        i := i + 1;
      }
      forall x: nat | x < width ensures Painted(wins, words, x, y, old(row[x]), row[x]) {
        ShownPainted(wins, words, free, bump, x, y, old(row[x]));
      }
    }

    /** One slot's stretch of a scanline, if it has one. */
    method PaintSlot(i: nat, y: nat, row: array<nat>, width: nat)
      requires Valid() && i < WIN_MAX && width <= row.Length && row != pool
      modifies row
      ensures forall x :: 0 <= x < row.Length ==>
        row[x] == if x < width && Covers(wins[i], x, y) then Pixel(pool[..], wins[i], x, y) else old(row[x])
    {
      var s := wins[i];
      if !s.used || y < s.y || y >= s.y + s.h || s.x >= width {
        return;
      }
      InPool(wins, free, bump, i);
      hide PoolOk, WinOk;
      var x, x1 := s.x, if s.x + s.w > width then width else s.x + s.w;
      RowInPool(s, s.w, y - s.y, pool.Length);
      while x < x1
        invariant s.x <= x <= x1
        invariant forall k :: 0 <= k < row.Length ==> row[k] == if s.x <= k < x then Pixel(pool[..], s, k, y) else old(row[k])
      {
        row[x] := pool[Word(s, x - s.x, y - s.y)];
        x := x + 1;
      }
    }

    /** win_hit: the topmost window at a point. */
    method Hit(x: nat, y: nat) returns (r: int)
      ensures r == HitAt(wins, x, y) && -1 <= r < |wins|
      ensures r >= 0 ==> var s := wins[r]; s.used && s.x <= x < s.x + s.w && s.y <= y < s.y + s.h
      ensures forall i :: r < i < |wins| ==> !(wins[i].used && wins[i].x <= x < wins[i].x + wins[i].w && wins[i].y <= y < wins[i].y + wins[i].h)
    {
      r := |wins| - 1;
      while r >= 0 && !(wins[r].used && wins[r].x <= x && x < wins[r].x + wins[r].w && wins[r].y <= y && y < wins[r].y + wins[r].h)
        invariant -1 <= r < |wins| && HitAt(wins, x, y) == HitBelow(wins, r + 1, x, y)
      {
        r := r - 1;
      }
    }
  }

  /** A slot number that follows its window still points at it. */
  lemma MovedUsed(wins: seq<Win>, id: nat, top: nat, i: int)
    requires id <= top < |wins| && (i == -1 || (0 <= i < |wins| && wins[i].used))
    ensures var m := Moved(id, top, i); m == -1 || (0 <= m < |wins| && Raised(wins, id, top)[m].used)
  {
    hide Raised;
    if i >= 0 {
      RaisedAt(wins, id, top, Moved(id, top, i));
    }
  }

  function Clip(a: nat, b: nat, limit: nat): nat {
    var e := (a + b) % U32;
    if e > limit then limit else e
  }

  /** The colour a window shows at a screen point it covers. */
  function Pixel(pool: seq<nat>, w: Win, x: nat, y: nat): nat {
    if x >= w.x && y >= w.y && Word(w, x - w.x, y - w.y) < |pool| then pool[Word(w, x - w.x, y - w.y)] else 0
  }

  function Texel(img: seq<nat>, w: nat, px: int, py: int): nat {
    if px >= 0 && py >= 0 && py * w + px < |img| then img[py * w + px] else 0
  }

  lemma TexelIn(img: seq<nat>, w: nat, h: nat, px: nat, py: nat)
    requires |img| == w * h && px < w && py < h
    ensures py * w + px < |img| && Texel(img, w, px, py) == img[py * w + px]
  {
    RowIn(w, h, px, py);
  }

  lemma RowStart(s: Win, yy: nat, x: nat)
    ensures Word(s, x, yy) == Word(s, 0, yy) + x
  {
  }

  lemma InPool(wins: seq<Win>, f: seq<Ext>, bump: nat, i: nat)
    requires PoolOk(wins, f, bump) && i < |wins| && wins[i].used
    ensures WinOk(wins[i], wins[i].off + Bytes(wins[i])) && wins[i].off + Bytes(wins[i]) <= POOL_BYTES && 1 <= wins[i].w && 1 <= wins[i].h
  {
    hide Bytes;
  }

  /** A row of a window is within the pool. */
  lemma RowInPool(w: Win, x1: nat, yy: nat, len: nat)
    requires WinOk(w, w.off + Bytes(w)) && 4 * len >= w.off + Bytes(w) && x1 <= w.w && yy < w.h
    ensures Word(w, x1, yy) <= len
  {
    WordIn(w, w.off + Bytes(w), w.w - 1, yy);
  }

  lemma DrawnEmpty(a: seq<nat>, w: Win, x: nat, y: nat, x1: nat, y1: nat, c: (nat, nat) -> nat)
    requires 4 * |a| >= w.off + Bytes(w) && WinOk(w, w.off + Bytes(w)) && (y > y1 || x > x1)
    ensures Drawn(a, a, w, x, y, x1, y1, c)
  {
  }

  /** Colour c at a screen point: the pixel of the highest slot there, rows of its window one
      after the other from its place in the pool, or what was there before. */
  ghost predicate Painted(wins: seq<Win>, pool: seq<nat>, x: nat, y: nat, back: nat, c: nat) {
    (forall i :: 0 <= i < |wins| && Alone(wins, i, x, y) ==>
      var k := wins[i].off / 4 + (y - wins[i].y) * wins[i].w + (x - wins[i].x); 0 <= k < |pool| && c == pool[k]) &&
    ((forall i :: 0 <= i < |wins| ==> !(wins[i].used && wins[i].x <= x < wins[i].x + wins[i].w && wins[i].y <= y < wins[i].y + wins[i].h)) ==> c == back)
  }

  /** Slot i holds a window at the point, and no higher slot does. */
  ghost predicate Alone(wins: seq<Win>, i: nat, x: nat, y: nat)
    requires i < |wins|
  {
    wins[i].used && wins[i].x <= x < wins[i].x + wins[i].w && wins[i].y <= y < wins[i].y + wins[i].h &&
    forall j :: i < j < |wins| ==> !(wins[j].used && wins[j].x <= x < wins[j].x + wins[j].w && wins[j].y <= y < wins[j].y + wins[j].h)
  }

  lemma ShownPainted(wins: seq<Win>, pool: seq<nat>, f: seq<Ext>, bump: nat, x: nat, y: nat, back: nat)
    requires PoolOk(wins, f, bump) && 4 * |pool| >= POOL_BYTES
    ensures Painted(wins, pool, x, y, back, Shown(wins, pool, WIN_MAX, x, y, back))
  {
    forall i: nat | i < |wins| && Alone(wins, i, x, y)
      ensures var k := wins[i].off / 4 + (y - wins[i].y) * wins[i].w + (x - wins[i].x);
        0 <= k < |pool| && Shown(wins, pool, WIN_MAX, x, y, back) == pool[k]
    {
      InPool(wins, f, bump, i);
      WordIn(wins[i], wins[i].off + Bytes(wins[i]), x - wins[i].x, y - wins[i].y);
      hide PoolOk, Bytes;
      HitUnique(wins, x, y, i);
    }
    if forall i :: 0 <= i < |wins| ==> !(wins[i].used && wins[i].x <= x < wins[i].x + wins[i].w && wins[i].y <= y < wins[i].y + wins[i].h) {
      HitUnique(wins, x, y, -1);
    }
  }

  /** Clipping at the window's edge is no loss. */
  lemma DrawnClipped(a: seq<nat>, b: seq<nat>, w: Win, x: nat, y: nat, ex: nat, ey: nat, c: (nat, nat) -> nat)
    requires |a| == |b| && 4 * |a| >= w.off + Bytes(w) && WinOk(w, w.off + Bytes(w))
    requires Drawn(a, b, w, x, y, if ex > w.w then w.w else ex, if ey > w.h then w.h else ey, c)
    ensures Drawn(a, b, w, x, y, ex, ey, c)
  {
    hide Word, WinOk, Bytes, OwnWord;
  }

  lemma NoSlot(wins: seq<Win>, pool: seq<nat>, x: nat, y: nat, back: nat)
    ensures Shown(wins, pool, 0, x, y, back) == back
  {
  }

  /** Painting slot i over the first i slots. */
  lemma OneSlot(wins: seq<Win>, pool: seq<nat>, f: seq<Ext>, bump: nat, i: nat, x: nat, y: nat, back: nat)
    requires PoolOk(wins, f, bump) && i < |wins| && 4 * |pool| >= POOL_BYTES
    ensures Shown(wins, pool, i + 1, x, y, back) == if Covers(wins[i], x, y) then Pixel(pool, wins[i], x, y) else Shown(wins, pool, i, x, y, back)
  {
    if Covers(wins[i], x, y) {
      InPool(wins, f, bump, i);
      WordIn(wins[i], wins[i].off + Bytes(wins[i]), x - wins[i].x, y - wins[i].y);
    }
    hide PoolOk, Word, Bytes;
  }

  lemma MoveCovers(wins: seq<Win>, f: seq<Ext>, bump: nat, id: nat, x: nat, y: nat)
    requires Covered(wins, f, bump) && id < |wins|
    ensures Covered(wins[id := wins[id].(x := x, y := y)], f, bump)
  {
    hide Free;
    var moved := wins[id := wins[id].(x := x, y := y)];
    forall b: nat | b < bump ensures Free(f, b) || Held(moved, b) {
      if Held(wins, b) {
        var i :| 0 <= i < |wins| && wins[i].used && In(ExtOf(wins[i]), b);
        assert moved[i].used && ExtOf(moved[i]) == ExtOf(wins[i]);
      }
    }
  }

  lemma MoveKeeps(wins: seq<Win>, f: seq<Ext>, bump: nat, id: nat, x: nat, y: nat)
    requires PoolOk(wins, f, bump) && id < |wins| && wins[id].used && x + wins[id].w < U32 && y + wins[id].h < U32
    ensures PoolOk(wins[id := wins[id].(x := x, y := y)], f, bump)
  {
    LiveUpdate(wins, id, wins[id].(x := x, y := y));
    MoveCovers(wins, f, bump, id, x, y);
    hide Total, LiveTotal, Ordered, Apart, Aligned, NotFree, Covered;
  }

  /** Unless the sum wrapped, the clipped rectangle is within the image and the window. */
  lemma ClipWithin(a: nat, b: nat, limit: nat)
    requires a < U32 && b < U32 && a <= Clip(a, b, limit)
    ensures Clip(a, b, limit) - a <= b && Clip(a, b, limit) <= limit
  {
  }

  lemma RaisedSame(wins: seq<Win>, id: nat)
    requires id < |wins|
    ensures Raised(wins, id, id) == wins
  {
  }

  lemma NoneLive(wins: seq<Win>)
    requires forall i :: 0 <= i < |wins| ==> !wins[i].used
    ensures LiveTotal(wins) == 0
  {
    if wins != [] {
      NoneLive(wins[..|wins| - 1]);
    }
  }

  lemma LengthIs(wins: seq<Win>, f: seq<Ext>, bump: nat)
    requires PoolOk(wins, f, bump)
    ensures |wins| == WIN_MAX
  {
  }

  /** A window cut from the pool lies below the bump pointer. */
  lemma AllocFits(f: seq<Ext>, bump: nat, bump2: nat, w: Win)
    requires 1 <= w.w <= MAX_DIM && 1 <= w.h <= MAX_DIM && w.off % 4 == 0 && w.x <= 512 && w.y <= 512
    requires if bump2 == bump then (forall b: nat :: Free(f, b) ==> b < bump) && (forall b: nat :: In(ExtOf(w), b) ==> Free(f, b)) else w.off == bump && bump2 == bump + Bytes(w)
    ensures WinOk(w, bump2)
  {
    SizePositive(w);
    if bump2 == bump {
      assert In(ExtOf(w), w.off + Bytes(w) - 1);
    }
  }
}
