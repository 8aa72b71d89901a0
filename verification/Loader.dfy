/** The image loader: fresh zeroed pages per segment, then the bytes.  An address space
    is the partial map of its user pages, the page tables it has, and what boot's mappings
    bar; the entries in those tables are the subject of PageTables and Vmm. */
module Loader {
  import opened Arith

  type byte = x: nat | x < 256

  const PAGE: nat := 4096
  const LOAD_CAP: nat := 16 * 1024 * 1024
  const U64: nat := 0x1_0000_0000_0000_0000

  /** A user page: writable, not executable, contents. */
  datatype Page = Page(rw: bool, nx: bool, bytes: seq<byte>)

  predicate PagesOk(pages: map<nat, Page>) { forall v :: v in pages ==> |pages[v].bytes| == PAGE }

  function PageOf(va: nat): nat { va / PAGE }

  function ByteAt(pages: map<nat, Page>, va: nat): byte
    requires PagesOk(pages)
  {
    if PageOf(va) in pages then pages[PageOf(va)].bytes[va % PAGE] else 0
  }

  function ZeroPage(rw: bool, nx: bool): Page { Page(rw, nx, seq(PAGE, _ => 0)) }

  function PagesFor(size: nat): nat { (size + PAGE - 1) / PAGE }

  /** p1 is p0 with n fresh zeroed pages from page lo on. */
  ghost predicate Added(p0: map<nat, Page>, p1: map<nat, Page>, lo: nat, n: nat, rw: bool, nx: bool) {
    (forall v :: v in p1 <==> v in p0 || lo <= v < lo + n) &&
    (forall v :: v in p0 ==> p1[v] == p0[v]) &&
    (forall v :: lo <= v < lo + n ==> v !in p0 && p1[v] == ZeroPage(rw, nx))
  }

  lemma AddedNext(p0: map<nat, Page>, p1: map<nat, Page>, lo: nat, n: nat, rw: bool, nx: bool)
    requires Added(p0, p1, lo, n, rw, nx) && lo + n !in p1
    ensures Added(p0, p1[lo + n := ZeroPage(rw, nx)], lo, n + 1, rw, nx)
  {
  }

  lemma AddedAt(p0: map<nat, Page>, p1: map<nat, Page>, lo: nat, n: nat, rw: bool, nx: bool)
    requires Added(p0, p1, lo, n, rw, nx)
    ensures lo + n in p1 <==> lo + n in p0
  {
  }

  /** Same pages with the same rights; only contents may differ. */
  ghost predicate SameRights(p0: map<nat, Page>, p1: map<nat, Page>) {
    p0.Keys == p1.Keys && forall v :: v in p0 ==> p1[v].rw == p0[v].rw && p1[v].nx == p0[v].nx
  }

  /** The pages from lo on are there, with these rights. */
  ghost predicate Granted(pages: map<nat, Page>, lo: nat, n: nat, rw: bool, nx: bool) {
    forall v :: lo <= v < lo + n ==> v in pages && pages[v].rw == rw && pages[v].nx == nx
  }

  lemma GrantedAdded(p1: map<nat, Page>, p2: map<nat, Page>, lo: nat, n: nat, rw: bool, nx: bool, lo2: nat, n2: nat, rw2: bool, nx2: bool)
    requires Added(p1, p2, lo2, n2, rw2, nx2)
    ensures Granted(p2, lo2, n2, rw2, nx2) && (Granted(p1, lo, n, rw, nx) ==> Granted(p2, lo, n, rw, nx))
  {
  }

  lemma GrantedSame(p1: map<nat, Page>, p2: map<nat, Page>, lo: nat, n: nat, rw: bool, nx: bool)
    requires Granted(p1, lo, n, rw, nx) && SameRights(p1, p2)
    ensures Granted(p2, lo, n, rw, nx)
  {
    forall v | lo <= v < lo + n ensures v in p2 {
      assert v in p1.Keys;
    }
  }

  /** The new pages of a load are never both writable and executable. */
  ghost predicate WxOk(p0: map<nat, Page>, p1: map<nat, Page>, nxOn: bool) {
    (forall v :: v in p0 ==> v in p1) && (nxOn ==> forall v :: v in p1 && v !in p0 ==> p1[v].rw ==> p1[v].nx)
  }

  function Stored(pages: map<nat, Page>, va: nat, b: byte): (r: map<nat, Page>)
    requires PagesOk(pages) && PageOf(va) in pages
    ensures PagesOk(r) && r.Keys == pages.Keys
  {
    var v := PageOf(va);
    pages[v := pages[v].(bytes := pages[v].bytes[va % PAGE := b])]
  }

  lemma StoredIs(pages: map<nat, Page>, va: nat, b: byte, at: nat)
    requires PagesOk(pages) && PageOf(va) in pages
    ensures ByteAt(Stored(pages, va, b), at) == if at == va then b else ByteAt(pages, at)
    ensures SameRights(pages, Stored(pages, va, b))
  {
  }

  /** src stored from dst on; no other byte of mapped memory differs. */
  ghost predicate Copied(p0: map<nat, Page>, p1: map<nat, Page>, dst: nat, src: seq<byte>)
    requires PagesOk(p0) && PagesOk(p1)
  {
    SameRights(p0, p1) && forall at: nat :: ByteAt(p1, at) == if dst <= at < dst + |src| then src[at - dst] else ByteAt(p0, at)
  }

  /** Every byte of [dst, dst + n) lies in a mapped page. */
  ghost predicate Mapped(pages: map<nat, Page>, dst: nat, n: nat) { forall va :: dst <= va < dst + n ==> PageOf(va) in pages }

  datatype Result = Refused | Loaded(entry: nat, base: nat, end: nat)

  function Rd16(b: seq<byte>, p: nat): nat
    requires p + 2 <= |b|
  {
    b[p] as nat + 256 * (b[p + 1] as nat)
  }

  function Rd32(b: seq<byte>, p: nat): nat
    requires p + 4 <= |b|
  {
    Rd16(b, p) + 65536 * Rd16(b, p + 2)
  }

  function Rd64(b: seq<byte>, p: nat): nat
    requires p + 8 <= |b|
  {
    Rd32(b, p) + 0x1_0000_0000 * Rd32(b, p + 4)
  }

  function Zeros(n: nat): (s: seq<byte>)
    ensures |s| == n && forall k :: 0 <= k < n ==> s[k] == 0
  {
    seq(n, _ => 0)
  }

  predicate Canonical(va: nat) { va < 0x8000_0000_0000 || U64 - 0x8000_0000_0000 <= va < U64 }

  /** The tests of map_range_fl, with their 64-bit sum. */
  predicate Bounds(va: nat, size: nat) { Canonical(va) && Canonical((va + size + U64 - 1) % U64) && 0 < size <= LOAD_CAP }

  /** What map_range_fl and the walker ask of a range before looking at the tables. */
  predicate RangeOk(va: nat, size: nat) { Bounds(va, size) && Aligned(va) }

  predicate Aligned(va: nat) { va % PAGE == 0 }

  // ---------------------------------------------------------------- tables

  /** A page table below the root: level 2 is a PDPT, 1 a page directory, 0 a leaf table. */
  datatype Dir = Dir(level: nat, pre: nat)

  /** The bits of page v that choose the table of a level. */
  function Prefix(v: nat, level: nat): nat { if level == 0 then v / 512 else Prefix(v, level - 1) / 512 }

  /** The table of a level on the path of page v. */
  function DirOf(v: nat, level: nat): Dir { Dir(level, Prefix(v, level)) }

  function Path(v: nat): set<Dir> { set level | 0 <= level < 3 :: DirOf(v, level) }

  /** The tables on the paths of n pages from lo on. */
  function Paths(lo: nat, n: nat): (ds: set<Dir>)
    ensures forall v, level :: lo <= v < lo + n && 0 <= level < 3 ==> DirOf(v, level) in ds
  {
    if n == 0 then {} else Paths(lo, n - 1) + Path(lo + n - 1)
  }

  /** Page v is barred: a large page lies on its path, or a mapping of the kernel is there. */
  predicate Barred(large: set<Dir>, held: set<nat>, v: nat) {
    v in held || exists level :: 0 <= level < 3 && DirOf(v, level) in large
  }

  /** The range can be wired as far as the mappings that are there go. */
  ghost predicate Open(pages: map<nat, Page>, large: set<Dir>, held: set<nat>, lo: nat, n: nat) {
    forall v: nat :: lo <= v < lo + n ==> v !in pages && !Barred(large, held, v)
  }

  lemma {:induction false} PathsMore(lo: nat, i: nat, n: nat)
    requires i <= n
    ensures Paths(lo, i) <= Paths(lo, n)
  {
    if i < n {
      PathsMore(lo, i, n - 1);
    }
  }

  lemma Fewer<T>(a: set<T>, b: set<T>)
    requires a <= b
    ensures |a| <= |b|
  {
    assert b == a + (b - a);
    assert a * (b - a) == {};
  }

  /** New tables are counted once. */
  lemma NewTables(a: set<Dir>, b: set<Dir>, d: set<Dir>)
    ensures |(a + b) - d| == |a - d| + |b - (d + a)|
  {
    assert (a + b) - d == (a - d) + (b - (d + a));
    assert (a - d) * (b - (d + a)) == {};
  }

  /** How many tables of d are not in d0. */
  function Missing(d0: set<Dir>, d: set<Dir>): nat { |d - d0| }

  /** The frames a range costs: its pages and the tables not there yet. */
  function Cost(dirs: set<Dir>, lo: nat, n: nat): nat { n + Missing(dirs, Paths(lo, n)) }

  lemma CostMore(dirs: set<Dir>, lo: nat, i: nat, n: nat)
    requires i <= n
    ensures Cost(dirs, lo, i) <= Cost(dirs, lo, n)
  {
    PathsMore(lo, i, n);
    Fewer(Paths(lo, i) - dirs, Paths(lo, n) - dirs);
  }

  /** One page more. */
  lemma CostNext(dirs: set<Dir>, lo: nat, i: nat)
    ensures Cost(dirs, lo, i + 1) == Cost(dirs, lo, i) + 1 + Missing(dirs + Paths(lo, i), Path(lo + i))
    ensures dirs + Paths(lo, i + 1) == dirs + Paths(lo, i) + Path(lo + i)
  {
    NewTables(Paths(lo, i), Path(lo + i), dirs);
  }

  // ---------------------------------------------------------------- ELF segments

  /** A PT_LOAD program header. */
  datatype Seg = Seg(flags: nat, offset: nat, vaddr: nat, filesz: nat, memsz: nat)

  /** elf_load_base: one of 256 slides of 2 MB. */
  function ElfBase(slide: nat): (base: nat)
    ensures base % PAGE == 0 && 0x6000_0000 <= base < 0x8000_0000
  {
    0x6000_0000 + slide % 256 * 0x20_0000
  }

  predicate IsElf(img: seq<byte>) {
    |img| >= 64 && img[0] == 0x7F && img[1] == 0x45 && img[2] == 0x4C && img[3] == 0x46 && img[4] == 2
  }

  /** The header table lies within the image, and its extent does not wrap. */
  predicate ElfHeader(img: seq<byte>)
    requires |img| >= 64
  {
    Rd32(img, 16) == 0x003E_0003 && Rd16(img, 54) >= 56 && Rd16(img, 56) <= 16 &&
    Rd64(img, 32) + Mul(Rd16(img, 56), Rd16(img, 54)) <= |img|
  }

  function PhAt(img: seq<byte>, i: nat): nat
    requires |img| >= 64
  {
    Rd64(img, 32) + Mul(i, Rd16(img, 54))
  }

  lemma PhIn(img: seq<byte>, i: nat)
    requires |img| >= 64 && ElfHeader(img) && i < Rd16(img, 56)
    ensures PhAt(img, i) + 56 <= |img|
  {
    hide Rd16, Rd32, Rd64, Mul;
    MulRow(i, Rd16(img, 56), Rd16(img, 54));
  }

  predicate IsLoad(img: seq<byte>, i: nat)
    requires |img| >= 64 && ElfHeader(img) && i < Rd16(img, 56)
  {
    PhIn(img, i);
    Rd32(img, PhAt(img, i)) == 1
  }

  function SegAt(img: seq<byte>, i: nat): Seg
    requires |img| >= 64 && ElfHeader(img) && i < Rd16(img, 56)
  {
    PhIn(img, i);
    var p := PhAt(img, i);
    Seg(Rd32(img, p + 4), Rd64(img, p + 8), Rd64(img, p + 16), Rd64(img, p + 32), Rd64(img, p + 40))
  }

  /** The per-segment checks, with their 64-bit sums. */
  predicate SegOk(s: Seg, len: nat) {
    s.filesz <= s.memsz <= LOAD_CAP && s.vaddr + s.memsz < 0x1000_0000 && s.offset + s.filesz <= len
  }

  function SegPage(s: Seg, base: nat): nat { PageOf(base + s.vaddr / PAGE * PAGE) }

  function SegPages(s: Seg): nat { PagesFor(s.vaddr % PAGE + s.memsz) }

  function SegEnd(s: Seg, base: nat): nat { base + s.vaddr + s.memsz }

  predicate SegWritable(s: Seg) { s.flags / 2 % 2 == 1 }

  predicate SegExec(s: Seg) { s.flags % 2 == 1 }

  /** The bytes of a segment in memory: the file's, then zeros. */
  function SegBytes(img: seq<byte>, s: Seg): (b: seq<byte>)
    requires SegOk(s, |img|)
    ensures |b| == s.memsz
  {
    img[s.offset..s.offset + s.filesz] + Zeros(s.memsz - s.filesz)
  }

  /** The segment's bytes stand at base + vaddr. */
  ghost predicate SegLoaded(pages: map<nat, Page>, img: seq<byte>, s: Seg, base: nat)
    requires PagesOk(pages) && SegOk(s, |img|)
  {
    forall va :: base + s.vaddr <= va < base + s.vaddr + s.memsz ==> ByteAt(pages, va) == SegBytes(img, s)[va - base - s.vaddr]
  }

  /** No execution where writing is allowed or the segment does not ask for it. */
  predicate SegNx(s: Seg, nxOn: bool) { (SegWritable(s) || !SegExec(s)) && nxOn }

  /** All of a segment's pages are mapped, with the rights its flags ask for. */
  ghost predicate SegMapped(pages: map<nat, Page>, s: Seg, base: nat, nxOn: bool) {
    Granted(pages, SegPage(s, base), SegPages(s), SegWritable(s), SegNx(s, nxOn))
  }

  /** Two segments share no page. */
  predicate SegApart(s: Seg, t: Seg, base: nat) {
    SegPage(s, base) + SegPages(s) <= SegPage(t, base) || SegPage(t, base) + SegPages(t) <= SegPage(s, base)
  }

  /** A segment's bytes lie in its pages. */
  lemma SegInPages(s: Seg, base: nat, va: nat)
    requires base % PAGE == 0 && base + s.vaddr <= va < base + s.vaddr + s.memsz
    ensures SegPage(s, base) <= PageOf(va) < SegPage(s, base) + SegPages(s)
  {
  }

  lemma SegMappedBytes(pages: map<nat, Page>, s: Seg, base: nat, nxOn: bool)
    requires base % PAGE == 0 && SegMapped(pages, s, base, nxOn)
    ensures Mapped(pages, base + s.vaddr, s.memsz)
  {
    forall va | base + s.vaddr <= va < base + s.vaddr + s.memsz ensures PageOf(va) in pages {
      SegInPages(s, base, va);
    }
  }

  /** Loading one segment does not disturb another. */
  lemma SegElsewhere(p0: map<nat, Page>, p1: map<nat, Page>, img: seq<byte>, s: Seg, t: Seg, base: nat)
    requires PagesOk(p0) && PagesOk(p1) && SegOk(s, |img|) && SegOk(t, |img|) && base % PAGE == 0
    requires SegApart(s, t, base) && SegLoaded(p0, img, s, base) && Copied(p0, p1, base + t.vaddr, SegBytes(img, t))
    ensures SegLoaded(p1, img, s, base)
  {
    hide SegBytes, ByteAt;
    forall va | base + s.vaddr <= va < base + s.vaddr + s.memsz ensures ByteAt(p1, va) == ByteAt(p0, va) {
      SegInPages(s, base, va);
      if base + t.vaddr <= va < base + t.vaddr + t.memsz {
        SegInPages(t, base, va);
      }
    }
  }

  lemma SegCopied(p0: map<nat, Page>, p1: map<nat, Page>, img: seq<byte>, s: Seg, base: nat)
    requires PagesOk(p0) && PagesOk(p1) && SegOk(s, |img|) && Copied(p0, p1, base + s.vaddr, SegBytes(img, s))
    ensures SegLoaded(p1, img, s, base)
  {
    hide SegBytes, ByteAt;
  }

  class Space {
    var pages: map<nat, Page>
    var dirs: set<Dir>          // page tables the space has, shared or its own
    var free: nat
    const large: set<Dir>       // where boot's large pages stand in place of a table
    const held: set<nat>        // pages the kernel maps
    const nxOn: bool

    ghost predicate Valid()
      reads this
    {
      PagesOk(pages) && dirs !! large
    }

    /** The walk of __vmm_map_page for page v and its leaf.  Tables made before a failure
        stay. */
    method MapPage(v: nat, rw: bool, nx: bool) returns (ok: bool)
      requires Valid()
      modifies this
      ensures Valid()
      ensures ok <==> v !in old(pages) && !Barred(large, held, v) && Missing(old(dirs), Path(v)) <= old(free)
      ensures ok ==> pages == old(pages)[v := ZeroPage(rw, nx)] && dirs == old(dirs) + Path(v)
      ensures !ok ==> pages == old(pages) && old(dirs) <= dirs <= old(dirs) + Path(v)
      ensures free == old(free) - Missing(old(dirs), dirs)
    {
      hide DirOf, Path, Above, Barred, Climbed, Missing;
      ClimbStart(dirs, free, large, v);
      var level := 3;
      while level > 0
        invariant 0 <= level <= 3 && Valid() && pages == old(pages) && Climbed(old(dirs), old(free), dirs, free, large, v, level)
      {
        level := level - 1;
        var d := DirOf(v, level);
        ClimbNext(old(dirs), old(free), dirs, free, large, held, v, level);
        if d in large {
          return false;
        }
        if d !in dirs {
          if free == 0 {
            return false;
          }
          free := free - 1;
          dirs := dirs + {d};
        }
      }
      ClimbDone(old(dirs), old(free), dirs, free, large, held, v);
      if v in pages || v in held {
        return false;
      }
      pages := pages[v := ZeroPage(rw, nx)];
      ok := true;
    }

    /** One turn of map_range_fl: a zeroed frame for the page at va, put back if the page
        cannot be mapped. */
    method WirePage(va: nat, rw: bool, nx: bool) returns (ok: bool)
      requires Valid()
      modifies this
      ensures Valid()
      ensures ok <==> Aligned(va) && (nx ==> nxOn) && PageOf(va) !in old(pages) && !Barred(large, held, PageOf(va)) && 1 + Missing(old(dirs), Path(PageOf(va))) <= old(free)
      ensures ok ==> pages == old(pages)[PageOf(va) := ZeroPage(rw, nx)] && dirs == old(dirs) + Path(PageOf(va))
      ensures ok ==> free == old(free) - 1 - Missing(old(dirs), Path(PageOf(va)))
      ensures !ok ==> pages == old(pages) && old(dirs) <= dirs && free + Missing(old(dirs), dirs) == old(free)
    {
      hide Path, Barred, PagesOk, Missing;
      WiringCost(dirs, PageOf(va));
      ok := false;
      if free > 0 {
        free := free - 1;
        if Aligned(va) && (nx ==> nxOn) {
          ok := MapPage(PageOf(va), rw, nx);
        }
        if !ok {
          free := free + 1;
        }
      }
    }

    /** map_range_fl: wires fresh zeroed pages, refusing pages that are there or barred.  It
        succeeds exactly if every page is open and the free frames pay for the pages and for
        the tables that are missing. */
    method MapRange(va: nat, size: nat, rw: bool, nx: bool) returns (ok: bool)
      requires Valid()
      modifies this
      ensures Valid()
      ensures ok <==> Wireable(va, size, nx, nxOn, old(pages), old(dirs), old(free), large, held)
      ensures ok ==> Added(old(pages), pages, PageOf(va), PagesFor(size), rw, nx) && dirs == old(dirs) + Paths(PageOf(va), PagesFor(size))
      ensures ok ==> free == old(free) - Cost(old(dirs), PageOf(va), PagesFor(size))
      ensures !ok ==> exists n :: 0 <= n && Added(old(pages), pages, PageOf(va), n, rw, nx)
      ensures old(dirs) <= dirs && free + |pages| + |dirs| == old(free + |pages| + |dirs|)
    {
      hide Wiring, Wireable, Missing, Aligned, Added, Cost, Paths, Path, Barred, Bounds, Open, PageOf, PagesFor, PagesOk;
      WiringStart(pages, dirs, free, large, held, PageOf(va), rw, nx);
      NotWireable(va, size, nx, nxOn, pages, dirs, free, large, held);
      if !Bounds(va, size) {
        return false;
      }
      BoundsPages(va, size);
      var i, count := 0, PagesFor(size);
      while i < count
        invariant 0 <= i <= count && Valid() && Wiring(old(pages), old(dirs), old(free), pages, dirs, free, large, held, PageOf(va), i, rw, nx)
        invariant i > 0 ==> Aligned(va) && (nx ==> nxOn)
      {
        ghost var d1, f1 := dirs, free;
        PageAt(va, i);
        WiringNext(old(pages), old(dirs), old(free), pages, dirs, free, large, held, PageOf(va), i, va, size, rw, nx, nxOn);
        var done := WirePage(va + i * PAGE, rw, nx);
        if !done {
          WiringPart(old(pages), old(dirs), old(free), pages, d1, dirs, f1, free, large, held, PageOf(va), i, rw, nx);
          return false;
        }
        i := i + 1;
      }
      WiringDone(old(pages), old(dirs), old(free), pages, dirs, free, large, held, va, size, rw, nx, nxOn);
      ok := true;
    }

    /** A copy loop under the target's tables; false is the page fault it takes when it
        meets an unmapped page. */
    method CopyIn(dst: nat, src: seq<byte>) returns (ok: bool)
      requires Valid()
      modifies this`pages
      ensures Valid()
      ensures ok <==> Mapped(old(pages), dst, |src|)
      ensures SameRights(old(pages), pages)
      ensures ok ==> Copied(old(pages), pages, dst, src)
    {
      hide SameRights;
      CopiedNone(pages, dst);
      var k := 0;
      while k < |src|
        invariant 0 <= k <= |src| && Valid() && pages.Keys == old(pages).Keys
        invariant Copied(old(pages), pages, dst, src[..k]) && Mapped(old(pages), dst, k)
      {
        CopiedRights(old(pages), pages, dst, src[..k]);
        if PageOf(dst + k) !in pages {
          return false;
        }
        CopiedNext(old(pages), pages, dst, src, k);
        pages := Stored(pages, dst + k, src[k]);
        k := k + 1;
      }
      assert src[..k] == src;
      CopiedRights(old(pages), pages, dst, src);
      ok := true;
    }

    /** load_mct2: text read-only and executable, data and BSS writable and not executable.
        An image is loaded, byte for byte, if and only if its header is right, its regions
        are page aligned and open and not too long, and the free frames pay for its pages and
        the missing tables; and the copy never meets an unmapped page. */
    method LoadMct2(img: seq<byte>) returns (r: Result)
      requires Valid() && |img| >= 64
      modifies this
      ensures Valid() && WxOk(old(pages), pages, nxOn)
      ensures r.Loaded? <==> Mct2Header(img) && Mct2Fits(img, old(pages), old(dirs), old(free), large, held)
      ensures r.Loaded? ==> Mct2Loaded(img, r, pages, nxOn)
      ensures !Mct2Header(img) ==> pages == old(pages)
      ensures free + |pages| + |dirs| == old(free + |pages| + |dirs|)
    {
      hide WxOk, Rd64, Rd32, Granted, PageOf, PagesFor, RangeOk, Open, Added, Mct2Wired, Mct2Fits, Mct2Loaded, Cost, Paths, Mct2Header;
      WxStart(pages, nxOn);
      if !Mct2Header(img) {
        return Refused;
      }
      var ok := WireMct2(img);
      if !ok {
        return Refused;
      }
      ghost var p2 := pages;
      CopyMct2(img);
      SameCount(p2, pages);
      WxSame(old(pages), p2, pages, nxOn);
      r := Loaded(Rd64(img, 8) + Rd64(img, 16), Rd64(img, 8), Rd64(img, 8) + Rd64(img, 24) + Rd64(img, 32));
    }

    /** Both regions. */
    method WireMct2(img: seq<byte>) returns (ok: bool)
      requires Valid() && |img| >= 64
      modifies this
      ensures Valid() && WxOk(old(pages), pages, nxOn)
      ensures ok <==> Mct2Fits(img, old(pages), old(dirs), old(free), large, held)
      ensures ok ==> Mct2Wired(img, pages, nxOn)
      ensures free + |pages| + |dirs| == old(free + |pages| + |dirs|)
    {
      hide WxOk, Rd64, Granted, PageOf, PagesFor, RangeOk, Open, Added, Cost, Paths, Mapped, BothCost, DataOpen, PagesOk;
      WxStart(pages, nxOn);
      var base, text := Rd64(img, 8), Rd64(img, 40);
      var total := Rd64(img, 24) + Rd64(img, 32);
      ghost var p0, d0, f0 := pages, dirs, free;
      TextRange(p0, d0, large, held, base, text, total);
      if text > 0 {
        ok := MapRange(base, text, false, false);
        WxMapped(p0, p0, pages, base, text, false, false, nxOn, ok);
        if !ok {
          return false;
        }
        GrantedAdded(p0, pages, 0, 0, false, false, PageOf(base), PagesFor(text), false, false);
      }
      GrantedNone(pages, PageOf(base), text);
      ghost var p1 := pages;
      if text < total {
        DataRange(p0, d0, f0, large, held, p1, dirs, free, base, text, total);
        ok := MapRange(base + text, total - text, true, nxOn);
        WxMapped(p0, p1, pages, base + text, total - text, true, nxOn, nxOn, ok);
        if !ok {
          return false;
        }
        GrantedAdded(p1, pages, PageOf(base), PagesFor(text), false, false, PageOf(base + text), PagesFor(total - text), true, nxOn);
      }
      ImageMapped(p0, p1, pages, base, text, total, nxOn);
      ok := true;
    }

    /** The bytes and the zeros, with the target live. */
    method CopyMct2(img: seq<byte>)
      requires Valid() && |img| >= 64 && Mct2Header(img) && Mct2Wired(img, pages, nxOn)
      modifies this`pages
      ensures Valid() && SameRights(old(pages), pages)
      ensures var base, entry, end := Rd64(img, 8), Rd64(img, 16), Rd64(img, 8) + Rd64(img, 24) + Rd64(img, 32);
        Mct2Loaded(img, Loaded(base + entry, base, end), pages, nxOn)
    {
      hide Copied, SameRights, Mapped, ByteAt, Rd64, Rd32, Granted, PageOf, PagesFor;
      var base, code, text := Rd64(img, 8), Rd64(img, 24), Rd64(img, 40);
      var total := code + Rd64(img, 32);
      ghost var p2 := pages;
      MappedSplit(p2, base, code, total);
      var ok := CopyIn(base, img[48..48 + code]);
      assert ok;
      ghost var p3 := pages;
      MappedSame(p2, p3, base + code, total - code);
      ok := CopyIn(base + code, Zeros(total - code));
      assert ok;
      TwoCopies(p2, p3, pages, base, img[48..48 + code], total - code);
      SameTwice(p2, p3, pages);
      RightsTwice(p2, p3, pages, base, total, PageOf(base), PagesFor(text), false, false);
      if text < total {
        RightsTwice(p2, p3, pages, base, total, PageOf(base + text), PagesFor(total - text), true, nxOn);
      }
    }

    /** load_elf64 at a load base: first every PT_LOAD segment is checked and its pages are
        wired, refusing pages already taken; then the bytes are copied. */
    method LoadElf(img: seq<byte>, slide: nat) returns (r: Result)
      requires Valid() && |img| >= 64
      modifies this
      ensures Valid() && WxOk(old(pages), pages, nxOn)
      ensures r.Loaded? <==> ElfHeader(img) && ElfFits(img, ElfBase(slide), Rd16(img, 56), old(pages), old(dirs), old(free), large, held)
      ensures r.Loaded? ==> ElfHeader(img) && r.base == ElfBase(slide) && r.entry == (r.base + Rd64(img, 24)) % U64
      ensures r.Loaded? ==> forall i :: 0 <= i < Rd16(img, 56) && IsLoad(img, i) ==> SegOk(SegAt(img, i), |img|) && SegLoaded(pages, img, SegAt(img, i), r.base) && SegMapped(pages, SegAt(img, i), r.base, nxOn)
      ensures r.Loaded? ==> forall i :: 0 <= i < Rd16(img, 56) && IsLoad(img, i) ==> SegEnd(SegAt(img, i), r.base) <= r.end
      ensures r.Loaded? ==> r.end == r.base || exists i :: 0 <= i < Rd16(img, 56) && IsLoad(img, i) && r.end == SegEnd(SegAt(img, i), r.base)
      ensures r.Loaded? ==> Wired(img, r.base, Rd16(img, 56), pages, nxOn)
      ensures r.Loaded? ==> forall i, j :: 0 <= i < j < Rd16(img, 56) && IsLoad(img, i) && IsLoad(img, j) ==> SegApart(SegAt(img, i), SegAt(img, j), r.base)
      ensures free + |pages| + |dirs| == old(free + |pages| + |dirs|)
    {
      hide WxOk, SegLoaded, SegApart, SegMapped, ElfHeader, ElfFits;
      WxStart(pages, nxOn);
      var base := ElfBase(slide);
      if !ElfHeader(img) {
        return Refused;
      }
      var ok := WireSegments(img, base);
      if !ok {
        return Refused;
      }
      var end := CopySegments(img, base, old(pages));
      r := Loaded((base + Rd64(img, 24)) % U64, base, end);
    }

    /** loader_map_image: ELF by its magic, anything else as MCT2; too short is refused. */
    method LoadImage(img: seq<byte>, slide: nat) returns (r: Result)
      requires Valid()
      modifies this
      ensures Valid() && WxOk(old(pages), pages, nxOn)
      ensures |img| < 64 ==> r == Refused && pages == old(pages)
      ensures r.Loaded? && IsElf(img) ==> ElfHeader(img) && r.base == ElfBase(slide) && r.entry == (r.base + Rd64(img, 24)) % U64 && Wired(img, r.base, Rd16(img, 56), pages, nxOn)
      ensures r.Loaded? && IsElf(img) ==> forall i :: 0 <= i < Rd16(img, 56) && IsLoad(img, i) ==> SegOk(SegAt(img, i), |img|) && SegLoaded(pages, img, SegAt(img, i), r.base)
      ensures r.Loaded? && IsElf(img) ==> forall i :: 0 <= i < Rd16(img, 56) && IsLoad(img, i) ==> SegEnd(SegAt(img, i), r.base) <= r.end
      ensures r.Loaded? && IsElf(img) ==> r.end == r.base || exists i :: 0 <= i < Rd16(img, 56) && IsLoad(img, i) && r.end == SegEnd(SegAt(img, i), r.base)
      ensures IsElf(img) ==> (r.Loaded? <==> ElfHeader(img) && ElfFits(img, ElfBase(slide), Rd16(img, 56), old(pages), old(dirs), old(free), large, held))
      ensures |img| >= 64 && !IsElf(img) ==> (r.Loaded? <==> Mct2Header(img) && Mct2Fits(img, old(pages), old(dirs), old(free), large, held))
      ensures r.Loaded? && !IsElf(img) ==> Mct2Loaded(img, r, pages, nxOn)
      ensures free + |pages| + |dirs| == old(free + |pages| + |dirs|)
    {
      hide WxOk, ElfHeader, ElfFits, Mct2Header, Mct2Fits, Mct2Loaded, SegLoaded, SegMapped, SegApart, SegOk;
      WxStart(pages, nxOn);
      if |img| < 64 {
        return Refused;
      }
      if IsElf(img) {
        r := LoadElf(img, slide);
      } else {
        r := LoadMct2(img);
      }
    }

    /** Pass 1. */
    method WireSegments(img: seq<byte>, base: nat) returns (ok: bool)
      requires Valid() && |img| >= 64 && base % PAGE == 0 && ElfHeader(img)
      modifies this
      ensures Valid() && WxOk(old(pages), pages, nxOn)
      ensures ok <==> ElfFits(img, base, Rd16(img, 56), old(pages), old(dirs), old(free), large, held)
      ensures ok ==> Wired(img, base, Rd16(img, 56), pages, nxOn)
      ensures free + |pages| + |dirs| == old(free + |pages| + |dirs|)
    {
      hide WxOk, Wired, Laid, ElfFits, ElfHeader, Rd16, IsLoad, SegAt, ElfSize, PagesOk;
      WxStart(pages, nxOn);
      LaidStart(img, base, pages, dirs, free, large, held);
      WiredStart(img, base, pages, nxOn);
      SizeStart(img);
      var i, total := 0, 0;
      while i < Rd16(img, 56)
        invariant 0 <= i <= Rd16(img, 56) && Valid() && WxOk(old(pages), pages, nxOn) && total == ElfSize(img, i)
        invariant Wired(img, base, i, pages, nxOn) && free + |pages| + |dirs| == old(free + |pages| + |dirs|)
        invariant Laid(img, base, i, old(pages), old(dirs), old(free), pages, dirs, free, large, held)
      {
        SizeNext(img, i);
        if !IsLoad(img, i) {
          LaidSkip(img, base, i, old(pages), old(dirs), old(free), pages, dirs, free, large, held);
          WiredSkip(img, base, i, pages, nxOn);
        } else {
          var done := WireSegment(img, base, i, total, old(pages), old(dirs), old(free));
          if !done {
            NotFits(img, base, i + 1, Rd16(img, 56), old(pages), old(dirs), old(free), large, held);
            return false;
          }
          total := total + SegSize(SegAt(img, i));
        }
        i := i + 1;
      }
      LaidFits(img, base, i, old(pages), old(dirs), old(free), pages, dirs, free, large, held);
      ok := true;
    }

    /** One PT_LOAD header. */
    method WireSegment(img: seq<byte>, base: nat, i: nat, total: nat, ghost p0: map<nat, Page>, ghost d0: set<Dir>, ghost f0: nat) returns (ok: bool)
      requires Valid() && |img| >= 64 && ElfHeader(img) && i < Rd16(img, 56) && IsLoad(img, i) && total == ElfSize(img, i)
      requires WxOk(p0, pages, nxOn) && Wired(img, base, i, pages, nxOn) && Laid(img, base, i, p0, d0, f0, pages, dirs, free, large, held)
      modifies this
      ensures Valid() && WxOk(p0, pages, nxOn) && free + |pages| + |dirs| == old(free + |pages| + |dirs|)
      ensures ok <==> ElfFits(img, base, i + 1, p0, d0, f0, large, held)
      ensures ok ==> Wired(img, base, i + 1, pages, nxOn) && Laid(img, base, i + 1, p0, d0, f0, pages, dirs, free, large, held)
    {
      hide WxOk, Wired, Laid, ElfFits, ElfHeader, Rd16, IsLoad, SegAt, ElfSize, PagesOk, SegOk, Added, Cost, Paths, Wireable, SegPage, SegPages, SegVa, SegSize, SegWritable, SegNx, PageOf, PagesFor;
      SizeNext(img, i);
      LaidNext(img, base, i, p0, d0, f0, pages, dirs, free, large, held, nxOn);
      var s := SegAt(img, i);
      if !SegOk(s, |img|) {
        return false;
      }
      ghost var p1, d1, f1 := pages, dirs, free;
      var w := SegWritable(s);
      var nx := SegNx(s, nxOn);
      var done := MapRange(SegVa(s, base), SegSize(s), w, nx);
      SegSafe(s, nxOn);
      WxMapped(p0, p1, pages, SegVa(s, base), SegSize(s), w, nx, nxOn, done);
      if !done || total + SegSize(s) > LOAD_CAP {
        return false;
      }
      SegPageIs(s, base);
      WireableRange(SegVa(s, base), SegSize(s), nx, nxOn, p1, d1, f1, large, held);
      WiredNext(img, base, i, p1, pages, nxOn);
      LaidMore(img, base, i, p0, d0, f0, p1, d1, f1, pages, free, large, held, w, nx);
      ok := true;
    }

    /** Pass 2. */
    method CopySegments(img: seq<byte>, base: nat, ghost p0: map<nat, Page>) returns (end: nat)
      requires Valid() && |img| >= 64 && base % PAGE == 0 && ElfHeader(img) && Wired(img, base, Rd16(img, 56), pages, nxOn) && WxOk(p0, pages, nxOn)
      modifies this`pages
      ensures Valid() && WxOk(p0, pages, nxOn) && Wired(img, base, Rd16(img, 56), pages, nxOn) && |pages| == old(|pages|)
      ensures forall j :: 0 <= j < Rd16(img, 56) && IsLoad(img, j) ==> SegLoaded(pages, img, SegAt(img, j), base) && SegEnd(SegAt(img, j), base) <= end
      ensures end == base || exists i :: 0 <= i < Rd16(img, 56) && IsLoad(img, i) && end == SegEnd(SegAt(img, i), base)
    {
      hide WxOk, SegMapped, ElfHeader, Rd16, IsLoad, SegAt, SegPage, SegPages, SegApart, Mul, SegOk, SegLoaded, Copied, SameRights, Mapped, SegBytes;
      var i := 0;
      end := base;
      while i < Rd16(img, 56)
        invariant 0 <= i <= Rd16(img, 56) && Valid() && WxOk(p0, pages, nxOn) && Wired(img, base, Rd16(img, 56), pages, nxOn) && |pages| == old(|pages|)
        invariant forall j :: 0 <= j < i && IsLoad(img, j) ==> SegLoaded(pages, img, SegAt(img, j), base) && SegEnd(SegAt(img, j), base) <= end
        invariant end == base || exists j :: 0 <= j < i && IsLoad(img, j) && end == SegEnd(SegAt(img, j), base)
      {
        if IsLoad(img, i) {
          var s := SegAt(img, i);
          ghost var p1 := pages;
          assert SegMapped(p1, s, base, nxOn) && SegOk(s, |img|);
          SegMappedBytes(p1, s, base, nxOn);
          var ok := CopyIn(base + s.vaddr, SegBytes(img, s));
          WxSame(p0, p1, pages, nxOn);
          SameCount(p1, pages);
          WiredSame(img, base, Rd16(img, 56), p1, pages, nxOn);
          SegCopied(p1, pages, img, s, base);
          forall j | 0 <= j < i && IsLoad(img, j) ensures SegLoaded(pages, img, SegAt(img, j), base) {
            assert SegApart(SegAt(img, j), s, base);
            SegElsewhere(p1, pages, img, SegAt(img, j), s, base);
          }
          if SegEnd(s, base) > end {
            end := SegEnd(s, base);
          }
        }
        i := i + 1;
      }
    }
  }

  /** The first n headers are checked, their pages wired, and no two share a page. */
  ghost predicate Wired(img: seq<byte>, base: nat, n: nat, pages: map<nat, Page>, nxOn: bool)
    requires |img| >= 64 && ElfHeader(img) && n <= Rd16(img, 56)
  {
    (forall i :: 0 <= i < n && IsLoad(img, i) ==> SegOk(SegAt(img, i), |img|) && SegPages(SegAt(img, i)) > 0 && SegMapped(pages, SegAt(img, i), base, nxOn)) &&
    (forall i, j :: 0 <= i < j < n && IsLoad(img, i) && IsLoad(img, j) ==> SegApart(SegAt(img, i), SegAt(img, j), base))
  }

  // ---------------------------------------------------------------- when an ELF image fits

  /** Bytes, pages and tables of the first n headers. */
  function ElfSize(img: seq<byte>, n: nat): nat
    requires |img| >= 64 && ElfHeader(img) && n <= Rd16(img, 56)
  {
    if n == 0 then 0 else ElfSize(img, n - 1) + if IsLoad(img, n - 1) then SegSize(SegAt(img, n - 1)) else 0
  }

  function ElfPages(img: seq<byte>, n: nat): nat
    requires |img| >= 64 && ElfHeader(img) && n <= Rd16(img, 56)
  {
    if n == 0 then 0 else ElfPages(img, n - 1) + if IsLoad(img, n - 1) then SegPages(SegAt(img, n - 1)) else 0
  }

  function ElfPaths(img: seq<byte>, base: nat, n: nat): set<Dir>
    requires |img| >= 64 && ElfHeader(img) && n <= Rd16(img, 56)
  {
    if n == 0 then {} else ElfPaths(img, base, n - 1) + if IsLoad(img, n - 1) then SegPaths(SegAt(img, n - 1), base) else {}
  }

  function SegSize(s: Seg): nat { s.vaddr % PAGE + s.memsz }

  function SegPaths(s: Seg, base: nat): set<Dir> { Paths(SegPage(s, base), SegPages(s)) }

  function SegVa(s: Seg, base: nat): nat { base + s.vaddr / PAGE * PAGE }

  /** A segment on its own can be wired: its checks hold, its range is well placed and open. */
  ghost predicate SegFits(img: seq<byte>, s: Seg, base: nat, pages: map<nat, Page>, large: set<Dir>, held: set<nat>) {
    SegOk(s, |img|) && RangeOk(SegVa(s, base), SegSize(s)) && Open(pages, large, held, SegPage(s, base), SegPages(s))
  }

  /** The space can take the first n segments: each fits, no two share a page, they are not
      too long together, and there are frames for their pages and the missing tables. */
  ghost predicate ElfFits(img: seq<byte>, base: nat, n: nat, pages: map<nat, Page>, dirs: set<Dir>, free: nat, large: set<Dir>, held: set<nat>)
    requires |img| >= 64 && ElfHeader(img) && n <= Rd16(img, 56)
  {
    (forall i :: 0 <= i < n && IsLoad(img, i) ==> SegFits(img, SegAt(img, i), base, pages, large, held)) &&
    (forall i, j :: 0 <= i < j < n && IsLoad(img, i) && IsLoad(img, j) ==> SegApart(SegAt(img, i), SegAt(img, j), base)) &&
    ElfSize(img, n) <= LOAD_CAP && ElfPages(img, n) + Missing(dirs, ElfPaths(img, base, n)) <= free
  }

  lemma {:induction false} ElfFitsLess(img: seq<byte>, base: nat, i: nat, n: nat, pages: map<nat, Page>, dirs: set<Dir>, free: nat, large: set<Dir>, held: set<nat>)
    requires |img| >= 64 && ElfHeader(img) && i <= n <= Rd16(img, 56) && ElfFits(img, base, n, pages, dirs, free, large, held)
    ensures ElfFits(img, base, i, pages, dirs, free, large, held)
    decreases n - i
  {
    hide ElfHeader, Rd16, IsLoad, SegAt, SegFits, SegApart, SegSize, SegPages, SegPaths;
    if i < n {
      Fewer(ElfPaths(img, base, n - 1) - dirs, ElfPaths(img, base, n) - dirs);
      ElfFitsLess(img, base, i, n - 1, pages, dirs, free, large, held);
    }
  }

  /** Page v belongs to one of the first n segments. */
  ghost predicate ElfPage(img: seq<byte>, base: nat, n: nat, v: nat)
    requires |img| >= 64 && ElfHeader(img) && n <= Rd16(img, 56)
  {
    exists j :: 0 <= j < n && IsLoad(img, j) && InSeg(SegAt(img, j), base, v)
  }

  predicate InSeg(s: Seg, base: nat, v: nat) { SegPage(s, base) <= v < SegPage(s, base) + SegPages(s) }

  /** What pages, tables and frames are there after the first i segments. */
  ghost predicate Laid(img: seq<byte>, base: nat, i: nat, p0: map<nat, Page>, d0: set<Dir>, f0: nat, p: map<nat, Page>, d: set<Dir>, f: nat, large: set<Dir>, held: set<nat>)
    requires |img| >= 64 && ElfHeader(img) && i <= Rd16(img, 56)
  {
    ElfFits(img, base, i, p0, d0, f0, large, held) && d == d0 + ElfPaths(img, base, i) && f + ElfPages(img, i) + Missing(d0, ElfPaths(img, base, i)) == f0 &&
    forall v: nat :: v in p <==> v in p0 || ElfPage(img, base, i, v)
  }

  lemma LaidStart(img: seq<byte>, base: nat, p: map<nat, Page>, d: set<Dir>, f: nat, large: set<Dir>, held: set<nat>)
    requires |img| >= 64 && ElfHeader(img)
    ensures Laid(img, base, 0, p, d, f, p, d, f, large, held)
  {
    hide ElfHeader, Rd16;
    assert d + {} == d && {} - d == {};
  }

  lemma LaidSkip(img: seq<byte>, base: nat, i: nat, p0: map<nat, Page>, d0: set<Dir>, f0: nat, p: map<nat, Page>, d: set<Dir>, f: nat, large: set<Dir>, held: set<nat>)
    requires |img| >= 64 && ElfHeader(img) && i < Rd16(img, 56) && Laid(img, base, i, p0, d0, f0, p, d, f, large, held) && !IsLoad(img, i)
    ensures Laid(img, base, i + 1, p0, d0, f0, p, d, f, large, held)
  {
    hide ElfHeader, Rd16, IsLoad, SegAt, SegFits, SegApart, SegSize, SegPages, SegPaths, InSeg;
    assert ElfPaths(img, base, i + 1) == ElfPaths(img, base, i);
    forall v: nat ensures ElfPage(img, base, i + 1, v) <==> ElfPage(img, base, i, v) {
    }
  }

  /** A page of the next segment is vacant exactly if it was at first and no segment so far
      has it. */
  lemma LaidOpen(img: seq<byte>, base: nat, i: nat, p0: map<nat, Page>, d0: set<Dir>, f0: nat, p: map<nat, Page>, d: set<Dir>, f: nat, large: set<Dir>, held: set<nat>, s: Seg)
    requires |img| >= 64 && ElfHeader(img) && i <= Rd16(img, 56) && Laid(img, base, i, p0, d0, f0, p, d, f, large, held) && SegPages(s) > 0
    requires forall j :: 0 <= j < i && IsLoad(img, j) ==> SegPages(SegAt(img, j)) > 0
    ensures Open(p, large, held, SegPage(s, base), SegPages(s)) <==>
      Open(p0, large, held, SegPage(s, base), SegPages(s)) && forall j :: 0 <= j < i && IsLoad(img, j) ==> SegApart(SegAt(img, j), s, base)
  {
    hide ElfHeader, Rd16, IsLoad, SegAt, SegFits, SegPage, SegPages, ElfFits, Barred;
    forall j | 0 <= j < i && IsLoad(img, j)
      ensures SegApart(SegAt(img, j), s, base) <==> forall v: nat :: InSeg(s, base, v) ==> !InSeg(SegAt(img, j), base, v)
    {
      ApartPages(SegAt(img, j), s, base);
    }
    forall v: nat | InSeg(s, base, v) ensures v in p <==> v in p0 || ElfPage(img, base, i, v) {
    }
    forall v: nat ensures SegPage(s, base) <= v < SegPage(s, base) + SegPages(s) <==> InSeg(s, base, v) {
    }
  }

  lemma ApartPages(t: Seg, s: Seg, base: nat)
    requires SegPages(t) > 0 && SegPages(s) > 0
    ensures SegApart(t, s, base) <==> forall v: nat :: InSeg(s, base, v) ==> !InSeg(t, base, v)
  {
    hide SegPage, SegPages;
    var a, b := SegPage(t, base), SegPage(s, base);
    assert InSeg(s, base, b) && InSeg(t, base, a);
  }

  /** The frames after one segment more. */
  lemma LaidCost(img: seq<byte>, base: nat, i: nat, d0: set<Dir>, f0: nat, d: set<Dir>, f: nat)
    requires |img| >= 64 && ElfHeader(img) && i < Rd16(img, 56) && IsLoad(img, i)
    requires d == d0 + ElfPaths(img, base, i) && f + ElfPages(img, i) + Missing(d0, ElfPaths(img, base, i)) == f0
    ensures var s := SegAt(img, i); var need := ElfPages(img, i + 1) + Missing(d0, ElfPaths(img, base, i + 1));
      need + f == f0 + Cost(d, SegPage(s, base), SegPages(s)) && d + SegPaths(s, base) == d0 + ElfPaths(img, base, i + 1)
  {
    hide ElfHeader, Rd16, IsLoad, SegAt, SegPage, SegPages, Paths;
    NewTables(ElfPaths(img, base, i), SegPaths(SegAt(img, i), base), d0);
  }

  lemma ElfFitsNext(img: seq<byte>, base: nat, i: nat, pages: map<nat, Page>, dirs: set<Dir>, free: nat, large: set<Dir>, held: set<nat>)
    requires |img| >= 64 && ElfHeader(img) && i < Rd16(img, 56) && ElfFits(img, base, i, pages, dirs, free, large, held) && IsLoad(img, i)
    ensures ElfFits(img, base, i + 1, pages, dirs, free, large, held) <==>
      SegFits(img, SegAt(img, i), base, pages, large, held) && (forall j :: 0 <= j < i && IsLoad(img, j) ==> SegApart(SegAt(img, j), SegAt(img, i), base)) &&
      ElfSize(img, i + 1) <= LOAD_CAP && ElfPages(img, i + 1) + Missing(dirs, ElfPaths(img, base, i + 1)) <= free
  {
    hide ElfHeader, Rd16, IsLoad, SegAt, SegFits, SegApart, ElfSize, ElfPages, ElfPaths, Missing;
  }

  lemma SegWireable(s: Seg, base: nat, nxOn: bool, p: map<nat, Page>, d: set<Dir>, f: nat, large: set<Dir>, held: set<nat>)
    ensures Wireable(SegVa(s, base), SegSize(s), SegNx(s, nxOn), nxOn, p, d, f, large, held) <==>
      RangeOk(SegVa(s, base), SegSize(s)) && Open(p, large, held, SegPage(s, base), SegPages(s)) && Cost(d, SegPage(s, base), SegPages(s)) <= f
  {
    hide RangeOk, Open, Cost, SegPage, SegPages, SegVa, SegSize;
    SegPageIs(s, base);
  }

  /** A segment that fits has pages. */
  lemma FitsPages(img: seq<byte>, s: Seg, base: nat, pages: map<nat, Page>, large: set<Dir>, held: set<nat>)
    ensures RangeOk(SegVa(s, base), SegSize(s)) ==> SegPages(s) > 0
    ensures SegFits(img, s, base, pages, large, held) ==> SegPages(s) > 0
  {
    hide Open, SegOk;
    SegPageIs(s, base);
    if RangeOk(SegVa(s, base), SegSize(s)) {
      RangePages(SegVa(s, base), SegSize(s));
    }
  }

  /** Segment i decides: it is wired, or the image does not fit. */
  lemma LaidNext(img: seq<byte>, base: nat, i: nat, p0: map<nat, Page>, d0: set<Dir>, f0: nat, p: map<nat, Page>, d: set<Dir>, f: nat, large: set<Dir>, held: set<nat>, nxOn: bool)
    requires |img| >= 64 && ElfHeader(img) && i < Rd16(img, 56) && Laid(img, base, i, p0, d0, f0, p, d, f, large, held) && IsLoad(img, i)
    ensures var s := SegAt(img, i);
      ElfFits(img, base, i + 1, p0, d0, f0, large, held) <==>
      SegOk(s, |img|) && Wireable(SegVa(s, base), SegSize(s), SegNx(s, nxOn), nxOn, p, d, f, large, held) && ElfSize(img, i + 1) <= LOAD_CAP
  {
    hide ElfHeader, Rd16, IsLoad, SegAt, SegOk, SegApart, RangeOk, Open, Cost, ElfPages, ElfPaths, ElfSize, Missing, ElfPage, Wireable, SegPage, SegPages, SegVa, SegSize, SegNx, SegPaths;
    var s := SegAt(img, i);
    ElfFitsNext(img, base, i, p0, d0, f0, large, held);
    SegWireable(s, base, nxOn, p, d, f, large, held);
    LaidCost(img, base, i, d0, f0, d, f);
    FitsPages(img, s, base, p0, large, held);
    forall j | 0 <= j < i && IsLoad(img, j) ensures SegPages(SegAt(img, j)) > 0 {
      FitsPages(img, SegAt(img, j), base, p0, large, held);
    }
    if RangeOk(SegVa(s, base), SegSize(s)) {
      LaidOpen(img, base, i, p0, d0, f0, p, d, f, large, held, s);
    }
  }

  lemma LaidMore(img: seq<byte>, base: nat, i: nat, p0: map<nat, Page>, d0: set<Dir>, f0: nat, p: map<nat, Page>, d: set<Dir>, f: nat, p2: map<nat, Page>, f2: nat, large: set<Dir>, held: set<nat>, rw: bool, nx: bool)
    requires |img| >= 64 && ElfHeader(img) && i < Rd16(img, 56) && Laid(img, base, i, p0, d0, f0, p, d, f, large, held) && IsLoad(img, i)
    requires ElfFits(img, base, i + 1, p0, d0, f0, large, held)
    requires var s := SegAt(img, i); Added(p, p2, SegPage(s, base), SegPages(s), rw, nx) && f2 == f - Cost(d, SegPage(s, base), SegPages(s))
    ensures Laid(img, base, i + 1, p0, d0, f0, p2, d + SegPaths(SegAt(img, i), base), f2, large, held)
  {
    hide ElfHeader, Rd16, IsLoad, SegAt, SegPage, SegPages, ElfFits, Cost, Missing, ElfPages, ElfPaths, SegPaths;
    LaidCost(img, base, i, d0, f0, d, f);
    forall v: nat ensures ElfPage(img, base, i + 1, v) <==> ElfPage(img, base, i, v) || InSeg(SegAt(img, i), base, v) {
    }
  }

  lemma SegPageIs(s: Seg, base: nat)
    ensures SegPage(s, base) == PageOf(SegVa(s, base)) && SegPages(s) == PagesFor(SegSize(s))
  {
  }

  /** Wiring refused every page already taken, so the new segment shares none. */
  lemma WiredNext(img: seq<byte>, base: nat, i: nat, p1: map<nat, Page>, p2: map<nat, Page>, nxOn: bool)
    requires |img| >= 64 && ElfHeader(img) && i < Rd16(img, 56) && Wired(img, base, i, p1, nxOn) && IsLoad(img, i) && SegOk(SegAt(img, i), |img|)
    requires SegPages(SegAt(img, i)) > 0 && Added(p1, p2, SegPage(SegAt(img, i), base), SegPages(SegAt(img, i)), SegWritable(SegAt(img, i)), SegNx(SegAt(img, i), nxOn))
    ensures Wired(img, base, i + 1, p2, nxOn)
  {
    hide ElfHeader, Rd16, IsLoad, SegAt, SegPage, SegPages, Mul, SegWritable, SegNx, Granted;
    var s := SegAt(img, i);
    GrantedAdded(p1, p2, 0, 0, false, false, SegPage(s, base), SegPages(s), SegWritable(s), SegNx(s, nxOn));
    forall j | 0 <= j < i && IsLoad(img, j) ensures SegApart(SegAt(img, j), s, base) && SegMapped(p2, SegAt(img, j), base, nxOn) {
      NotShared(p1, p2, SegAt(img, j), s, base, nxOn);
    }
  }

  lemma NotShared(p1: map<nat, Page>, p2: map<nat, Page>, t: Seg, s: Seg, base: nat, nxOn: bool)
    requires SegMapped(p1, t, base, nxOn) && SegPages(t) > 0 && SegPages(s) > 0
    requires Added(p1, p2, SegPage(s, base), SegPages(s), SegWritable(s), SegNx(s, nxOn))
    ensures SegApart(t, s, base) && SegMapped(p2, t, base, nxOn)
  {
    hide SegPage, SegPages;
    var a, b := SegPage(t, base), SegPage(s, base);
    var v := if a > b then a else b;
    if a <= v < a + SegPages(t) {
      assert v in p1;
    }
  }

  lemma WiredSame(img: seq<byte>, base: nat, n: nat, p1: map<nat, Page>, p2: map<nat, Page>, nxOn: bool)
    requires |img| >= 64 && ElfHeader(img) && n <= Rd16(img, 56) && Wired(img, base, n, p1, nxOn) && SameRights(p1, p2)
    ensures Wired(img, base, n, p2, nxOn)
  {
    hide ElfHeader, Rd16, IsLoad, SegAt, SegPage, SegPages, Mul, SegApart, SegOk;
    forall i | 0 <= i < n && IsLoad(img, i) ensures SegMapped(p2, SegAt(img, i), base, nxOn) {
      var s := SegAt(img, i);
      GrantedSame(p1, p2, SegPage(s, base), SegPages(s), SegWritable(s), SegNx(s, nxOn));
    }
  }

  /** The checks of load_mct2 on the header. */
  predicate Mct2Header(img: seq<byte>)
    requires |img| >= 64
  {
    var base, entry, code, bss, text := Rd64(img, 8), Rd64(img, 16), Rd64(img, 24), Rd64(img, 32), Rd64(img, 40);
    Rd32(img, 0) == 0x3243544D && Rd32(img, 4) == 2 && base < 0x8000_0000 && entry < (code + 4096) % U64 &&
    code <= LOAD_CAP && bss <= LOAD_CAP && text <= PAGE * PagesFor(code) && 48 + code <= |img| && code + bss > 0
  }

  lemma WxStart(p: map<nat, Page>, nxOn: bool)
    ensures WxOk(p, p, nxOn)
  {
  }

  /** Mapping more pages with safe rights. */
  lemma WxMapped(p0: map<nat, Page>, p1: map<nat, Page>, p2: map<nat, Page>, va: nat, size: nat, rw: bool, nx: bool, nxOn: bool, ok: bool)
    requires WxOk(p0, p1, nxOn) && (nxOn && rw ==> nx)
    requires if ok then Added(p1, p2, PageOf(va), PagesFor(size), rw, nx) else exists n :: 0 <= n && Added(p1, p2, PageOf(va), n, rw, nx)
    ensures WxOk(p0, p2, nxOn)
  {
    var n: nat :| Added(p1, p2, PageOf(va), n, rw, nx);
    assert forall v :: v in p2 && v !in p1 ==> p2[v] == ZeroPage(rw, nx);
  }

  lemma WxSame(p0: map<nat, Page>, p1: map<nat, Page>, p2: map<nat, Page>, nxOn: bool)
    requires WxOk(p0, p1, nxOn) && SameRights(p1, p2)
    ensures WxOk(p0, p2, nxOn)
  {
    assert forall v :: v in p2 <==> v in p1 by {
      assert p1.Keys == p2.Keys;
    }
  }

  lemma MappedSame(p1: map<nat, Page>, p2: map<nat, Page>, dst: nat, n: nat)
    requires SameRights(p1, p2)
    ensures Mapped(p1, dst, n) <==> Mapped(p2, dst, n)
  {
    assert forall v :: v in p2 <==> v in p1 by {
      assert p1.Keys == p2.Keys;
    }
  }

  lemma GrantedNone(p: map<nat, Page>, lo: nat, size: nat)
    ensures size == 0 ==> Granted(p, lo, PagesFor(size), false, false)
  {
  }

  lemma SameTwice(p1: map<nat, Page>, p2: map<nat, Page>, p3: map<nat, Page>)
    requires SameRights(p1, p2) && SameRights(p2, p3)
    ensures SameRights(p1, p3)
  {
  }

  /** Copying changes neither what is mapped nor with which rights. */
  lemma RightsTwice(p1: map<nat, Page>, p2: map<nat, Page>, p3: map<nat, Page>, dst: nat, len: nat, lo: nat, n: nat, rw: bool, nx: bool)
    requires SameRights(p1, p2) && SameRights(p2, p3) && Mapped(p1, dst, len) && Granted(p1, lo, n, rw, nx)
    ensures Mapped(p3, dst, len) && Granted(p3, lo, n, rw, nx)
  {
    hide SameRights, Mapped, Granted;
    MappedSame(p1, p2, dst, len);
    MappedSame(p2, p3, dst, len);
    GrantedSame(p1, p2, lo, n, rw, nx);
    GrantedSame(p2, p3, lo, n, rw, nx);
  }

  lemma MappedSplit(p: map<nat, Page>, dst: nat, k: nat, n: nat)
    requires k <= n && Mapped(p, dst, n)
    ensures Mapped(p, dst, k) && Mapped(p, dst + k, n - k)
  {
  }

  lemma TwoCopies(p0: map<nat, Page>, p1: map<nat, Page>, p2: map<nat, Page>, dst: nat, src: seq<byte>, n: nat)
    requires PagesOk(p0) && PagesOk(p1) && PagesOk(p2) && Copied(p0, p1, dst, src) && Copied(p1, p2, dst + |src|, Zeros(n))
    ensures forall va :: dst <= va < dst + |src| ==> ByteAt(p2, va) == src[va - dst]
    ensures forall va :: dst + |src| <= va < dst + |src| + n ==> ByteAt(p2, va) == 0
  {
    hide ByteAt;
    assert forall va: nat :: ByteAt(p2, va) == if dst + |src| <= va < dst + |src| + n then 0 else ByteAt(p1, va);
    assert forall va: nat :: dst <= va < dst + |src| ==> ByteAt(p1, va) == src[va - dst];
  }

  predicate Mct2Ranges(img: seq<byte>)
    requires |img| >= 64
  {
    var base, text, total := Rd64(img, 8), Rd64(img, 40), Rd64(img, 24) + Rd64(img, 32);
    (text > 0 ==> RangeOk(base, text)) && (text < total ==> RangeOk(base + text, total - text))
  }

  /** The space can take a flat image: both regions are well placed and open, and there are
      frames for the pages and for the tables that are missing. */
  ghost predicate Mct2Fits(img: seq<byte>, pages: map<nat, Page>, dirs: set<Dir>, free: nat, large: set<Dir>, held: set<nat>)
    requires |img| >= 64
  {
    var base, text, total := Rd64(img, 8), Rd64(img, 40), Rd64(img, 24) + Rd64(img, 32);
    Mct2Ranges(img) && TextOpen(pages, large, held, base, text) && DataOpen(pages, large, held, base, text, total) && BothCost(dirs, base, text, total) <= free
  }

  ghost predicate TextOpen(pages: map<nat, Page>, large: set<Dir>, held: set<nat>, base: nat, text: nat) {
    text > 0 ==> Open(pages, large, held, PageOf(base), PagesFor(text))
  }

  ghost predicate DataOpen(pages: map<nat, Page>, large: set<Dir>, held: set<nat>, base: nat, text: nat, total: nat) {
    text < total ==> Open(pages, large, held, PageOf(base + text), PagesFor(total - text))
  }

  /** The pages of both regions, and the tables on their paths that are not there yet. */
  function BothCost(dirs: set<Dir>, base: nat, text: nat, total: nat): nat {
    var n1, n2 := PagesFor(text), if text < total then PagesFor(total - text) else 0;
    n1 + n2 + Missing(dirs, Paths(PageOf(base), n1) + Paths(PageOf(base + text), n2))
  }

  /** Every byte of a flat image has its page, with the rights of its region. */
  ghost predicate Mct2Wired(img: seq<byte>, pages: map<nat, Page>, nxOn: bool)
    requires |img| >= 64
  {
    var base, text, total := Rd64(img, 8), Rd64(img, 40), Rd64(img, 24) + Rd64(img, 32);
    Mapped(pages, base, total) && Granted(pages, PageOf(base), PagesFor(text), false, false) &&
    (text < total ==> Granted(pages, PageOf(base + text), PagesFor(total - text), true, nxOn))
  }

  /** The image stands at its base: code bytes, then zeros, and the entry lies where the
      header says. */
  ghost predicate Mct2Loaded(img: seq<byte>, r: Result, pages: map<nat, Page>, nxOn: bool)
    requires |img| >= 64 && PagesOk(pages)
  {
    var base, code, total := Rd64(img, 8), Rd64(img, 24), Rd64(img, 24) + Rd64(img, 32);
    r == Loaded(base + Rd64(img, 16), base, base + total) && Mct2Wired(img, pages, nxOn) && 48 + code <= |img| &&
    (forall va :: base <= va < base + code ==> ByteAt(pages, va) == img[48 + va - base]) &&
    (forall va :: base + code <= va < base + total ==> ByteAt(pages, va) == 0)
  }

  lemma TextRange(p0: map<nat, Page>, d0: set<Dir>, large: set<Dir>, held: set<nat>, base: nat, text: nat, total: nat)
    ensures Cost(d0, PageOf(base), PagesFor(text)) <= BothCost(d0, base, text, total)
    ensures text == 0 ==> Cost(d0, PageOf(base), PagesFor(text)) == 0 && d0 + Paths(PageOf(base), PagesFor(text)) == d0
    ensures text >= total ==> BothCost(d0, base, text, total) == Cost(d0, PageOf(base), PagesFor(text)) && DataOpen(p0, large, held, base, text, total)
  {
    hide PageOf, PagesFor;
    var n1, n2 := PagesFor(text), if text < total then PagesFor(total - text) else 0;
    var a, b := Paths(PageOf(base), n1), Paths(PageOf(base + text), n2);
    Fewer(a - d0, a + b - d0);
    NoPages();
    if text >= total {
      assert a + b == a;
    }
  }

  lemma NoPages()
    ensures PagesFor(0) == 0
  {
  }

  /** The second region of a flat image starts where the first ends. */
  lemma DataRange(p0: map<nat, Page>, d0: set<Dir>, f0: nat, large: set<Dir>, held: set<nat>, p1: map<nat, Page>, d1: set<Dir>, f1: nat, base: nat, text: nat, total: nat)
    requires text < total && f1 == f0 - Cost(d0, PageOf(base), PagesFor(text)) && d1 == d0 + Paths(PageOf(base), PagesFor(text))
    requires if text > 0 then Added(p0, p1, PageOf(base), PagesFor(text), false, false) && RangeOk(base, text) else p1 == p0
    ensures RangeOk(base + text, total - text) ==> (Open(p1, large, held, PageOf(base + text), PagesFor(total - text)) <==> DataOpen(p0, large, held, base, text, total))
    ensures Cost(d1, PageOf(base + text), PagesFor(total - text)) <= f1 <==> BothCost(d0, base, text, total) <= f0
  {
    NewTables(Paths(PageOf(base), PagesFor(text)), Paths(PageOf(base + text), PagesFor(total - text)), d0);
    hide Barred, Paths;
    if text > 0 && RangeOk(base + text, total - text) {
      assert PageOf(base + text) == PageOf(base) + PagesFor(text);
    }
  }

  lemma SameCount(p1: map<nat, Page>, p2: map<nat, Page>)
    requires SameRights(p1, p2)
    ensures |p1| == |p2|
  {
    assert |p1.Keys| == |p2.Keys|;
  }

  /** Two aligned regions cover every byte of the image. */
  lemma ImageMapped(p0: map<nat, Page>, p1: map<nat, Page>, p2: map<nat, Page>, base: nat, text: nat, total: nat, nxOn: bool)
    requires if text > 0 then Added(p0, p1, PageOf(base), PagesFor(text), false, false) && RangeOk(base, text) else p1 == p0
    requires if text < total then Added(p1, p2, PageOf(base + text), PagesFor(total - text), true, nxOn) && RangeOk(base + text, total - text) else p2 == p1
    ensures Mapped(p2, base, total)
  {
    forall va | base <= va < base + total ensures PageOf(va) in p2 {
      if va < base + text {
        assert PageOf(base) <= PageOf(va) < PageOf(base) + PagesFor(text);
        assert PageOf(va) in p1;
      } else {
        assert PageOf(base + text) <= PageOf(va) < PageOf(base + text) + PagesFor(total - text);
      }
    }
  }

  /** The tables above a level on the path of page v. */
  function Above(v: nat, level: nat): set<Dir> { set l | level <= l < 3 :: DirOf(v, l) }

  lemma PathSplit(v: nat, level: nat)
    requires level < 3
    ensures Above(v, level) == Above(v, level + 1) + {DirOf(v, level)} && Above(v, level) <= Path(v) && DirOf(v, level) in Path(v)
  {
    forall d | d in Above(v, level) ensures d in Above(v, level + 1) + {DirOf(v, level)} && d in Path(v) {
      assert d.level == level || d.level >= level + 1;
    }
  }

  lemma PathBarred(v: nat, large: set<Dir>, held: set<nat>)
    ensures Barred(large, held, v) <==> v in held || !(Path(v) !! large)
  {
    if d :| d in Path(v) && d in large {
      var level :| 0 <= level < 3 && d == DirOf(v, level);
    }
  }

  /** The tables above a level are there, the missing ones made. */
  ghost predicate Climbed(d0: set<Dir>, f0: nat, d: set<Dir>, f: nat, large: set<Dir>, v: nat, level: nat) {
    d == d0 + Above(v, level) && f + |Above(v, level) - d0| == f0 && Above(v, level) !! large
  }

  lemma ClimbStart(d0: set<Dir>, f0: nat, large: set<Dir>, v: nat)
    ensures Climbed(d0, f0, d0, f0, large, v, 3)
  {
    assert Above(v, 3) == {};
  }

  /** One step down: at a large page or without a frame the page cannot be mapped. */
  lemma ClimbNext(d0: set<Dir>, f0: nat, d: set<Dir>, f: nat, large: set<Dir>, held: set<nat>, v: nat, level: nat)
    requires Climbed(d0, f0, d, f, large, v, level + 1) && level < 3
    ensures d0 <= d <= d0 + Path(v) && f + Missing(d0, d) == f0
    ensures DirOf(v, level) in large ==> Barred(large, held, v)
    ensures DirOf(v, level) !in large && DirOf(v, level) in d ==> Climbed(d0, f0, d, f, large, v, level)
    ensures DirOf(v, level) !in large && DirOf(v, level) !in d && f > 0 ==> Climbed(d0, f0, d + {DirOf(v, level)}, f - 1, large, v, level)
    ensures DirOf(v, level) !in large && DirOf(v, level) !in d && f == 0 ==> Missing(d0, Path(v)) > f0
  {
    hide Path, Above, DirOf, Barred;
    var made, e := Above(v, level + 1), DirOf(v, level);
    PathSplit(v, level);
    PathBarred(v, large, held);
    assert d - d0 == made - d0;
    MadeOne(d0, made, e);
    Fewer(made + {e} - d0, Path(v) - d0);
  }

  lemma ClimbDone(d0: set<Dir>, f0: nat, d: set<Dir>, f: nat, large: set<Dir>, held: set<nat>, v: nat)
    requires Climbed(d0, f0, d, f, large, v, 0)
    ensures d == d0 + Path(v) && f + Missing(d0, d) == f0 && Missing(d0, Path(v)) <= f0 && (Barred(large, held, v) <==> v in held)
  {
    hide DirOf, Barred;
    PathBarred(v, large, held);
    assert Above(v, 0) == Path(v);
    assert d - d0 == Path(v) - d0;
  }

  lemma MadeOne(d0: set<Dir>, made: set<Dir>, d: Dir)
    ensures |made + {d} - d0| == |made - d0| + if d in d0 + made then 0 else 1
  {
    if d in d0 + made {
      assert made + {d} - d0 == made - d0;
    } else {
      assert made + {d} - d0 == (made - d0) + {d};
    }
  }

  lemma OpenNext(pages: map<nat, Page>, large: set<Dir>, held: set<nat>, lo: nat, i: nat)
    ensures Open(pages, large, held, lo, i + 1) <==> Open(pages, large, held, lo, i) && lo + i !in pages && !Barred(large, held, lo + i)
    ensures forall n :: n > i && Open(pages, large, held, lo, n) ==> Open(pages, large, held, lo, i + 1)
  {
    hide Barred;
  }

  /** A range can be wired: well placed, with rights the CPU has, open, and paid for. */
  ghost predicate Wireable(va: nat, size: nat, nx: bool, nxOn: bool, pages: map<nat, Page>, dirs: set<Dir>, free: nat, large: set<Dir>, held: set<nat>) {
    RangeOk(va, size) && (nx ==> nxOn) && Open(pages, large, held, PageOf(va), PagesFor(size)) && Cost(dirs, PageOf(va), PagesFor(size)) <= free
  }

  lemma NotWireable(va: nat, size: nat, nx: bool, nxOn: bool, pages: map<nat, Page>, dirs: set<Dir>, free: nat, large: set<Dir>, held: set<nat>)
    ensures !Bounds(va, size) || !Aligned(va) || (nx && !nxOn) ==> !Wireable(va, size, nx, nxOn, pages, dirs, free, large, held)
  {
  }

  /** What frames, tables and pages are there after i pages of a range. */
  ghost predicate Wiring(p0: map<nat, Page>, d0: set<Dir>, f0: nat, p: map<nat, Page>, d: set<Dir>, f: nat, large: set<Dir>, held: set<nat>, lo: nat, i: nat, rw: bool, nx: bool) {
    Added(p0, p, lo, i, rw, nx) && d == d0 + Paths(lo, i) && f + Cost(d0, lo, i) == f0 && Open(p0, large, held, lo, i)
  }

  lemma AddedCount(p0: map<nat, Page>, p1: map<nat, Page>, lo: nat, n: nat, rw: bool, nx: bool)
    requires Added(p0, p1, lo, n, rw, nx)
    ensures |p1| == |p0| + n
  {
    assert p1.Keys == p0.Keys + Numbers(lo, n);
    assert p0.Keys * Numbers(lo, n) == {};
  }

  function Numbers(lo: nat, n: nat): (s: set<nat>)
    ensures |s| == n && forall v :: v in s <==> lo <= v < lo + n
  {
    if n == 0 then {} else Numbers(lo, n - 1) + {lo + n - 1}
  }

  lemma WiringStart(p: map<nat, Page>, d: set<Dir>, f: nat, large: set<Dir>, held: set<nat>, lo: nat, rw: bool, nx: bool)
    ensures Wiring(p, d, f, p, d, f, large, held, lo, 0, rw, nx) && Added(p, p, lo, 0, rw, nx)
  {
  }

  /** Page lo + i decides: it is wired, or the range cannot be. */
  lemma WiringNext(p0: map<nat, Page>, d0: set<Dir>, f0: nat, p: map<nat, Page>, d: set<Dir>, f: nat, large: set<Dir>, held: set<nat>, lo: nat, i: nat, va: nat, size: nat, rw: bool, nx: bool, nxOn: bool)
    requires Wiring(p0, d0, f0, p, d, f, large, held, lo, i, rw, nx) && lo == PageOf(va) && i < PagesFor(size)
    ensures d0 <= d && Added(p0, p, lo, i, rw, nx) && f + |p| + |d| == f0 + |p0| + |d0|
    ensures lo + i !in p && !Barred(large, held, lo + i) && 1 + Missing(d, Path(lo + i)) <= f ==>
      Wiring(p0, d0, f0, p[lo + i := ZeroPage(rw, nx)], d + Path(lo + i), f - 1 - Missing(d, Path(lo + i)), large, held, lo, i + 1, rw, nx)
    ensures !(lo + i !in p && !Barred(large, held, lo + i) && 1 + Missing(d, Path(lo + i)) <= f) ==> !Wireable(va, size, nx, nxOn, p0, d0, f0, large, held)
  {
    hide Added, Open, Barred, Paths, Path, RangeOk, PageOf, PagesFor;
    CostMore(d0, lo, i + 1, PagesFor(size));
    CostNext(d0, lo, i);
    OpenNext(p0, large, held, lo, i);
    AddedAt(p0, p, lo, i, rw, nx);
    AddedCount(p0, p, lo, i, rw, nx);
    Kept(d0, d);
    assert d - d0 == Paths(lo, i) - d0;
    if lo + i !in p {
      AddedNext(p0, p, lo, i, rw, nx);
    }
  }

  lemma WiringCost(d: set<Dir>, v: nat)
    ensures Missing(d, d + Path(v)) == Missing(d, Path(v)) && Missing(d, d) == 0
  {
    assert d + Path(v) - d == Path(v) - d;
    assert d - d == {};
  }

  /** Tables made for a page that failed are accounted for. */
  lemma WiringPart(p0: map<nat, Page>, d0: set<Dir>, f0: nat, p: map<nat, Page>, d: set<Dir>, d2: set<Dir>, f: nat, f2: nat, large: set<Dir>, held: set<nat>, lo: nat, i: nat, rw: bool, nx: bool)
    requires Wiring(p0, d0, f0, p, d, f, large, held, lo, i, rw, nx) && d <= d2 && f2 + Missing(d, d2) == f
    ensures d0 <= d2 && f2 + |p| + |d2| == f0 + |p0| + |d0|
  {
    hide Added, Open, Paths;
    AddedCount(p0, p, lo, i, rw, nx);
    Kept(d0, d);
    Kept(d, d2);
    assert d - d0 == Paths(lo, i) - d0;
  }

  lemma WiringDone(p0: map<nat, Page>, d0: set<Dir>, f0: nat, p: map<nat, Page>, d: set<Dir>, f: nat, large: set<Dir>, held: set<nat>, va: nat, size: nat, rw: bool, nx: bool, nxOn: bool)
    requires Wiring(p0, d0, f0, p, d, f, large, held, PageOf(va), PagesFor(size), rw, nx) && RangeOk(va, size) && (nx ==> nxOn)
    ensures Added(p0, p, PageOf(va), PagesFor(size), rw, nx) && d == d0 + Paths(PageOf(va), PagesFor(size)) && f == f0 - Cost(d0, PageOf(va), PagesFor(size))
    ensures Wireable(va, size, nx, nxOn, p0, d0, f0, large, held) && d0 <= d && f + |p| + |d| == f0 + |p0| + |d0|
  {
    hide Added, Open, Paths, RangeOk, PageOf, PagesFor;
    WiringPart(p0, d0, f0, p, d, d, f, f, large, held, PageOf(va), PagesFor(size), rw, nx);
  }

  lemma WireableRange(va: nat, size: nat, nx: bool, nxOn: bool, pages: map<nat, Page>, dirs: set<Dir>, free: nat, large: set<Dir>, held: set<nat>)
    requires Wireable(va, size, nx, nxOn, pages, dirs, free, large, held)
    ensures PagesFor(size) > 0
  {
    RangePages(va, size);
  }

  lemma SegSafe(s: Seg, nxOn: bool)
    ensures nxOn && SegWritable(s) ==> SegNx(s, nxOn)
  {
  }

  lemma SizeStart(img: seq<byte>)
    requires |img| >= 64 && ElfHeader(img)
    ensures ElfSize(img, 0) == 0
  {
  }

  lemma SizeNext(img: seq<byte>, i: nat)
    requires |img| >= 64 && ElfHeader(img) && i < Rd16(img, 56)
    ensures ElfSize(img, i + 1) == ElfSize(img, i) + if IsLoad(img, i) then SegSize(SegAt(img, i)) else 0
  {
  }

  lemma WiredStart(img: seq<byte>, base: nat, pages: map<nat, Page>, nxOn: bool)
    requires |img| >= 64 && ElfHeader(img)
    ensures Wired(img, base, 0, pages, nxOn)
  {
  }

  lemma WiredSkip(img: seq<byte>, base: nat, i: nat, pages: map<nat, Page>, nxOn: bool)
    requires |img| >= 64 && ElfHeader(img) && i < Rd16(img, 56) && Wired(img, base, i, pages, nxOn) && !IsLoad(img, i)
    ensures Wired(img, base, i + 1, pages, nxOn)
  {
    hide ElfHeader, Rd16, IsLoad, SegAt, SegOk, SegPages, SegMapped, SegApart;
  }

  lemma NotFits(img: seq<byte>, base: nat, i: nat, n: nat, pages: map<nat, Page>, dirs: set<Dir>, free: nat, large: set<Dir>, held: set<nat>)
    requires |img| >= 64 && ElfHeader(img) && i <= n <= Rd16(img, 56) && !ElfFits(img, base, i, pages, dirs, free, large, held)
    ensures !ElfFits(img, base, n, pages, dirs, free, large, held)
  {
    hide ElfHeader, ElfFits;
    if ElfFits(img, base, n, pages, dirs, free, large, held) {
      ElfFitsLess(img, base, i, n, pages, dirs, free, large, held);
    }
  }

  lemma LaidFits(img: seq<byte>, base: nat, i: nat, p0: map<nat, Page>, d0: set<Dir>, f0: nat, p: map<nat, Page>, d: set<Dir>, f: nat, large: set<Dir>, held: set<nat>)
    requires |img| >= 64 && ElfHeader(img) && i <= Rd16(img, 56) && Laid(img, base, i, p0, d0, f0, p, d, f, large, held)
    ensures ElfFits(img, base, i, p0, d0, f0, large, held)
  {
  }

  lemma RangePages(va: nat, size: nat)
    requires RangeOk(va, size)
    ensures PagesFor(size) > 0
  {
  }

  lemma BoundsPages(va: nat, size: nat)
    requires Bounds(va, size)
    ensures PagesFor(size) > 0
  {
  }

  lemma PageAt(va: nat, i: nat)
    ensures PageOf(va + i * PAGE) == PageOf(va) + i && (Aligned(va + i * PAGE) <==> Aligned(va))
  {
  }

  lemma Kept(d0: set<Dir>, d1: set<Dir>)
    requires d0 <= d1
    ensures |d1| == |d0| + |d1 - d0|
  {
    assert d1 == d0 + (d1 - d0);
    assert d0 * (d1 - d0) == {};
  }

  lemma CopiedNone(p: map<nat, Page>, dst: nat)
    requires PagesOk(p)
    ensures Copied(p, p, dst, [])
  {
  }

  lemma CopiedRights(p0: map<nat, Page>, p1: map<nat, Page>, dst: nat, src: seq<byte>)
    requires PagesOk(p0) && PagesOk(p1) && Copied(p0, p1, dst, src)
    ensures SameRights(p0, p1) && p0.Keys == p1.Keys
  {
  }

  lemma CopiedNext(p0: map<nat, Page>, p1: map<nat, Page>, dst: nat, src: seq<byte>, k: nat)
    requires PagesOk(p0) && PagesOk(p1) && k < |src| && Copied(p0, p1, dst, src[..k]) && PageOf(dst + k) in p1
    ensures Copied(p0, Stored(p1, dst + k, src[k]), dst, src[..k + 1])
  {
    var p2, more := Stored(p1, dst + k, src[k]), src[..k + 1];
    StoredIs(p1, dst + k, src[k], 0);
    assert SameRights(p0, p2);
    forall at: nat ensures ByteAt(p2, at) == if dst <= at < dst + |more| then more[at - dst] else ByteAt(p0, at) {
      StoredIs(p1, dst + k, src[k], at);
    }
    assert forall at: nat :: ByteAt(p2, at) == if dst <= at < dst + |more| then more[at - dst] else ByteAt(p0, at);
    assert Copied(p0, p2, dst, more);
  }
}
