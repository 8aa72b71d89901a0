/** Images as they are written: the flat format as its build script packs it, and ELF files
    as the ELF-64 object file format lays them out; and what the loader makes of them. */
module Images {
  import opened Arith
  import opened Loader

  // ---------------------------------------------------------------- packing

  /** An unsigned field of n bytes. */
  datatype Field = Field(n: nat, v: nat)

  /** The low n bytes of v, lowest first. */
  function Le(n: nat, v: nat): (s: seq<byte>)
    ensures |s| == n
  {
    if n == 0 then [] else [v % 256] + Le(n - 1, v / 256)
  }

  function Pack(fs: seq<Field>): (s: seq<byte>)
    ensures |s| == Width(fs)
  {
    if fs == [] then [] else Pack(fs[..|fs| - 1]) + Le(fs[|fs| - 1].n, fs[|fs| - 1].v)
  }

  function Width(fs: seq<Field>): nat {
    if fs == [] then 0 else Width(fs[..|fs| - 1]) + fs[|fs| - 1].n
  }

  lemma WidthNext(fs: seq<Field>, k: nat)
    requires k < |fs|
    ensures Width(fs[..k + 1]) == Width(fs[..k]) + fs[k].n
  {
    assert fs[..k + 1][..k] == fs[..k];
  }

  /** Field k starts where the fields before it end. */
  lemma {:induction false} PackField(fs: seq<Field>, k: nat)
    requires k < |fs|
    ensures Width(fs[..k]) + fs[k].n <= |Pack(fs)| && Pack(fs)[Width(fs[..k])..Width(fs[..k]) + fs[k].n] == Le(fs[k].n, fs[k].v)
  {
    var m := |fs| - 1;
    if k == m {
      assert fs[..k] == fs[..m];
    } else {
      PackField(fs[..m], k);
      assert fs[..m][..k] == fs[..k];
    }
  }

  /** Two digits are one digit of the squared base. */
  lemma Bytes2(v: nat)
    ensures v % 0x100 + 0x100 * (v / 0x100 % 0x100) == v % 0x1_0000 && v / 0x100 / 0x100 == v / 0x1_0000
  {
    var s, m, r := v / 0x100 / 0x100, v / 0x100 % 0x100, v % 0x100;
    assert v == 0x1_0000 * s + (0x100 * m + r);
  }

  lemma Words2(v: nat)
    ensures v % 0x1_0000 + 0x1_0000 * (v / 0x1_0000 % 0x1_0000) == v % 0x1_0000_0000 && v / 0x1_0000 / 0x1_0000 == v / 0x1_0000_0000
  {
    var s, m, r := v / 0x1_0000 / 0x1_0000, v / 0x1_0000 % 0x1_0000, v % 0x1_0000;
    assert v == 0x1_0000_0000 * s + (0x1_0000 * m + r);
  }

  lemma Longs2(v: nat)
    ensures v % 0x1_0000_0000 + 0x1_0000_0000 * (v / 0x1_0000_0000 % 0x1_0000_0000) == v % U64
  {
    var s, m, r := v / 0x1_0000_0000 / 0x1_0000_0000, v / 0x1_0000_0000 % 0x1_0000_0000, v % 0x1_0000_0000;
    assert v == U64 * s + (0x1_0000_0000 * m + r);
  }

  lemma Le2(v: nat)
    ensures Le(2, v) == [v % 256, v / 256 % 256]
  {
    assert Le(1, v / 256) == [v / 256 % 256] + Le(0, v / 256 / 256);
  }

  /** A field in two parts. */
  lemma Le2n(n: nat, v: nat)
    ensures Le(2 + n, v) == Le(2, v) + Le(n, v / 0x1_0000)
  {
    Bytes2(v);
    Le2(v);
    LeTwice(n, v);
  }

  lemma LeTwice(n: nat, v: nat)
    ensures Le(2 + n, v) == [v % 256, v / 256 % 256] + Le(n, v / 256 / 256)
  {
    assert Le(2 + n, v) == [v % 256] + Le(1 + n, v / 256);
    assert Le(1 + n, v / 256) == [v / 256 % 256] + Le(n, v / 256 / 256);
  }

  lemma Le4n(n: nat, v: nat)
    ensures Le(4 + n, v) == Le(4, v) + Le(n, v / 0x1_0000_0000)
  {
    hide Le;
    Words2(v);
    Le2n(2 + n, v);
    Le2n(n, v / 0x1_0000);
    Le2n(2, v);
    assert Le(2, v) + (Le(2, v / 0x1_0000) + Le(n, v / 0x1_0000_0000)) == Le(2, v) + Le(2, v / 0x1_0000) + Le(n, v / 0x1_0000_0000);
  }

  lemma Read16(b: seq<byte>, p: nat, v: nat)
    requires p + 2 <= |b| && b[p..p + 2] == Le(2, v)
    ensures Rd16(b, p) == v % 0x1_0000
  {
    Le2(v);
    Bytes2(v);
    assert b[p] == b[p..p + 2][0] && b[p + 1] == b[p..p + 2][1];
  }

  lemma Read32(b: seq<byte>, p: nat, v: nat)
    requires p + 4 <= |b| && b[p..p + 4] == Le(4, v)
    ensures Rd32(b, p) == v % 0x1_0000_0000
  {
    hide Rd16, Le;
    Le2n(2, v);
    assert b[p..p + 2] == b[p..p + 4][..2] && b[p + 2..p + 4] == b[p..p + 4][2..];
    Read16(b, p, v);
    Read16(b, p + 2, v / 0x1_0000);
    Words2(v);
  }

  lemma Read64(b: seq<byte>, p: nat, v: nat)
    requires p + 8 <= |b| && b[p..p + 8] == Le(8, v)
    ensures Rd64(b, p) == v % U64
  {
    hide Rd32, Le;
    Le4n(4, v);
    assert b[p..p + 4] == b[p..p + 8][..4] && b[p + 4..p + 8] == b[p..p + 8][4..];
    Read32(b, p, v);
    Read32(b, p + 4, v / 0x1_0000_0000);
    Longs2(v);
  }

  lemma SliceOf(b: seq<byte>, p: nat, len: nat, w: nat, n: nat)
    requires p + len <= |b| && w + n <= len
    ensures b[p..p + len][w..w + n] == b[p + w..p + w + n]
  {
    var a, c := b[p..p + len][w..w + n], b[p + w..p + w + n];
    assert forall k :: 0 <= k < n ==> a[k] == c[k];
  }

  /** Field k of a record that stands at p. */
  lemma FieldAt(b: seq<byte>, p: nat, fs: seq<Field>, k: nat, at: nat)
    requires k < |fs| && p + |Pack(fs)| <= |b| && b[p..p + |Pack(fs)|] == Pack(fs) && at == p + Width(fs[..k])
    ensures at + fs[k].n <= |b| && b[at..at + fs[k].n] == Le(fs[k].n, fs[k].v)
  {
    hide Pack, Le;
    PackField(fs, k);
    var w, n := Width(fs[..k]), fs[k].n;
    SliceOf(b, p, |Pack(fs)|, w, n);
  }

  lemma Read(b: seq<byte>, p: nat, fs: seq<Field>, k: nat, at: nat)
    requires k < |fs| && p + |Pack(fs)| <= |b| && b[p..p + |Pack(fs)|] == Pack(fs) && at == p + Width(fs[..k])
    ensures at + fs[k].n <= |b|
    ensures fs[k].n == 2 ==> Rd16(b, at) == fs[k].v % 0x1_0000
    ensures fs[k].n == 4 ==> Rd32(b, at) == fs[k].v % 0x1_0000_0000
    ensures fs[k].n == 8 ==> Rd64(b, at) == fs[k].v % U64
  {
    hide Pack, Le, Rd16, Rd32, Rd64;
    FieldAt(b, p, fs, k, at);
    if fs[k].n == 2 {
      Read16(b, at, fs[k].v);
    } else if fs[k].n == 4 {
      Read32(b, at, fs[k].v);
    } else if fs[k].n == 8 {
      Read64(b, at, fs[k].v);
    }
  }

  // ---------------------------------------------------------------- flat images

  /** The seven words build_mct64 packs. */
  function Mct2Fields(base: nat, entry: nat, code: nat, bss: nat, text: nat): seq<Field> {
    [Field(4, 0x3243544D), Field(4, 2), Field(8, base), Field(8, entry), Field(8, code), Field(8, bss), Field(8, text)]
  }

  function Mct2File(base: nat, entry: nat, code: seq<byte>, bss: nat, text: nat): seq<byte> {
    Pack(Mct2Fields(base, entry, |code|, bss, text)) + code
  }

  lemma Mct2Widths(fs: seq<Field>)
    requires |fs| == 7 && fs[0].n == 4 && fs[1].n == 4 && forall k :: 2 <= k < 7 ==> fs[k].n == 8
    ensures Width(fs[..0]) == 0 && Width(fs[..1]) == 4 && Width(fs[..2]) == 8 && Width(fs[..3]) == 16 && Width(fs[..4]) == 24 &&
      Width(fs[..5]) == 32 && Width(fs[..6]) == 40 && Width(fs) == 48
  {
    WidthNext(fs, 0);
    WidthNext(fs, 1);
    WidthNext(fs, 2);
    WidthNext(fs, 3);
    WidthNext(fs, 4);
    WidthNext(fs, 5);
    WidthNext(fs, 6);
    assert fs[..7] == fs;
  }

  /** What the loader reads in the header is what was packed. */
  lemma Mct2Read(base: nat, entry: nat, code: seq<byte>, bss: nat, text: nat)
    requires base < U64 && entry < U64 && |code| < U64 && bss < U64 && text < U64
    ensures var img := Mct2File(base, entry, code, bss, text);
      |img| == 48 + |code| && img[48..] == code && Rd32(img, 0) == 0x3243544D && Rd32(img, 4) == 2 && Rd64(img, 8) == base &&
      Rd64(img, 16) == entry && Rd64(img, 24) == |code| && Rd64(img, 32) == bss && Rd64(img, 40) == text
    ensures |code| >= 16 ==> !IsElf(Mct2File(base, entry, code, bss, text))
  {
    hide Pack, Width, Rd32, Rd64;
    var fs, img := Mct2Fields(base, entry, |code|, bss, text), Mct2File(base, entry, code, bss, text);
    Mct2Widths(fs);
    assert img[0..0 + |Pack(fs)|] == Pack(fs);
    Read(img, 0, fs, 0, 0);
    Read(img, 0, fs, 1, 4);
    Read(img, 0, fs, 2, 8);
    Read(img, 0, fs, 3, 16);
    Read(img, 0, fs, 4, 24);
    Read(img, 0, fs, 5, 32);
    Read(img, 0, fs, 6, 40);
    FirstByte(img);
  }

  lemma FirstByte(img: seq<byte>)
    requires |img| >= 4 && Rd32(img, 0) == 0x3243544D
    ensures img[0] == 0x4D
  {
  }

  /** What a flat image must be: linked below 2 GB at a page boundary, its entry within or
      just past the code, neither part over 16 MB, not empty, the text no longer than the
      code's pages; and where data follow the text, they start on a page of their own. */
  predicate Mct2Good(base: nat, entry: nat, code: nat, bss: nat, text: nat) {
    base < 0x8000_0000 && base % 4096 == 0 && entry < code + 4096 && code <= 0x100_0000 && bss <= 0x100_0000 && 0 < code + bss &&
    text <= (code + 4095) / 4096 * 4096 && text <= 0x100_0000 && (text < code + bss ==> text % 4096 == 0 && code + bss - text <= 0x100_0000)
  }

  /** The pages it takes. */
  function Mct2Pages(code: nat, bss: nat, text: nat): nat { ((if text < code + bss then code + bss else text) + 4095) / 4096 }

  lemma RangeIs(va: nat, size: nat)
    requires va < 0x9000_0000
    ensures RangeOk(va, size) <==> 0 < size <= 0x100_0000 && va % 4096 == 0
  {
    if 0 < size <= 0x100_0000 {
      assert (va + size + U64 - 1) % U64 == va + size - 1;
    }
  }

  lemma {:induction false} PathsSplit(lo: nat, a: nat, b: nat)
    ensures Paths(lo, a + b) == Paths(lo, a) + Paths(lo + a, b)
  {
    hide Path;
    if b > 0 {
      PathsSplit(lo, a, b - 1);
    }
  }

  lemma OpenSplit(pages: map<nat, Page>, large: set<Dir>, held: set<nat>, lo: nat, a: nat, b: nat)
    ensures Open(pages, large, held, lo, a + b) <==> Open(pages, large, held, lo, a) && Open(pages, large, held, lo + a, b)
  {
    hide Barred;
  }

  lemma OpenNone(pages: map<nat, Page>, large: set<Dir>, held: set<nat>, lo: nat)
    ensures Open(pages, large, held, lo, 0) && Paths(lo, 0) == {}
  {
  }

  /** Two regions one after the other are one. */
  lemma Regions(base: nat, text: nat, total: nat)
    requires base % 4096 == 0 && (text < total ==> text % 4096 == 0)
    ensures var n1, n2 := PagesFor(text), if text < total then PagesFor(total - text) else 0;
      n1 + n2 == ((if text < total then total else text) + 4095) / 4096 && (text < total ==> PageOf(base + text) == PageOf(base) + n1)
  {
    if text < total {
      var q, b := text / 4096, base / 4096;
      assert text == 4096 * q && base == 4096 * b;
      assert (total + 4095) / 4096 == q + (total - text + 4095) / 4096;
    }
  }

  /** The loader's conditions, said of what was packed. */
  lemma Mct2Means(base: nat, entry: nat, code: seq<byte>, bss: nat, text: nat, pages: map<nat, Page>, dirs: set<Dir>, free: nat, large: set<Dir>, held: set<nat>)
    requires base < U64 && entry < U64 && 16 <= |code| < U64 && bss < U64 && text < U64
    ensures var img, n := Mct2File(base, entry, code, bss, text), Mct2Pages(|code|, bss, text);
      |img| >= 64 &&
      (Mct2Header(img) && Mct2Fits(img, pages, dirs, free, large, held) <==>
        Mct2Good(base, entry, |code|, bss, text) && Open(pages, large, held, base / 4096, n) && Cost(dirs, base / 4096, n) <= free)
  {
    hide Rd32, Rd64, Open, Cost, Paths, Bounds, PageOf, PagesFor, Mct2File, BothCost;
    Mct2Read(base, entry, code, bss, text);
    Mct2Checks(base, entry, code, bss, text);
    if Mct2Good(base, entry, |code|, bss, text) {
      Mct2Whole(base, |code|, bss, text, pages, dirs, large, held);
    }
  }

  lemma Mct2Checks(base: nat, entry: nat, code: seq<byte>, bss: nat, text: nat)
    requires base < U64 && entry < U64 && 16 <= |code| < U64 && bss < U64 && text < U64
    ensures var img := Mct2File(base, entry, code, bss, text);
      |img| >= 64 && (Mct2Header(img) && Mct2Ranges(img) <==> Mct2Good(base, entry, |code|, bss, text))
  {
    hide Rd32, Rd64, Mct2File, Bounds, RangeOk;
    Mct2Read(base, entry, code, bss, text);
    var total := |code| + bss;
    assert PagesFor(|code|) == (|code| + 4095) / 4096;
    if base < 0x8000_0000 {
      RangeIs(base, text);
      if text < total && text <= 0x100_1000 {
        RangeIs(base + text, total - text);
      }
      assert |code| <= LOAD_CAP ==> (|code| + 4096) % U64 == |code| + 4096;
    }
  }

  lemma Mct2Whole(base: nat, code: nat, bss: nat, text: nat, pages: map<nat, Page>, dirs: set<Dir>, large: set<Dir>, held: set<nat>)
    requires base % 4096 == 0 && (text < code + bss ==> text % 4096 == 0)
    ensures var total, n := code + bss, Mct2Pages(code, bss, text);
      (TextOpen(pages, large, held, base, text) && DataOpen(pages, large, held, base, text, total) <==> Open(pages, large, held, base / 4096, n)) &&
      BothCost(dirs, base, text, total) == Cost(dirs, base / 4096, n)
  {
    hide Open, Paths, PagesFor, Missing;
    var total, n := code + bss, Mct2Pages(code, bss, text);
    var n1, n2 := PagesFor(text), if text < total then PagesFor(total - text) else 0;
    Regions(base, text, total);
    assert n == n1 + n2 && PageOf(base) == base / 4096;
    OpenSplit(pages, large, held, PageOf(base), n1, n2);
    PathsSplit(PageOf(base), n1, n2);
    OpenNone(pages, large, held, PageOf(base));
    OpenNone(pages, large, held, PageOf(base) + n1);
    OpenNone(pages, large, held, PageOf(base + text));
    NoPages(text);
  }

  lemma NoPages(text: nat)
    ensures text == 0 ==> PagesFor(text) == 0
  {
  }

  /** A flat image as its build script packs it, from file to memory: loaded exactly if it is
      a good one, its pages are open and paid for; then the code stands at its base, the rest
      is zero, text is read-only and executable, data writable and, with NX, not executable. */
  method LoadMct2File(s: Space, base: nat, entry: nat, code: seq<byte>, bss: nat, text: nat, slide: nat) returns (r: Result)
    requires s.Valid() && base < U64 && entry < U64 && |code| < U64 && bss < U64 && text < U64
    modifies s
    ensures s.Valid() && s.free + |s.pages| + |s.dirs| == old(s.free + |s.pages| + |s.dirs|)
    ensures r.Loaded? <==>
      16 <= |code| <= 0x100_0000 && bss <= 0x100_0000 && base < 0x8000_0000 && base % 4096 == 0 && entry < |code| + 4096 &&
      text <= (|code| + 4095) / 4096 * 4096 && text <= 0x100_0000 && (text < |code| + bss ==> text % 4096 == 0 && |code| + bss - text <= 0x100_0000) &&
      var n := ((if text < |code| + bss then |code| + bss else text) + 4095) / 4096;
      (forall v: nat :: base / 4096 <= v < base / 4096 + n ==> v !in old(s.pages) && !Barred(s.large, s.held, v)) && n + Missing(old(s.dirs), Paths(base / 4096, n)) <= old(s.free)
    ensures r.Loaded? ==> r == Loaded(base + entry, base, base + |code| + bss)
    ensures r.Loaded? ==> forall k :: 0 <= k < |code| + bss ==> ByteAt(s.pages, base + k) == if k < |code| then code[k] else 0
    ensures r.Loaded? ==> forall va :: base <= va < base + text ==> va / 4096 in s.pages && !s.pages[va / 4096].rw && !s.pages[va / 4096].nx
    ensures r.Loaded? ==> forall va :: base + text <= va < base + |code| + bss ==> va / 4096 in s.pages && s.pages[va / 4096].rw && s.pages[va / 4096].nx == s.nxOn
  {
    hide Mct2Fits, Mct2Header, Rd32, Rd64, Mct2File, ElfHeader, ElfFits, WxOk, Barred, Missing, Paths;
    var img := Mct2File(base, entry, code, bss, text);
    Mct2Read(base, entry, code, bss, text);
    if |code| >= 16 {
      Mct2Means(base, entry, code, bss, text, s.pages, s.dirs, s.free, s.large, s.held);
    }
    r := s.LoadImage(img, slide);
    if r.Loaded? {
      Mct2Stands(img, r, s.pages, s.nxOn, base, code, bss, text);
    }
  }

  lemma Mct2Stands(img: seq<byte>, r: Result, pages: map<nat, Page>, nxOn: bool, base: nat, code: seq<byte>, bss: nat, text: nat)
    requires |img| >= 64 && PagesOk(pages) && Mct2Loaded(img, r, pages, nxOn) && img[48..] == code
    requires Rd64(img, 8) == base && Rd64(img, 24) == |code| && Rd64(img, 32) == bss && Rd64(img, 40) == text && base % 4096 == 0
    requires text < |code| + bss ==> text % 4096 == 0
    ensures forall k :: 0 <= k < |code| + bss ==> ByteAt(pages, base + k) == if k < |code| then code[k] else 0
    ensures forall va :: base <= va < base + text ==> va / 4096 in pages && !pages[va / 4096].rw && !pages[va / 4096].nx
    ensures forall va :: base + text <= va < base + |code| + bss ==> va / 4096 in pages && pages[va / 4096].rw && pages[va / 4096].nx == nxOn
  {
    hide Rd64, ByteAt;
    forall k | 0 <= k < |code| + bss ensures ByteAt(pages, base + k) == if k < |code| then code[k] else 0 {
      if k < |code| {
        assert img[48..][k] == img[48 + k];
      }
    }
    forall va | base <= va < base + text ensures va / 4096 in pages && !pages[va / 4096].rw && !pages[va / 4096].nx {
      InRegion(base, text, va);
    }
    forall va | base + text <= va < base + |code| + bss ensures va / 4096 in pages && pages[va / 4096].rw && pages[va / 4096].nx == nxOn {
      InRegion(base + text, |code| + bss - text, va);
    }
  }

  lemma InRegion(base: nat, size: nat, va: nat)
    requires base % 4096 == 0 && base <= va < base + size
    ensures PageOf(base) <= va / 4096 < PageOf(base) + PagesFor(size)
  {
  }

  // ---------------------------------------------------------------- ELF files

  const IDENT: seq<byte> := [0x7F, 0x45, 0x4C, 0x46, 2, 1, 1, 0, 0, 0, 0, 0, 0, 0, 0, 0]

  /** The ELF header after e_ident: e_type ET_DYN, e_machine EM_X86_64, e_version, e_entry,
      e_phoff, e_shoff, e_flags, e_ehsize, e_phentsize, e_phnum, and no section headers. */
  function ElfFields(entry: nat, phnum: nat): seq<Field> {
    [Field(2, 3), Field(2, 62), Field(4, 1), Field(8, entry), Field(8, 64), Field(8, 0), Field(4, 0),
     Field(2, 64), Field(2, 56), Field(2, phnum), Field(2, 64), Field(2, 0), Field(2, 0)]
  }

  datatype Ph = Ph(kind: nat, flags: nat, offset: nat, vaddr: nat, paddr: nat, filesz: nat, memsz: nat, align: nat)

  /** A program header: p_type, p_flags, p_offset, p_vaddr, p_paddr, p_filesz, p_memsz, p_align. */
  function PhFields(p: Ph): seq<Field> {
    [Field(4, p.kind), Field(4, p.flags), Field(8, p.offset), Field(8, p.vaddr), Field(8, p.paddr), Field(8, p.filesz), Field(8, p.memsz), Field(8, p.align)]
  }

  predicate PhOk(p: Ph) {
    p.kind < 0x1_0000_0000 && p.flags < 0x1_0000_0000 && p.offset < U64 && p.vaddr < U64 && p.filesz < U64 && p.memsz < U64
  }

  lemma PhWidths(p: Ph)
    ensures var fs := PhFields(p);
      Width(fs[..0]) == 0 && Width(fs[..1]) == 4 && Width(fs[..2]) == 8 && Width(fs[..3]) == 16 && Width(fs[..4]) == 24 &&
      Width(fs[..5]) == 32 && Width(fs[..6]) == 40 && Width(fs) == 56
  {
    hide Width;
    var fs := PhFields(p);
    Width0(fs);
    WidthNext(fs, 0);
    WidthNext(fs, 1);
    WidthNext(fs, 2);
    WidthNext(fs, 3);
    WidthNext(fs, 4);
    WidthNext(fs, 5);
    WidthNext(fs, 6);
    WidthNext(fs, 7);
    assert fs[..8] == fs;
  }

  lemma Width0(fs: seq<Field>)
    ensures Width(fs[..0]) == 0
  {
  }

  lemma ElfWidths(entry: nat, phnum: nat)
    ensures var fs := ElfFields(entry, phnum);
      Width(fs[..0]) == 0 && Width(fs[..1]) == 2 && Width(fs[..3]) == 8 && Width(fs[..4]) == 16 && Width(fs[..8]) == 38 && Width(fs[..9]) == 40 && Width(fs) == 48
  {
    hide Width;
    var fs := ElfFields(entry, phnum);
    Width0(fs);
    WidthNext(fs, 0);
    WidthNext(fs, 1);
    WidthNext(fs, 2);
    WidthNext(fs, 3);
    WidthNext(fs, 4);
    WidthNext(fs, 5);
    WidthNext(fs, 6);
    WidthNext(fs, 7);
    WidthNext(fs, 8);
    WidthNext(fs, 9);
    WidthNext(fs, 10);
    WidthNext(fs, 11);
    WidthNext(fs, 12);
    assert fs[..13] == fs;
  }

  function PhTable(phs: seq<Ph>): (s: seq<byte>)
    ensures |s| == 56 * |phs|
  {
    if phs == [] then []
    else
      PhWidths(phs[|phs| - 1]);
      PhTable(phs[..|phs| - 1]) + Pack(PhFields(phs[|phs| - 1]))
  }

  /** A file with its program headers right behind the ELF header, then anything. */
  function ElfFile(entry: nat, phs: seq<Ph>, rest: seq<byte>): seq<byte> {
    IDENT + Pack(ElfFields(entry, |phs|)) + PhTable(phs) + rest
  }

  lemma {:induction false} TableRow(phs: seq<Ph>, i: nat)
    requires i < |phs|
    ensures |Pack(PhFields(phs[i]))| == 56 && PhTable(phs)[56 * i..56 * i + 56] == Pack(PhFields(phs[i]))
  {
    hide Pack, PhFields, Width;
    PhWidths(phs[i]);
    var m := |phs| - 1;
    if i < m {
      TableRow(phs[..m], i);
      assert PhTable(phs)[56 * i..56 * i + 56] == PhTable(phs[..m])[56 * i..56 * i + 56];
    }
  }

  lemma ElfParts(entry: nat, phs: seq<Ph>, rest: seq<byte>)
    ensures var img := ElfFile(entry, phs, rest);
      |img| == 64 + 56 * |phs| + |rest| && |Pack(ElfFields(entry, |phs|))| == 48 && img[..16] == IDENT &&
      img[16..16 + 48] == Pack(ElfFields(entry, |phs|)) && img[64..64 + 56 * |phs|] == PhTable(phs)
  {
    hide Pack, PhTable, Width;
    ElfWidths(entry, |phs|);
  }

  /** What the loader reads in an ELF header. */
  lemma ElfRead(entry: nat, phs: seq<Ph>, rest: seq<byte>)
    requires entry < U64 && |phs| < 0x1_0000
    ensures var img := ElfFile(entry, phs, rest);
      |img| == 64 + 56 * |phs| + |rest| && IsElf(img) && Rd32(img, 16) == 0x3E_0003 && Rd64(img, 24) == entry && Rd64(img, 32) == 64 && Rd16(img, 54) == 56 && Rd16(img, 56) == |phs|
    ensures ElfHeader(ElfFile(entry, phs, rest)) <==> |phs| <= 16
  {
    hide Pack, Width, Rd16, Rd64, ElfFile;
    var fs, img := ElfFields(entry, |phs|), ElfFile(entry, phs, rest);
    ElfParts(entry, phs, rest);
    ElfWidths(entry, |phs|);
    Read(img, 16, fs, 0, 16);
    Read(img, 16, fs, 1, 18);
    Read(img, 16, fs, 3, 24);
    Read(img, 16, fs, 4, 32);
    Read(img, 16, fs, 8, 54);
    Read(img, 16, fs, 9, 56);
    assert forall k :: 0 <= k < 5 ==> img[k] == img[..16][k];
  }

  /** What it reads in a program header. */
  lemma PhRead(entry: nat, phs: seq<Ph>, rest: seq<byte>, i: nat)
    requires entry < U64 && |phs| <= 16 && i < |phs| && PhOk(phs[i])
    ensures var img, p := ElfFile(entry, phs, rest), phs[i];
      |img| >= 64 && ElfHeader(img) && i < Rd16(img, 56) && (IsLoad(img, i) <==> p.kind == 1) && SegAt(img, i) == Seg(p.flags, p.offset, p.vaddr, p.filesz, p.memsz)
  {
    hide Pack, Width, Rd16, Rd32, Rd64, ElfFile, PhTable, Mul;
    var img, fs, at := ElfFile(entry, phs, rest), PhFields(phs[i]), 64 + 56 * i;
    ElfRead(entry, phs, rest);
    ElfParts(entry, phs, rest);
    TableRow(phs, i);
    PhWidths(phs[i]);
    MulIs(i, 56);
    assert img[at..at + 56] == img[64..64 + 56 * |phs|][56 * i..56 * i + 56];
    Read(img, at, fs, 0, at);
    Read(img, at, fs, 1, at + 4);
    Read(img, at, fs, 2, at + 8);
    Read(img, at, fs, 3, at + 16);
    Read(img, at, fs, 5, at + 32);
    Read(img, at, fs, 6, at + 40);
  }

  lemma MulIs(a: nat, b: nat)
    ensures Mul(a, b) == a * b
  {
  }

  // ---------------------------------------------------------------- what an ELF file must be

  function SegOf(p: Ph): Seg { Seg(p.flags, p.offset, p.vaddr, p.filesz, p.memsz) }

  /** A segment the loader takes: not more bytes in the file than in memory, at most 16 MB
      with the start of its first page and not nothing, below 256 MB, its bytes in the file. */
  predicate PhGood(p: Ph, len: nat) {
    p.filesz <= p.memsz && p.vaddr + p.memsz < 0x1000_0000 && p.offset + p.filesz <= len && 0 < p.vaddr % 4096 + p.memsz <= 0x100_0000
  }

  /** Its first page at a load base, and how many. */
  function First(p: Ph, base: nat): nat { (base + p.vaddr) / 4096 }

  function Count(p: Ph): nat { (p.vaddr % 4096 + p.memsz + 4095) / 4096 }

  predicate Apart(p: Ph, q: Ph, base: nat) { First(p, base) + Count(p) <= First(q, base) || First(q, base) + Count(q) <= First(p, base) }

  /** Bytes, pages and tables of the segments to load. */
  function PhsSize(phs: seq<Ph>): nat {
    if phs == [] then 0 else PhsSize(phs[..|phs| - 1]) + if phs[|phs| - 1].kind == 1 then phs[|phs| - 1].vaddr % 4096 + phs[|phs| - 1].memsz else 0
  }

  function PhsPages(phs: seq<Ph>): nat {
    if phs == [] then 0 else PhsPages(phs[..|phs| - 1]) + if phs[|phs| - 1].kind == 1 then Count(phs[|phs| - 1]) else 0
  }

  function PhsPaths(phs: seq<Ph>, base: nat): set<Dir> {
    if phs == [] then {}
    else PhsPaths(phs[..|phs| - 1], base) + if phs[|phs| - 1].kind == 1 then Paths(First(phs[|phs| - 1], base), Count(phs[|phs| - 1])) else {}
  }

  /** A file the space takes: at most 16 headers, each segment to load a good one in pages
      that are open and its own, at most 16 MB together, with frames for all of them. */
  ghost predicate ElfGood(phs: seq<Ph>, len: nat, base: nat, pages: map<nat, Page>, dirs: set<Dir>, free: nat, large: set<Dir>, held: set<nat>) {
    |phs| <= 16 && AllGood(phs, len) && ElfPlaced(phs, base, pages, dirs, free, large, held)
  }

  predicate AllGood(phs: seq<Ph>, len: nat) { forall i :: 0 <= i < |phs| && phs[i].kind == 1 ==> PhGood(phs[i], len) }

  /** The segments' pages are open, no two share one, they are not too long together, and
      there are frames for them and the missing tables. */
  ghost predicate ElfPlaced(phs: seq<Ph>, base: nat, pages: map<nat, Page>, dirs: set<Dir>, free: nat, large: set<Dir>, held: set<nat>) {
    (forall i :: 0 <= i < |phs| && phs[i].kind == 1 ==> Open(pages, large, held, First(phs[i], base), Count(phs[i]))) &&
    (forall i, j :: 0 <= i < j < |phs| && phs[i].kind == 1 && phs[j].kind == 1 ==> Apart(phs[i], phs[j], base)) &&
    PhsSize(phs) <= 0x100_0000 && PhsPages(phs) + Missing(dirs, PhsPaths(phs, base)) <= free
  }

  lemma SegIs(p: Ph, base: nat)
    requires base % 4096 == 0
    ensures SegPage(SegOf(p), base) == First(p, base) && SegPages(SegOf(p)) == Count(p) && SegSize(SegOf(p)) == p.vaddr % 4096 + p.memsz
  {
    var b, q := base / 4096, p.vaddr / 4096;
    assert base == 4096 * b && p.vaddr == 4096 * q + p.vaddr % 4096;
  }

  lemma FitsIs(img: seq<byte>, p: Ph, base: nat, pages: map<nat, Page>, large: set<Dir>, held: set<nat>)
    requires base % 4096 == 0 && base < 0x8000_0000
    ensures SegFits(img, SegOf(p), base, pages, large, held) <==> PhGood(p, |img|) && Open(pages, large, held, First(p, base), Count(p))
  {
    hide Open, RangeOk;
    SegIs(p, base);
    var va := SegVa(SegOf(p), base);
    assert va % 4096 == 0 by {
      assert va == 4096 * (base / 4096 + p.vaddr / 4096);
    }
    if p.vaddr < 0x1000_0000 {
      RangeIs(va, SegSize(SegOf(p)));
    }
  }

  predicate AllPhOk(phs: seq<Ph>) { forall i :: 0 <= i < |phs| ==> PhOk(phs[i]) }

  /** The loader's sums are those of the headers. */
  lemma {:induction false} SumsAre(entry: nat, phs: seq<Ph>, rest: seq<byte>, base: nat, n: nat)
    requires entry < U64 && |phs| <= 16 && AllPhOk(phs) && n <= |phs| && base % 4096 == 0
    ensures var img := ElfFile(entry, phs, rest);
      |img| >= 64 && ElfHeader(img) && Rd16(img, 56) == |phs| &&
      ElfSize(img, n) == PhsSize(phs[..n]) && ElfPages(img, n) == PhsPages(phs[..n]) && ElfPaths(img, base, n) == PhsPaths(phs[..n], base)
  {
    hide ElfFile, ElfHeader, Rd16, SegAt, IsLoad, Paths, SegPage, SegPages, SegSize, First, Count;
    ElfRead(entry, phs, rest);
    if n > 0 {
      SumsAre(entry, phs, rest, base, n - 1);
      PhRead(entry, phs, rest, n - 1);
      SegIs(phs[n - 1], base);
      assert phs[..n][..n - 1] == phs[..n - 1];
    }
  }

  /** The loader's conditions, said of the headers as they were written. */
  lemma ElfMeans(entry: nat, phs: seq<Ph>, rest: seq<byte>, base: nat, pages: map<nat, Page>, dirs: set<Dir>, free: nat, large: set<Dir>, held: set<nat>)
    requires entry < U64 && |phs| < 0x1_0000 && AllPhOk(phs) && base % 4096 == 0 && base < 0x8000_0000
    ensures var img := ElfFile(entry, phs, rest);
      |img| >= 64 && (ElfHeader(img) && ElfFits(img, base, Rd16(img, 56), pages, dirs, free, large, held) <==> ElfGood(phs, |img|, base, pages, dirs, free, large, held))
  {
    hide ElfFile, ElfHeader, Rd16, SegAt, IsLoad, Paths, SegPage, SegPages, SegSize, First, Count, Missing, ElfSize, ElfPages, ElfPaths, PhsSize, PhsPages, PhsPaths, SegFits, PhGood, Open;
    var img := ElfFile(entry, phs, rest);
    ElfRead(entry, phs, rest);
    if |phs| <= 16 {
      SumsAre(entry, phs, rest, base, |phs|);
      assert phs[..|phs|] == phs;
      forall i | 0 <= i < |phs|
        ensures (IsLoad(img, i) <==> phs[i].kind == 1) && SegAt(img, i) == SegOf(phs[i])
        ensures SegFits(img, SegAt(img, i), base, pages, large, held) <==> PhGood(phs[i], |img|) && Open(pages, large, held, First(phs[i], base), Count(phs[i]))
        ensures SegPage(SegAt(img, i), base) == First(phs[i], base) && SegPages(SegAt(img, i)) == Count(phs[i])
      {
        PhRead(entry, phs, rest, i);
        FitsIs(img, phs[i], base, pages, large, held);
        SegIs(phs[i], base);
      }
    }
  }

  /** The rights of a byte's page: writable if the segment is, executable only if it asks for
      that and is not writable. */
  predicate Rights(pages: map<nat, Page>, va: nat, flags: nat, nxOn: bool) {
    va / 4096 in pages && pages[va / 4096].rw == (flags / 2 % 2 == 1) && pages[va / 4096].nx == (nxOn && (flags / 2 % 2 == 1 || flags % 2 == 0))
  }

  /** Byte k of a segment in memory: the file's, or zero past what the file has. */
  ghost predicate SegStands(pages: map<nat, Page>, img: seq<byte>, p: Ph, base: nat, k: nat, nxOn: bool)
    requires PagesOk(pages)
  {
    (k < p.filesz ==> p.offset + k < |img| && ByteAt(pages, base + p.vaddr + k) == img[p.offset + k]) &&
    (k >= p.filesz ==> ByteAt(pages, base + p.vaddr + k) == 0) && Rights(pages, base + p.vaddr + k, p.flags, nxOn)
  }

  /** An ELF file from file to memory, at one of 256 bases: loaded exactly if it is one the
      space takes; then each segment's bytes and zeros stand where its header says, with its
      rights, and the end is the highest of their ends. */
  method LoadElfFile(s: Space, entry: nat, phs: seq<Ph>, rest: seq<byte>, slide: nat) returns (r: Result)
    requires s.Valid() && entry < U64 && |phs| < 0x1_0000 && AllPhOk(phs)
    modifies s
    ensures s.Valid() && s.free + |s.pages| + |s.dirs| == old(s.free + |s.pages| + |s.dirs|)
    ensures var img, base := ElfFile(entry, phs, rest), 0x6000_0000 + slide % 256 * 0x20_0000;
      (r.Loaded? <==>
        |phs| <= 16 && ElfPlaced(phs, base, old(s.pages), old(s.dirs), old(s.free), s.large, s.held) &&
        forall i :: 0 <= i < |phs| && phs[i].kind == 1 ==>
          phs[i].filesz <= phs[i].memsz && phs[i].vaddr + phs[i].memsz < 0x1000_0000 &&
          phs[i].offset + phs[i].filesz <= |img| && 0 < phs[i].vaddr % 4096 + phs[i].memsz <= 0x100_0000) &&
      (r.Loaded? ==> r.base == base && r.entry == (base + entry) % U64)
    ensures r.Loaded? ==> forall i, k :: 0 <= i < |phs| && phs[i].kind == 1 && 0 <= k < phs[i].memsz ==>
      SegStands(s.pages, ElfFile(entry, phs, rest), phs[i], r.base, k, s.nxOn)
    ensures r.Loaded? ==> forall i :: 0 <= i < |phs| && phs[i].kind == 1 ==> r.base + phs[i].vaddr + phs[i].memsz <= r.end
    ensures r.Loaded? ==> r.end == r.base || exists i :: 0 <= i < |phs| && phs[i].kind == 1 && r.end == r.base + phs[i].vaddr + phs[i].memsz
  {
    hide ElfFits, ElfHeader, ElfPlaced, ElfFile, Rd16, Rd64, WxOk, IsLoad, SegAt, SegLoaded, SegMapped, SegOk, Wired, ElfBase, AllPhOk, Rights, ByteAt, Mct2Header, Mct2Fits, Mct2Loaded, SegEnd, SegStands;
    var img := ElfFile(entry, phs, rest);
    ElfRead(entry, phs, rest);
    BaseIs(slide);
    ElfMeans(entry, phs, rest, ElfBase(slide), s.pages, s.dirs, s.free, s.large, s.held);
    r := s.LoadImage(img, slide);
    if r.Loaded? {
      assert |phs| <= 16;
      forall i | 0 <= i < |phs|
        ensures (IsLoad(img, i) <==> phs[i].kind == 1) && SegAt(img, i) == SegOf(phs[i]) && SegEnd(SegAt(img, i), r.base) == r.base + phs[i].vaddr + phs[i].memsz
      {
        HeaderIs(entry, phs, rest, i, r.base);
      }
      forall i, k | 0 <= i < |phs| && phs[i].kind == 1 && 0 <= k < phs[i].memsz
        ensures SegStands(s.pages, img, phs[i], r.base, k, s.nxOn)
      {
        SegmentStands(s.pages, img, i, phs[i], r.base, k, s.nxOn);
      }
    }
  }

  lemma BaseIs(slide: nat)
    ensures ElfBase(slide) == 0x6000_0000 + slide % 256 * 0x20_0000 && ElfBase(slide) % 4096 == 0 && ElfBase(slide) < 0x8000_0000
  {
  }

  lemma HeaderIs(entry: nat, phs: seq<Ph>, rest: seq<byte>, i: nat, base: nat)
    requires entry < U64 && |phs| <= 16 && AllPhOk(phs) && i < |phs|
    ensures var img := ElfFile(entry, phs, rest);
      |img| >= 64 && ElfHeader(img) && i < Rd16(img, 56) && (IsLoad(img, i) <==> phs[i].kind == 1) && SegAt(img, i) == SegOf(phs[i]) &&
      SegEnd(SegAt(img, i), base) == base + phs[i].vaddr + phs[i].memsz
  {
    hide ElfFile, ElfHeader, Rd16, SegAt, IsLoad;
    PhRead(entry, phs, rest, i);
  }

  lemma SegmentStands(pages: map<nat, Page>, img: seq<byte>, i: nat, p: Ph, base: nat, k: nat, nxOn: bool)
    requires PagesOk(pages) && |img| >= 64 && ElfHeader(img) && i < Rd16(img, 56) && IsLoad(img, i) && SegAt(img, i) == SegOf(p)
    requires Wired(img, base, Rd16(img, 56), pages, nxOn) && SegOk(SegAt(img, i), |img|) && SegLoaded(pages, img, SegAt(img, i), base) && base % 4096 == 0 && k < p.memsz
    ensures SegStands(pages, img, p, base, k, nxOn)
  {
    hide ElfHeader, Rd16, SegAt, IsLoad, ByteAt, SegApart, SegPages, SegPage, Zeros;
    var s := SegOf(p);
    assert SegMapped(pages, s, base, nxOn);
    SegInPages(s, base, base + p.vaddr + k);
    assert ByteAt(pages, base + p.vaddr + k) == SegBytes(img, s)[k];
  }
}
