/** The QOI encoder for desktop assets, against the decoder of the vendored qoi.h, which
    implements the QOI specification v1.0. */
module Qoi {

  type byte = x: nat | x < 256

  datatype Pixel = Pixel(r: byte, g: byte, b: byte, a: byte)

  const START := Pixel(0, 0, 0, 255)
  const MAX_RUN: nat := 62
  const PIXELS_MAX: nat := 400000000
  const U32: nat := 0x1_0000_0000

  type Table = t: seq<Pixel> | |t| == 64 witness seq(64, _ => START)

  function NoColours(): Table { seq(64, _ => Pixel(0, 0, 0, 0)) }

  function Hash(p: Pixel): (h: nat)
    ensures h < 64
  {
    ((p.r as int) * 3 + (p.g as int) * 5 + (p.b as int) * 7 + (p.a as int) * 11) % 64
  }

  /** The six kinds of chunk, with the meaning of their fields. */
  datatype Chunk =
    | Same(n: nat)
    | Index(k: nat)
    | Diff(vr: int, vg: int, vb: int)
    | Luma(vg: int, dr: int, db: int)
    | Rgb(r: byte, g: byte, b: byte)
    | Rgba(r: byte, g: byte, b: byte, a: byte)

  predicate ChunkOk(c: Chunk) {
    match c
    case Same(n) => 1 <= n <= MAX_RUN
    case Index(k) => k < 64
    case Diff(vr, vg, vb) => -2 <= vr <= 1 && -2 <= vg <= 1 && -2 <= vb <= 1
    case Luma(vg, dr, db) => -32 <= vg <= 31 && -8 <= dr <= 7 && -8 <= db <= 7
    case _ => true
  }

  /** The bytes the encoder appends for a chunk. */
  function ToBytes(c: Chunk): (s: seq<byte>)
    requires ChunkOk(c)
    ensures 1 <= |s| <= 5
  {
    match c
    case Same(n) => [0xC0 + n - 1]
    case Index(k) => [k]
    case Diff(vr, vg, vb) => [0x40 + 16 * (vr + 2) + 4 * (vg + 2) + vb + 2]
    case Luma(vg, dr, db) => [0x80 + vg + 32, 16 * (dr + 8) + db + 8]
    case Rgb(r, g, b) => [0xFE, r, g, b]
    case Rgba(r, g, b, a) => [0xFF, r, g, b, a]
  }

  // ---------------------------------------------------------------- the decoder

  /** One chunk read at position p, as the decoder takes the bytes apart. */
  function ReadChunk(bytes: seq<byte>, p: nat): (r: (Chunk, nat))
    requires p + 5 <= |bytes|
    ensures ChunkOk(r.0) && p < r.1 <= p + 5
  {
    var b1: int, b2: int := bytes[p], bytes[p + 1];
    if b1 == 0xFE then (Rgb(bytes[p + 1], bytes[p + 2], bytes[p + 3]), p + 4)
    else if b1 == 0xFF then (Rgba(bytes[p + 1], bytes[p + 2], bytes[p + 3], bytes[p + 4]), p + 5)
    else if b1 / 64 == 0 then (Index(b1), p + 1)
    else if b1 / 64 == 1 then (Diff(b1 / 16 % 4 - 2, b1 / 4 % 4 - 2, b1 % 4 - 2), p + 1)
    else if b1 / 64 == 2 then (Luma(b1 % 64 - 32, b2 / 16 - 8, b2 % 16 - 8), p + 2)
    else (Same(b1 % 64 + 1), p + 1)
  }

  /** An unsigned char after an addition. */
  function Wrap(v: int): byte { v % 256 }

  /** The pixel a chunk stands for, given the previous pixel and the colour table. */
  function Colour(c: Chunk, px: Pixel, index: Table): Pixel
    requires ChunkOk(c)
  {
    match c
    case Same(_) => px
    case Index(k) => index[k]
    case Diff(vr, vg, vb) => Pixel(Wrap(px.r + vr), Wrap(px.g + vg), Wrap(px.b + vb), px.a)
    case Luma(vg, dr, db) => Pixel(Wrap(px.r + vg + dr), Wrap(px.g + vg), Wrap(px.b + vg + db), px.a)
    case Rgb(r, g, b) => Pixel(r, g, b, px.a)
    case Rgba(r, g, b, a) => Pixel(r, g, b, a)
  }

  function Learn(index: Table, px: Pixel): Table { index[Hash(px) := px] }

  /** The decoder's loop: n pixels from position p on; past the last chunk it repeats. */
  function Pixels(bytes: seq<byte>, end: nat, p: nat, px: Pixel, index: Table, run: nat, n: nat): (s: seq<Pixel>)
    requires end + 8 <= |bytes|
    ensures |s| == n
    decreases n
  {
    if n == 0 then []
    else if run > 0 then [px] + Pixels(bytes, end, p, px, index, run - 1, n - 1)
    else if p < end then
      var (c, q) := ReadChunk(bytes, p);
      var px2 := Colour(c, px, index);
      [px2] + Pixels(bytes, end, q, px2, Learn(index, px2), if c.Same? then c.n - 1 else 0, n - 1)
    else [px] + Pixels(bytes, end, p, px, index, 0, n - 1)
  }

  function Be32(b: seq<byte>, p: nat): nat
    requires p + 4 <= |b|
  {
    16777216 * (b[p] as nat) + 65536 * (b[p + 1] as nat) + 256 * (b[p + 2] as nat) + b[p + 3] as nat
  }

  datatype Image = Bad | Image(w: nat, h: nat, px: seq<Pixel>)

  const MAGIC: seq<byte> := [113, 111, 105, 102]

  /** qoi_decode with four channels. */
  function Decode(bytes: seq<byte>): Image {
    if |bytes| < 14 + 8 then Bad
    else
      var w, h := Be32(bytes, 4), Be32(bytes, 8);
      if w == 0 || h == 0 || !(3 <= bytes[12] <= 4) || bytes[13] > 1 || bytes[..4] != MAGIC || h >= PIXELS_MAX / w then Bad
      else Image(w, h, Pixels(bytes, |bytes| - 8, 14, START, NoColours(), 0, w * h))
  }

  // ---------------------------------------------------------------- playing chunks

  datatype Player = Player(out: seq<Pixel>, px: Pixel, index: Table)

  function Repeat(px: Pixel, n: nat): (s: seq<Pixel>)
    ensures |s| == n && forall k :: 0 <= k < n ==> s[k] == px
  {
    if n == 0 then [] else Repeat(px, n - 1) + [px]
  }

  function Count(c: Chunk): nat { if c.Same? then c.n else 1 }

  function PlayOne(s: Player, c: Chunk): Player
    requires ChunkOk(c)
  {
    var px := Colour(c, s.px, s.index);
    Player(s.out + Repeat(px, Count(c)), px, Learn(s.index, px))
  }

  predicate AllOk(cs: seq<Chunk>) { forall k :: 0 <= k < |cs| ==> ChunkOk(cs[k]) }

  /** What a decoder makes of a list of chunks. */
  function Play(cs: seq<Chunk>): Player
    requires AllOk(cs)
  {
    if cs == [] then Player([], START, NoColours()) else PlayOne(Play(cs[..|cs| - 1]), cs[|cs| - 1])
  }

  function AllBytes(cs: seq<Chunk>): seq<byte>
    requires AllOk(cs)
  {
    if cs == [] then [] else AllBytes(cs[..|cs| - 1]) + ToBytes(cs[|cs| - 1])
  }

  lemma DiffFields(vr: int, vg: int, vb: int)
    requires ChunkOk(Diff(vr, vg, vb))
    ensures var b := 0x40 + 16 * (vr + 2) + 4 * (vg + 2) + vb + 2;
      b / 64 == 1 && b / 16 % 4 - 2 == vr && b / 4 % 4 - 2 == vg && b % 4 - 2 == vb
  {
  }

  lemma LumaFields(vg: int, dr: int, db: int)
    requires ChunkOk(Luma(vg, dr, db))
    ensures var b1, b2 := 0x80 + vg + 32, 16 * (dr + 8) + db + 8;
      b1 / 64 == 2 && b1 % 64 - 32 == vg && b2 / 16 - 8 == dr && b2 % 16 - 8 == db
  {
  }

  /** Reading back a chunk's bytes gives the chunk, whatever surrounds them. */
  lemma ChunkRoundTrip(bytes: seq<byte>, p: nat, c: Chunk)
    requires ChunkOk(c) && p + 5 <= |bytes| && p + |ToBytes(c)| <= |bytes| && bytes[p..p + |ToBytes(c)|] == ToBytes(c)
    ensures ReadChunk(bytes, p) == (c, p + |ToBytes(c)|)
  {
    var s := ToBytes(c);
    assert forall k :: 0 <= k < |s| ==> bytes[p + k] == s[k];
    assert bytes[p] == s[0];
    match c
    case Diff(vr, vg, vb) => DiffFields(vr, vg, vb);
    case Luma(vg, dr, db) => LumaFields(vg, dr, db);
      assert bytes[p + 1] == s[1];
    case Rgb(r, g, b) => assert bytes[p + 1] == s[1] && bytes[p + 2] == s[2] && bytes[p + 3] == s[3];
    case Rgba(r, g, b, a) => assert bytes[p + 1] == s[1] && bytes[p + 2] == s[2] && bytes[p + 3] == s[3] && bytes[p + 4] == s[4];
    case _ =>
  }

  // ---------------------------------------------------------------- decoding is playing

  lemma {:induction false} RunRepeats(bytes: seq<byte>, end: nat, p: nat, px: Pixel, index: Table, run: nat, n: nat)
    requires end + 8 <= |bytes| && run <= n
    ensures Pixels(bytes, end, p, px, index, run, n) == Repeat(px, run) + Pixels(bytes, end, p, px, index, 0, n - run)
  {
    if run > 0 {
      RunRepeats(bytes, end, p, px, index, run - 1, n - 1);
      var rest := Pixels(bytes, end, p, px, index, 0, n - run);
      assert [px] + Repeat(px, run - 1) == Repeat(px, run);
      assert [px] + (Repeat(px, run - 1) + rest) == Repeat(px, run) + rest;
    }
  }

  /** The first pixel of a chunk, and what the decoder is left with. */
  lemma ChunkFirst(bytes: seq<byte>, end: nat, p: nat, s: Player, c: Chunk, n: nat)
    requires end + 8 <= |bytes| && ChunkOk(c) && p + |ToBytes(c)| <= end && bytes[p..p + |ToBytes(c)|] == ToBytes(c) && Count(c) <= n
    ensures var t := PlayOne(s, c);
      Pixels(bytes, end, p, s.px, s.index, 0, n) == [t.px] + Pixels(bytes, end, p + |ToBytes(c)|, t.px, t.index, Count(c) - 1, n - 1)
  {
    hide ToBytes, ReadChunk, Colour, Learn;
    ChunkRoundTrip(bytes, p, c);
  }

  lemma RepeatMore(px: Pixel, n: nat, rest: seq<Pixel>)
    requires n > 0
    ensures [px] + (Repeat(px, n - 1) + rest) == Repeat(px, n) + rest
  {
    assert [px] + Repeat(px, n - 1) == Repeat(px, n);
  }

  /** One chunk, from its first byte to its last pixel. */
  lemma ChunkPlays(bytes: seq<byte>, end: nat, p: nat, s: Player, c: Chunk, n: nat)
    requires end + 8 <= |bytes| && ChunkOk(c) && p + |ToBytes(c)| <= end && bytes[p..p + |ToBytes(c)|] == ToBytes(c) && Count(c) <= n
    ensures var t := PlayOne(s, c);
      Pixels(bytes, end, p, s.px, s.index, 0, n) == Repeat(t.px, Count(c)) + Pixels(bytes, end, p + |ToBytes(c)|, t.px, t.index, 0, n - Count(c))
  {
    hide ToBytes, Colour, Learn, Pixels, Repeat;
    var t := PlayOne(s, c);
    var q := p + |ToBytes(c)|;
    ChunkFirst(bytes, end, p, s, c, n);
    RunRepeats(bytes, end, q, t.px, t.index, Count(c) - 1, n - 1);
    RepeatMore(t.px, Count(c), Pixels(bytes, end, q, t.px, t.index, 0, n - Count(c)));
  }

  /** From chunk k on, the decoder produces the rest of what the chunks play. */
  lemma {:induction false} DecodePlays(bytes: seq<byte>, base: nat, cs: seq<Chunk>, k: nat)
    requires AllOk(cs) && k <= |cs| && base + |AllBytes(cs)| + 8 <= |bytes| && bytes[base..base + |AllBytes(cs)|] == AllBytes(cs)
    ensures var s := Play(cs[..k]);
      |s.out| <= |Play(cs).out| && |AllBytes(cs[..k])| <= |AllBytes(cs)| &&
      Pixels(bytes, base + |AllBytes(cs)|, base + |AllBytes(cs[..k])|, s.px, s.index, 0, |Play(cs).out| - |s.out|) == Play(cs).out[|s.out|..]
    decreases |cs| - k
  {
    hide Pixels, ToBytes, Colour, Learn, AllBytes, Play, PlayOne, Repeat;
    if k == |cs| {
      assert cs[..k] == cs;
      NoPixels(bytes, base + |AllBytes(cs)|, base + |AllBytes(cs)|, Play(cs));
    } else {
      DecodePlays(bytes, base, cs, k + 1);
      var s, t, c, all := Play(cs[..k]), Play(cs[..k + 1]), cs[k], Play(cs).out;
      PlayStep(cs, k);
      BytesAt(bytes, base, cs, k);
      PlayPrefix(cs, k + 1);
      ChunkPlays(bytes, base + |AllBytes(cs)|, base + |AllBytes(cs[..k])|, s, c, |all| - |s.out|);
      Cut(all, s.out, Repeat(t.px, Count(c)));
    }
  }

  lemma PlayStep(cs: seq<Chunk>, k: nat)
    requires AllOk(cs) && k < |cs|
    ensures Play(cs[..k + 1]) == PlayOne(Play(cs[..k]), cs[k])
    ensures Play(cs[..k + 1]).out == Play(cs[..k]).out + Repeat(Play(cs[..k + 1]).px, Count(cs[k]))
  {
    assert cs[..k + 1][..k] == cs[..k];
  }

  lemma NoPixels(bytes: seq<byte>, end: nat, p: nat, s: Player)
    requires end + 8 <= |bytes|
    ensures Pixels(bytes, end, p, s.px, s.index, 0, 0) == []
  {
  }

  lemma Cut(all: seq<Pixel>, a: seq<Pixel>, b: seq<Pixel>)
    requires a + b <= all
    ensures all[|a|..] == b + all[|a| + |b|..]
  {
  }

  lemma {:induction false} PlayPrefix(cs: seq<Chunk>, k: nat)
    requires AllOk(cs) && k <= |cs|
    ensures Play(cs[..k]).out <= Play(cs).out
    decreases |cs| - k
  {
    if k == |cs| {
      assert cs[..k] == cs;
    } else {
      PlayPrefix(cs, k + 1);
      assert cs[..k + 1][..k] == cs[..k];
    }
  }

  /** Where the bytes of chunk k are. */
  lemma {:induction false} BytesAt(bytes: seq<byte>, base: nat, cs: seq<Chunk>, k: nat)
    requires AllOk(cs) && k < |cs| && base + |AllBytes(cs)| <= |bytes| && bytes[base..base + |AllBytes(cs)|] == AllBytes(cs)
    ensures var at := base + |AllBytes(cs[..k])|;
      at + |ToBytes(cs[k])| <= base + |AllBytes(cs)| && |AllBytes(cs[..k + 1])| == |AllBytes(cs[..k])| + |ToBytes(cs[k])| &&
      bytes[at..at + |ToBytes(cs[k])|] == ToBytes(cs[k])
  {
    hide ToBytes;
    assert cs[..k + 1][..k] == cs[..k];
    BytesPrefix(cs, k + 1);
    var a, b := AllBytes(cs[..k]), ToBytes(cs[k]);
    assert a + b <= AllBytes(cs);
    forall j | 0 <= j < |b| ensures bytes[base + |a| + j] == b[j] {
      assert bytes[base..base + |AllBytes(cs)|][|a| + j] == (a + b)[|a| + j];
    }
  }

  lemma {:induction false} BytesPrefix(cs: seq<Chunk>, k: nat)
    requires AllOk(cs) && k <= |cs|
    ensures AllBytes(cs[..k]) <= AllBytes(cs)
    decreases |cs| - k
  {
    if k == |cs| {
      assert cs[..k] == cs;
    } else {
      BytesPrefix(cs, k + 1);
      assert cs[..k + 1][..k] == cs[..k];
    }
  }

  // ---------------------------------------------------------------- the encoder

  /** The encoder's table and the decoder's agree, except that slot 53, where the initial
      pixel hashes, may still be empty in the encoder's; and the previous pixel is in the
      table unless it is that initial pixel. */
  ghost predicate Agrees(index: Table, prev: Pixel, s: Player) {
    s.px == prev &&
    (forall k :: 0 <= k < 64 ==> s.index[k] == index[k] || (k == 53 && index[k] == Pixel(0, 0, 0, 0))) &&
    (index[Hash(prev)] == prev || (prev == START && index[53] == Pixel(0, 0, 0, 0)))
  }

  /** Finishing a run of the previous pixel. */
  lemma AgreesRun(index: Table, prev: Pixel, s: Player, n: nat)
    requires Agrees(index, prev, s) && 1 <= n <= MAX_RUN
    ensures Agrees(index, prev, PlayOne(s, Same(n)))
  {
    assert Hash(START) == 53;
  }

  /** A pixel found in the table. */
  lemma AgreesIndex(index: Table, prev: Pixel, s: Player, px: Pixel)
    requires Agrees(index, prev, s) && index[Hash(px)] == px
    ensures Colour(Index(Hash(px)), s.px, s.index) == px && Agrees(index, px, PlayOne(s, Index(Hash(px))))
  {
    assert Hash(Pixel(0, 0, 0, 0)) == 0;
  }

  /** A pixel spelled out by its chunk. */
  lemma AgreesNew(index: Table, prev: Pixel, s: Player, px: Pixel, c: Chunk)
    requires Agrees(index, prev, s) && ChunkOk(c) && Colour(c, prev, s.index) == px
    ensures Agrees(index[Hash(px) := px], px, PlayOne(s, c))
  {
  }

  /** The chunk for a pixel that is not in the table. */
  function Delta(px: Pixel, prev: Pixel): (c: Chunk)
    ensures ChunkOk(c) && !c.Same? && !c.Index? && forall t: Table :: Colour(c, prev, t) == px
  {
    if px.a != prev.a then Rgba(px.r, px.g, px.b, px.a)
    else
      var vr: int, vg: int, vb: int := px.r as int - prev.r as int, px.g as int - prev.g as int, px.b as int - prev.b as int;
      if -2 <= vr <= 1 && -2 <= vg <= 1 && -2 <= vb <= 1 then Diff(vr, vg, vb)
      else if -32 <= vg <= 31 && -8 <= vr - vg <= 7 && -8 <= vb - vg <= 7 then Luma(vg, vr - vg, vb - vg)
      else Rgb(px.r, px.g, px.b)
  }

  function PixelAt(pixels: seq<byte>, i: nat): Pixel
    requires 4 * i + 4 <= |pixels|
  {
    Pixel(pixels[4 * i], pixels[4 * i + 1], pixels[4 * i + 2], pixels[4 * i + 3])
  }

  /** The picture: the first n pixels, row by row. */
  function Picture(pixels: seq<byte>, n: nat): (s: seq<Pixel>)
    requires 4 * n <= |pixels|
    ensures |s| == n && forall i :: 0 <= i < n ==> s[i] == PixelAt(pixels, i)
  {
    if n == 0 then [] else Picture(pixels, n - 1) + [PixelAt(pixels, n - 1)]
  }

  function PutBe32(v: nat): (s: seq<byte>)
    requires v < U32
    ensures |s| == 4 && Be32(s, 0) == v
  {
    var hi, lo := v / 65536, v % 65536;
    [hi / 256, hi % 256, lo / 256, lo % 256]
  }

  function Header(w: nat, h: nat): (s: seq<byte>)
    requires w < U32 && h < U32
    ensures |s| == 14
  {
    MAGIC + PutBe32(w) + PutBe32(h) + [4, 0]
  }

  const PADDING: seq<byte> := [0, 0, 0, 0, 0, 0, 0, 1]

  lemma AppendChunk(cs: seq<Chunk>, c: Chunk)
    requires AllOk(cs) && ChunkOk(c)
    ensures AllOk(cs + [c]) && AllBytes(cs + [c]) == AllBytes(cs) + ToBytes(c) && Play(cs + [c]) == PlayOne(Play(cs), c)
  {
    assert (cs + [c])[..|cs|] == cs;
  }

  /** The bytes between header and padding are chunks that play the picture. */
  ghost predicate Plays(out: seq<byte>, w: nat, h: nat, cs: seq<Chunk>, px: seq<Pixel>)
    requires w < U32 && h < U32
  {
    AllOk(cs) && out == Header(w, h) + AllBytes(cs) && Play(cs).out == px
  }

  /** A stream that plays a picture decodes to it, if the decoder accepts its size. */
  lemma DecodeStream(out: seq<byte>, w: nat, h: nat, cs: seq<Chunk>, px: seq<Pixel>)
    requires w < U32 && h < U32 && Plays(out, w, h, cs, px) && |px| == w * h
    ensures Decode(out + PADDING) == if w != 0 && h != 0 && h < PIXELS_MAX / w then Image(w, h, px) else Bad
  {
    var bytes, body := out + PADDING, AllBytes(cs);
    HeaderParts(bytes, w, h);
    assert bytes[14..14 + |body|] == body;
    hide Be32, Header, PutBe32;
    DecodePlays(bytes, 14, cs, 0);
    assert cs[..0] == [];
    hide Pixels;
  }

  /** What the decoder reads in the header. */
  lemma HeaderParts(bytes: seq<byte>, w: nat, h: nat)
    requires w < U32 && h < U32 && |bytes| >= 14 && bytes[..14] == Header(w, h)
    ensures bytes[..4] == MAGIC && Be32(bytes, 4) == w && Be32(bytes, 8) == h && bytes[12] == 4 && bytes[13] == 0
  {
    var head, a, b := Header(w, h), PutBe32(w), PutBe32(h);
    assert bytes[..4] == head[..4] == MAGIC;
    assert forall k :: 0 <= k < 14 ==> bytes[k] == head[k];
    assert forall k :: 0 <= k < 4 ==> head[4 + k] == a[k] && head[8 + k] == b[k];
    assert bytes[12] == 4 && bytes[13] == 0;
    hide PutBe32, Header;
    assert bytes[4] == a[0] && bytes[5] == a[1] && bytes[6] == a[2] && bytes[7] == a[3];
    assert bytes[8] == b[0] && bytes[9] == b[1] && bytes[10] == b[2] && bytes[11] == b[3];
  }

  // ---------------------------------------------------------------- what the encoder writes

  /** The pixel before position i. */
  function Before(px: seq<Pixel>, i: nat): Pixel
    requires i <= |px|
  {
    if i == 0 then START else px[i - 1]
  }

  /** The last pixel before position i that hashes to slot k and did not repeat the one
      before it; the empty colour if there is none. */
  function Content(px: seq<Pixel>, i: nat, k: nat): Pixel
    requires i <= |px|
  {
    if i == 0 then Pixel(0, 0, 0, 0)
    else if px[i - 1] != Before(px, i - 1) && Hash(px[i - 1]) == k then px[i - 1]
    else Content(px, i - 1, k)
  }

  /** The chunk for the pixels from position i on: a run, as long as runs get, if pixel i
      repeats; its slot if it is what the slot holds; else how it differs. */
  predicate Fitting(px: seq<Pixel>, i: nat, c: Chunk) {
    i < |px| &&
    if px[i] == Before(px, i) then
      c.Same? && 1 <= c.n <= MAX_RUN && i + c.n <= |px| && (forall k :: i <= k < i + c.n ==> px[k] == px[i]) &&
      (c.n == MAX_RUN || i + c.n == |px| || px[i + c.n] != px[i])
    else c == if Content(px, i, Hash(px[i])) == px[i] then Index(Hash(px[i])) else Delta(px[i], Before(px, i))
  }

  /** Every chunk is the fitting one for the pixels it starts with. */
  ghost predicate Written(cs: seq<Chunk>, px: seq<Pixel>) {
    AllOk(cs) && forall m :: 0 <= m < |cs| ==> Fitting(px, |Play(cs[..m]).out|, cs[m])
  }

  lemma AppendWritten(cs: seq<Chunk>, px: seq<Pixel>, c: Chunk)
    requires Written(cs, px) && ChunkOk(c) && Fitting(px, |Play(cs).out|, c)
    ensures Written(cs + [c], px)
  {
    hide Play, Fitting;
    var ds := cs + [c];
    forall m | 0 <= m < |ds| ensures AllOk(ds) && Fitting(px, |Play(ds[..m]).out|, ds[m]) {
      assert ds[..m] == cs[..m] && (m == |cs| ==> cs[..m] == cs);
    }
  }

  /** A colour stays in its slot until another takes it. */
  lemma {:induction false} ContentStays(px: seq<Pixel>, j: nat, i: nat)
    requires j < i <= |px| && px[j] != Before(px, j)
    requires forall l :: j < l < i && px[l] != Before(px, l) && Hash(px[l]) == Hash(px[j]) ==> px[l] == px[j]
    ensures Content(px, i, Hash(px[j])) == px[j]
    decreases i
  {
    hide Hash;
    if i > j + 1 {
      ContentStays(px, j, i - 1);
    }
  }

  lemma NothingPlayed()
    ensures Play([]).out == []
  {
  }

  /** A pixel that does not repeat starts a chunk. */
  lemma {:induction false} ChunkStarts(cs: seq<Chunk>, px: seq<Pixel>, i: nat, n: nat) returns (m: nat)
    requires Written(cs, px) && n <= |cs| && i < |Play(cs[..n]).out| && i < |px| && px[i] != Before(px, i)
    ensures m < n && |Play(cs[..m]).out| == i
    decreases n
  {
    hide Play, Content, Delta, Hash;
    NothingPlayed();
    assert cs[..0] == [];
    PlayStep(cs, n - 1);
    var at := |Play(cs[..n - 1]).out|;
    assert Fitting(px, at, cs[n - 1]);
    if i < at {
      m := ChunkStarts(cs, px, i, n - 1);
    } else if i == at {
      m := n - 1;
    } else {
      assert false;
    }
  }

  /** A colour met again, not the one just before it and not displaced from its slot, is
      written as one byte, the sum of its channels times 3, 5, 7 and 11, modulo 64. */
  lemma MetAgain(cs: seq<Chunk>, px: seq<Pixel>, j: nat, i: nat) returns (m: nat)
    requires Written(cs, px) && Play(cs).out == px && j < i < |px| && px[i] == px[j]
    requires px[i] != Before(px, i) && px[j] != Before(px, j)
    requires forall l :: j < l < i && px[l] != Before(px, l) && Hash(px[l]) == Hash(px[j]) ==> px[l] == px[j]
    ensures m < |cs| && |Play(cs[..m]).out| == i && ChunkOk(cs[m])
    ensures var p := px[i]; ToBytes(cs[m]) == [(3 * (p.r as nat) + 5 * (p.g as nat) + 7 * (p.b as nat) + 11 * (p.a as nat)) % 64]
  {
    hide Play, Content, Delta;
    assert cs[..|cs|] == cs;
    m := ChunkStarts(cs, px, i, |cs|);
    ContentStays(px, j, i);
    assert Fitting(px, i, cs[m]);
  }

  /** What a decoder shows for a stream of two colours and an index byte: the colour whose
      channels times 3, 5, 7 and 11 add up to the byte modulo 64, the empty colour at any
      other byte. */
  lemma IndexByte(r: byte, g: byte, b: byte, r2: byte, g2: byte, b2: byte, k: byte)
    requires k < 64 && (3 * (r as int) + 5 * (g as int) + 7 * (b as int) - 3 * (r2 as int) - 5 * (g2 as int) - 7 * (b2 as int)) % 64 != 0
    ensures var p, q := Pixel(r, g, b, 255), Pixel(r2, g2, b2, 255);
      var x := if (3 * (r as int) + 5 * (g as int) + 7 * (b as int) + 11 * 255 - k as int) % 64 == 0 then p
               else if (3 * (r2 as int) + 5 * (g2 as int) + 7 * (b2 as int) + 11 * 255 - k as int) % 64 == 0 then q
               else Pixel(0, 0, 0, 0);
      Decode(Header(3, 1) + [0xFE, r, g, b, 0xFE, r2, g2, b2, k] + PADDING) == Image(3, 1, [p, q, x])
  {
    hide Decode, Play, AllBytes, Header, Hash, Be32, PutBe32, Colour, PlayOne;
    var p, q := Pixel(r, g, b, 255), Pixel(r2, g2, b2, 255);
    var cs := [Rgb(r, g, b), Rgb(r2, g2, b2), Index(k)];
    SlotIs(p, k);
    SlotIs(q, k);
    SlotsDiffer(p, q);
    PlayThree(r, g, b, r2, g2, b2, k);
    DecodeStream(Header(3, 1) + AllBytes(cs), 3, 1, cs, Play(cs).out);
  }

  lemma PlayThree(r: byte, g: byte, b: byte, r2: byte, g2: byte, b2: byte, k: byte)
    requires k < 64
    ensures var p, q, cs := Pixel(r, g, b, 255), Pixel(r2, g2, b2, 255), [Rgb(r, g, b), Rgb(r2, g2, b2), Index(k)];
      AllOk(cs) && AllBytes(cs) == [0xFE, r, g, b, 0xFE, r2, g2, b2, k] && Play(cs).out == [p, q, NoColours()[Hash(p) := p][Hash(q) := q][k]]
  {
    hide Hash, AllBytes, Play, ToBytes;
    var p, q, cs := Pixel(r, g, b, 255), Pixel(r2, g2, b2, 255), [Rgb(r, g, b), Rgb(r2, g2, b2), Index(k)];
    PlayFirst(cs[0]);
    AppendChunk([cs[0]], cs[1]);
    AppendChunk([cs[0], cs[1]], cs[2]);
    assert [cs[0]] + [cs[1]] == [cs[0], cs[1]] && [cs[0], cs[1]] + [cs[2]] == cs;
    OneMorePixel([p], q);
    OneMorePixel([p, q], NoColours()[Hash(p) := p][Hash(q) := q][k]);
    ThreeBytes(r, g, b, r2, g2, b2, k);
  }

  lemma ThreeBytes(r: byte, g: byte, b: byte, r2: byte, g2: byte, b2: byte, k: byte)
    requires k < 64
    ensures ToBytes(Rgb(r, g, b)) + ToBytes(Rgb(r2, g2, b2)) + ToBytes(Index(k)) == [0xFE, r, g, b, 0xFE, r2, g2, b2, k]
  {
  }

  /** A stream of one chunk. */
  lemma PlayFirst(c: Chunk)
    requires ChunkOk(c) && Count(c) == 1
    ensures var px := Colour(c, START, NoColours());
      AllOk([c]) && AllBytes([c]) == ToBytes(c) && Play([c]) == Player([px], px, Learn(NoColours(), px))
  {
    hide Hash, ToBytes, Colour;
    AppendChunk([], c);
    assert [] + [c] == [c];
    OneMorePixel([], Colour(c, START, NoColours()));
  }

  lemma OneMorePixel(s: seq<Pixel>, p: Pixel)
    ensures s + Repeat(p, 1) == s + [p]
  {
    assert Repeat(p, 1) == Repeat(p, 0) + [p];
  }

  lemma SlotIs(p: Pixel, k: byte)
    requires k < 64
    ensures Hash(p) == k <==> (3 * (p.r as int) + 5 * (p.g as int) + 7 * (p.b as int) + 11 * (p.a as int) - k as int) % 64 == 0
  {
  }

  lemma SlotsDiffer(p: Pixel, q: Pixel)
    requires p.a == q.a
    ensures Hash(p) == Hash(q) ==> (3 * (p.r as int) + 5 * (p.g as int) + 7 * (p.b as int) - 3 * (q.r as int) - 5 * (q.g as int) - 7 * (q.b as int)) % 64 == 0
  {
    var x: int, y: int := 3 * (p.r as int) + 5 * (p.g as int) + 7 * (p.b as int), 3 * (q.r as int) + 5 * (q.g as int) + 7 * (q.b as int);
    SameRest(x + 11 * (p.a as int), y + 11 * (p.a as int));
    assert x + 11 * (p.a as int) - (y + 11 * (p.a as int)) == x - y;
  }

  lemma SameRest(a: int, b: int)
    ensures a % 64 == b % 64 ==> (a - b) % 64 == 0
  {
    var k := a / 64 - b / 64;
    assert a - b == 64 * k + (a % 64 - b % 64);
  }

  /** A pixel spelled out with its alpha, then a chunk: what the decoder shows. */
  lemma AfterRgba(r: byte, g: byte, b: byte, a: byte, c: Chunk)
    requires ChunkOk(c) && !c.Index? && Count(c) == 1
    ensures var p := Pixel(r, g, b, a);
      Decode(Header(2, 1) + ([0xFF, r, g, b, a] + ToBytes(c)) + PADDING) == Image(2, 1, [p, Colour(c, p, NoColours()[Hash(p) := p])])
  {
    hide Decode, Play, AllBytes, Header, Hash, Be32, PutBe32, Colour, ToBytes;
    var p, d := Pixel(r, g, b, a), Rgba(r, g, b, a);
    RgbaIs(r, g, b, a);
    PlayFirst(d);
    AppendChunk([d], c);
    assert [d] + [c] == [d, c];
    OneMorePixel([p], Colour(c, p, NoColours()[Hash(p) := p]));
    DecodeStream(Header(2, 1) + AllBytes([d, c]), 2, 1, [d, c], Play([d, c]).out);
  }

  lemma RgbaIs(r: byte, g: byte, b: byte, a: byte)
    ensures Colour(Rgba(r, g, b, a), START, NoColours()) == Pixel(r, g, b, a) && ToBytes(Rgba(r, g, b, a)) == [0xFF, r, g, b, a]
  {
  }

  /** A difference byte: 01, then each channel's change plus 2 in two bits. */
  lemma DiffByte(r: byte, g: byte, b: byte, a: byte, vr: int, vg: int, vb: int)
    requires -2 <= vr <= 1 && -2 <= vg <= 1 && -2 <= vb <= 1
    ensures Decode(Header(2, 1) + ([0xFF, r, g, b, a] + [64 + 16 * (vr + 2) + 4 * (vg + 2) + (vb + 2)]) + PADDING) ==
      Image(2, 1, [Pixel(r, g, b, a), Pixel((r as int + vr) % 256, (g as int + vg) % 256, (b as int + vb) % 256, a)])
  {
    hide Decode, Header;
    AfterRgba(r, g, b, a, Diff(vr, vg, vb));
    assert ToBytes(Diff(vr, vg, vb)) == [64 + 16 * (vr + 2) + 4 * (vg + 2) + (vb + 2)];
  }

  /** A luma pair: 10 and green's change plus 32, then red's and blue's beyond it plus 8. */
  lemma LumaBytes(r: byte, g: byte, b: byte, a: byte, vg: int, dr: int, db: int)
    requires -32 <= vg <= 31 && -8 <= dr <= 7 && -8 <= db <= 7
    ensures Decode(Header(2, 1) + ([0xFF, r, g, b, a] + [128 + vg + 32, 16 * (dr + 8) + (db + 8)]) + PADDING) ==
      Image(2, 1, [Pixel(r, g, b, a), Pixel((r as int + vg + dr) % 256, (g as int + vg) % 256, (b as int + vg + db) % 256, a)])
  {
    hide Decode, Header;
    AfterRgba(r, g, b, a, Luma(vg, dr, db));
    assert ToBytes(Luma(vg, dr, db)) == [128 + vg + 32, 16 * (dr + 8) + (db + 8)];
  }

  /** A stream that begins with a run repeats opaque black. */
  lemma FirstRun()
    ensures Decode(Header(1, 1) + [0xC0] + PADDING) == Image(1, 1, [Pixel(0, 0, 0, 255)])
  {
    hide Decode, Play, AllBytes, Header, Hash, Be32, PutBe32;
    PlayFirst(Same(1));
    DecodeStream(Header(1, 1) + AllBytes([Same(1)]), 1, 1, [Same(1)], [START]);
  }

  /** The chunk reaches px from prev with no channel wrapping around. */
  predicate Reaches(c: Chunk, prev: Pixel, px: Pixel) {
    match c
    case Diff(vr, vg, vb) => px.r as int == prev.r as int + vr && px.g as int == prev.g as int + vg && px.b as int == prev.b as int + vb && px.a == prev.a
    case Luma(vg, dr, db) => px.r as int == prev.r as int + vg + dr && px.g as int == prev.g as int + vg && px.b as int == prev.b as int + vg + db && px.a == prev.a
    case Rgb(r, g, b) => px == Pixel(r, g, b, prev.a)
    case Rgba(r, g, b, a) => px == Pixel(r, g, b, a)
    case _ => false
  }

  /** No chunk that reaches the pixel without wrapping is shorter. */
  lemma DeltaShortest(px: Pixel, prev: Pixel, c: Chunk)
    requires ChunkOk(c) && Reaches(c, prev, px)
    ensures Reaches(Delta(px, prev), prev, px) && |ToBytes(Delta(px, prev))| <= |ToBytes(c)|
  {
  }

  /** qoi_encode.  Its output decodes to exactly the pixels it was given. */
  method Encode(pixels: seq<byte>, w: nat, h: nat) returns (bytes: seq<byte>, ghost cs: seq<Chunk>)
    requires w < U32 && h < U32 && 4 * (w * h) <= |pixels|
    ensures Written(cs, Picture(pixels, w * h)) && Play(cs).out == Picture(pixels, w * h) && bytes == Header(w, h) + AllBytes(cs) + PADDING
    ensures bytes[..14] == [0x71, 0x6F, 0x69, 0x66, w / 65536 / 256, w / 65536 % 256, w % 65536 / 256, w % 65536 % 256, h / 65536 / 256, h / 65536 % 256, h % 65536 / 256, h % 65536 % 256, 4, 0]
    ensures bytes[|bytes| - 8..] == [0, 0, 0, 0, 0, 0, 0, 1]
    ensures Decode(bytes) == if w != 0 && h != 0 && h < PIXELS_MAX / w then Image(w, h, Picture(pixels, w * h)) else Bad
  {
    hide Decode, Written, Fitting;
    var out;
    out, cs := EncodePixels(pixels, w, h, w * h);
    DecodeStream(out, w, h, cs, Picture(pixels, w * h));
    bytes := out + PADDING;
  }

  /** The encoder's loop over the pixels. */
  method EncodePixels(pixels: seq<byte>, w: nat, h: nat, n: nat) returns (out: seq<byte>, ghost cs: seq<Chunk>)
    requires w < U32 && h < U32 && 4 * n <= |pixels|
    ensures Plays(out, w, h, cs, Picture(pixels, n)) && Written(cs, Picture(pixels, n))
  {
    hide Agrees, Play, Plays, Header, Hash, AllOk, Written, Content, Keeps;
    Begin(w, h);
    out, cs := Header(w, h), [];
    var index: Table, prev, run := NoColours(), START, 0;
    ghost var px := Picture(pixels, n);
    assert px[..0] == [];
    NothingWritten(px);
    var i := 0;
    while i < n
      invariant 0 <= i <= n && run <= i && run < MAX_RUN && (i == n ==> run == 0)
      invariant AllOk(cs) && Plays(out, w, h, cs, px[..i - run]) && Agrees(index, prev, Play(cs))
      invariant forall k :: i - run <= k < i ==> px[k] == prev
      invariant Written(cs, px) && Keeps(index, px, i) && prev == Before(px, i) && (run > 0 ==> prev == Before(px, i - run))
    {
      var p := PixelAt(pixels, i);
      KeepsNext(index, px, i);
      assert px[i] == p;
      if p == prev {
        run := run + 1;
        if run == MAX_RUN || i == n - 1 {
          out, cs := Flush(out, w, h, cs, px, index, prev, run, i + 1);
          run := 0;
        }
      } else {
        if run > 0 {
          out, cs := Flush(out, w, h, cs, px, index, prev, run, i);
          run := 0;
        }
        out, index, cs := EncodeOne(out, w, h, cs, px, index, prev, i, p);
        prev := p;
      }
      i := i + 1;
    }
    assert px[..n] == px;
  }

  /** The encoder's table before pixel i. */
  ghost predicate Keeps(index: Table, px: seq<Pixel>, i: nat) {
    i <= |px| && forall k :: 0 <= k < 64 ==> index[k] == Content(px, i, k)
  }

  lemma NothingWritten(px: seq<Pixel>)
    ensures Written([], px) && Keeps(NoColours(), px, 0)
  {
  }

  /** What one pixel more does to it. */
  lemma KeepsNext(index: Table, px: seq<Pixel>, i: nat)
    requires i < |px| && Keeps(index, px, i)
    ensures px[i] == Before(px, i) ==> Keeps(index, px, i + 1)
    ensures px[i] != Before(px, i) ==> Keeps(index[Hash(px[i]) := px[i]], px, i + 1) && (index[Hash(px[i])] == px[i] ==> Keeps(index, px, i + 1))
  {
    hide Hash;
  }

  /** How far the chunks reach. */
  lemma PlaysLength(out: seq<byte>, w: nat, h: nat, cs: seq<Chunk>, px: seq<Pixel>)
    requires w < U32 && h < U32 && Plays(out, w, h, cs, px)
    ensures AllOk(cs) && |Play(cs).out| == |px|
  {
  }

  lemma Begin(w: nat, h: nat)
    requires w < U32 && h < U32
    ensures AllOk([]) && Plays(Header(w, h), w, h, [], []) && Agrees(NoColours(), START, Play([]))
  {
    assert Header(w, h) + [] == Header(w, h);
  }

  /** flush_run: the last `run` pixels before position i repeat prev. */
  method Flush(out: seq<byte>, ghost w: nat, ghost h: nat, ghost cs: seq<Chunk>, ghost px: seq<Pixel>, ghost index: Table, ghost prev: Pixel, run: nat, ghost i: nat)
    returns (out2: seq<byte>, ghost cs2: seq<Chunk>)
    requires w < U32 && h < U32 && 1 <= run <= MAX_RUN && run <= i <= |px|
    requires AllOk(cs) && Plays(out, w, h, cs, px[..i - run]) && Agrees(index, prev, Play(cs)) && forall k :: i - run <= k < i ==> px[k] == prev
    requires Written(cs, px) && prev == Before(px, i - run) && (run == MAX_RUN || i == |px| || px[i] != prev)
    ensures AllOk(cs2) && Plays(out2, w, h, cs2, px[..i]) && Agrees(index, prev, Play(cs2)) && Written(cs2, px)
  {
    hide Agrees, Play, AllBytes, Header, Written, Content;
    PlaysLength(out, w, h, cs, px[..i - run]);
    AppendWritten(cs, px, Same(run));
    cs2 := cs + [Same(run)];
    AppendChunk(cs, Same(run));
    AgreesRun(index, prev, Play(cs), run);
    PrevIs(index, prev, Play(cs));
    out2 := out + ToBytes(Same(run));
    assert px[..i] == px[..i - run] + Repeat(prev, run);
  }

  lemma PrevIs(index: Table, prev: Pixel, s: Player)
    requires Agrees(index, prev, s)
    ensures s.px == prev
  {
  }

  /** One pixel that differs from the previous one. */
  method EncodeOne(out: seq<byte>, ghost w: nat, ghost h: nat, ghost cs: seq<Chunk>, ghost px: seq<Pixel>, index: Table, prev: Pixel, ghost i: nat, p: Pixel)
    returns (out2: seq<byte>, index2: Table, ghost cs2: seq<Chunk>)
    requires w < U32 && h < U32 && i < |px| && px[i] == p
    requires AllOk(cs) && Plays(out, w, h, cs, px[..i]) && Agrees(index, prev, Play(cs))
    requires Written(cs, px) && Keeps(index, px, i) && prev == Before(px, i) && p != prev
    ensures AllOk(cs2) && Plays(out2, w, h, cs2, px[..i + 1]) && Agrees(index2, p, Play(cs2)) && Written(cs2, px) && Keeps(index2, px, i + 1)
  {
    hide Agrees, Play, AllBytes, Header, Colour, ToBytes, Written, Content, Delta;
    var slot := (3 * (p.r as nat) + 5 * (p.g as nat) + 7 * (p.b as nat) + 11 * (p.a as nat)) % 64;
    assert slot == Hash(p);
    hide Hash;
    KeepsNext(index, px, i);
    PlaysLength(out, w, h, cs, px[..i]);
    PrevIs(index, prev, Play(cs));
    var c;
    index2 := index;
    if index[slot] == p {
      c := Index(slot);
      AgreesIndex(index, prev, Play(cs), p);
    } else {
      c := Delta(p, prev);
      index2 := index[slot := p];
      AgreesNew(index, prev, Play(cs), p, c);
    }
    AppendWritten(cs, px, c);
    AppendChunk(cs, c);
    cs2, out2 := cs + [c], out + ToBytes(c);
    assert !c.Same? && PlayOne(Play(cs), c).out == Play(cs).out + [p];
    assert px[..i + 1] == px[..i] + [p];
  }
}
