/** The on-disk layout the driver works with: 1 KiB blocks, first data block 1, bit N of
    a group's bitmap for the group's block N + 1, little-endian words in tables. */
module Ext2Layout {
  import opened Arith

  type byte = x: nat | x < 256
  type Block = s: seq<byte> | |s| == BS witness seq(BS, _ => 0)

  const BS: nat := 1024
  const PER: nat := 256
  const DIRECT: nat := 12
  const MAX_GROUPS: nat := 32
  const U16: nat := 0x1_0000
  const U32: nat := 0x1_0000_0000

  const ENOENT: int := -2
  const EIO: int := -5
  const ENOTDIR: int := -20
  const EISDIR: int := -21
  const EINVAL: int := -22
  const EFBIG: int := -27

  function Zeros(): Block { seq(BS, _ => 0) }

  // ---------------------------------------------------------------- words in blocks

  function Rd16(b: seq<byte>, off: nat): (v: nat)
    requires off + 2 <= |b|
    ensures v < U16
  {
    b[off] as nat + 256 * (b[off + 1] as nat)
  }

  function Rd32(b: seq<byte>, off: nat): (v: nat)
    requires off + 4 <= |b|
    ensures v < U32
  {
    b[off] as nat + 256 * (b[off + 1] as nat) + 65536 * (b[off + 2] as nat) + 16777216 * (b[off + 3] as nat)
  }

  /** The byte-by-byte store of a 16-bit word. */
  function Put16(b: seq<byte>, off: nat, v: nat): (r: seq<byte>)
    requires off + 2 <= |b| && v < U16
    ensures |r| == |b| && Rd16(r, off) == v && r[off] == v % 256
    ensures forall k :: 0 <= k < |b| && !(off <= k < off + 2) ==> r[k] == b[k]
  {
    b[off := v % 256][off + 1 := v / 256]
  }

  lemma FourBytes(v: nat)
    requires v < U32
    ensures v / 16777216 < 256 && v == v % 256 + 256 * (v / 256 % 256) + 65536 * (v / 65536 % 256) + 16777216 * (v / 16777216)
  {
    assert v / 65536 == 256 * (v / 16777216) + v / 65536 % 256;
    assert v / 256 == 256 * (v / 65536) + v / 256 % 256;
  }

  /** The byte-by-byte store of a 32-bit word. */
  function Put32(b: seq<byte>, off: nat, v: nat): (r: seq<byte>)
    requires off + 4 <= |b| && v < U32
    ensures |r| == |b| && Rd32(r, off) == v && r[off] == v % 256 && r[off + 3] == v / 16777216
    ensures forall k :: 0 <= k < |b| && !(off <= k < off + 4) ==> r[k] == b[k]
  {
    FourBytes(v);
    b[off := v % 256][off + 1 := v / 256 % 256][off + 2 := v / 65536 % 256][off + 3 := v / 16777216]
  }

  /** Entry j of an indirect table. */
  function Entry(b: Block, j: nat): (v: nat)
    requires j < PER
    ensures v < U32
  {
    Rd32(b, 4 * j)
  }

  function SetEntry(b: Block, j: nat, v: nat): (r: Block)
    requires j < PER && v < U32
    ensures forall k :: 0 <= k < PER ==> Entry(r, k) == if k == j then v else Entry(b, k)
  {
    Put32(b, 4 * j, v)
  }

  lemma ZeroEntry(j: nat)
    requires j < PER
    ensures Entry(Zeros(), j) == 0
  {
  }

  // ---------------------------------------------------------------- geometry

  /** A group descriptor: its block bitmap, inode bitmap and inode table. */
  datatype Desc = Desc(bbm: nat, ibm: nat, itab: nat)

  /** The superblock's constants and the descriptors. */
  datatype Geo = Geo(blocks: nat, bpg: nat, inodes: nat, ipg: nat, isz: nat, desc: seq<Desc>)

  function Groups(g: Geo): nat
    requires g.bpg > 0
  {
    (g.blocks + g.bpg - 1) / g.bpg
  }

  /** At most 32 groups, each bitmap one block, every group with descriptor and bitmaps. */
  predicate GeoOk(g: Geo) {
    0 < g.bpg <= 8 * BS && 1 < g.blocks < U32 && 0 < g.ipg <= 8 * BS && g.inodes < U32 && 128 <= g.isz <= 1024 &&
    Groups(g) <= MAX_GROUPS && |g.desc| == Groups(g) && g.inodes <= g.ipg * Groups(g) &&
    forall k :: 0 <= k < |g.desc| ==> g.desc[k].bbm != 0 && g.desc[k].ibm != 0 && g.desc[k].itab != 0
  }

  function TableBlocks(g: Geo): nat { (g.ipg * g.isz + BS - 1) / BS }

  /** Block blk is group k's own metadata, as ex_is_meta decides. */
  predicate MetaOf(g: Geo, k: nat, blk: nat)
    requires k < |g.desc|
  {
    var d := g.desc[k];
    blk == 2 + k * 32 / BS || blk == d.bbm || blk == d.ibm || k * g.bpg < blk < d.bbm ||
    d.itab <= blk < d.itab + TableBlocks(g)
  }

  predicate Meta(g: Geo, blk: nat) {
    blk <= 1 || exists k :: 0 <= k < |g.desc| && MetaOf(g, k, blk)
  }

  /** Everything the driver reads as metadata is metadata: boot block and superblock, the
      block with the descriptor of any group, both its bitmaps, the block with any byte of
      its inode table, and all that lies between the group's start and its block bitmap. */
  lemma MetaCovers(g: Geo, k: nat, x: nat, b: nat)
    requires GeoOk(g) && k < |g.desc|
    ensures Meta(g, 0) && Meta(g, 1024 / BS) && Meta(g, (2 * 1024 + 32 * k) / BS) && Meta(g, g.desc[k].bbm) && Meta(g, g.desc[k].ibm)
    ensures x < g.ipg * g.isz ==> Meta(g, g.desc[k].itab + x / BS)
    ensures k * g.bpg < b < g.desc[k].bbm ==> Meta(g, b)
  {
    var n := g.ipg * g.isz;
    assert MetaOf(g, k, g.desc[k].bbm) && MetaOf(g, k, g.desc[k].ibm) && MetaOf(g, k, 2 + k * 32 / BS);
    if x < n {
      assert x / BS < TableBlocks(g);
      assert MetaOf(g, k, g.desc[k].itab + x / BS);
    }
    if k * g.bpg < b < g.desc[k].bbm {
      assert MetaOf(g, k, b);
    }
  }

  /** And nothing else is. */
  lemma MetaOnly(g: Geo, b: nat) returns (k: nat, x: nat)
    requires GeoOk(g) && Meta(g, b)
    ensures b <= 1 || (k < |g.desc| &&
      (b == 2 + 32 * k / BS || b == g.desc[k].bbm || b == g.desc[k].ibm || k * g.bpg < b < g.desc[k].bbm ||
       (x < g.ipg * g.isz && b == g.desc[k].itab + x / BS)))
  {
    k, x := 0, 0;
    if b > 1 {
      k :| k < |g.desc| && MetaOf(g, k, b);
      if g.desc[k].itab <= b {
        x := (b - g.desc[k].itab) * BS;
      }
    }
  }

  /** The block that bit slot of group k stands for. */
  function BlockOf(g: Geo, k: nat, slot: nat): nat { k * g.bpg + slot + 1 }

  function GroupOf(g: Geo, blk: nat): nat
    requires g.bpg > 0 && blk > 0
  {
    (blk - 1) / g.bpg
  }

  function SlotOf(g: Geo, blk: nat): nat
    requires g.bpg > 0 && blk > 0
  {
    (blk - 1) % g.bpg
  }

  lemma BitOfBlock(g: Geo, k: nat, slot: nat)
    requires g.bpg > 0 && slot < g.bpg
    ensures GroupOf(g, BlockOf(g, k, slot)) == k && SlotOf(g, BlockOf(g, k, slot)) == slot
  {
    assert (k * g.bpg + slot) / g.bpg == k && (k * g.bpg + slot) % g.bpg == slot by { DivMod(k, g.bpg, slot); }
  }

  lemma BlockOfBit(g: Geo, blk: nat)
    requires GeoOk(g) && 0 < blk < g.blocks
    ensures GroupOf(g, blk) < Groups(g) && SlotOf(g, blk) < g.bpg && BlockOf(g, GroupOf(g, blk), SlotOf(g, blk)) == blk
  {
    var k, s := GroupOf(g, blk), SlotOf(g, blk);
    assert blk - 1 == k * g.bpg + s;
    var n, top := Groups(g), g.blocks + g.bpg - 1;
    assert top == n * g.bpg + top % g.bpg;
    if k >= n {
      MulMore(n, k, g.bpg);
    }
  }
}
