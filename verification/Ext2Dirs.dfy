/** Linked-list directories: records that tile a block, the scan that reads them, and the
    insertion that reuses a hole or splits the slack of a live record. */
module Ext2Dirs {
  import opened Ext2Layout

  /** A live entry: what lookup and readdir see of a record. */
  datatype Ent = Ent(ino: nat, name: seq<byte>)

  function Ino(b: Block, off: nat): nat
    requires off + 8 <= BS
  {
    Rd32(b, off)
  }

  function Rlen(b: Block, off: nat): nat
    requires off + 8 <= BS
  {
    Rd16(b, off + 4)
  }

  function Nlen(b: Block, off: nat): nat
    requires off + 8 <= BS
  {
    b[off + 6]
  }

  /** The scan ends here: no room for a header, or a length that leads nowhere. */
  predicate Stops(b: Block, off: nat) { off + 8 > BS || Rlen(b, off) == 0 || off + Rlen(b, off) > BS }

  predicate Live(b: Block, off: nat)
    requires off + 8 <= BS
  {
    Ino(b, off) != 0 && Nlen(b, off) != 0 && off + 8 + Nlen(b, off) <= BS
  }

  function EntAt(b: Block, off: nat): (e: seq<Ent>)
    requires off + 8 <= BS
  {
    if Live(b, off) then [Ent(Ino(b, off), b[off + 8..off + 8 + Nlen(b, off)])] else []
  }

  /** The live entries in scan order. */
  function Entries(b: Block, off: nat): seq<Ent>
    decreases BS - off
  {
    if Stops(b, off) then [] else EntAt(b, off) + Entries(b, off + Rlen(b, off))
  }

  predicate NoNul(name: seq<byte>) { forall k :: 0 <= k < |name| ==> name[k] != 0 }

  /** The record is long enough for what it holds, and its name is a string. */
  predicate RecordOk(b: Block, off: nat)
    requires off + 8 <= BS
  {
    8 <= Rlen(b, off) <= BS - off && Rlen(b, off) % 4 == 0 && (Ino(b, off) != 0 ==> 8 + Nlen(b, off) <= Rlen(b, off)) &&
    (Live(b, off) ==> NoNul(b[off + 8..off + 8 + Nlen(b, off)]))
  }

  /** Records tile the block exactly. */
  predicate Tiled(b: Block, off: nat)
    decreases BS - off
  {
    off == BS || (off + 8 <= BS && RecordOk(b, off) && Tiled(b, off + Rlen(b, off)))
  }

  function Round4(n: nat): (r: nat)
    ensures r % 4 == 0 && n <= r < n + 4
  {
    (n + 3) / 4 * 4
  }

  function Used(b: Block, off: nat): nat
    requires off + 8 <= BS
  {
    Round4(8 + Nlen(b, off))
  }

  /** The record at off can take an entry of need bytes. */
  predicate Fits(b: Block, off: nat, need: nat)
    requires off + 8 <= BS
  {
    if Ino(b, off) == 0 then Rlen(b, off) >= need else Rlen(b, off) > Used(b, off) && Rlen(b, off) - Used(b, off) >= need
  }

  /** The first record with room, or BS. */
  function Place(b: Block, off: nat, need: nat): (p: nat)
    ensures p == BS || (off <= p && p + 8 <= BS && !Stops(b, p) && Fits(b, p, need))
    decreases BS - off
  {
    if Stops(b, off) then BS
    else if Fits(b, off, need) then off
    else Place(b, off + Rlen(b, off), need)
  }

  // ---------------------------------------------------------------- room

  /** A record starts at p: the lengths of the records from off on lead there. */
  predicate RecordAt(b: Block, off: nat, p: nat)
    decreases BS - off
  {
    p == off || (!Stops(b, off) && RecordAt(b, off + Rlen(b, off), p))
  }

  /** Behind what the record at p holds there are need bytes: all of a hole, or what its own
      entry, rounded up to four bytes, leaves over. */
  predicate RoomAt(b: Block, p: nat, need: nat) {
    p + 8 <= BS && 0 < Rlen(b, p) <= BS - p && Rlen(b, p) >= need + if Ino(b, p) == 0 then 0 else Round4(8 + Nlen(b, p))
  }

  ghost predicate Room(b: Block, off: nat, need: nat) { exists p: nat :: RecordAt(b, off, p) && RoomAt(b, p, need) }

  /** The scan finds a place exactly when some record has room. */
  lemma {:induction false} PlaceRoom(b: Block, off: nat, need: nat)
    requires need > 0
    ensures Place(b, off, need) < BS <==> Room(b, off, need)
    decreases BS - off
  {
    hide Ino, Nlen, Round4, Rlen;
    if Stops(b, off) {
      assert forall p: nat :: RecordAt(b, off, p) ==> p == off;
    } else if Fits(b, off, need) {
      assert RecordAt(b, off, off) && RoomAt(b, off, need);
    } else {
      var next := off + Rlen(b, off);
      PlaceRoom(b, next, need);
      if p: nat :| RecordAt(b, next, p) && RoomAt(b, p, need) {
        assert RecordAt(b, off, p);
      }
      if p: nat :| RecordAt(b, off, p) && RoomAt(b, p, need) {
        assert RecordAt(b, next, p);
      }
    }
  }

  // ---------------------------------------------------------------- writing a record

  /** A record's header and name stored at off. */
  function PutRecord(b: Block, off: nat, ino: nat, rlen: nat, kind: byte, name: seq<byte>): (r: Block)
    requires off + 8 + |name| <= BS && ino < U32 && rlen < U16 && |name| < 256
    ensures Ino(r, off) == ino && Rlen(r, off) == rlen && Nlen(r, off) == |name| && r[off + 8..off + 8 + |name|] == name
    ensures forall k :: 0 <= k < BS && !(off <= k < off + 8 + |name|) ==> r[k] == b[k]
  {
    var h := Put16(Put32(b, off, ino), off + 4, rlen)[off + 6 := |name|][off + 7 := kind];
    h[..off + 8] + name + h[off + 8 + |name|..]
  }

  /** The record on disk, byte by byte: inode number and record length with the low byte
      first, the length of the name, the kind, the name. */
  lemma RecordBytes(b: Block, off: nat, ino: nat, rlen: nat, kind: byte, name: seq<byte>)
    requires off + 8 + |name| <= BS && ino < U32 && rlen < U16 && |name| < 256
    ensures var r := PutRecord(b, off, ino, rlen, kind, name);
      r[off..off + 8] == [ino % 256, ino / 256 % 256, ino / 65536 % 256, ino / 16777216, rlen % 256, rlen / 256, |name|, kind]
  {
    var h := Put32(b, off, ino);
    assert h[off] == ino % 256 && h[off + 1] == ino / 256 % 256 && h[off + 2] == ino / 65536 % 256 && h[off + 3] == ino / 16777216;
  }

  /** The entry goes into the record at off: the whole of a hole, or the slack behind a
      live entry, which is cut to its own size. */
  function Insert(b: Block, off: nat, ino: nat, kind: byte, name: seq<byte>): (r: Block)
    requires !Stops(b, off) && Fits(b, off, Round4(8 + |name|)) && ino < U32 && |name| < 256
  {
    if Ino(b, off) == 0 then PutRecord(b, off, ino, Rlen(b, off), kind, name)
    else PutRecord(Put16(b, off + 4, Used(b, off)), off + Used(b, off), ino, Rlen(b, off) - Used(b, off), kind, name)
  }

  /** A fresh block holding one entry that spans it. */
  function FreshBlock(ino: nat, kind: byte, name: seq<byte>): Block
    requires 8 + |name| <= BS && ino < U32 && |name| < 256
  {
    PutRecord(Zeros(), 0, ino, BS, kind, name)
  }

  // ---------------------------------------------------------------- what insertion does

  /** A scan from off on looks at no byte before off. */
  lemma {:induction false} ScanFrom(b: Block, c: Block, off: nat)
    requires forall k :: off <= k < BS ==> b[k] == c[k]
    ensures Entries(b, off) == Entries(c, off) && (Tiled(b, off) <==> Tiled(c, off))
    decreases BS - off
  {
    if off + 8 <= BS {
      assert b[off + 8..] == c[off + 8..];
      SameRecord(b, c, off);
      if Rlen(b, off) >= 1 {
        ScanFrom(b, c, off + Rlen(b, off));
      }
    }
  }

  /** Two blocks that agree on a record's bytes agree on the record. */
  lemma SameRecord(b: Block, c: Block, off: nat)
    requires off + 8 <= BS && forall k :: off <= k < off + 8 ==> b[k] == c[k]
    ensures Ino(b, off) == Ino(c, off) && Rlen(b, off) == Rlen(c, off) && Nlen(b, off) == Nlen(c, off)
    ensures (forall k :: off <= k < off + 8 + Nlen(b, off) && k < BS ==> b[k] == c[k]) ==>
      EntAt(b, off) == EntAt(c, off) && (RecordOk(b, off) <==> RecordOk(c, off))
  {
    if (forall k :: off <= k < off + 8 + Nlen(b, off) && k < BS ==> b[k] == c[k]) && off + 8 + Nlen(b, off) <= BS {
      assert b[off + 8..off + 8 + Nlen(b, off)] == c[off + 8..off + 8 + Nlen(b, off)];
    }
  }

  /** A good record in front of tiled records. */
  lemma Cons(b: Block, off: nat)
    requires off + 8 <= BS && RecordOk(b, off)
    ensures !Stops(b, off) && Entries(b, off) == EntAt(b, off) + Entries(b, off + Rlen(b, off))
    ensures Tiled(b, off) <==> Tiled(b, off + Rlen(b, off))
  {
    hide Ino, Rlen, Nlen, EntAt;
  }

  /** The record PutRecord stores. */
  lemma RecordStored(b: Block, off: nat, ino: nat, rlen: nat, kind: byte, name: seq<byte>)
    requires 8 + |name| <= rlen <= BS - off && off + rlen <= BS && rlen % 4 == 0 && 0 < ino < U32 && 0 < |name| < 256 && NoNul(name)
    ensures var r := PutRecord(b, off, ino, rlen, kind, name);
      RecordOk(r, off) && EntAt(r, off) == [Ent(ino, name)] && Rlen(r, off) == rlen &&
      Entries(r, off) == [Ent(ino, name)] + Entries(b, off + rlen) && (Tiled(r, off) <==> Tiled(b, off + rlen))
  {
    hide PutRecord, Ino, Rlen, Nlen;
    var r := PutRecord(b, off, ino, rlen, kind, name);
    assert RecordOk(r, off) && EntAt(r, off) == [Ent(ino, name)];
    hide RecordOk, EntAt;
    Cons(r, off);
    ScanFrom(b, r, off + rlen);
  }

  /** Room for a rounded record is room for the record, within the block. */
  lemma FitsRoom(b: Block, off: nat, name: seq<byte>)
    requires off + 8 <= BS && RecordOk(b, off) && Fits(b, off, Round4(8 + |name|))
    ensures Ino(b, off) == 0 ==> 8 + |name| <= Rlen(b, off)
    ensures Ino(b, off) != 0 ==> 8 + Nlen(b, off) <= Used(b, off) < Rlen(b, off) && 8 + |name| <= Rlen(b, off) - Used(b, off) && Used(b, off) % 4 == 0
  {
    hide Ino, Rlen, Nlen, Live;
  }

  lemma InsertIs(b: Block, off: nat, ino: nat, kind: byte, name: seq<byte>)
    requires !Stops(b, off) && Fits(b, off, Round4(8 + |name|)) && ino < U32 && |name| < 256
    requires Ino(b, off) == 0 ==> off + 8 + |name| <= BS
    requires Ino(b, off) != 0 ==> off + Used(b, off) + 8 + |name| <= BS && Used(b, off) < Rlen(b, off) < U16
    ensures Ino(b, off) == 0 ==> Insert(b, off, ino, kind, name) == PutRecord(b, off, ino, Rlen(b, off), kind, name)
    ensures Ino(b, off) != 0 ==>
      Insert(b, off, ino, kind, name) == PutRecord(Put16(b, off + 4, Used(b, off)), off + Used(b, off), ino, Rlen(b, off) - Used(b, off), kind, name)
  {
    hide PutRecord, Ino, Rlen, Nlen, Round4, Put16;
  }

  /** Filling a hole. */
  lemma InsertHole(b: Block, off: nat, ino: nat, kind: byte, name: seq<byte>)
    requires Tiled(b, off) && off + 8 <= BS && Ino(b, off) == 0 && Fits(b, off, Round4(8 + |name|))
    requires 0 < ino < U32 && 0 < |name| < 256 && NoNul(name)
    ensures !Stops(b, off)
    ensures Tiled(Insert(b, off, ino, kind, name), off) && Entries(Insert(b, off, ino, kind, name), off) == [Ent(ino, name)] + Entries(b, off)
  {
    hide PutRecord, Ino, Rlen, Nlen, Fits, Round4, Entries, Insert, NoNul;
    Cons(b, off);
    FitsRoom(b, off, name);
    RecordStored(b, off, ino, Rlen(b, off), kind, name);
    assert EntAt(b, off) == [];
    InsertIs(b, off, ino, kind, name);
  }

  /** Cutting a record to the size of its entry. */
  lemma CutRecord(b: Block, off: nat, used: nat)
    requires off + 8 <= BS && RecordOk(b, off) && 8 + Nlen(b, off) <= used <= Rlen(b, off) && used % 4 == 0
    ensures var c := Put16(b, off + 4, used);
      RecordOk(c, off) && EntAt(c, off) == EntAt(b, off) && Rlen(c, off) == used && Ino(c, off) == Ino(b, off) && Nlen(c, off) == Nlen(b, off)
  {
    var c := Put16(b, off + 4, used);
    assert Ino(c, off) == Ino(b, off) && Nlen(c, off) == Nlen(b, off) && Rlen(c, off) == used;
    hide Ino, Rlen, Nlen, Put16;
    if Live(b, off) {
      assert c[off + 8..off + 8 + Nlen(b, off)] == b[off + 8..off + 8 + Nlen(b, off)];
    }
  }

  /** Splitting the slack of a live record. */
  lemma InsertSlack(b: Block, off: nat, ino: nat, kind: byte, name: seq<byte>)
    requires Tiled(b, off) && off + 8 <= BS && Ino(b, off) != 0 && Fits(b, off, Round4(8 + |name|))
    requires 0 < ino < U32 && 0 < |name| < 256 && NoNul(name)
    ensures !Stops(b, off)
    ensures Tiled(Insert(b, off, ino, kind, name), off)
    ensures Entries(Insert(b, off, ino, kind, name), off) == EntAt(b, off) + [Ent(ino, name)] + Entries(b, off + Rlen(b, off))
  {
    hide PutRecord, Ino, Rlen, Nlen, Fits, Round4, Entries, Insert, NoNul, EntAt, Put16, Used;
    Cons(b, off);
    FitsRoom(b, off, name);
    InsertIs(b, off, ino, kind, name);
    SplitRecord(b, off, Used(b, off), ino, kind, name);
  }

  /** A record cut to `used` bytes, with a new record behind it. */
  lemma SplitRecord(b: Block, off: nat, used: nat, ino: nat, kind: byte, name: seq<byte>)
    requires off + 8 <= BS && RecordOk(b, off) && 8 + Nlen(b, off) <= used < Rlen(b, off) && used % 4 == 0
    requires 8 + |name| <= Rlen(b, off) - used && 0 < ino < U32 && 0 < |name| < 256 && NoNul(name) && Tiled(b, off + Rlen(b, off))
    ensures var r := PutRecord(Put16(b, off + 4, used), off + used, ino, Rlen(b, off) - used, kind, name);
      Tiled(r, off) && Entries(r, off) == EntAt(b, off) + [Ent(ino, name)] + Entries(b, off + Rlen(b, off))
  {
    hide PutRecord, Ino, Rlen, Nlen, Entries, NoNul, EntAt, Put16, Tiled, Live;
    var rlen := Rlen(b, off);
    var c := Put16(b, off + 4, used);
    CutRecord(b, off, used);
    var r := PutRecord(c, off + used, ino, rlen - used, kind, name);
    assert rlen % 4 == 0 && off + rlen <= BS;
    hide RecordOk;
    RecordBefore(c, r, off);
    Cons(r, off);
    RecordStored(c, off + used, ino, rlen - used, kind, name);
    ScanFrom(b, c, off + rlen);
    assert EntAt(b, off) + ([Ent(ino, name)] + Entries(b, off + rlen)) == EntAt(b, off) + [Ent(ino, name)] + Entries(b, off + rlen);
  }

  /** Insertion at the first place with room keeps the tiling and adds exactly one entry,
      the new one, somewhere in the scan order. */
  lemma {:induction false} InsertKeeps(b: Block, off: nat, ino: nat, kind: byte, name: seq<byte>) returns (k: nat)
    requires Tiled(b, off) && 0 < ino < U32 && 0 < |name| < 256 && NoNul(name)
    requires Place(b, off, Round4(8 + |name|)) < BS
    ensures var r := Insert(b, Place(b, off, Round4(8 + |name|)), ino, kind, name);
      k <= |Entries(b, off)| && Tiled(r, off) && Entries(r, off) == Entries(b, off)[..k] + [Ent(ino, name)] + Entries(b, off)[k..]
    decreases BS - off
  {
    hide PutRecord, Ino, Rlen, Nlen, Round4, Entries, Insert, NoNul, EntAt, Fits;
    var need := Round4(8 + |name|);
    var p := Place(b, off, need);
    if p == off {
      if Ino(b, off) == 0 {
        InsertHole(b, off, ino, kind, name);
        k := 0;
      } else {
        InsertSlack(b, off, ino, kind, name);
        Cons(b, off);
        k := |EntAt(b, off)|;
      }
    } else {
      PlaceAfter(b, off, need);
      k := InsertLater(b, off, p, ino, kind, name);
    }
  }

  /** Insertion behind the first record. */
  lemma {:induction false} InsertLater(b: Block, off: nat, p: nat, ino: nat, kind: byte, name: seq<byte>) returns (k: nat)
    requires Tiled(b, off) && 0 < ino < U32 && 0 < |name| < 256 && NoNul(name)
    requires off < BS && p == Place(b, off, Round4(8 + |name|)) == Place(b, off + Rlen(b, off), Round4(8 + |name|)) && off + Rlen(b, off) <= p < BS
    ensures k <= |Entries(b, off)| && Tiled(Insert(b, p, ino, kind, name), off)
    ensures Entries(Insert(b, p, ino, kind, name), off) == Entries(b, off)[..k] + [Ent(ino, name)] + Entries(b, off)[k..]
    decreases BS - off, 0
  {
    hide PutRecord, Ino, Rlen, Nlen, Round4, Fits, EntAt, Insert, Entries, Place, NoNul;
    var next := off + Rlen(b, off);
    var j := InsertKeeps(b, next, ino, kind, name);
    var r := Insert(b, p, ino, kind, name);
    InsertOutside(b, p, ino, kind, name);
    Cons(b, off);
    RecordBefore(b, r, off);
    Cons(r, off);
    hide Tiled, RecordOk;
    k := |EntAt(b, off)| + j;
    var e, rest := EntAt(b, off), Entries(b, next);
    assert (e + rest)[..k] == e + rest[..j] && (e + rest)[k..] == rest[j..];
  }

  /** Insertion changes no byte before its record. */
  lemma InsertOutside(b: Block, p: nat, ino: nat, kind: byte, name: seq<byte>)
    requires !Stops(b, p) && Fits(b, p, Round4(8 + |name|)) && ino < U32 && |name| < 256
    ensures forall x :: 0 <= x < p ==> Insert(b, p, ino, kind, name)[x] == b[x]
  {
    hide PutRecord, Put16, Ino, Rlen, Nlen;
  }

  /** A record whose bytes did not change is the same record. */
  lemma RecordBefore(b: Block, c: Block, off: nat)
    requires off + 8 <= BS && RecordOk(b, off) && forall x :: off <= x < off + Rlen(b, off) ==> b[x] == c[x]
    ensures RecordOk(c, off) && EntAt(c, off) == EntAt(b, off) && Rlen(c, off) == Rlen(b, off)
  {
    SameRecord(b, c, off);
  }

  lemma PlaceAfter(b: Block, off: nat, need: nat)
    requires Tiled(b, off) && off < Place(b, off, need) < BS
    ensures off + Rlen(b, off) <= Place(b, off, need) && Place(b, off, need) == Place(b, off + Rlen(b, off), need)
  {
  }

  lemma FreshKeeps(ino: nat, kind: byte, name: seq<byte>)
    requires 0 < ino < U32 && 0 < |name| < 256 && NoNul(name)
    ensures Tiled(FreshBlock(ino, kind, name), 0) && Entries(FreshBlock(ino, kind, name), 0) == [Ent(ino, name)]
  {
    var b := FreshBlock(ino, kind, name);
    assert EntAt(b, 0) == [Ent(ino, name)] && RecordOk(b, 0);
    assert Tiled(b, BS) && Entries(b, BS) == [];
  }

  // ---------------------------------------------------------------- lookup in a listing

  /** A name as the driver compares it: up to the first NUL. */
  function CString(name: seq<byte>): (s: seq<byte>)
    ensures NoNul(s) && (NoNul(name) ==> s == name)
  {
    if name == [] || name[0] == 0 then [] else [name[0]] + CString(name[1..])
  }

  /** A path component matches an entry of at most 63 bytes. */
  predicate Matches(e: Ent, comp: seq<byte>) { |e.name| <= 63 && CString(e.name) == comp }

  /** The first entry that a component matches, or the end of the listing. */
  function First(list: seq<Ent>, comp: seq<byte>): (k: nat)
    ensures k <= |list| && (k < |list| ==> Matches(list[k], comp))
    ensures forall j :: 0 <= j < k ==> !Matches(list[j], comp)
  {
    if list == [] || Matches(list[0], comp) then 0 else 1 + First(list[1..], comp)
  }

  /** The binding of a component: the inode number of its first entry, or 0. */
  function Binding(list: seq<Ent>, comp: seq<byte>): nat {
    var k := First(list, comp);
    if k < |list| then list[k].ino else 0
  }

  lemma FirstUnique(list: seq<Ent>, comp: seq<byte>, k: nat)
    requires k <= |list| && (k < |list| ==> Matches(list[k], comp))
    requires forall j :: 0 <= j < k ==> !Matches(list[j], comp)
    ensures First(list, comp) == k
  {
    var f := First(list, comp);
    assert !(f < k) && !(k < f);
  }

  /** list2 is list with one entry more. */
  ghost predicate OneMore(list: seq<Ent>, list2: seq<Ent>, e: Ent) {
    exists k :: 0 <= k <= |list| && list2 == list[..k] + [e] + list[k..]
  }

  /** An entry that does not match leaves the first match where it was, or one later. */
  lemma FirstOther(list: seq<Ent>, k: nat, e: Ent, comp: seq<byte>)
    requires k <= |list| && !Matches(e, comp)
    ensures Binding(list[..k] + [e] + list[k..], comp) == Binding(list, comp)
  {
    hide Matches, First;
    var f := First(list, comp);
    FirstUnique(list[..k] + [e] + list[k..], comp, if f < k then f else f + 1);
  }

  /** Adding an entry.  A component that does not match it is bound as before; one that
      matches it is bound to it, or to an entry met earlier. */
  lemma BindingInserted(list: seq<Ent>, list2: seq<Ent>, e: Ent, comp: seq<byte>)
    requires OneMore(list, list2, e)
    ensures !Matches(e, comp) ==> Binding(list2, comp) == Binding(list, comp)
    ensures Matches(e, comp) ==> Binding(list2, comp) == e.ino || (First(list, comp) < |list| && Binding(list2, comp) == Binding(list, comp))
  {
    hide First, Matches;
    var k :| 0 <= k <= |list| && list2 == list[..k] + [e] + list[k..];
    if !Matches(e, comp) {
      FirstOther(list, k, e, comp);
    } else {
      var f := First(list, comp);
      FirstUnique(list2, comp, if f < k then f else k);
    }
  }
}
