/** Where an inode keeps the physical block of a logical one, byte for byte. */
module Ext2Layout {
  import opened Bytes
  import opened Radix
  import opened Ext2Tree
  import opened Ext2Disk
  import opened Ext2Alloc
  import opened Ext2Truncate
  import opened Ext2Inode
  import opened Ext2Bmap

  /** The 32-bit word number i of block p; a table that is not there has only holes. */
  function Entry(v: Vol, p: nat, i: nat): nat
  {
    if p == 0 || p >= |v.disk| || 4 * i + 4 > |v.disk[p]| then 0 else WordAt(v.disk[p], 4 * i)
  }

  lemma {:induction false} DecodeAt(b: Block, i: nat)
    requires |b| % 4 == 0 && 4 * i + 4 <= |b|
    ensures Decode(b)[i] == WordAt(b, 4 * i)
  {
    if 4 * i + 4 < |b| {
      DecodeAt(b[..|b| - 4], i);
    }
  }

  lemma DataLookup(v: Vol, p: nat)
    requires v.geo.a > 0
    ensures Shape(TreeOf(v.disk, v.geo.a, 0, p), v.geo.a, 0) && Pow(v.geo.a, 0) == 1
    ensures Lookup(TreeOf(v.disk, v.geo.a, 0, p), v.geo.a, 0, 0) == p
  {
  }

  /** One level of tables: entry i covers the offsets from i times the span of an entry on. */
  lemma EntryLookup(v: Vol, p: nat, level: nat, i: nat, r: nat, off: nat)
    requires v.geo.a > 0 && level > 0 && Shape(TreeOf(v.disk, v.geo.a, level, p), v.geo.a, level)
    requires r < Pow(v.geo.a, level - 1) && off == Offset(i, Pow(v.geo.a, level - 1)) + r < Pow(v.geo.a, level)
    ensures Shape(TreeOf(v.disk, v.geo.a, level - 1, Entry(v, p, i)), v.geo.a, level - 1)
    ensures Lookup(TreeOf(v.disk, v.geo.a, level, p), v.geo.a, level, off) ==
            Lookup(TreeOf(v.disk, v.geo.a, level - 1, Entry(v, p, i)), v.geo.a, level - 1, r)
  {
    hide Decode, TreesOf, Offset, Digit, Rest, WordAt;
    var a, inc := v.geo.a, Pow(v.geo.a, level - 1);
    Join(i, r, inc);
    if p != 0 {
      Split(off, a, inc);
      DecodeAt(v.disk[p], i);
      TreesAt(v.disk, a, level - 1, Decode(v.disk[p]), i);
      ShapeAt(TreesOf(v.disk, a, level - 1, Decode(v.disk[p])), a, level - 1, i);
    }
  }

  lemma OneTable(v: Vol, p: nat, off: nat)
    requires v.geo.a > 0 && Shape(TreeOf(v.disk, v.geo.a, 1, p), v.geo.a, 1) && off < Pow(v.geo.a, 1)
    ensures Lookup(TreeOf(v.disk, v.geo.a, 1, p), v.geo.a, 1, off) == Entry(v, p, off)
  {
    hide *;
    DataLookup(v, 0);
    IsProduct(off, 1);
    EntryLookup(v, p, 1, off, 0, off);
    DataLookup(v, Entry(v, p, off));
  }

  lemma Once(a: nat)
    ensures Pow(a, 1) == a
  {
    IsPower(a);
  }

  lemma TwoTables(v: Vol, p: nat, off: nat)
    requires v.geo.a > 0 && Shape(TreeOf(v.disk, v.geo.a, 2, p), v.geo.a, 2) && off < Pow(v.geo.a, 2)
    ensures var a := v.geo.a;
      Lookup(TreeOf(v.disk, a, 2, p), a, 2, off) == Entry(v, Entry(v, p, Digit(off, a)), Rest(off, a))
  {
    hide *;
    var a := v.geo.a;
    Once(a);
    Split(off, off + 1, a) by { IsProduct(off + 1, a); }
    EntryLookup(v, p, 2, Digit(off, a), Rest(off, a), off);
    OneTable(v, Entry(v, p, Digit(off, a)), Rest(off, a));
  }

  lemma ThreeTables(v: Vol, p: nat, off: nat, inc: nat)
    requires v.geo.a > 0 && Shape(TreeOf(v.disk, v.geo.a, 3, p), v.geo.a, 3) && off < Pow(v.geo.a, 3)
    requires inc == Pow(v.geo.a, 2) > 0
    ensures var a := v.geo.a;
      Lookup(TreeOf(v.disk, a, 3, p), a, 3, off) ==
      Entry(v, Entry(v, Entry(v, p, Digit(off, inc)), Digit(Rest(off, inc), a)), Rest(Rest(off, inc), a))
  {
    hide *;
    var a := v.geo.a;
    Split(off, off + 1, inc) by { IsProduct(off + 1, inc); }
    EntryLookup(v, p, 3, Digit(off, inc), Rest(off, inc), off);
    TwoTables(v, Entry(v, p, Digit(off, inc)), Rest(off, inc));
  }

  /** The slot and offset of a block, in the four ranges of the format. */
  lemma Ranges(a: nat, k: nat)
    requires k < LevelBase(a, 4)
    ensures LevelBase(a, 1) == 12
    ensures var j, s, q := LevelOf(a, k), SlotOf(a, k), OffsetOf(a, k);
      if k < 12 then j == 0 && s == k && q == 0
      else if k < LevelBase(a, 2) then j == 1 && s == 12 && q == k - LevelBase(a, 1)
      else if k < LevelBase(a, 3) then j == 2 && s == 13 && q == k - LevelBase(a, 2)
      else j == 3 && s == 14 && q == k - LevelBase(a, 3)
  {
    LevelBases(a);
  }

  /**
   The words of the format that lead to the physical block of k. A direct block
   is a word of the inode. The others are words of tables, reached by the digits
   of the offset in base a, the most significant one first; LevelBases and
   IsDivMod give ranges and digits as numbers.
   */
  function Place(v: Vol, slots: seq<nat>, k: nat): nat
    requires |slots| == NSLOTS && v.geo.a > 0
  {
    var a := v.geo.a;
    if k < 12 then slots[k]
    else if k < LevelBase(a, 2) then Entry(v, slots[12], k - 12)
    else if k < LevelBase(a, 3) then
      var q := k - LevelBase(a, 2);
      Entry(v, Entry(v, slots[13], Digit(q, a)), Rest(q, a))
    else
      var q := k - LevelBase(a, 3);
      PowPositive(a, 2);
      var inc := Pow(a, 2);
      Entry(v, Entry(v, Entry(v, slots[14], Digit(q, inc)), Digit(Rest(q, inc), a)), Rest(Rest(q, inc), a))
  }

  /** The map of a well-formed inode is what the format says. */
  lemma Layout(v: Vol, slots: seq<nat>, k: nat)
    requires InodeCheck(v, slots) && k < LevelBase(v.geo.a, 4)
    ensures v.geo.a > 0 && Map(v, slots, k) == Place(v, slots, k)
  {
    hide Map, TreeOf, Lookup, Shape, Offset, Pow, Entry, ReadyOne, Digit, Rest, LevelBase, LevelOf, SlotOf, OffsetOf;
    var j, s, q, t := BmapTree(v, slots, k);
    var a := v.geo.a;
    Ranges(a, k);
    PowPositive(a, 2);
    if j == 0 {
      DataLookup(v, slots[s]);
    } else if j == 1 {
      OneTable(v, slots[s], q);
    } else if j == 2 {
      TwoTables(v, slots[s], q);
    } else {
      ThreeTables(v, slots[s], q, Pow(a, 2));
    }
  }
}
