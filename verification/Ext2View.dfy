/** The data blocks of an inode: what a logical block holds. */
module Ext2View {
  import opened Bytes
  import opened Errors
  import opened Radix
  import opened Ext2Tree
  import opened Ext2Disk
  import opened Ext2Alloc
  import opened Ext2Truncate
  import opened Ext2Inode
  import opened Ext2Bmap

  // ----- A mapped block is a data block of exactly one logical block -----

  lemma LookupIsFind(t: Tree, a: nat, level: nat, off: nat)
    requires a > 0 && Shape(t, a, level) && t.Ind? && off < Pow(a, level)
    ensures level > 0 && ShapeAll(t.kids, a, level - 1) && off < Offset(|t.kids|, Pow(a, level - 1))
    ensures Lookup(t, a, level, off) == Find(t.kids, a, level - 1, off)
  {
    LookupKid(t, a, level, off);
  }

  /** Where Find looks. */
  lemma FindTree(ts: seq<Tree>, a: nat, level: nat, off: nat) returns (i: nat, r: nat)
    requires a > 0 && ShapeAll(ts, a, level) && off < Offset(|ts|, Pow(a, level))
    ensures Pow(a, level) > 0 && i == Digit(off, Pow(a, level)) < |ts| && r == Rest(off, Pow(a, level)) < Pow(a, level)
    ensures Shape(ts[i], a, level) && Find(ts, a, level, off) == Lookup(ts[i], a, level, r)
  {
    hide Offset, Pow;
    PowPositive(a, level);
    Split(off, |ts|, Pow(a, level));
    i, r := Digit(off, Pow(a, level)), Rest(off, Pow(a, level));
    ShapeAt(ts, a, level, i);
  }

  /** A mapped block is owned but is not an indirect block. */
  lemma {:induction false} LookupData(t: Tree, a: nat, level: nat, off: nat)
    requires a > 0 && Shape(t, a, level) && Separate(t) && off < Pow(a, level)
    requires Lookup(t, a, level, off) != 0
    ensures Lookup(t, a, level, off) in Own(t) - Meta(t)
    decreases level, 0
  {
    hide Offset, Pow;
    if t.Ind? {
      LookupIsFind(t, a, level, off);
      FindData(t.kids, a, level - 1, off);
    }
  }

  lemma {:induction false} FindData(ts: seq<Tree>, a: nat, level: nat, off: nat)
    requires a > 0 && ShapeAll(ts, a, level) && SeparateAll(ts) && off < Offset(|ts|, Pow(a, level))
    requires Find(ts, a, level, off) != 0
    ensures Find(ts, a, level, off) in OwnAll(ts) - MetaAll(ts)
    decreases level, 1
  {
    hide *;
    var i, r := FindTree(ts, a, level, off);
    SeparateAt(ts, i);
    LookupData(ts[i], a, level, r);
    OwnAt(ts, i);
    OwnedOnce(ts, i, Find(ts, a, level, off));
  }

  /** What tree i owns and does not use as an indirect block is nobody's indirect block. */
  lemma {:induction false} OwnedOnce(ts: seq<Tree>, i: nat, b: nat)
    requires SeparateAll(ts) && i < |ts| && b in Own(ts[i]) - Meta(ts[i])
    ensures b !in MetaAll(ts)
  {
    var n := |ts| - 1;
    if i < n {
      OwnedOnce(ts[..n], i, b);
      OwnAt(ts[..n], i);
      MetaOwned(ts[n]);
    } else {
      MetaAllOwned(ts[..n]);
    }
  }

  /** No two offsets map to the same block. */
  lemma {:induction false} LookupInjective(t: Tree, a: nat, level: nat, off: nat, off': nat)
    requires a > 0 && Shape(t, a, level) && Separate(t) && off < Pow(a, level) && off' < Pow(a, level)
    requires Lookup(t, a, level, off) == Lookup(t, a, level, off') != 0
    ensures off == off'
    decreases level, 0
  {
    if t.Ind? {
      LookupIsFind(t, a, level, off);
      LookupIsFind(t, a, level, off');
      FindInjective(t.kids, a, level - 1, off, off');
    }
  }

  lemma {:induction false} FindInjective(ts: seq<Tree>, a: nat, level: nat, off: nat, off': nat)
    requires a > 0 && ShapeAll(ts, a, level) && SeparateAll(ts)
    requires off < Offset(|ts|, Pow(a, level)) && off' < Offset(|ts|, Pow(a, level))
    requires Find(ts, a, level, off) == Find(ts, a, level, off') != 0
    ensures off == off'
    decreases level, 1
  {
    hide *;
    var i, r := FindTree(ts, a, level, off);
    var i', r' := FindTree(ts, a, level, off');
    SeparateAt(ts, i);
    SeparateAt(ts, i');
    LookupData(ts[i], a, level, r);
    LookupData(ts[i'], a, level, r');
    if i == i' {
      LookupInjective(ts[i], a, level, r, r');
      SameDigits(off, off', |ts|, Pow(a, level));
    } else {
      DisjointAt(ts, if i < i' then i else i', if i < i' then i' else i);
      assert false;
    }
  }

  // ----- The inode -----

  /** Block b is owned by level j and is no indirect block of the inode. */
  predicate IsData(v: Vol, slots: seq<nat>, j: nat, b: nat)
  {
    && |slots| == NSLOTS && j < 4 && b in Used(v) && b in OwnAll(Level(v, slots, j))
    && (forall h :: 0 <= h < 4 ==> b !in MetaAll(Level(v, slots, h)))
  }

  lemma MapFind(v: Vol, slots: seq<nat>, n: nat) returns (j: nat, off: nat)
    requires InodeCheck(v, slots) && n < LevelBase(v.geo.a, 4)
    ensures j == LevelOf(v.geo.a, n) && n == LevelBase(v.geo.a, j) + off
    ensures v.geo.a > 0 && ShapeAll(Level(v, slots, j), v.geo.a, j) && SeparateAll(Level(v, slots, j))
    ensures OwnAll(Level(v, slots, j)) <= Used(v)
    ensures off < Offset(|Level(v, slots, j)|, Pow(v.geo.a, j))
    ensures Map(v, slots, n) == Find(Level(v, slots, j), v.geo.a, j, off)
  {
    hide TreesOf, Decode, Offset, Pow;
    j := LevelOf(v.geo.a, n);
    MapIs(v, slots, j, n, LevelBase(v.geo.a, j));
    LevelReady(v, slots, j);
    off := n - LevelBase(v.geo.a, j);
  }

  lemma MapData(v: Vol, slots: seq<nat>, n: nat)
    requires InodeCheck(v, slots) && n < LevelBase(v.geo.a, 4) && Map(v, slots, n) != 0
    ensures IsData(v, slots, LevelOf(v.geo.a, n), Map(v, slots, n))
  {
    hide TreesOf, Decode, Offset, Pow;
    var j, off := MapFind(v, slots, n);
    FindData(Level(v, slots, j), v.geo.a, j, off);
    DataApart(v, slots, j, Map(v, slots, n));
  }

  lemma DataApart(v: Vol, slots: seq<nat>, j: nat, b: nat)
    requires InodeCheck(v, slots) && j < 4 && b in OwnAll(Level(v, slots, j)) - MetaAll(Level(v, slots, j))
    ensures IsData(v, slots, j, b)
  {
    hide TreesOf, Decode, Offset;
    LevelReady(v, slots, j);
    forall h | 0 <= h < 4
      ensures b !in MetaAll(Level(v, slots, h))
    {
      MetaAllOwned(Level(v, slots, h));
      if h != j {
        assert OwnAll(Level(v, slots, h)) !! OwnAll(Level(v, slots, j));
      }
    }
  }

  /** No two logical blocks map to the same physical block. */
  lemma MapInjective(v: Vol, slots: seq<nat>, n: nat, n': nat)
    requires InodeCheck(v, slots) && n < LevelBase(v.geo.a, 4) && n' < LevelBase(v.geo.a, 4)
    requires Map(v, slots, n) == Map(v, slots, n') != 0
    ensures n == n'
  {
    hide TreesOf, Decode, Offset, Pow;
    var j, off := MapFind(v, slots, n);
    var j', off' := MapFind(v, slots, n');
    FindData(Level(v, slots, j), v.geo.a, j, off);
    FindData(Level(v, slots, j'), v.geo.a, j', off');
    if j == j' {
      FindInjective(Level(v, slots, j), v.geo.a, j, off, off');
    } else {
      assert false;
    }
  }

  /** The content of logical block n, zeros for a hole. */
  function View(v: Vol, slots: seq<nat>, n: nat): (b: Block)
    requires InodeCheck(v, slots)
    ensures |b| == 4 * v.geo.a
  {
    if n < LevelBase(v.geo.a, 4) && 0 != Map(v, slots, n) < |v.disk| then v.disk[Map(v, slots, n)]
    else Zeros(4 * v.geo.a)
  }

  /** Trees of all levels survive a write to a block that is none of their indirect blocks. */
  lemma DataWritten(v: Vol, slots: seq<nat>, j: nat, b: nat, block: Block, v': Vol)
    requires InodeCheck(v, slots) && IsData(v, slots, j, b) && b < |v.disk| && |block| == 4 * v.geo.a
    requires v' == v.(disk := v.disk[b := block])
    ensures forall h :: 0 <= h < 4 ==> Level(v', slots, h) == Level(v, slots, h)
    ensures InodeCheck(v', slots) && Used(v') == Used(v)
  {
    hide TreesOf, Decode, Offset;
    DiskUpdateOk(v, b, block);
    forall h | 0 <= h < 4
      ensures Level(v', slots, h) == Level(v, slots, h)
    {
      LevelReady(v, slots, h);
      TreesKept(v.disk, v'.disk, v.geo.a, h, LevelSlots(slots, h), {b});
    }
  }

  /** Writing the block that k maps to changes what k holds, and nothing else. */
  lemma ViewWritten(v: Vol, slots: seq<nat>, k: nat, block: Block, v': Vol, n: nat)
    requires InodeCheck(v, slots) && k < LevelBase(v.geo.a, 4) && |block| == 4 * v.geo.a
    requires 0 != Map(v, slots, k) < |v.disk| && v' == v.(disk := v.disk[Map(v, slots, k) := block])
    ensures InodeCheck(v', slots)
    ensures n < LevelBase(v.geo.a, 4) ==> Map(v', slots, n) == Map(v, slots, n)
    ensures View(v', slots, n) == if n == k then block else View(v, slots, n)
  {
    hide TreesOf, Decode, Offset, Pow;
    MapData(v, slots, k);
    DataWritten(v, slots, LevelOf(v.geo.a, k), Map(v, slots, k), block, v');
    if n < LevelBase(v.geo.a, 4) {
      MapSame(v, slots, v', slots, n);
      if n != k && Map(v, slots, n) == Map(v, slots, k) {
        MapInjective(v, slots, n, k);
      }
    }
  }

  /** Data survives a change below one slot. */
  lemma DataKept(v: Vol, slots: seq<nat>, h: nat, b: nat, v': Vol, k: nat, t: Tree, t': Tree, f: set<nat>)
    requires InodeCheck(v, slots) && IsData(v, slots, h, b) && k < LevelBase(v.geo.a, 4) && b < |v.disk|
    requires t == TreeOf(v.disk, v.geo.a, LevelOf(v.geo.a, k), slots[SlotOf(v.geo.a, k)])
    requires Moved(v, v', t, t', LevelOf(v.geo.a, k), f)
    ensures |v'.disk| == |v.disk| && v'.disk[b] == v.disk[b]
  {
    hide TreesOf, Decode, Offset, Pow;
    var j, i, s := LevelOf(v.geo.a, k), IndexOf(k), SlotOf(v.geo.a, k);
    BlockAt(v.geo.a, k);
    SlotLevels(slots, j, i, s, 0);
    TreesAt(v.disk, v.geo.a, j, LevelSlots(slots, j), i);
    OwnAt(Level(v, slots, j), i);
  }

  /** The physical block of n, if any, is inside the volume. */
  lemma MapInside(v: Vol, slots: seq<nat>, n: nat)
    requires InodeCheck(v, slots) && n < LevelBase(v.geo.a, 4)
    ensures Map(v, slots, n) < |v.disk|
  {
    hide TreesOf, Decode, Offset, Pow;
    if Map(v, slots, n) != 0 {
      MapData(v, slots, n);
    }
  }

  lemma BmapDataKept(v: Vol, iblocks: int, slots: seq<nat>, alloc: bool, k: nat, goal: nat, m: Mapped, n: nat)
    requires InodeCheck(v, slots) && m == Bmap(v, iblocks, slots, false, alloc, k, 0, goal)
    requires n < LevelBase(v.geo.a, 4) && Map(v, slots, n) != 0
    ensures Map(v, slots, n) < |v.disk| == |m.vol.disk| && m.vol.disk[Map(v, slots, n)] == v.disk[Map(v, slots, n)]
  {
    hide TreesOf, Decode, Encode, Offset, Pow;
    MapInside(v, slots, n);
    if !TooBig(v.geo.a, k) {
      MapData(v, slots, n);
      var x, t', f := BmapSlot(v, iblocks, slots, false, alloc, k, 0, goal, n, m);
      DataKept(v, slots, LevelOf(v.geo.a, n), Map(v, slots, n), m.vol, k,
               TreeOf(v.disk, v.geo.a, LevelOf(v.geo.a, k), slots[SlotOf(v.geo.a, k)]), t', f);
    }
  }

  /** A lookup or an allocation, successful or not, changes what no logical block holds. */
  lemma BmapView(v: Vol, iblocks: int, slots: seq<nat>, alloc: bool, k: nat, goal: nat, m: Mapped, n: nat)
    requires InodeCheck(v, slots) && m == Bmap(v, iblocks, slots, false, alloc, k, 0, goal)
    ensures InodeCheck(m.vol, m.slots)
    ensures View(m.vol, m.slots, n) == View(v, slots, n)
  {
    hide TreesOf, Decode, Encode, Offset, Pow;
    var f := BmapKeeps(v, iblocks, slots, alloc, k, goal, m);
    if n < LevelBase(v.geo.a, 4) {
      BmapMaps(v, iblocks, slots, false, alloc, k, 0, goal, n, m);
      MapInside(m.vol, m.slots, n);
      if Map(v, slots, n) != 0 {
        BmapDataKept(v, iblocks, slots, alloc, k, goal, m, n);
        BmapStays(v, iblocks, slots, alloc, k, goal, m, n);
      } else if n == k && m.ret == Ok {
        BmapHole(v, iblocks, slots, alloc, k, goal, m);
      }
    }
  }

  /** A mapped block stays where it is. */
  lemma BmapStays(v: Vol, iblocks: int, slots: seq<nat>, alloc: bool, k: nat, goal: nat, m: Mapped, n: nat)
    requires InodeCheck(v, slots) && m == Bmap(v, iblocks, slots, false, alloc, k, 0, goal)
    requires n < LevelBase(v.geo.a, 4) && Map(v, slots, n) != 0
    ensures Shaped(m.vol, m.slots) && Map(m.vol, m.slots, n) == Map(v, slots, n)
  {
    hide TreesOf, Decode, Encode, Offset, Pow;
    BmapMaps(v, iblocks, slots, false, alloc, k, 0, goal, n, m);
    if n == k && m.ret == Ok {
      BmapReads(v, iblocks, slots, alloc, k, goal);
    }
  }

  /** A hole stays a hole or becomes a zeroed block. */
  lemma BmapHole(v: Vol, iblocks: int, slots: seq<nat>, alloc: bool, k: nat, goal: nat, m: Mapped)
    requires InodeCheck(v, slots) && m == Bmap(v, iblocks, slots, false, alloc, k, 0, goal) && m.ret == Ok
    requires k < LevelBase(v.geo.a, 4) && Map(v, slots, k) == 0
    ensures m.phys == 0 || (m.phys < |m.vol.disk| && m.vol.disk[m.phys] == Zeros(4 * v.geo.a))
  {
    hide TreesOf, Decode, Encode, Offset, Pow;
    if alloc {
      BmapAllocates(v, iblocks, slots, k, goal, m);
    } else {
      BmapReads(v, iblocks, slots, alloc, k, goal);
    }
  }
}
