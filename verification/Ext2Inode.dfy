/** The block array of an inode as one map from logical to physical blocks. */
module Ext2Inode {
  import opened Bytes
  import opened Errors
  import opened Radix
  import opened Ext2Tree
  import opened Ext2Disk
  import opened Ext2Alloc
  import opened Ext2Truncate

  // ----- Consecutive trees of one level -----

  /** The physical block of offset off under consecutive pointers, 0 for a hole. */
  function Find(ts: seq<Tree>, a: nat, level: nat, off: nat): nat
    requires a > 0 && ShapeAll(ts, a, level) && off < Offset(|ts|, Pow(a, level))
  {
    PowPositive(a, level);
    Split(off, |ts|, Pow(a, level));
    ShapeAt(ts, a, level, Digit(off, Pow(a, level)));
    Lookup(ts[Digit(off, Pow(a, level))], a, level, Rest(off, Pow(a, level)))
  }

  lemma PruneFind(ts: seq<Tree>, a: nat, level: nat, s: nat, off: nat)
    requires a > 0 && ShapeAll(ts, a, level) && off < Offset(|ts|, Pow(a, level))
    ensures ShapeAll(PruneAll(ts, a, level, s), a, level)
    ensures Find(PruneAll(ts, a, level, s), a, level, off) == if off < s then Find(ts, a, level, off) else 0
  {
    hide PruneAll, Offset, Pow;
    var inc := Pow(a, level);
    PruneAllShape(ts, a, level, s);
    PowPositive(a, level);
    Split(off, |ts|, inc);
    var i, r := Digit(off, inc), Rest(off, inc);
    PruneAt(ts, a, level, s, i);
    PruneLookup(ts[i], a, level, Minus(s, Offset(i, inc)), r);
  }

  // ----- The levels of an inode -----

  const NSLOTS: nat := 15

  /** The pointers of level j: 12 direct ones, then one for each level of indirection. */
  function LevelSlots(slots: seq<nat>, j: nat): (ps: seq<nat>)
    requires |slots| == NSLOTS && j < 4
    ensures |ps| == if j == 0 then NDIR else 1
  {
    if j == 0 then slots[..NDIR] else [slots[NDIR + j - 1]]
  }

  function PutLevel(slots: seq<nat>, j: nat, ps: seq<nat>): (r: seq<nat>)
    requires |slots| == NSLOTS && j < 4 && |ps| == if j == 0 then NDIR else 1
    ensures |r| == NSLOTS && LevelSlots(r, j) == ps
    ensures forall i :: 0 <= i < 4 && i != j ==> LevelSlots(r, i) == LevelSlots(slots, i)
  {
    if j > 0 then
      assert slots[NDIR + j - 1 := ps[0]][..NDIR] == slots[..NDIR];
      slots[NDIR + j - 1 := ps[0]]
    else
      var r := seq(NSLOTS, i requires 0 <= i < NSLOTS => if i < NDIR then ps[i] else slots[i]);
      assert r[..NDIR] == ps;
      r
  }

  function Level(v: Vol, slots: seq<nat>, j: nat): seq<Tree>
    requires |slots| == NSLOTS && j < 4
  {
    TreesOf(v.disk, v.geo.a, j, LevelSlots(slots, j))
  }

  /** An inode whose trees have the right heights and fanout. */
  predicate Shaped(v: Vol, slots: seq<nat>)
  {
    && |slots| == NSLOTS && v.geo.a > 0
    && (forall j :: 0 <= j < 4 ==> ShapeAll(Level(v, slots, j), v.geo.a, j))
  }

  /** An inode whose trees are well formed, share no block, and own only blocks in use. */
  predicate InodeCheck(v: Vol, slots: seq<nat>)
  {
    && Fsck(v) && Shaped(v, slots) && AllWords(slots)
    && (forall j :: 0 <= j < 4 ==> Ready(Level(v, slots, j), v.geo.a, j, Used(v)))
    && (forall i, j :: 0 <= i < j < 4 ==> OwnAll(Level(v, slots, i)) !! OwnAll(Level(v, slots, j)))
  }

  /** Trees elsewhere are untouched by a cut that does not own their blocks. */
  lemma Elsewhere(v: Vol, v': Vol, level: nat, ps: seq<nat>, us: seq<Tree>, cut: seq<Tree>)
    requires v.geo.a > 0 && Ready(TreesOf(v.disk, v.geo.a, level, ps), v.geo.a, level, Used(v))
    requires Carried(v, v', us, cut) && OwnAll(TreesOf(v.disk, v.geo.a, level, ps)) !! OwnAll(us)
    ensures TreesOf(v'.disk, v.geo.a, level, ps) == TreesOf(v.disk, v.geo.a, level, ps)
    ensures Ready(TreesOf(v'.disk, v.geo.a, level, ps), v.geo.a, level, Used(v'))
  {
    hide TreesOf, Decode, Offset;
    MetaAllOwned(TreesOf(v.disk, v.geo.a, level, ps));
    MetaAllOwned(us);
    TreesKept(v.disk, v'.disk, v.geo.a, level, ps, MetaAll(us));
  }

  /** Cut trees are still ready. */
  lemma CutReady(v: Vol, v': Vol, level: nat, ts: seq<Tree>, s: nat)
    requires Ready(ts, v.geo.a, level, Used(v)) && ShapeAll(ts, v.geo.a, level)
    requires Carried(v, v', ts, PruneAll(ts, v.geo.a, level, s))
    ensures Ready(PruneAll(ts, v.geo.a, level, s), v.geo.a, level, Used(v'))
    ensures OwnAll(PruneAll(ts, v.geo.a, level, s)) <= OwnAll(ts)
  {
    hide PruneAll, Offset, Pow;
    PruneAllShape(ts, v.geo.a, level, s);
    PruneAllSeparate(ts, v.geo.a, level, s);
    PruneAllOwn(ts, v.geo.a, level, s);
  }

  /** What a cut of one level may rely on. */
  lemma LevelTable(v: Vol, slots: seq<nat>, j: nat)
    requires InodeCheck(v, slots) && j < 4
    ensures Fsck(v) && v.geo.a > 0 && |slots| == NSLOTS && AllWords(LevelSlots(slots, j)) && AllWords(slots)
    ensures Level(v, slots, j) == TreesOf(v.disk, v.geo.a, j, LevelSlots(slots, j))
    ensures Ready(Level(v, slots, j), v.geo.a, j, Used(v)) && ShapeAll(Level(v, slots, j), v.geo.a, j)
  {
    hide TreesOf, Decode;
  }

  lemma LevelsApart(v: Vol, slots: seq<nat>, i: nat, j: nat)
    requires InodeCheck(v, slots) && i < 4 && j < 4 && i != j && |slots| == NSLOTS
    ensures OwnAll(Level(v, slots, i)) !! OwnAll(Level(v, slots, j))
  {
    hide TreesOf, Decode, OwnAll, Fsck;
  }

  lemma PutWords(slots: seq<nat>, j: nat, ps: seq<nat>)
    requires |slots| == NSLOTS && j < 4 && |ps| == (if j == 0 then NDIR else 1) && AllWords(slots) && AllWords(ps)
    ensures AllWords(PutLevel(slots, j, ps))
  {
  }

  /** The trees of a level after its cut. */
  lemma LevelPruned(v: Vol, iblocks: int, slots: seq<nat>, j: nat, s: nat, r: Out)
    requires InodeCheck(v, slots) && j < 4 && |slots| == NSLOTS
    requires r == CutTable(v, iblocks, LevelSlots(slots, j), j, s) && r.ret == Ok
    ensures ShapeAll(Level(v, slots, j), v.geo.a, j) && |r.ps| == |LevelSlots(slots, j)| && AllWords(r.ps)
    ensures Carried(v, r.vol, Level(v, slots, j), PruneAll(Level(v, slots, j), v.geo.a, j, s))
    ensures TreesOf(r.vol.disk, v.geo.a, j, r.ps) == PruneAll(Level(v, slots, j), v.geo.a, j, s)
    ensures Ready(PruneAll(Level(v, slots, j), v.geo.a, j, s), v.geo.a, j, Used(r.vol))
    ensures OwnAll(PruneAll(Level(v, slots, j), v.geo.a, j, s)) <= OwnAll(Level(v, slots, j))
    ensures Fsck(r.vol) && r.vol.geo == v.geo
  {
    hide TreesOf, PruneAll, Decode, Encode, Offset, Pow, InodeCheck, LevelSlots, Level, CutTable;
    LevelTable(v, slots, j);
    TableCuts(v, iblocks, LevelSlots(slots, j), j, s, Level(v, slots, j));
    CutReady(v, r.vol, j, Level(v, slots, j), s);
  }

  /** An inode one of whose levels was cut is well formed again. */
  lemma CutChecked(v: Vol, slots: seq<nat>, v': Vol, slots': seq<nat>, j: nat)
    requires InodeCheck(v, slots) && j < 4 && |slots| == |slots'| == NSLOTS
    requires Fsck(v') && v'.geo == v.geo && AllWords(slots')
    requires Ready(Level(v', slots', j), v.geo.a, j, Used(v'))
    requires OwnAll(Level(v', slots', j)) <= OwnAll(Level(v, slots, j))
    requires forall i :: 0 <= i < 4 && i != j ==>
      Level(v', slots', i) == Level(v, slots, i) && Ready(Level(v, slots, i), v.geo.a, i, Used(v'))
    ensures InodeCheck(v', slots')
  {
    hide TreesOf, Decode, OwnAll, ShapeAll, SeparateAll, Level, Used;
    forall i | 0 <= i < 4
      ensures Ready(Level(v', slots', i), v.geo.a, i, Used(v')) && ShapeAll(Level(v', slots', i), v.geo.a, i)
    {
    }
    forall g, h | 0 <= g < h < 4
      ensures OwnAll(Level(v', slots', g)) !! OwnAll(Level(v', slots', h))
    {
      LevelsApart(v, slots, g, h);
    }
  }

  /** One level of the inode is cut: its trees are pruned and the other levels stay. */
  lemma LevelCut(v: Vol, iblocks: int, slots: seq<nat>, j: nat, s: nat, r: Out)
    requires InodeCheck(v, slots) && j < 4
    requires r == CutTable(v, iblocks, LevelSlots(slots, j), j, s) && r.ret == Ok
    ensures ShapeAll(Level(v, slots, j), v.geo.a, j)
    ensures Carried(v, r.vol, Level(v, slots, j), PruneAll(Level(v, slots, j), v.geo.a, j, s))
    ensures Level(r.vol, PutLevel(slots, j, r.ps), j) == PruneAll(Level(v, slots, j), v.geo.a, j, s)
    ensures forall i :: 0 <= i < 4 && i != j ==> Level(r.vol, PutLevel(slots, j, r.ps), i) == Level(v, slots, i)
    ensures InodeCheck(r.vol, PutLevel(slots, j, r.ps))
  {
    hide TreesOf, PruneAll, Decode, Encode, Offset, Pow, InodeCheck, LevelSlots, PutLevel, OwnAll, CutTable, Carried;
    LevelTable(v, slots, j);
    LevelPruned(v, iblocks, slots, j, s, r);
    PutWords(slots, j, r.ps);
    var ts, slots' := Level(v, slots, j), PutLevel(slots, j, r.ps);
    forall i | 0 <= i < 4 && i != j
      ensures Level(r.vol, slots', i) == Level(v, slots, i)
      ensures Ready(Level(v, slots, i), v.geo.a, i, Used(r.vol))
    {
      LevelTable(v, slots, i);
      LevelsApart(v, slots, i, j);
      Elsewhere(v, r.vol, i, LevelSlots(slots, i), ts, PruneAll(ts, v.geo.a, j, s));
    }
    CutChecked(v, slots, r.vol, slots', j);
  }

  // ----- Logical blocks -----

  /** The number of logical blocks of level j. */
  function LevelSpan(a: nat, j: nat): nat
  {
    Offset(if j == 0 then NDIR else 1, Pow(a, j))
  }

  /** The first logical block of level j. */
  function LevelBase(a: nat, j: nat): nat
  {
    if j == 0 then 0 else LevelBase(a, j - 1) + LevelSpan(a, j - 1)
  }

  /** The level whose range holds logical block k. */
  function LevelOf(a: nat, k: nat): (j: nat)
    requires k < LevelBase(a, 4)
    ensures j < 4 && LevelBase(a, j) <= k < LevelBase(a, j + 1)
  {
    if k < LevelBase(a, 1) then 0 else if k < LevelBase(a, 2) then 1 else if k < LevelBase(a, 3) then 2 else 3
  }

  /** The split of block numbers into 12, a, a^2 and a^3. */
  lemma LevelBases(a: nat)
    ensures LevelBase(a, 1) == 12 && LevelBase(a, 2) == 12 + a
    ensures LevelBase(a, 3) == 12 + a + a * a && LevelBase(a, 4) == 12 + a + a * a + a * a * a
  {
    IsPower(a);
    IsProduct(12, 1);
    assert Offset(1, Pow(a, 1)) == Pow(a, 1) && Offset(1, Pow(a, 2)) == Pow(a, 2) && Offset(1, Pow(a, 3)) == Pow(a, 3);
  }

  /** The map from logical to physical blocks, 0 for a hole. */
  function Map(v: Vol, slots: seq<nat>, k: nat): nat
    requires Shaped(v, slots) && k < LevelBase(v.geo.a, 4)
  {
    var j := LevelOf(v.geo.a, k);
    assert ShapeAll(Level(v, slots, j), v.geo.a, j);
    Find(Level(v, slots, j), v.geo.a, j, k - LevelBase(v.geo.a, j))
  }

  // ----- Truncation -----

  /** Volume, i_blocks, block array and return code. */
  datatype Cut = Cut(vol: Vol, iblocks: int, slots: seq<nat>, ret: Err)

  /** ext2_dealloc_indirect from level j on, for a range that reaches the end of the file. */
  function DeallocFrom(v: Vol, iblocks: int, slots: seq<nat>, start: nat, j: nat): (c: Cut)
    requires |slots| == NSLOTS && j <= 4
    ensures |c.slots| == NSLOTS
    decreases 4 - j
  {
    if j == 4 then Cut(v, iblocks, slots, Ok)
    else if start < LevelSpan(v.geo.a, j) then
      var r := CutTable(v, iblocks, LevelSlots(slots, j), j, start);
      var slots' := PutLevel(slots, j, r.ps);
      if r.ret != Ok then Cut(r.vol, r.iblocks, slots', r.ret)
      else DeallocFrom(r.vol, r.iblocks, slots', 0, j + 1)
    else DeallocFrom(v, iblocks, slots, start - LevelSpan(v.geo.a, j), j + 1)
  }

  lemma {:induction false} PruneAllMisses(ts: seq<Tree>, a: nat, level: nat, s: nat)
    requires ShapeAll(ts, a, level) && Offset(|ts|, Pow(a, level)) <= s
    ensures PruneAll(ts, a, level, s) == ts
  {
    if ts != [] {
      var n := |ts| - 1;
      PruneAllMisses(ts[..n], a, level, s);
      PruneMisses(ts[n], a, level, Minus(s, Offset(n, Pow(a, level))));
    }
  }

  /** The blocks of levels j and up. */
  function LevelsOwn(v: Vol, slots: seq<nat>, j: nat): set<nat>
    requires |slots| == NSLOTS && j <= 4
    decreases 4 - j
  {
    if j == 4 then {} else OwnAll(Level(v, slots, j)) + LevelsOwn(v, slots, j + 1)
  }

  /** What is left of start at level i when level j begins at offset 0. */
  function Left(a: nat, start: nat, j: nat, i: nat): nat
    decreases i - j
  {
    if i <= j then start else Left(a, Minus(start, LevelSpan(a, j)), j + 1, i)
  }

  lemma {:induction false} LeftIs(a: nat, start: nat, j: nat, i: nat)
    requires j <= i
    ensures LevelBase(a, j) <= LevelBase(a, i)
    ensures Left(a, start, j, i) == Minus(start, LevelBase(a, i) - LevelBase(a, j))
    decreases i - j
  {
    hide Offset, Pow;
    if j < i {
      LeftIs(a, Minus(start, LevelSpan(a, j)), j + 1, i);
    }
  }

  /** Levels j and up of the inode have been cut at start, the levels below are as they were. */
  predicate CutFrom(v: Vol, slots: seq<nat>, c: Cut, start: nat, j: nat)
    requires |slots| == NSLOTS && |c.slots| == NSLOTS && j <= 4
  {
    && InodeCheck(c.vol, c.slots)
    && c.vol.geo == v.geo
    && (forall i :: 0 <= i < j ==> Level(c.vol, c.slots, i) == Level(v, slots, i))
    && (forall i :: j <= i < 4 ==>
          && ShapeAll(Level(v, slots, i), v.geo.a, i)
          && Level(c.vol, c.slots, i) ==
             PruneAll(Level(v, slots, i), v.geo.a, i, Left(v.geo.a, start, j, i)))
  }

  lemma LevelReady(v: Vol, slots: seq<nat>, j: nat)
    requires InodeCheck(v, slots) && j < 4
    ensures Ready(Level(v, slots, j), v.geo.a, j, Used(v)) && ShapeAll(Level(v, slots, j), v.geo.a, j)
    ensures |Level(v, slots, j)| == if j == 0 then NDIR else 1
  {
  }

  /** Skipping a level that lies below the cut. */
  lemma CutSkip(v: Vol, slots: seq<nat>, c: Cut, start: nat, j: nat)
    requires InodeCheck(v, slots) && |c.slots| == NSLOTS && j < 4 && LevelSpan(v.geo.a, j) <= start
    requires CutFrom(v, slots, c, start - LevelSpan(v.geo.a, j), j + 1)
    ensures CutFrom(v, slots, c, start, j)
  {
    hide TreesOf, PruneAll, Decode, Offset, Pow;
    LevelReady(v, slots, j);
    PruneAllMisses(Level(v, slots, j), v.geo.a, j, start);
    assert Level(c.vol, c.slots, j) == Level(v, slots, j);
    assert Left(v.geo.a, start, j, j) == start;
  }

  /** Cutting a level, then the ones above it. */
  lemma CutThen(v: Vol, slots: seq<nat>, v1: Vol, slots1: seq<nat>, c: Cut, start: nat, j: nat)
    requires InodeCheck(v, slots) && InodeCheck(v1, slots1) && v1.geo == v.geo
    requires |c.slots| == NSLOTS && j < 4 && start < LevelSpan(v.geo.a, j) && ShapeAll(Level(v, slots, j), v.geo.a, j)
    requires Level(v1, slots1, j) == PruneAll(Level(v, slots, j), v.geo.a, j, start)
    requires forall i :: 0 <= i < 4 && i != j ==> Level(v1, slots1, i) == Level(v, slots, i)
    requires CutFrom(v1, slots1, c, 0, j + 1)
    ensures CutFrom(v, slots, c, start, j)
  {
    hide TreesOf, PruneAll, Decode, Offset, Pow;
    assert Level(c.vol, c.slots, j) == Level(v1, slots1, j);
    assert Left(v.geo.a, start, j, j) == start;
    assert Minus(start, LevelSpan(v.geo.a, j)) == 0;
  }

  lemma {:induction false} DeallocCuts(v: Vol, iblocks: int, slots: seq<nat>, start: nat, j: nat)
    requires InodeCheck(v, slots) && j <= 4
    ensures DeallocFrom(v, iblocks, slots, start, j).ret == Ok ==>
      CutFrom(v, slots, DeallocFrom(v, iblocks, slots, start, j), start, j)
    decreases 4 - j
  {
    hide TreesOf, PruneAll, Decode, Encode, Offset, Pow;
    if j < 4 {
      if start < LevelSpan(v.geo.a, j) {
        var r := CutTable(v, iblocks, LevelSlots(slots, j), j, start);
        if r.ret == Ok {
          var slots1 := PutLevel(slots, j, r.ps);
          LevelCut(v, iblocks, slots, j, start, r);
          DeallocCuts(r.vol, r.iblocks, slots1, 0, j + 1);
          if DeallocFrom(v, iblocks, slots, start, j).ret == Ok {
            CutThen(v, slots, r.vol, slots1, DeallocFrom(v, iblocks, slots, start, j), start, j);
          }
        }
      } else {
        DeallocCuts(v, iblocks, slots, start - LevelSpan(v.geo.a, j), j + 1);
        if DeallocFrom(v, iblocks, slots, start, j).ret == Ok {
          CutSkip(v, slots, DeallocFrom(v, iblocks, slots, start, j), start, j);
        }
      }
    }
  }

  /** The trees of one level after the cut, and its map. */
  lemma CutLevelMap(v: Vol, slots: seq<nat>, c: Cut, start: nat, j: nat, off: nat)
    requires InodeCheck(v, slots) && |c.slots| == NSLOTS && j < 4 && off < LevelSpan(v.geo.a, j)
    requires CutFrom(v, slots, c, start, 0)
    ensures ShapeAll(Level(v, slots, j), v.geo.a, j) && ShapeAll(Level(c.vol, c.slots, j), v.geo.a, j)
    ensures |Level(c.vol, c.slots, j)| == |Level(v, slots, j)| == if j == 0 then NDIR else 1
    ensures v.geo.a > 0
    ensures Find(Level(c.vol, c.slots, j), v.geo.a, j, off) ==
            if LevelBase(v.geo.a, j) + off < start then Find(Level(v, slots, j), v.geo.a, j, off) else 0
  {
    hide TreesOf, PruneAll, Decode, Offset, Pow;
    LevelReady(v, slots, j);
    LeftIs(v.geo.a, start, 0, j);
    PruneFind(Level(v, slots, j), v.geo.a, j, Left(v.geo.a, start, 0, j), off);
  }

  /**
   Truncating an inode at logical block start: every mapping below start stays,
   every mapping from start on becomes a hole, and the inode is well formed again.
   */
  lemma TruncateMap(v: Vol, iblocks: int, slots: seq<nat>, start: nat, k: nat, c: Cut)
    requires InodeCheck(v, slots) && k < LevelBase(v.geo.a, 4)
    requires c == DeallocFrom(v, iblocks, slots, start, 0) && c.ret == Ok
    ensures InodeCheck(c.vol, c.slots) && c.vol.geo == v.geo
    ensures Map(c.vol, c.slots, k) == if k < start then Map(v, slots, k) else 0
  {
    hide *;
    DeallocCuts(v, iblocks, slots, start, 0);
    CutMap(v, slots, c, start, k);
  }

  lemma CutMap(v: Vol, slots: seq<nat>, c: Cut, start: nat, k: nat)
    requires InodeCheck(v, slots) && |c.slots| == NSLOTS && k < LevelBase(v.geo.a, 4)
    requires CutFrom(v, slots, c, start, 0)
    ensures InodeCheck(c.vol, c.slots) && c.vol.geo == v.geo
    ensures Map(c.vol, c.slots, k) == if k < start then Map(v, slots, k) else 0
  {
    hide TreesOf, PruneAll, Decode, Offset, Pow;
    var j := LevelOf(v.geo.a, k);
    CutLevelMap(v, slots, c, start, j, k - LevelBase(v.geo.a, j));
  }

  // ----- What truncation gives back -----

  lemma {:induction false} LevelsOwnSame(v: Vol, slots: seq<nat>, v': Vol, slots': seq<nat>, j: nat)
    requires |slots| == |slots'| == NSLOTS && j <= 4
    requires forall i :: j <= i < 4 ==> Level(v', slots', i) == Level(v, slots, i)
    ensures LevelsOwn(v', slots', j) == LevelsOwn(v, slots, j)
    decreases 4 - j
  {
    hide TreesOf, Decode;
    if j < 4 {
      LevelsOwnSame(v, slots, v', slots', j + 1);
    }
  }

  /** Level j shares nothing with the levels above it. */
  lemma {:induction false} LevelApart(v: Vol, slots: seq<nat>, j: nat, n: nat)
    requires InodeCheck(v, slots) && j < n <= 4
    ensures OwnAll(Level(v, slots, j)) !! LevelsOwn(v, slots, n)
    decreases 4 - n
  {
    hide TreesOf, Decode, Offset;
    if n < 4 {
      LevelApart(v, slots, j, n + 1);
      assert OwnAll(Level(v, slots, j)) !! OwnAll(Level(v, slots, n));
    }
  }

  /** The blocks used after the cut are those used before, less the blocks the inode no longer owns. */
  predicate Returned(v: Vol, slots: seq<nat>, c: Cut, j: nat)
    requires |slots| == NSLOTS && |c.slots| == NSLOTS && j <= 4
  {
    && LevelsOwn(c.vol, c.slots, j) <= LevelsOwn(v, slots, j)
    && Used(c.vol) == Used(v) - (LevelsOwn(v, slots, j) - LevelsOwn(c.vol, c.slots, j))
  }

  lemma ReturnedThen(v: Vol, slots: seq<nat>, v1: Vol, slots1: seq<nat>, c: Cut, start: nat, j: nat)
    requires InodeCheck(v, slots) && InodeCheck(v1, slots1) && j < 4 && |c.slots| == NSLOTS
    requires ShapeAll(Level(v, slots, j), v.geo.a, j)
    requires Carried(v, v1, Level(v, slots, j), PruneAll(Level(v, slots, j), v.geo.a, j, start))
    requires forall i :: 0 <= i < 4 && i != j ==> Level(v1, slots1, i) == Level(v, slots, i)
    requires Level(c.vol, c.slots, j) == PruneAll(Level(v, slots, j), v.geo.a, j, start)
    requires Returned(v1, slots1, c, j + 1)
    ensures Returned(v, slots, c, j)
  {
    hide TreesOf, PruneAll, Decode, Offset, Pow;
    var ts := Level(v, slots, j);
    LevelsOwnSame(v, slots, v1, slots1, j + 1);
    LevelApart(v, slots, j, j + 1);
    PruneAllOwn(ts, v.geo.a, j, start);
    TwoCuts(Used(v), Used(v1), Used(c.vol), OwnAll(ts), OwnAll(PruneAll(ts, v.geo.a, j, start)),
            LevelsOwn(v, slots, j + 1), LevelsOwn(c.vol, c.slots, j + 1));
  }

  lemma TwoCuts(u: set<nat>, u1: set<nat>, u2: set<nat>, s: set<nat>, s': set<nat>, t: set<nat>, t': set<nat>)
    requires s !! t && s' <= s && t' <= t
    requires u1 == u - (s - s') && u2 == u1 - (t - t')
    ensures u2 == u - ((s + t) - (s' + t'))
  {
    hide *;
    SetDifferences(s, s', t, t');
  }

  lemma ReturnedSkip(v: Vol, slots: seq<nat>, c: Cut, j: nat)
    requires InodeCheck(v, slots) && j < 4 && |c.slots| == NSLOTS
    requires Level(c.vol, c.slots, j) == Level(v, slots, j)
    requires Returned(v, slots, c, j + 1)
    ensures Returned(v, slots, c, j)
  {
    hide TreesOf, Decode, Offset;
    LevelApart(v, slots, j, j + 1);
  }

  /** Truncation gives back exactly the blocks that the inode no longer owns, each once. */
  lemma {:induction false} DeallocReturns(v: Vol, iblocks: int, slots: seq<nat>, start: nat, j: nat)
    requires InodeCheck(v, slots) && j <= 4
    ensures DeallocFrom(v, iblocks, slots, start, j).ret == Ok ==>
      Returned(v, slots, DeallocFrom(v, iblocks, slots, start, j), j)
    decreases 4 - j, 1
  {
    hide TreesOf, Decode, Encode, Offset, Pow;
    if j < 4 && DeallocFrom(v, iblocks, slots, start, j).ret == Ok {
      if start < LevelSpan(v.geo.a, j) {
        DeallocReturnsLevel(v, iblocks, slots, start, j);
      } else {
        DeallocReturnsSkip(v, iblocks, slots, start, j);
      }
    } else if j == 4 {
      ReturnedNone(v, iblocks, slots);
    }
  }

  lemma ReturnedNone(v: Vol, iblocks: int, slots: seq<nat>)
    requires |slots| == NSLOTS
    ensures Returned(v, slots, Cut(v, iblocks, slots, Ok), 4)
  {
    hide TreesOf, Decode;
    assert Used(v) - {} == Used(v);
  }

  lemma {:induction false} DeallocReturnsSkip(v: Vol, iblocks: int, slots: seq<nat>, start: nat, j: nat)
    requires InodeCheck(v, slots) && j < 4 && start >= LevelSpan(v.geo.a, j)
    requires DeallocFrom(v, iblocks, slots, start, j).ret == Ok
    ensures Returned(v, slots, DeallocFrom(v, iblocks, slots, start, j), j)
    decreases 4 - j, 0
  {
    hide TreesOf, PruneAll, Decode, Encode, Offset, Pow;
    DeallocReturns(v, iblocks, slots, start - LevelSpan(v.geo.a, j), j + 1);
    DeallocCuts(v, iblocks, slots, start - LevelSpan(v.geo.a, j), j + 1);
    ReturnedSkip(v, slots, DeallocFrom(v, iblocks, slots, start, j), j);
  }

  lemma {:induction false} DeallocReturnsLevel(v: Vol, iblocks: int, slots: seq<nat>, start: nat, j: nat)
    requires InodeCheck(v, slots) && j < 4 && start < LevelSpan(v.geo.a, j)
    requires DeallocFrom(v, iblocks, slots, start, j).ret == Ok
    ensures Returned(v, slots, DeallocFrom(v, iblocks, slots, start, j), j)
    decreases 4 - j, 0
  {
    hide TreesOf, PruneAll, Decode, Encode, Offset, Pow;
    var c := DeallocFrom(v, iblocks, slots, start, j);
    var r := CutTable(v, iblocks, LevelSlots(slots, j), j, start);
    var slots1 := PutLevel(slots, j, r.ps);
    LevelCut(v, iblocks, slots, j, start, r);
    DeallocReturns(r.vol, r.iblocks, slots1, 0, j + 1);
    DeallocCuts(r.vol, r.iblocks, slots1, 0, j + 1);
    ReturnedThen(v, slots, r.vol, slots1, c, start, j);
  }

  // ----- When truncation succeeds -----

  predicate LevelsShaped(v: Vol, slots: seq<nat>, j: nat)
    requires |slots| == NSLOTS && j <= 4
    decreases 4 - j
  {
    j == 4 || (ShapeAll(Level(v, slots, j), v.geo.a, j) && LevelsShaped(v, slots, j + 1))
  }

  lemma {:induction false} LevelsShapedOk(v: Vol, slots: seq<nat>, j: nat)
    requires InodeCheck(v, slots) && j <= 4
    ensures LevelsShaped(v, slots, j)
    decreases 4 - j
  {
    hide TreesOf, Decode, Offset;
    if j < 4 {
      LevelReady(v, slots, j);
      LevelsShapedOk(v, slots, j + 1);
    }
  }

  /** The number of blocks that a cut of levels j and up gives back. */
  function InodeCutSize(v: Vol, slots: seq<nat>, start: nat, j: nat): nat
    requires |slots| == NSLOTS && j <= 4 && LevelsShaped(v, slots, j)
    decreases 4 - j
  {
    if j == 4 then 0
    else
      CutSize(Level(v, slots, j), v.geo.a, j, start) +
      InodeCutSize(v, slots, Minus(start, LevelSpan(v.geo.a, j)), j + 1)
  }

  lemma {:induction false} InodeCutSizeSame(v: Vol, slots: seq<nat>, v': Vol, slots': seq<nat>, start: nat, j: nat)
    requires |slots| == |slots'| == NSLOTS && j <= 4 && v'.geo == v.geo
    requires LevelsShaped(v, slots, j) && LevelsShaped(v', slots', j)
    requires forall i :: j <= i < 4 ==> Level(v', slots', i) == Level(v, slots, i)
    ensures InodeCutSize(v', slots', start, j) == InodeCutSize(v, slots, start, j)
    decreases 4 - j
  {
    hide TreesOf, PruneAll, Decode, Offset, Pow;
    if j < 4 {
      InodeCutSizeSame(v, slots, v', slots', Minus(start, LevelSpan(v.geo.a, j)), j + 1);
    }
  }

  /** Cutting nothing of a level costs nothing. */
  lemma {:induction false} CutSizeMissed(ts: seq<Tree>, a: nat, level: nat, s: nat)
    requires ShapeAll(ts, a, level) && Offset(|ts|, Pow(a, level)) <= s
    ensures BelowAll(ts, a, level, s) == 0 && TopAll(ts, a, level, s) == 0
  {
    hide PruneAll;
    if ts != [] {
      var n := |ts| - 1;
      CutSizeMissed(ts[..n], a, level, s);
      PruneMisses(ts[n], a, level, Minus(s, Offset(n, Pow(a, level))));
    }
  }

  /** Truncation of levels j and up succeeds exactly when i_blocks covers every block it gives back. */
  predicate Paid(v: Vol, iblocks: int, c: Cut, n: nat)
  {
    && (c.ret == Ok <==> Sectors(v.geo, n) <= iblocks)
    && (c.ret == Ok || c.ret == EOVERFLOW)
    && (c.ret == Ok ==> c.iblocks == iblocks - Sectors(v.geo, n))
  }

  lemma PaidThen(v: Vol, iblocks: int, r: Out, c: Cut, m: nat, n: nat)
    requires Charged(Out(v, iblocks, [], 0, Ok), r.(freed := 0), m, 0) && r.vol.geo == v.geo
    requires if r.ret == Ok then Paid(r.vol, r.iblocks, c, n) else c.ret == r.ret
    ensures Paid(v, iblocks, c, m + n)
  {
    hide Offset;
    OffsetAdd(m, n, 4 * v.geo.a / 512);
  }

  lemma CutSizeSplit(v: Vol, slots: seq<nat>, start: nat, j: nat)
    requires |slots| == NSLOTS && j < 4 && LevelsShaped(v, slots, j)
    ensures start < LevelSpan(v.geo.a, j) ==>
      InodeCutSize(v, slots, start, j) ==
      CutSize(Level(v, slots, j), v.geo.a, j, start) + InodeCutSize(v, slots, 0, j + 1)
    ensures start >= LevelSpan(v.geo.a, j) ==>
      InodeCutSize(v, slots, start, j) ==
      CutSize(Level(v, slots, j), v.geo.a, j, start) + InodeCutSize(v, slots, start - LevelSpan(v.geo.a, j), j + 1)
  {
  }

  /** What one level does to the whole run. */
  lemma DeallocUnfold(v: Vol, iblocks: int, slots: seq<nat>, start: nat, j: nat, r: Out)
    requires InodeCheck(v, slots) && j < 4 && start < LevelSpan(v.geo.a, j)
    requires r == CutTable(v, iblocks, LevelSlots(slots, j), j, start)
    ensures r.ret == Ok ==> InodeCheck(r.vol, PutLevel(slots, j, r.ps)) && r.vol.geo == v.geo
    ensures DeallocFrom(v, iblocks, slots, start, j) ==
            if r.ret == Ok then DeallocFrom(r.vol, r.iblocks, PutLevel(slots, j, r.ps), 0, j + 1)
            else Cut(r.vol, r.iblocks, PutLevel(slots, j, r.ps), r.ret)
  {
    hide TreesOf, PruneAll, Decode, Encode, Offset, Pow;
    if r.ret == Ok {
      LevelCut(v, iblocks, slots, j, start, r);
    }
  }

  lemma DeallocSkip(v: Vol, iblocks: int, slots: seq<nat>, start: nat, j: nat)
    requires |slots| == NSLOTS && j < 4 && start >= LevelSpan(v.geo.a, j)
    ensures DeallocFrom(v, iblocks, slots, start, j) ==
            DeallocFrom(v, iblocks, slots, start - LevelSpan(v.geo.a, j), j + 1)
  {
  }

  lemma InodeCutSizeStep(v: Vol, slots: seq<nat>, start: nat, j: nat)
    requires |slots| == NSLOTS && j < 4 && LevelsShaped(v, slots, j)
    ensures LevelsShaped(v, slots, j + 1) && ShapeAll(Level(v, slots, j), v.geo.a, j)
    ensures InodeCutSize(v, slots, start, j) ==
            CutSize(Level(v, slots, j), v.geo.a, j, start) +
            InodeCutSize(v, slots, Minus(start, LevelSpan(v.geo.a, j)), j + 1)
  {
  }

  lemma DeallocNone(v: Vol, iblocks: int, slots: seq<nat>, start: nat)
    requires |slots| == NSLOTS && iblocks >= 0 && LevelsShaped(v, slots, 4)
    ensures Paid(v, iblocks, DeallocFrom(v, iblocks, slots, start, 4), InodeCutSize(v, slots, start, 4))
  {
  }

  lemma {:induction false} DeallocPays(v: Vol, iblocks: int, slots: seq<nat>, start: nat, j: nat, n: nat)
    requires InodeCheck(v, slots) && |slots| == NSLOTS && j <= 4 && iblocks >= 0
    requires LevelsShaped(v, slots, j) && n == InodeCutSize(v, slots, start, j)
    ensures Paid(v, iblocks, DeallocFrom(v, iblocks, slots, start, j), n)
    decreases 4 - j, 1
  {
    hide *;
    if j == 4 {
      DeallocNone(v, iblocks, slots, start);
    } else {
      InodeCutSizeStep(v, slots, start, j);
      CutSizeSplit(v, slots, start, j);
      if start < LevelSpan(v.geo.a, j) {
        DeallocPaysLevel(v, iblocks, slots, start, j, CutSize(Level(v, slots, j), v.geo.a, j, start),
                         InodeCutSize(v, slots, 0, j + 1));
      } else {
        LevelMissed(v, slots, start, j);
        DeallocSkip(v, iblocks, slots, start, j);
        DeallocPays(v, iblocks, slots, start - LevelSpan(v.geo.a, j), j + 1, n);
      }
    }
  }

  lemma LevelMissed(v: Vol, slots: seq<nat>, start: nat, j: nat)
    requires InodeCheck(v, slots) && |slots| == NSLOTS && j < 4 && LevelSpan(v.geo.a, j) <= start
    ensures ShapeAll(Level(v, slots, j), v.geo.a, j) && CutSize(Level(v, slots, j), v.geo.a, j, start) == 0
  {
    hide TreesOf, Decode, Offset, Pow, ShapeAll;
    LevelReady(v, slots, j);
    CutSizeMissed(Level(v, slots, j), v.geo.a, j, start);
  }

  /** Levels that are the same give back the same. */
  lemma CutSizeAbove(v: Vol, slots: seq<nat>, v': Vol, slots': seq<nat>, j: nat)
    requires |slots| == |slots'| == NSLOTS && j < 4 && v'.geo == v.geo && LevelsShaped(v, slots, j + 1)
    requires forall i :: j < i < 4 ==> Level(v', slots', i) == Level(v, slots, i)
    requires InodeCheck(v', slots')
    ensures LevelsShaped(v', slots', j + 1)
    ensures InodeCutSize(v', slots', 0, j + 1) == InodeCutSize(v, slots, 0, j + 1)
  {
    hide InodeCheck, LevelsShaped, InodeCutSize, Level;
    LevelsShapedOk(v', slots', j + 1);
    InodeCutSizeSame(v, slots, v', slots', 0, j + 1);
  }

  lemma ChargedRest(v: Vol, iblocks: int, ps: seq<nat>, r: Out, m: nat)
    requires Charged(Out(v, iblocks, ps, 0, Ok), r.(freed := 0), m, 0) && Fits(r, v, ps)
    ensures Charged(Out(v, iblocks, [], 0, Ok), r.(freed := 0), m, 0) && r.vol.geo == v.geo
    ensures r.ret == Ok ==> r.iblocks >= 0
  {
  }

  lemma {:induction false} DeallocPaysLevel(v: Vol, iblocks: int, slots: seq<nat>, start: nat, j: nat, m: nat, n: nat)
    requires |slots| == NSLOTS && j < 4 && iblocks >= 0 && start < LevelSpan(v.geo.a, j)
    requires ShapeAll(Level(v, slots, j), v.geo.a, j) && m == CutSize(Level(v, slots, j), v.geo.a, j, start)
    requires LevelsShaped(v, slots, j + 1) && n == InodeCutSize(v, slots, 0, j + 1)
    requires InodeCheck(v, slots)
    ensures Paid(v, iblocks, DeallocFrom(v, iblocks, slots, start, j), m + n)
    decreases 4 - j, 0
  {
    hide *;
    var ts, ps := Level(v, slots, j), LevelSlots(slots, j);
    LevelTable(v, slots, j);
    TableCharges(v, iblocks, ps, j, start, ts, m);
    var r := CutTable(v, iblocks, ps, j, start);
    ChargedRest(v, iblocks, ps, r, m);
    DeallocUnfold(v, iblocks, slots, start, j, r);
    if r.ret == Ok {
      LevelCut(v, iblocks, slots, j, start, r);
      CutSizeAbove(v, slots, r.vol, PutLevel(slots, j, r.ps), j);
      DeallocPays(r.vol, r.iblocks, PutLevel(slots, j, r.ps), 0, j + 1, n);
    }
    PaidThen(v, iblocks, r, DeallocFrom(v, iblocks, slots, start, j), m, n);
  }

  lemma LevelsOwnStep(v: Vol, slots: seq<nat>, j: nat)
    requires |slots| == NSLOTS && j < 4
    ensures LevelsOwn(v, slots, j) == OwnAll(Level(v, slots, j)) + LevelsOwn(v, slots, j + 1)
  {
  }

  /** What level j gives back, and what it owns after the cut. */
  lemma LevelReturned(v: Vol, slots: seq<nat>, c: Cut, start: nat, j: nat)
    requires InodeCheck(v, slots) && |c.slots| == NSLOTS && j < 4 && ShapeAll(Level(v, slots, j), v.geo.a, j)
    requires Level(c.vol, c.slots, j) == PruneAll(Level(v, slots, j), v.geo.a, j, start)
    ensures OwnAll(Level(c.vol, c.slots, j)) <= OwnAll(Level(v, slots, j))
    ensures CutSize(Level(v, slots, j), v.geo.a, j, start) ==
            |OwnAll(Level(v, slots, j)) - OwnAll(Level(c.vol, c.slots, j))|
  {
    hide TreesOf, PruneAll, Offset, Pow, Decode;
    LevelReady(v, slots, j);
    CutSizeIsFreed(Level(v, slots, j), v.geo.a, j, start);
    PruneAllOwn(Level(v, slots, j), v.geo.a, j, start);
  }

  lemma {:induction false} InodeCutSizeIsReturned(v: Vol, slots: seq<nat>, c: Cut, start: nat, j: nat)
    requires InodeCheck(v, slots) && |slots| == |c.slots| == NSLOTS && j <= 4 && LevelsShaped(v, slots, j)
    requires forall i :: j <= i < 4 ==>
      ShapeAll(Level(v, slots, i), v.geo.a, i) &&
      Level(c.vol, c.slots, i) == PruneAll(Level(v, slots, i), v.geo.a, i, Left(v.geo.a, start, j, i))
    ensures LevelsOwn(c.vol, c.slots, j) <= LevelsOwn(v, slots, j)
    ensures InodeCutSize(v, slots, start, j) == |LevelsOwn(v, slots, j) - LevelsOwn(c.vol, c.slots, j)|
    decreases 4 - j
  {
    hide TreesOf, PruneAll, Offset, Pow, Decode, InodeCheck, OwnAll, ShapeAll, CutSize;
    if j < 4 {
      InodeCutSizeStep(v, slots, start, j);
      LevelsOwnStep(v, slots, j);
      LevelsOwnStep(c.vol, c.slots, j);
      InodeCutSizeIsReturned(v, slots, c, Minus(start, LevelSpan(v.geo.a, j)), j + 1);
      assert Left(v.geo.a, start, j, j) == start;
      LevelReturned(v, slots, c, start, j);
      LevelApart(v, slots, j, j + 1);
      SetDifferences(OwnAll(Level(v, slots, j)), OwnAll(Level(c.vol, c.slots, j)),
                     LevelsOwn(v, slots, j + 1), LevelsOwn(c.vol, c.slots, j + 1));
    }
  }

  lemma {:induction false} LevelsOwnUsed(v: Vol, slots: seq<nat>, j: nat)
    requires InodeCheck(v, slots) && j <= 4
    ensures LevelsOwn(v, slots, j) <= Used(v)
    decreases 4 - j
  {
    hide TreesOf, Decode, Offset;
    if j < 4 {
      LevelReady(v, slots, j);
      LevelsOwnUsed(v, slots, j + 1);
    }
  }

  lemma SetShrinks(u: set<nat>, u': set<nat>, d: set<nat>)
    requires d <= u && u' == u - d
    ensures |u| == |u'| + |d|
  {
    hide *;
    assert u == u' + d;
  }

  /** Giving back blocks that were in use raises the superblock's count by their number. */
  lemma FreeGrows(v: Vol, v': Vol, d: set<nat>)
    requires Fsck(v) && Fsck(v') && v'.geo == v.geo
    requires d <= Used(v) && Used(v') == Used(v) - d
    ensures v'.totalFree == v.totalFree + |d|
  {
    hide Offset;
    UsedAndFree(v);
    UsedAndFree(v');
    SetShrinks(Used(v), Used(v'), d);
  }

  lemma CutUnpack(v: Vol, slots: seq<nat>, c: Cut, start: nat)
    requires |slots| == NSLOTS && |c.slots| == NSLOTS && CutFrom(v, slots, c, start, 0)
    ensures InodeCheck(c.vol, c.slots) && c.vol.geo == v.geo && Fsck(c.vol)
    ensures forall i :: 0 <= i < 4 ==>
      ShapeAll(Level(v, slots, i), v.geo.a, i) &&
      Level(c.vol, c.slots, i) == PruneAll(Level(v, slots, i), v.geo.a, i, Left(v.geo.a, start, 0, i))
  {
  }

  /** The blocks that a truncation takes from the inode. */
  function Removed(v: Vol, slots: seq<nat>, c: Cut): set<nat>
    requires |slots| == NSLOTS && |c.slots| == NSLOTS
  {
    LevelsOwn(v, slots, 0) - LevelsOwn(c.vol, c.slots, 0)
  }

  /**
   Truncation returns success exactly when i_blocks covers the blocks to be
   given back: n blocks, as many as the cut removes from the inode, whose bytes
   are counted in units of 512.
   */
  lemma TruncateSucceeds(v: Vol, iblocks: int, slots: seq<nat>, start: nat, c: Cut, n: nat)
    requires InodeCheck(v, slots) && iblocks >= 0 && LevelsShaped(v, slots, 0)
    requires c == DeallocFrom(v, iblocks, slots, start, 0) && n == InodeCutSize(v, slots, start, 0)
    ensures c.ret == Ok <==> Sectors(v.geo, n) <= iblocks
    ensures c.ret == Ok || c.ret == EOVERFLOW
    ensures c.ret == Ok ==> n == |Removed(v, slots, c)| && c.iblocks == iblocks - Sectors(v.geo, n)
    ensures v.geo.a % 128 == 0 ==> (c.ret == Ok <==> n * (4 * v.geo.a) <= 512 * iblocks)
    ensures v.geo.a % 128 == 0 && c.ret == Ok ==> 512 * c.iblocks == 512 * iblocks - n * (4 * v.geo.a)
  {
    hide TreesOf, PruneAll, Decode, Encode, Offset, Pow;
    if v.geo.a % 128 == 0 {
      SectorBytes(v.geo, n);
    }
    DeallocPays(v, iblocks, slots, start, 0, n);
    if c.ret == Ok {
      DeallocCuts(v, iblocks, slots, start, 0);
      CutUnpack(v, slots, c, start);
      InodeCutSizeIsReturned(v, slots, c, start, 0);
    }
  }

  /** A successful truncation gives back exactly the blocks it removes, each once. */
  lemma TruncateFrees(v: Vol, iblocks: int, slots: seq<nat>, start: nat, c: Cut)
    requires InodeCheck(v, slots)
    requires c == DeallocFrom(v, iblocks, slots, start, 0) && c.ret == Ok
    ensures Used(c.vol) == Used(v) - Removed(v, slots, c)
    ensures c.vol.totalFree == v.totalFree + |Removed(v, slots, c)|
  {
    hide TreesOf, PruneAll, Decode, Encode, Offset, Pow;
    DeallocReturns(v, iblocks, slots, start, 0);
    DeallocCuts(v, iblocks, slots, start, 0);
    CutUnpack(v, slots, c, start);
    LevelsOwnUsed(v, slots, 0);
    FreeGrows(v, c.vol, Removed(v, slots, c));
  }

  /** A mapped block under consecutive pointers stays owned exactly below the cut. */
  lemma FindFrees(ts: seq<Tree>, a: nat, level: nat, s: nat, off: nat)
    requires a > 0 && ShapeAll(ts, a, level) && SeparateAll(ts) && off < Offset(|ts|, Pow(a, level))
    requires Find(ts, a, level, off) != 0
    ensures Find(ts, a, level, off) in OwnAll(ts)
    ensures Find(ts, a, level, off) in OwnAll(PruneAll(ts, a, level, s)) <==> off < s
  {
    hide PruneAll, Offset, Pow;
    var inc := Pow(a, level);
    PowPositive(a, level);
    Split(off, |ts|, inc);
    var i, r, b := Digit(off, inc), Rest(off, inc), Find(ts, a, level, off);
    ShapeAt(ts, a, level, i);
    SeparateAt(ts, i);
    LookupOwned(ts[i], a, level, r);
    OwnAt(ts, i);
    PruneAt(ts, a, level, s, i);
    PruneFreesData(ts[i], a, level, Minus(s, Offset(i, inc)), r);
    if off < s {
      OwnAt(PruneAll(ts, a, level, s), i);
    } else {
      PruneDrops(ts, a, level, s, i, b);
    }
  }

  /** A block of level j is owned, after the cut, by no other level. */
  lemma {:induction false} NotElsewhere(v: Vol, slots: seq<nat>, c: Cut, j: nat, b: nat, n: nat)
    requires InodeCheck(v, slots) && |c.slots| == NSLOTS && j < 4 && n <= 4
    requires forall i :: 0 <= i < 4 ==> OwnAll(Level(c.vol, c.slots, i)) <= OwnAll(Level(v, slots, i))
    requires b in OwnAll(Level(v, slots, j))
    ensures b in LevelsOwn(c.vol, c.slots, n) <==> n <= j && b in OwnAll(Level(c.vol, c.slots, j))
    decreases 4 - n
  {
    hide TreesOf, Decode, Offset;
    if n < 4 {
      NotElsewhere(v, slots, c, j, b, n + 1);
      if n < j {
        assert OwnAll(Level(v, slots, n)) !! OwnAll(Level(v, slots, j));
      } else if j < n {
        assert OwnAll(Level(v, slots, j)) !! OwnAll(Level(v, slots, n));
      }
    }
  }

  lemma LevelsShrink(v: Vol, slots: seq<nat>, c: Cut, start: nat)
    requires |slots| == NSLOTS && |c.slots| == NSLOTS && CutFrom(v, slots, c, start, 0)
    ensures forall i :: 0 <= i < 4 ==> OwnAll(Level(c.vol, c.slots, i)) <= OwnAll(Level(v, slots, i))
  {
    hide *;
    CutUnpack(v, slots, c, start);
    forall i | 0 <= i < 4
      ensures OwnAll(Level(c.vol, c.slots, i)) <= OwnAll(Level(v, slots, i))
    {
      PruneAllOwn(Level(v, slots, i), v.geo.a, i, Left(v.geo.a, start, 0, i));
    }
  }

  /** A mapped data block is given back by a truncation exactly when its offset is not below the cut. */
  lemma TruncateFreesData(v: Vol, iblocks: int, slots: seq<nat>, start: nat, k: nat, c: Cut)
    requires InodeCheck(v, slots) && k < LevelBase(v.geo.a, 4) && Map(v, slots, k) != 0
    requires c == DeallocFrom(v, iblocks, slots, start, 0) && c.ret == Ok
    ensures Map(v, slots, k) in Removed(v, slots, c) <==> start <= k
  {
    hide TreesOf, PruneAll, Decode, Encode, Offset, Pow;
    var a, j := v.geo.a, LevelOf(v.geo.a, k);
    DeallocCuts(v, iblocks, slots, start, 0);
    LevelsShrink(v, slots, c, start);
    MapFrees(v, slots, c, start, k, j, Map(v, slots, k));
    NotElsewhere(v, slots, c, j, Map(v, slots, k), 0);
    LevelIn(v, slots, j, 0);
  }

  lemma MapFrees(v: Vol, slots: seq<nat>, c: Cut, start: nat, k: nat, j: nat, b: nat)
    requires InodeCheck(v, slots) && |c.slots| == NSLOTS && CutFrom(v, slots, c, start, 0)
    requires k < LevelBase(v.geo.a, 4) && j == LevelOf(v.geo.a, k) && b == Map(v, slots, k) && b != 0
    ensures b in OwnAll(Level(v, slots, j))
    ensures b in OwnAll(Level(c.vol, c.slots, j)) <==> k < start
  {
    hide TreesOf, PruneAll, Decode, Offset, Pow;
    LevelReady(v, slots, j);
    CutUnpack(v, slots, c, start);
    LeftIs(v.geo.a, start, 0, j);
    FindFrees(Level(v, slots, j), v.geo.a, j, Left(v.geo.a, start, 0, j), k - LevelBase(v.geo.a, j));
  }

  lemma {:induction false} LevelIn(v: Vol, slots: seq<nat>, j: nat, n: nat)
    requires |slots| == NSLOTS && n <= j < 4
    ensures OwnAll(Level(v, slots, j)) <= LevelsOwn(v, slots, n)
    decreases j - n
  {
    hide TreesOf, Decode;
    if n < j {
      LevelIn(v, slots, j, n + 1);
    }
  }

  /** Every indirect block that a truncation visits and leaves without entries is given back. */
  lemma TruncateLeavesNoneIdle(v: Vol, iblocks: int, slots: seq<nat>, start: nat, c: Cut, i: nat)
    requires InodeCheck(v, slots) && i < 4
    requires c == DeallocFrom(v, iblocks, slots, start, 0) && c.ret == Ok
    ensures NoneIdleAll(Level(c.vol, c.slots, i), v.geo.a, i, Minus(start, LevelBase(v.geo.a, i)))
  {
    hide *;
    LevelTable(v, slots, i);
    DeallocCuts(v, iblocks, slots, start, 0);
    CutLeavesNoneIdle(v, slots, c, start, i);
  }

  lemma CutLeavesNoneIdle(v: Vol, slots: seq<nat>, c: Cut, start: nat, i: nat)
    requires |slots| == NSLOTS && |c.slots| == NSLOTS && i < 4 && CutFrom(v, slots, c, start, 0)
    ensures NoneIdleAll(Level(c.vol, c.slots, i), v.geo.a, i, Minus(start, LevelBase(v.geo.a, i)))
  {
    hide *;
    CutUnpack(v, slots, c, start);
    LeftIs(v.geo.a, start, 0, i);
    FirstBase(v.geo.a);
    PruneAllLeavesNoneIdle(Level(v, slots, i), v.geo.a, i, Left(v.geo.a, start, 0, i));
  }

  lemma FirstBase(a: nat)
    ensures LevelBase(a, 0) == 0
  {
  }

  // ----- ext2_dealloc_indirect -----

  const MAX_TABLE: nat := 0x4000
  const BLOCK_LIMIT: nat := 0x1_0000_0000_0000_0000

  lemma CubeFits(a: nat)
    requires a <= MAX_TABLE
    ensures a * a <= 0x1000_0000 && a * a * a <= 0x400_0000_0000
  {
    MulLe(a, MAX_TABLE, a, MAX_TABLE);
    MulLe(a * a, 0x1000_0000, a, MAX_TABLE);
  }

  lemma MulLe(x: nat, y: nat, m: nat, n: nat)
    requires x <= y && m <= n
    ensures x * m <= y * n
  {
    hide *;
    assert x * m <= y * m <= y * n;
  }

  /** Every level of an inode is far smaller than the 64-bit block count. */
  lemma {:induction false} SpanFits(a: nat, j: nat)
    requires a <= MAX_TABLE && j < 4
    ensures LevelSpan(a, j) <= 0x400_0000_0000
    ensures j == 0 ==> LevelSpan(a, j) == NDIR
  {
    CubeFits(a);
    IsPower(a);
    IsProduct(12, 1);
    assert Offset(1, Pow(a, j)) == Pow(a, j);
  }

  /** The pointers of one level are a window of the block array. */
  lemma LevelWindow(slots: seq<nat>, j: nat)
    requires |slots| == NSLOTS && j < 4
    ensures j == 0 ==> LevelSlots(slots, j) == slots[0..NDIR]
    ensures j > 0 ==> LevelSlots(slots, j) == slots[NDIR + j - 1..NDIR + j]
  {
  }

  /** Replacing a window of the array is replacing a level. */
  lemma WindowPut(slots: seq<nat>, slots': seq<nat>, j: nat, base: nat, num: nat)
    requires |slots| == |slots'| == NSLOTS && j < 4
    requires if j == 0 then base == 0 && num == NDIR else base == NDIR + j - 1 && num == 1
    requires slots'[..base] == slots[..base] && slots'[base + num..] == slots[base + num..]
    ensures |slots'[base..base + num]| == (if j == 0 then NDIR else 1)
    ensures slots' == PutLevel(slots, j, slots'[base..base + num])
  {
    assert slots' == slots'[..base] + slots'[base..base + num] + slots'[base + num..];
    assert slots == slots[..base] + slots[base..base + num] + slots[base + num..];
    if j > 0 {
      assert slots'[base..base + num] == [slots'[base]];
    }
  }

  /** One level of ext2_dealloc_indirect. */
  method DeallocLevel(vol: Volume, inode: Inode, j: nat, base: nat, num: nat, start: nat, count: nat) returns (ret: Err)
    requires inode.block.Length == NSLOTS && InodeCheck(vol.Now(), inode.block[..])
    requires j < 4 && if j == 0 then base == 0 && num == NDIR else base == NDIR + j - 1 && num == 1
    requires 2 * LevelSpan(vol.geo.a, j) <= count
    modifies vol, inode, inode.block
    ensures var r := CutTable(old(vol.Now()), old(inode.iblocks), LevelSlots(old(inode.block[..]), j), j, start);
      && vol.Now() == r.vol && inode.iblocks == r.iblocks && ret == r.ret
      && inode.block[..] == PutLevel(old(inode.block[..]), j, r.ps)
  {
    ghost var slots := inode.block[..];
    LevelReady(vol.Now(), slots, j);
    LevelWindow(slots, j);
    assert Entries(inode.block, base, num) == LevelSlots(slots, j);
    ret := DeallocIndirectBlock(vol, inode, inode.block, base, j, start, count, num);
    WindowPut(slots, inode.block[..], j, base, num);
  }

  /**
   The level loop of ext2_dealloc_indirect, with the count it starts from when
   the range ends at or beyond block 0xffffffff.
   */
  method DeallocLevels(vol: Volume, inode: Inode, first: nat) returns (ret: Err)
    requires inode.block.Length == NSLOTS && InodeCheck(vol.Now(), inode.block[..])
    requires vol.geo.a <= MAX_TABLE && first <= 0xffff_ffff
    modifies vol, inode, inode.block
    ensures Cut(vol.Now(), inode.iblocks, inode.block[..], ret) ==
            DeallocFrom(old(vol.Now()), old(inode.iblocks), old(inode.block[..]), first, 0)
  {
    hide InodeCheck, CutTable, LevelSlots, PutLevel, Pow, Offset;
    ghost var c := DeallocFrom(vol.Now(), inode.iblocks, inode.block[..], first, 0);
    var start, count := first, BLOCK_LIMIT - 1 - first;
    var level, base, num, max := 0, 0, NDIR, NDIR;
    SpanFits(vol.geo.a, 0);
    while level < 4
      invariant level <= 4 && 0 <= start
      invariant InodeCheck(vol.Now(), inode.block[..])
      invariant c == DeallocFrom(vol.Now(), inode.iblocks, inode.block[..], start, level)
      invariant level < 4 ==> max == LevelSpan(vol.geo.a, level)
      invariant if level == 0 then base == 0 && num == NDIR else base == NDIR + level - 1 && num == 1
      invariant count >= BLOCK_LIMIT - 1 - 0xffff_ffff - level * 0x400_0000_0000
    {
      SpanFits(vol.geo.a, level);
      var more;
      ret, start, count, more := DeallocLevelStep(vol, inode, level, base, num, max, start, count, c);
      if ret != Ok {
        return;
      }
      if !more {
        break;
      }
      base := base + num;
      if level == 0 {
        num, max := 1, 1;
      }
      NextSpan(vol.geo.a, level, max);
      level, max := level + 1, max * vol.geo.a;
    }
    ret := Ok;
  }

  /** One level, in a run whose final outcome is c; the count never runs out. */
  method DeallocLevelStep(vol: Volume, inode: Inode, j: nat, base: nat, num: nat, max: nat, start: nat, count: nat,
                          ghost c: Cut)
    returns (ret: Err, start': nat, count': nat, more: bool)
    requires inode.block.Length == NSLOTS && InodeCheck(vol.Now(), inode.block[..])
    requires j < 4 && if j == 0 then base == 0 && num == NDIR else base == NDIR + j - 1 && num == 1
    requires max == LevelSpan(vol.geo.a, j) && 2 * max <= count && 0 < count
    requires c == DeallocFrom(vol.Now(), inode.iblocks, inode.block[..], start, j)
    modifies vol, inode, inode.block
    ensures ret == Ok ==> InodeCheck(vol.Now(), inode.block[..])
    ensures ret == Ok ==> c == DeallocFrom(vol.Now(), inode.iblocks, inode.block[..], start', j + 1)
    ensures ret != Ok ==> c == Cut(vol.Now(), inode.iblocks, inode.block[..], ret)
    ensures count' >= count - max && more
  {
    hide InodeCheck, DeallocFrom, CutTable, LevelSlots, PutLevel, Pow, Offset;
    ret, start', count', more := Ok, start, count, true;
    if start < max {
      DeallocUnfold(vol.Now(), inode.iblocks, inode.block[..], start, j,
                    CutTable(vol.Now(), inode.iblocks, LevelSlots(inode.block[..], j), j, start));
      ret := DeallocLevel(vol, inode, j, base, num, start, count);
      if ret != Ok {
        return;
      }
      if count > max {
        count' := count - (max - start);
      } else {
        more := false;
      }
      start' := 0;
    } else {
      DeallocSkip(vol.Now(), inode.iblocks, inode.block[..], start, j);
      start' := start - max;
    }
  }

  /**
   ext2_dealloc_indirect for a range that ends at or beyond block 0xffffffff,
   which is how a file is truncated or deleted.
   */
  method DeallocIndirect(vol: Volume, inode: Inode, start: nat, end: nat) returns (ret: Err)
    requires inode.block.Length == NSLOTS && InodeCheck(vol.Now(), inode.block[..])
    requires vol.geo.a <= MAX_TABLE && start <= end && 0xffff_ffff <= end
    modifies vol, inode, inode.block
    ensures start > 0xffff_ffff ==>
      Cut(vol.Now(), inode.iblocks, inode.block[..], ret) == old(Cut(vol.Now(), inode.iblocks, inode.block[..], Ok))
    ensures start <= 0xffff_ffff ==>
      Cut(vol.Now(), inode.iblocks, inode.block[..], ret) ==
      DeallocFrom(old(vol.Now()), old(inode.iblocks), old(inode.block[..]), start, 0)
  {
    if start > 0xffff_ffff {
      return Ok;
    }
    ret := DeallocLevels(vol, inode, start);
  }

  lemma NextSpan(a: nat, j: nat, max: nat)
    requires j < 4 && max == if j == 0 then 1 else LevelSpan(a, j)
    ensures max * a == Pow(a, j + 1) == LevelSpan(a, j + 1)
    ensures LevelBase(a, j + 1) == LevelBase(a, j) + LevelSpan(a, j)
  {
    IsProduct(a, Pow(a, j));
    assert Offset(1, Pow(a, j)) == Pow(a, j) && Offset(1, Pow(a, j + 1)) == Pow(a, j + 1);
  }
}
