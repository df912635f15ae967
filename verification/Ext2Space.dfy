/**
 When ext2_bmap can allocate, and what its block count means for a later
 truncation.
 */
module Ext2Space {
  import opened Bytes
  import opened Errors
  import opened Radix
  import opened Ext2Tree
  import opened Ext2Disk
  import opened Ext2Alloc
  import opened Ext2Truncate
  import opened Ext2Inode
  import opened Ext2Bmap

  predicate InVolume(g: Geometry, b: nat)
  {
    g.first <= b < g.count
  }

  /** Allocation succeeds exactly with a goal inside the volume and a free block. */
  lemma AllocSucceeds(v: Vol, goal: nat)
    requires Fsck(v)
    ensures Alloc(v, goal).ret == Ok <==> InVolume(v.geo, goal) && v.totalFree > 0
  {
    hide Decode, Encode, Offset, CountsOk;
    NewBlockFails(v, goal);
  }

  /** A table that has just been zeroed. */
  predicate NewTable(v: Vol, p: nat)
  {
    && 0 != p < |v.disk| && p in Used(v) && InVolume(v.geo, p)
    && |v.disk[p]| == 4 * v.geo.a && v.disk[p] == Zeros(4 * v.geo.a)
  }

  /** An empty entry of table p: the goal is its left neighbour, or the table for the first entry. */
  lemma EmptyEntry(v: Vol, p: nat, i: nat, r: Step)
    requires Fsck(v) && p in Used(v) && 0 != p < |v.disk| && i < v.geo.a && |Decode(v.disk[p])| == v.geo.a
    requires Decode(v.disk[p])[i] == 0 && r == IndBmap(v, false, true, p, i, 0)
    ensures r.ret == Ok <==> InVolume(v.geo, if i != 0 then Decode(v.disk[p])[i - 1] else p) && v.totalFree > 0
    ensures r.ret == Ok ==> NewTable(r.vol, r.result) && r.vol.totalFree == v.totalFree - 1
  {
    hide Decode, Encode, Offset, CountsOk;
    var ws := Decode(v.disk[p]);
    var goal := if i != 0 then ws[i - 1] else p;
    AllocSucceeds(v, goal);
    AllocOk(v, goal);
    if r.ret == Ok {
      IndPuts(v, p, i, r);
    }
  }

  // ----- Below a new table -----

  lemma ZeroDigits(q: nat, a: nat, inc: nat)
    requires inc > 0 && q < Offset(a, inc)
    ensures Digit(q, inc) == 0 && Rest(q, inc) == 0 <==> q == 0
  {
    Split(q, a, inc);
  }

  lemma NewTableEntry(v: Vol, p: nat, i: nat)
    requires Fsck(v) && NewTable(v, p) && i < v.geo.a
    ensures |Decode(v.disk[p])| == v.geo.a && Decode(v.disk[p])[i] == 0
    ensures i > 0 ==> Decode(v.disk[p])[i - 1] == 0
  {
    hide Decode;
    AllZeroMeans(v.disk[p]);
    ZeroBlock(v.disk[p]);
    AllZeroMeans(Decode(v.disk[p]));
  }

  /** One lookup in a new table: the goal is the table itself, or 0 beyond the first entry. */
  lemma NewTableStep(v: Vol, p: nat, i: nat, r: Step)
    requires Fsck(v) && NewTable(v, p) && i < v.geo.a && r == IndBmap(v, false, true, p, i, 0)
    ensures r.ret == Ok <==> (v.geo.first == 0 || i == 0) && v.totalFree > 0
    ensures r.ret == Ok ==> NewTable(r.vol, r.result) && r.vol.totalFree == v.totalFree - 1
  {
    hide Decode, IndBmap, CountsOk;
    NewTableEntry(v, p, i);
    EmptyEntry(v, p, i, r);
  }

  /** Below a new table an allocation needs a block for each level, and goal 0 to be a block. */
  lemma {:induction false} NewTableWalk(v: Vol, p: nat, k: nat, q: nat)
    requires Fsck(v) && NewTable(v, p) && k > 0 && q < Pow(v.geo.a, k)
    ensures Walk(v, false, true, p, k, q, 0).ret == Ok <==> (v.geo.first == 0 || q == 0) && v.totalFree >= k
    ensures Walk(v, false, true, p, k, q, 0).ret == Ok ==>
      Walk(v, false, true, p, k, q, 0).vol.totalFree == v.totalFree - k
    decreases k
  {
    hide Decode, Encode, IndBmap, CountsOk, NewTable, Fsck;
    if k == 1 {
      IsPower(v.geo.a);
      NewTableStep(v, p, q, IndBmap(v, false, true, p, q, 0));
    } else {
      var inc := Pow(v.geo.a, k - 1);
      WalkUnfold(v, false, true, p, k - 1, q, 0);
      ZeroDigits(q, v.geo.a, inc);
      var r := IndBmap(v, false, true, p, Digit(q, inc), 0);
      NewTableStep(v, p, Digit(q, inc), r);
      if r.ret == Ok {
        NewTableWalk(r.vol, r.result, k - 1, Rest(q, inc));
      }
    }
  }

  // ----- Below an existing table -----

  /**
   The tables on the way to offset q below table p either lead to a block, or
   stop at an empty entry whose left neighbour is inside the volume. Each level
   from there on takes a block; the tables in between are new.
   */
  predicate Served(v: Vol, p: nat, k: nat, q: nat)
    requires Fsck(v) && k > 0 && q < Pow(v.geo.a, k) && p < |v.disk|
    decreases k
  {
    var inc := Pow(v.geo.a, k - 1);
    PowPositive(v.geo.a, k - 1);
    Split(q, v.geo.a, inc);
    var i, ws := Digit(q, inc), Decode(v.disk[p]);
    if ws[i] != 0 then k == 1 || (ws[i] < |v.disk| && Served(v, ws[i], k - 1, Rest(q, inc)))
    else
      && InVolume(v.geo, if i != 0 then ws[i - 1] else p)
      && v.totalFree >= k && (v.geo.first == 0 || Rest(q, inc) == 0)
  }

  lemma ServedStep(v: Vol, p: nat, level: nat, q: nat, i: nat, rest: nat)
    requires Fsck(v) && q < Pow(v.geo.a, level + 1) && p < |v.disk| && |Decode(v.disk[p])| == v.geo.a
    requires Pow(v.geo.a, level) > 0 && i == Digit(q, Pow(v.geo.a, level)) && rest == Rest(q, Pow(v.geo.a, level))
    requires rest < Pow(v.geo.a, level) && i < v.geo.a
    ensures var ws := Decode(v.disk[p]);
            Served(v, p, level + 1, q) <==>
            if ws[i] != 0 then level == 0 || (ws[i] < |v.disk| && Served(v, ws[i], level, rest))
            else InVolume(v.geo, if i != 0 then ws[i - 1] else p)
                 && v.totalFree >= level + 1 && (v.geo.first == 0 || rest == 0)
  {
    hide Decode, Fsck;
  }

  /** The chain of lookups below a table allocates exactly when it is served. */
  lemma {:induction false} WalkSucceeds(v: Vol, p: nat, k: nat, q: nat)
    requires Fsck(v) && k > 0 && q < Pow(v.geo.a, k) && p != 0
    requires ReadyOne(TreeOf(v.disk, v.geo.a, k, p), v.geo.a, k, Used(v))
    ensures p < |v.disk| && (Walk(v, false, true, p, k, q, 0).ret == Ok <==> Served(v, p, k, q))
    decreases k
  {
    hide TreesOf, Decode, Encode, Served, Fsck, NewTable;
    var level := k - 1;
    Open(v, level, p);
    var kids := TreesOf(v.disk, v.geo.a, level, Decode(v.disk[p]));
    var inc := Pow(v.geo.a, level);
    LookupKid(Ind(p, kids), v.geo.a, k, q);
    var i, rest := Digit(q, inc), Rest(q, inc);
    var r := IndBmap(v, false, true, p, i, 0);
    if k == 1 {
      OneDigit(q);
    } else {
      WalkUnfold(v, false, true, p, level, q, 0);
    }
    ServedStep(v, p, level, q, i, rest);
    TreesAt(v.disk, v.geo.a, level, Decode(v.disk[p]), i);
    TreeRoot(v.disk, v.geo.a, level, Decode(v.disk[p])[i]);
    if kids[i].Hole? {
      EmptyEntry(v, p, i, r);
      if k > 1 && r.ret == Ok {
        NewTableWalk(r.vol, r.result, level, rest);
      }
    } else {
      IndReads(v, true, level, p, kids, i);
      if k > 1 {
        WalkSucceeds(v, Decode(v.disk[p])[i], level, rest);
      }
    }
  }

  // ----- The inode -----

  /** The slot with pointer p of level j can hold offset q. */
  predicate SlotServed(v: Vol, p: nat, j: nat, goal: nat, q: nat)
    requires Fsck(v) && q < Pow(v.geo.a, j)
  {
    if p == 0 then InVolume(v.geo, goal) && v.totalFree > j && (v.geo.first == 0 || q == 0)
    else j == 0 || (p < |v.disk| && Served(v, p, j, q))
  }

  /** An empty slot of level j takes its table first, then the walk below it. */
  lemma EmptySlot(v: Vol, j: nat, goal: nat, q: nat)
    requires Fsck(v) && q < Pow(v.geo.a, j)
    ensures SlotBmap(v, false, true, 0, j, goal, q, 0).ret == Ok <==> SlotServed(v, 0, j, goal, q)
    ensures SlotBmap(v, false, true, 0, j, goal, q, 0).ret == Ok ==>
      SlotBmap(v, false, true, 0, j, goal, q, 0).vol.totalFree == v.totalFree - j - 1
  {
    hide Decode, Encode, Offset, CountsOk, Walk, Pow;
    AllocSucceeds(v, goal);
    AllocOk(v, goal);
    var r := Alloc(v, goal);
    if r.ret == Ok && j > 0 {
      NewTableWalk(r.vol, r.result, j, q);
    }
    if j == 0 {
      assert Pow(v.geo.a, 0) == 1 by { IsPower(v.geo.a); }
    }
  }

  /** Block k can be given a place, or has one. */
  predicate Allocatable(v: Vol, slots: seq<nat>, k: nat, goal: nat)
    requires Fsck(v) && |slots| == NSLOTS && k < LevelBase(v.geo.a, 4)
  {
    var s := SlotOf(v.geo.a, k);
    SlotServed(v, slots[s], LevelOf(v.geo.a, k), GoalOf(slots, s, goal), OffsetOf(v.geo.a, k))
  }

  /**
   ext2_bmap with BMAP_ALLOC succeeds exactly when the path to block k ends in
   a block, or stops at an empty pointer with a left neighbour inside the
   volume, enough free blocks for the rest of the path, and, unless block 0
   belongs to the volume, only first entries on that rest.
   */
  lemma BmapSucceeds(v: Vol, iblocks: int, slots: seq<nat>, k: nat, goal: nat)
    requires InodeCheck(v, slots) && !TooBig(v.geo.a, k)
    ensures Bmap(v, iblocks, slots, false, true, k, 0, goal).ret == Ok <==> Allocatable(v, slots, k, goal)
  {
    hide TreesOf, Decode, Encode, Offset, Pow, Served, Walk;
    var j, s, q, t := BmapTree(v, slots, k);
    if slots[s] == 0 {
      EmptySlot(v, j, GoalOf(slots, s, goal), q);
    } else if j > 0 {
      WalkSucceeds(v, slots[s], j, q);
    }
  }

  // ----- What a call costs, and when there is room for any -----

  lemma {:induction false} WalkCost(v: Vol, p: nat, k: nat, q: nat)
    requires Fsck(v) && k > 0 && q < Pow(v.geo.a, k)
    ensures Walk(v, false, true, p, k, q, 0).vol.totalFree >= v.totalFree - k
    decreases k
  {
    hide Decode, Encode, Fsck, IndBmap;
    if k == 1 {
      IsPower(v.geo.a);
      IndCost(v, p, q);
    } else {
      var inc := Pow(v.geo.a, k - 1);
      WalkUnfold(v, false, true, p, k - 1, q, 0);
      IndCost(v, p, Digit(q, inc));
      var r := IndBmap(v, false, true, p, Digit(q, inc), 0);
      if r.ret == Ok {
        WalkCost(r.vol, r.result, k - 1, Rest(q, inc));
      }
    }
  }

  lemma IndCost(v: Vol, p: nat, i: nat)
    requires Fsck(v) && i < v.geo.a
    ensures IndBmap(v, false, true, p, i, 0).vol.totalFree >= v.totalFree - 1
  {
    hide Decode, Encode, CountsOk;
    if 0 != p < |v.disk| {
      AllocOk(v, if i != 0 then Decode(v.disk[p])[i - 1] else p);
    }
  }

  /** No call takes more than four blocks. */
  lemma BmapCost(v: Vol, iblocks: int, slots: seq<nat>, alloc: bool, k: nat, goal: nat)
    requires InodeCheck(v, slots)
    ensures Bmap(v, iblocks, slots, false, alloc, k, 0, goal).vol.totalFree >= v.totalFree - 4
  {
    hide TreesOf, Decode, Encode, Offset, Pow, Walk, CountsOk;
    if !TooBig(v.geo.a, k) {
      if alloc {
        var j, s, q, t := BmapTree(v, slots, k);
        var g := GoalOf(slots, s, goal);
        AllocOk(v, g);
        if j > 0 {
          if slots[s] != 0 {
            WalkCost(v, slots[s], j, q);
          } else if Alloc(v, g).ret == Ok {
            WalkCost(Alloc(v, g).vol, Alloc(v, g).result, j, q);
          }
        }
      } else {
        BmapReads(v, iblocks, slots, false, k, goal);
      }
    }
  }

  lemma UsedInside(v: Vol, b: nat)
    requires Fsck(v) && b in Used(v)
    ensures InVolume(v.geo, b)
  {
    hide CountsOk;
  }

  /** The root of a well-formed tree is 0 or a block of the volume. */
  lemma RootInside(v: Vol, level: nat, p: nat)
    requires Fsck(v) && ReadyOne(TreeOf(v.disk, v.geo.a, level, p), v.geo.a, level, Used(v))
    ensures p == 0 || InVolume(v.geo, p)
  {
    hide TreesOf, Decode, Used, Fsck;
    TreeRoot(v.disk, v.geo.a, level, p);
    if p != 0 {
      UsedInside(v, p);
    }
  }

  /** Where block 0 belongs to the volume, enough free blocks serve every path. */
  lemma {:induction false} ServedRoom(v: Vol, p: nat, k: nat, q: nat)
    requires Fsck(v) && k > 0 && q < Pow(v.geo.a, k) && p != 0 && v.geo.first == 0 && v.totalFree >= k
    requires ReadyOne(TreeOf(v.disk, v.geo.a, k, p), v.geo.a, k, Used(v))
    ensures p < |v.disk| && Served(v, p, k, q)
    decreases k
  {
    hide TreesOf, Decode, Encode, Served, CountsOk, ReadyOne;
    var level := k - 1;
    RootInside(v, k, p);
    Open(v, level, p);
    var kids, inc := TreesOf(v.disk, v.geo.a, level, Decode(v.disk[p])), Pow(v.geo.a, level);
    LookupKid(Ind(p, kids), v.geo.a, k, q);
    var i, rest := Digit(q, inc), Rest(q, inc);
    ServedStep(v, p, level, q, i, rest);
    if i > 0 {
      IndReads(v, false, level, p, kids, i - 1);
      RootInside(v, level, Decode(v.disk[p])[i - 1]);
    }
    IndReads(v, false, level, p, kids, i);
    RootInside(v, level, Decode(v.disk[p])[i]);
    if Decode(v.disk[p])[i] != 0 && k > 1 {
      ServedRoom(v, Decode(v.disk[p])[i], level, rest);
    }
  }

  /** The slots of an inode hold 0 or blocks of the volume. */
  lemma SlotInside(v: Vol, slots: seq<nat>, s: nat)
    requires InodeCheck(v, slots) && s < NSLOTS
    ensures |slots| == NSLOTS && Fsck(v) && (slots[s] == 0 || InVolume(v.geo, slots[s]))
  {
    hide TreesOf, Decode, Offset, ShapeAll, SeparateAll, OwnAll, Used, CountsOk, AllWords, ReadyOne, TreeOf;
    var j, i := if s < NDIR then 0 else s - NDIR + 1, if s < NDIR then s else 0;
    LevelTable(v, slots, j);
    var ts := Level(v, slots, j);
    TreesAt(v.disk, v.geo.a, j, LevelSlots(slots, j), i);
    OwnAt(ts, i);
    TreeRoot(v.disk, v.geo.a, j, slots[s]);
    if slots[s] != 0 {
      UsedInside(v, slots[s]);
    }
  }

  /** Where block 0 and the goal belong to the volume, four free blocks are room for any block. */
  lemma BmapRoom(v: Vol, slots: seq<nat>, k: nat, goal: nat)
    requires InodeCheck(v, slots) && !TooBig(v.geo.a, k)
    requires v.geo.first == 0 && goal < v.geo.count && v.totalFree >= 4
    ensures Allocatable(v, slots, k, goal)
  {
    hide TreesOf, Decode, Encode, Offset, Pow, Served, CountsOk;
    var j, s, q, t := BmapTree(v, slots, k);
    if slots[s] == 0 {
      if s > 0 {
        SlotInside(v, slots, s - 1);
      }
    } else if j > 0 {
      ServedRoom(v, slots[s], j, q);
    }
  }

  // ----- The block count and truncation -----

  lemma {:induction false} PruneToNothing(ts: seq<Tree>, a: nat, level: nat)
    requires a > 0 && ShapeAll(ts, a, level)
    ensures AllHoles(PruneAll(ts, a, level, 0))
    decreases ts
  {
    if ts != [] {
      var n := |ts| - 1;
      PruneToNothing(ts[..n], a, level);
      PowPositive(a, level);
      var t := ts[n];
      if t.Ind? {
        PruneToNothing(t.kids, a, level - 1);
      }
      assert PruneAll(ts, a, level, 0)[..n] == PruneAll(ts[..n], a, level, 0);
    }
  }

  lemma LevelCutWhole(v: Vol, slots: seq<nat>, j: nat)
    requires InodeCheck(v, slots) && j < 4
    ensures ShapeAll(Level(v, slots, j), v.geo.a, j)
    ensures CutSize(Level(v, slots, j), v.geo.a, j, 0) == |OwnAll(Level(v, slots, j))|
  {
    hide TreesOf, PruneAll, Decode, CutSize, OwnAll;
    LevelReady(v, slots, j);
    var ts := Level(v, slots, j);
    PruneToNothing(ts, v.geo.a, j);
    HolesReady(PruneAll(ts, v.geo.a, j, 0), v.geo.a, j);
    CutSizeIsFreed(ts, v.geo.a, j, 0);
    assert Freed(ts, PruneAll(ts, v.geo.a, j, 0)) == OwnAll(ts);
  }

  /** Truncating at 0 gives back every block the inode owns. */
  lemma {:induction false} CutWhole(v: Vol, slots: seq<nat>, j: nat)
    requires InodeCheck(v, slots) && j <= 4 && |slots| == NSLOTS && LevelsShaped(v, slots, j)
    ensures InodeCutSize(v, slots, 0, j) == |LevelsOwn(v, slots, j)|
    decreases 4 - j
  {
    hide TreesOf, PruneAll, Decode, InodeCheck, OwnAll, ShapeAll, CutSize;
    if j < 4 {
      InodeCutSizeStep(v, slots, 0, j);
      LevelCutWhole(v, slots, j);
      CutWhole(v, slots, j + 1);
      LevelApart(v, slots, j, j + 1);
    }
  }

  lemma BmapPays(v: Vol, iblocks: int, slots: seq<nat>, k: nat, goal: nat, m: Mapped)
    requires Fsck(v) && |slots| == NSLOTS && m == Bmap(v, iblocks, slots, false, true, k, 0, goal)
    ensures m.iblocks >= iblocks && m.vol.geo == v.geo
  {
    hide SlotBmap, LevelOf, OffsetOf, SlotOf, TooBig;
  }

  lemma SectorsAdd(g: Geometry, m: nat, n: nat)
    ensures Sectors(g, m + n) == Sectors(g, m) + Sectors(g, n)
  {
    OffsetAdd(m, n, 4 * g.a / 512);
  }

  /** The size of the inode after it took in the new blocks f. */
  lemma TookInSize(v: Vol, slots: seq<nat>, v': Vol, slots': seq<nat>, f: set<nat>)
    requires TookIn(v, slots, v', slots', f) && LevelsOwn(v, slots, 0) <= Used(v)
    ensures |slots'| == NSLOTS && Used(v') - Used(v) == f
    ensures |LevelsOwn(v', slots', 0)| == |LevelsOwn(v, slots, 0)| + |f|
  {
    hide LevelsOwn, Used;
  }

  /**
   An inode whose i_blocks is exact and that allocates one more block: it can
   be truncated to nothing exactly when the new block is a direct one and its
   count still fits 32 bits. Otherwise i_blocks falls behind, and truncation
   ends with EOVERFLOW.
   */
  lemma AllocThenTruncate(v: Vol, iblocks: int, slots: seq<nat>, k: nat, goal: nat, m: Mapped, c: Cut)
    requires InodeCheck(v, slots) && !TooBig(v.geo.a, k) && Map(v, slots, k) == 0 && v.geo.a >= 128
    requires iblocks == Sectors(v.geo, |LevelsOwn(v, slots, 0)|)
    requires m == Bmap(v, iblocks, slots, false, true, k, 0, goal) && m.ret == Ok
    requires c == DeallocFrom(m.vol, m.iblocks, m.slots, 0, 0)
    ensures c.ret == if k < NDIR && iblocks + Sectors(v.geo, 1) <= 0xffff_ffff then Ok else EOVERFLOW
  {
    hide *;
    LevelTable(v, slots, 0);
    var f := BmapKeeps(v, iblocks, slots, true, k, goal, m);
    BmapCounts(v, iblocks, slots, k, goal, m);
    LevelsOwnUsed(v, slots, 0);
    TookInSize(v, slots, m.vol, m.slots, f);
    SectorsAdd(v.geo, |LevelsOwn(v, slots, 0)|, |f|);
    LevelsShapedOk(m.vol, m.slots, 0);
    CutWhole(m.vol, m.slots, 0);
    BmapPays(v, iblocks, slots, k, goal, m);
    TruncateSucceeds(m.vol, m.iblocks, m.slots, 0, c, |LevelsOwn(m.vol, m.slots, 0)|);
  }

  // ----- A volume and an inode to start from -----

  /** One group of blocks from first on: one in use, then n free ones. */
  function Blank(first: nat, a: nat, n: nat): Vol
  {
    Vol(Geometry(a, first, first + n + 1, n + 1), seq(first + n + 1, i => Zeros(4 * a)), seq(n + 1, i => i == 0),
        [n], n)
  }

  lemma {:induction false} ClearAfterFirst(bits: seq<bool>, hi: nat)
    requires 0 < hi <= |bits| && forall i :: 0 <= i < |bits| ==> bits[i] == (i == 0)
    ensures Clear(bits, 0, hi) == hi - 1
  {
    if hi > 1 {
      ClearAfterFirst(bits, hi - 1);
    }
  }

  /** The invariant of a volume can hold. */
  lemma BlankClean(first: nat, a: nat, n: nat)
    requires a > 0 && first + n < WORD_LIMIT
    ensures Fsck(Blank(first, a, n))
  {
    var v := Blank(first, a, n);
    ClearAfterFirst(v.bits, n + 1);
    assert Offset(0, n + 1) == 0 && Offset(1, n + 1) == n + 1;
    assert Sum([n]) == Sum([]) + n by { assert [n][..0] == []; }
  }

  function NoSlots(): seq<nat>
  {
    seq(NSLOTS, i => 0)
  }

  lemma {:induction false} NoTrees(d: Disk, a: nat, level: nat, ps: seq<nat>)
    requires forall i :: 0 <= i < |ps| ==> ps[i] == 0
    ensures AllHoles(TreesOf(d, a, level, ps))
  {
    if ps != [] {
      NoTrees(d, a, level, ps[..|ps| - 1]);
    }
  }

  /** On every clean volume an inode without blocks is well formed, maps nothing and owns nothing. */
  lemma EmptyInode(v: Vol)
    requires Fsck(v)
    ensures InodeCheck(v, NoSlots()) && LevelsOwn(v, NoSlots(), 0) == {}
    ensures forall k :: 0 <= k < LevelBase(v.geo.a, 4) ==> Map(v, NoSlots(), k) == 0
  {
    hide TreesOf, Decode, Encode, Offset, Pow, CountsOk, Map;
    var slots := NoSlots();
    forall j | 0 <= j < 4
      ensures AllHoles(Level(v, slots, j)) && ShapeAll(Level(v, slots, j), v.geo.a, j)
      ensures Ready(Level(v, slots, j), v.geo.a, j, Used(v)) && OwnAll(Level(v, slots, j)) == {}
    {
      NoTrees(v.disk, v.geo.a, j, LevelSlots(slots, j));
      HolesReady(Level(v, slots, j), v.geo.a, j);
    }
    EmptyOwns(v, slots, 0);
    forall k | 0 <= k < LevelBase(v.geo.a, 4)
      ensures Map(v, slots, k) == 0
    {
      EmptyMap(v, slots, k);
    }
  }

  lemma {:induction false} EmptyOwns(v: Vol, slots: seq<nat>, j: nat)
    requires |slots| == NSLOTS && j <= 4 && forall i :: 0 <= i < 4 ==> OwnAll(Level(v, slots, i)) == {}
    ensures LevelsOwn(v, slots, j) == {}
    decreases 4 - j
  {
    hide Level, OwnAll;
    if j < 4 {
      EmptyOwns(v, slots, j + 1);
    }
  }

  lemma EmptyMap(v: Vol, slots: seq<nat>, k: nat)
    requires InodeCheck(v, slots) && k < LevelBase(v.geo.a, 4) && forall i :: 0 <= i < NSLOTS ==> slots[i] == 0
    ensures Map(v, slots, k) == 0
  {
    hide TreesOf, Decode, Offset, Pow;
    var j, s, q, t := BmapTree(v, slots, k);
  }

  /**
   The undercount happens: on a volume with two free blocks an empty inode
   allocates block 12, and can then not be truncated to nothing.
   */
  lemma UndercountHappens(a: nat, n: nat, goal: nat) returns (m: Mapped, c: Cut)
    requires 128 <= a <= MAX_TABLE && 2 <= n < WORD_LIMIT
    ensures Fsck(Blank(0, a, n)) && m == Bmap(Blank(0, a, n), 0, NoSlots(), false, true, 12, 0, goal)
    ensures c == DeallocFrom(m.vol, m.iblocks, m.slots, 0, 0)
    ensures m.ret == Ok && c.ret == EOVERFLOW
  {
    hide TreesOf, Decode, Encode, Pow, Offset, Fsck, InodeCheck, Map, Bmap, DeallocFrom, LevelsOwn;
    var v, slots := Blank(0, a, n), NoSlots();
    BlankClean(0, a, n);
    m := Bmap(v, 0, slots, false, true, 12, 0, goal);
    c := DeallocFrom(m.vol, m.iblocks, m.slots, 0, 0);
    EmptyInode(v);
    LevelBases(a);
    BmapSucceeds(v, 0, slots, 12, goal);
    assert Sectors(v.geo, 0) == 0 by { IsProduct(0, 4 * a / 512); }
    assert Sectors(v.geo, 1) <= 0xffff_ffff by { IsProduct(1, 4 * a / 512); }
    AllocThenTruncate(v, 0, slots, 12, goal, m, c);
  }

  /**
   A direct block behind a hole is refused unless block 0 belongs to the
   volume: the goal is its left neighbour's block number, which is 0, however
   much is free and whatever goal the caller gave.
   */
  lemma HoleRefused(v: Vol, iblocks: int, slots: seq<nat>, k: nat, goal: nat)
    requires InodeCheck(v, slots) && 0 < k < NDIR && slots[k - 1] == 0 && slots[k] == 0
    ensures Bmap(v, iblocks, slots, false, true, k, 0, goal).ret ==
      if v.geo.first > 0 then EINVAL else if v.totalFree == 0 then ENOENT else Ok
  {
    hide TreesOf, Decode, Encode, Offset, Pow, Walk, CountsOk;
    LevelBases(v.geo.a);
    AllocSucceeds(v, 0);
    NewBlockFails(v, 0);
  }

  /** The refusal happens: with first data block 1 and n free blocks, an empty inode cannot get its block 1. */
  lemma RefusalHappens(a: nat, n: nat, goal: nat)
    requires a > 0 && 1 + n < WORD_LIMIT
    ensures InodeCheck(Blank(1, a, n), NoSlots())
    ensures Blank(1, a, n).totalFree == n && Bmap(Blank(1, a, n), 0, NoSlots(), false, true, 1, 0, goal).ret == EINVAL
  {
    hide InodeCheck, Bmap;
    BlankClean(1, a, n);
    EmptyInode(Blank(1, a, n));
    HoleRefused(Blank(1, a, n), 0, NoSlots(), 1, goal);
  }
}
