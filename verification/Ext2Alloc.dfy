/** Bitmap search, block allocation and free-space accounting. */
module Ext2Alloc {
  import opened Bytes
  import opened Errors
  import opened Radix
  import opened Ext2Disk

  // ----- Bitmaps -----

  /** The number of clear bits in [lo, hi). */
  function Clear(bits: seq<bool>, lo: nat, hi: nat): nat
    requires hi <= |bits|
  {
    if hi <= lo then 0 else Clear(bits, lo, hi - 1) + if bits[hi - 1] then 0 else 1
  }

  lemma {:induction false} ClearUpdate(bits: seq<bool>, x: nat, v: bool, lo: nat, hi: nat)
    requires hi <= |bits| && x < |bits| && bits[x] != v
    ensures Clear(bits[x := v], lo, hi) ==
            Clear(bits, lo, hi) + if lo <= x < hi then (if v then -1 else 1) else 0
  {
    if lo < hi {
      ClearUpdate(bits, x, v, lo, hi - 1);
    }
  }

  lemma {:induction false} ClearSplit(bits: seq<bool>, lo: nat, mid: nat, hi: nat)
    requires lo <= mid <= hi <= |bits|
    ensures Clear(bits, lo, hi) == Clear(bits, lo, mid) + Clear(bits, mid, hi)
  {
    if mid < hi {
      ClearSplit(bits, lo, mid, hi - 1);
    }
  }

  predicate AllSet(bits: seq<bool>, lo: nat, hi: nat)
    requires hi <= |bits|
  {
    forall i :: lo <= i < hi ==> bits[i]
  }

  lemma {:induction false} AllSetCounts(bits: seq<bool>, lo: nat, hi: nat)
    requires hi <= |bits|
    ensures AllSet(bits, lo, hi) <==> Clear(bits, lo, hi) == 0
  {
    if lo < hi {
      AllSetCounts(bits, lo, hi - 1);
    }
  }

  /** The first clear bit of [lo, hi), hi if there is none. */
  function FirstClear(bits: seq<bool>, lo: nat, hi: nat): (r: nat)
    requires lo <= hi <= |bits|
    ensures lo <= r <= hi && AllSet(bits, lo, r)
    ensures r < hi ==> !bits[r]
    decreases hi - lo
  {
    if lo == hi || !bits[lo] then lo else FirstClear(bits, lo + 1, hi)
  }

  /**
   ext2_find_first_zero_bitmap on a 32-bit bitmap whose first bit stands for
   bStart; start and end are inclusive.
   */
  method FindFirstZero(bits: seq<bool>, bStart: nat, start: nat, end: int) returns (ret: Err, result: nat)
    ensures ret == EINVAL <==> start >= WORD_LIMIT || end >= WORD_LIMIT ||
                               start < bStart || end >= bStart + |bits| || start > end
    ensures ret == Ok || ret == EINVAL || ret == ENOENT
    ensures ret == ENOENT ==> AllSet(bits, start - bStart, end - bStart + 1)
    ensures ret == Ok ==>
            start <= result <= end && result - bStart == FirstClear(bits, start - bStart, end - bStart + 1)
    ensures ret == Ok ==> !bits[result - bStart]
  {
    result := 0;
    if start >= WORD_LIMIT || end >= WORD_LIMIT {
      return EINVAL, 0;
    }
    if start < bStart || end >= bStart + |bits| || start > end {
      return EINVAL, 0;
    }
    var i := start;
    while i <= end
      invariant start <= i <= end + 1
      invariant AllSet(bits, start - bStart, i - bStart)
      invariant FirstClear(bits, start - bStart, end - bStart + 1) == FirstClear(bits, i - bStart, end - bStart + 1)
    {
      if !bits[i - bStart] {
        return Ok, i;
      }
      i := i + 1;
    }
    return ENOENT, 0;
  }

  // ----- Volumes -----

  /**
   Entries per indirect block, first data block, block count, blocks per group.
   */
  datatype Geometry = Geometry(a: nat, first: nat, count: nat, perGroup: nat)

  /**
   The state of a mounted volume: the disk, the block bitmap (bit b - first
   stands for block b), the free count of each group and of the superblock.
   */
  datatype Vol = Vol(geo: Geometry, disk: Disk, bits: seq<bool>, groupFree: seq<int>, totalFree: int)

  predicate GeometryOk(g: Geometry)
  {
    g.a > 0 && g.first < g.count <= WORD_LIMIT && g.perGroup > 0
  }

  predicate DiskOk(v: Vol)
  {
    |v.disk| == v.geo.count && forall b :: 0 <= b < |v.disk| ==> |v.disk[b]| == 4 * v.geo.a
  }

  /** The first bit of group g, of n bits in all. */
  function GroupStart(n: nat, perGroup: nat, g: nat): (e: nat)
    ensures e <= n
  {
    if Offset(g, perGroup) <= n then Offset(g, perGroup) else n
  }

  function Sum(s: seq<int>): int
  {
    if s == [] then 0 else Sum(s[..|s| - 1]) + s[|s| - 1]
  }

  /** Each group's count equals its clear bits; the superblock's is their sum. */
  predicate CountsOk(bits: seq<bool>, perGroup: nat, groupFree: seq<int>, totalFree: int)
  {
    && |bits| <= Offset(|groupFree|, perGroup)
    && (forall g :: 0 <= g < |groupFree| ==>
          groupFree[g] == Clear(bits, GroupStart(|bits|, perGroup, g), GroupStart(|bits|, perGroup, g + 1)))
    && totalFree == Sum(groupFree)
  }

  /** Block 0 is never free: pointer value 0 means a hole. */
  predicate BitsOk(v: Vol)
    requires GeometryOk(v.geo)
  {
    |v.bits| == v.geo.count - v.geo.first && (v.geo.first == 0 ==> v.bits[0])
  }

  /** The invariant of a volume, as the verdict of a file system check. */
  predicate Fsck(v: Vol)
  {
    GeometryOk(v.geo) && DiskOk(v) && BitsOk(v) && CountsOk(v.bits, v.geo.perGroup, v.groupFree, v.totalFree)
  }

  predicate IsUsed(v: Vol, b: nat)
  {
    v.geo.first <= b < v.geo.first + |v.bits| && v.bits[b - v.geo.first]
  }

  function Used(v: Vol): set<nat>
  {
    set b | v.geo.first <= b < v.geo.first + |v.bits| && IsUsed(v, b)
  }

  lemma UsedHas(v: Vol, b: nat)
    ensures b in Used(v) <==> IsUsed(v, b)
  {
  }

  predicate IsFree(v: Vol, b: nat)
  {
    v.geo.first <= b < v.geo.first + |v.bits| && !v.bits[b - v.geo.first]
  }

  function GroupOf(v: Vol, b: nat): nat
    requires v.geo.perGroup > 0 && v.geo.first <= b
  {
    Digit(b - v.geo.first, v.geo.perGroup)
  }

  /** ext2_block_alloc_stats: inUse marks block b, otherwise it is unmarked. */
  function AllocStats(v: Vol, b: nat, inUse: bool): Vol
    requires v.geo.perGroup > 0 && v.geo.first <= b < v.geo.first + |v.bits| && GroupOf(v, b) < |v.groupFree|
  {
    var g := GroupOf(v, b);
    var delta := if inUse then -1 else 1;
    v.(bits := v.bits[b - v.geo.first := inUse],
       groupFree := v.groupFree[g := v.groupFree[g] + delta],
       totalFree := v.totalFree + delta)
  }

  lemma {:induction false} SumUpdate(s: seq<int>, i: nat, x: int)
    requires i < |s|
    ensures Sum(s[i := x]) == Sum(s) - s[i] + x
  {
    var n := |s| - 1;
    if i < n {
      assert s[i := x][..n] == s[..n][i := x];
      SumUpdate(s[..n], i, x);
    } else {
      assert s[i := x][..n] == s[..n];
    }
  }

  lemma GroupBounds(v: Vol, b: nat)
    requires Fsck(v) && v.geo.first <= b < v.geo.count
    ensures GroupOf(v, b) < |v.groupFree|
    ensures forall g :: 0 <= g < |v.groupFree| ==>
      (GroupStart(|v.bits|, v.geo.perGroup, g) <= b - v.geo.first < GroupStart(|v.bits|, v.geo.perGroup, g + 1) <==>
        g == GroupOf(v, b))
  {
    var x, pg := b - v.geo.first, v.geo.perGroup;
    Split(x, |v.groupFree|, pg);
    var h := Digit(x, pg);
    forall g | 0 <= g < |v.groupFree|
      ensures GroupStart(|v.bits|, v.geo.perGroup, g) <= x < GroupStart(|v.bits|, v.geo.perGroup, g + 1) <==> g == h
    {
      if g < h {
        OffsetGrows(g, h, pg);
      } else if h < g {
        OffsetGrows(h, g, pg);
      }
    }
  }

  /** Marking a free block, or unmarking a used one, keeps every count exact. */
  lemma AllocStatsOk(v: Vol, b: nat, inUse: bool)
    requires Fsck(v) && b != 0
    requires if inUse then IsFree(v, b) else IsUsed(v, b)
    ensures GroupOf(v, b) < |v.groupFree|
    ensures Fsck(AllocStats(v, b, inUse))
    ensures Used(AllocStats(v, b, inUse)) == if inUse then Used(v) + {b} else Used(v) - {b}
    ensures AllocStats(v, b, inUse).totalFree == v.totalFree + if inUse then -1 else 1
  {
    GroupBounds(v, b);
    var v', g := AllocStats(v, b, inUse), GroupOf(v, b);
    SumUpdate(v.groupFree, g, v'.groupFree[g]);
    forall h | 0 <= h < |v.groupFree|
      ensures v'.groupFree[h] ==
              Clear(v'.bits, GroupStart(|v.bits|, v.geo.perGroup, h), GroupStart(|v.bits|, v.geo.perGroup, h + 1))
    {
      ClearUpdate(v.bits, b - v.geo.first, inUse, GroupStart(|v.bits|, v.geo.perGroup, h),
                  GroupStart(|v.bits|, v.geo.perGroup, h + 1));
    }
  }

  /** The superblock's free count is the number of clear bits of the whole map. */
  lemma TotalIsClear(v: Vol)
    requires Fsck(v)
    ensures v.totalFree == Clear(v.bits, 0, |v.bits|)
  {
    SumIsClear(v, |v.groupFree|);
    assert v.groupFree[..|v.groupFree|] == v.groupFree;
  }

  lemma {:induction false} SumIsClear(v: Vol, n: nat)
    requires Fsck(v) && n <= |v.groupFree|
    ensures Sum(v.groupFree[..n]) == Clear(v.bits, 0, GroupStart(|v.bits|, v.geo.perGroup, n))
  {
    if n > 0 {
      SumIsClear(v, n - 1);
      assert v.groupFree[..n][..n - 1] == v.groupFree[..n - 1];
      OffsetGrows(n - 1, n, v.geo.perGroup);
      ClearSplit(v.bits, 0, GroupStart(|v.bits|, v.geo.perGroup, n - 1), GroupStart(|v.bits|, v.geo.perGroup, n));
    }
  }

  /** Marking or unmarking keeps the volume sound exactly on a free, or on a used block other than 0. */
  lemma AllocStatsExact(v: Vol, b: nat, inUse: bool)
    requires Fsck(v) && v.geo.first <= b < v.geo.count
    ensures GroupOf(v, b) < |v.groupFree|
    ensures Fsck(AllocStats(v, b, inUse)) <==> if inUse then IsFree(v, b) else b != 0 && IsUsed(v, b)
  {
    hide CountsOk, Clear;
    GroupBounds(v, b);
    var w := AllocStats(v, b, inUse);
    if if inUse then IsFree(v, b) else b != 0 && IsUsed(v, b) {
      AllocStatsOk(v, b, inUse);
    } else if Fsck(w) {
      assert w.bits == v.bits;
      TotalIsClear(v);
      TotalIsClear(w);
    }
  }

  /** The blocks in use among the first n of the bitmap. */
  function UsedUpTo(first: nat, bits: seq<bool>, n: nat): (s: set<nat>)
    requires n <= |bits|
    ensures forall b :: b in s <==> first <= b < first + n && bits[b - first]
  {
    if n == 0 then {}
    else if bits[n - 1] then UsedUpTo(first, bits, n - 1) + {first + n - 1}
    else UsedUpTo(first, bits, n - 1)
  }

  lemma {:induction false} UsedCount(first: nat, bits: seq<bool>, n: nat)
    requires n <= |bits|
    ensures |UsedUpTo(first, bits, n)| + Clear(bits, 0, n) == n
  {
    if n > 0 {
      UsedCount(first, bits, n - 1);
    }
  }

  /** Blocks in use and free blocks make up the volume. */
  lemma UsedAndFree(v: Vol)
    requires Fsck(v)
    ensures |Used(v)| + v.totalFree == |v.bits|
  {
    TotalIsClear(v);
    UsedCount(v.geo.first, v.bits, |v.bits|);
    assert Used(v) == UsedUpTo(v.geo.first, v.bits, |v.bits|);
  }

  // ----- Allocation -----

  /** The outcome of an operation on a volume: new state, error code, block. */
  datatype Step = Step(vol: Vol, ret: Err, result: nat)

  predicate NoneFree(v: Vol, lo: nat, hi: nat)
  {
    forall c :: lo <= c < hi ==> !IsFree(v, c)
  }

  /** Block b is the first free one from goal on, or, if there is none, the first free one of the volume. */
  predicate Nearest(v: Vol, goal: nat, b: nat)
  {
    && IsFree(v, b)
    && if goal <= b then NoneFree(v, goal, b) else NoneFree(v, v.geo.first, b) && NoneFree(v, goal, v.geo.count)
  }

  /**
   ext2_new_block, cluster ratio 1: the first free block at or after goal, else
   the first free block before it. A goal outside the volume is not adjusted.
   */
  function NewBlock(v: Vol, goal: nat): (r: (Err, nat))
    requires Fsck(v)
    ensures r.0 == EINVAL <==> !(v.geo.first <= goal < v.geo.count)
    ensures r.0 == Ok ==> Nearest(v, goal, r.1) && r.1 != 0
    ensures r.0 == Ok || r.0 == EINVAL || r.0 == ENOENT
  {
    if goal < v.geo.first || goal >= v.geo.count then (EINVAL, 0)
    else
      var at := goal - v.geo.first;
      var up := FirstClear(v.bits, at, |v.bits|);
      if up < |v.bits| then (Ok, v.geo.first + up)
      else
        var down := FirstClear(v.bits, 0, at);
        if down < at then (Ok, v.geo.first + down) else (ENOENT, 0)
  }

  /** With a goal inside the volume, the search fails only on a full volume. */
  lemma NewBlockFails(v: Vol, goal: nat)
    requires Fsck(v)
    ensures NewBlock(v, goal).0 == ENOENT <==> v.geo.first <= goal < v.geo.count && v.totalFree == 0
    ensures NewBlock(v, goal).0 == Ok <==> v.geo.first <= goal < v.geo.count && v.totalFree > 0
  {
    TotalIsClear(v);
    AllSetCounts(v.bits, 0, |v.bits|);
  }

  function Zeroed(v: Vol, b: nat): Vol
    requires b < |v.disk|
  {
    v.(disk := v.disk[b := Zeros(4 * v.geo.a)])
  }

  /** ext2_alloc_block: a free block, zeroed on disk and marked. */
  function Alloc(v: Vol, goal: nat): (r: Step)
    requires Fsck(v)
  {
    var (ret, b) := NewBlock(v, goal);
    if ret != Ok then Step(v, ret, 0)
    else
      GroupBounds(Zeroed(v, b), b);
      Step(AllocStats(Zeroed(v, b), b, true), Ok, b)
  }

  /** A successful allocation takes one free block, zeroes it and touches no other. */
  lemma AllocOk(v: Vol, goal: nat)
    requires Fsck(v)
    ensures Fsck(Alloc(v, goal).vol)
    ensures Alloc(v, goal).ret != Ok ==> Alloc(v, goal).vol == v
    ensures Alloc(v, goal).ret == Ok ==>
      var r := Alloc(v, goal);
      && Nearest(v, goal, r.result) && r.result != 0
      && Used(r.vol) == Used(v) + {r.result}
      && r.vol.disk == v.disk[r.result := Zeros(4 * v.geo.a)]
      && r.vol.geo == v.geo
      && r.vol.totalFree == v.totalFree - 1
  {
    var (ret, b) := NewBlock(v, goal);
    if ret == Ok {
      assert Used(Zeroed(v, b)) == Used(v);
      AllocStatsOk(Zeroed(v, b), b, true);
    }
  }

  // ----- Runs -----

  /** A block is asked for near goal, or given back. */
  datatype Request = Take(goal: nat) | GiveUp(b: nat)

  /** Only a block in use is given back. */
  predicate Permitted(v: Vol, op: Request)
  {
    op.GiveUp? ==> op.b != 0 && IsUsed(v, op.b)
  }

  function Exec(v: Vol, op: Request): (w: Vol)
    requires Fsck(v) && Permitted(v, op)
    ensures Fsck(w)
  {
    match op
    case Take(goal) => AllocOk(v, goal); Alloc(v, goal).vol
    case GiveUp(b) => AllocStatsOk(v, b, false); AllocStats(v, b, false)
  }

  predicate AllPermitted(v: Vol, ops: seq<Request>)
    requires Fsck(v)
    decreases ops
  {
    ops == [] || (Permitted(v, ops[0]) && AllPermitted(Exec(v, ops[0]), ops[1..]))
  }

  function RunOf(v: Vol, ops: seq<Request>): Vol
    requires Fsck(v) && AllPermitted(v, ops)
    decreases ops
  {
    if ops == [] then v else RunOf(Exec(v, ops[0]), ops[1..])
  }

  /** The blocks one request hands out. */
  function Handed(v: Vol, op: Request): seq<nat>
    requires Fsck(v)
  {
    if op.Take? && Alloc(v, op.goal).ret == Ok then [Alloc(v, op.goal).result] else []
  }

  /** The blocks handed out in a run, in order. */
  function Taken(v: Vol, ops: seq<Request>): seq<nat>
    requires Fsck(v) && AllPermitted(v, ops)
    decreases ops
  {
    if ops == [] then [] else Handed(v, ops[0]) + Taken(Exec(v, ops[0]), ops[1..])
  }

  /** The blocks one request gives back. */
  function HandedBack(op: Request): seq<nat>
  {
    if op.GiveUp? then [op.b] else []
  }

  /** The blocks given back in a run, in order. */
  function Given(ops: seq<Request>): seq<nat>
  {
    if ops == [] then [] else HandedBack(ops[0]) + Given(ops[1..])
  }

  lemma ExecBalance(v: Vol, op: Request, w: Vol)
    requires Fsck(v) && Permitted(v, op) && w == Exec(v, op)
    ensures w.geo == v.geo && |w.disk| == |v.disk|
    ensures multiset(Used(w)) + multiset(HandedBack(op)) == multiset(Used(v)) + multiset(Handed(v, op))
    ensures w.totalFree + |Handed(v, op)| == v.totalFree + |HandedBack(op)|
    ensures forall b :: 0 <= b < |v.disk| && b !in Handed(v, op) ==> w.disk[b] == v.disk[b]
  {
    hide CountsOk, Used, Clear, NewBlock, Alloc;
    if op.Take? {
      var r := Alloc(v, op.goal);
      AllocOk(v, op.goal);
      if r.ret == Ok {
        UsedHas(v, r.result);
        assert multiset(Used(v) + {r.result}) == multiset(Used(v)) + multiset{r.result};
      }
    } else {
      AllocStatsOk(v, op.b, false);
      UsedHas(v, op.b);
      assert multiset(Used(v) - {op.b}) + multiset{op.b} == multiset(Used(v));
    }
  }

  lemma Chained(x: multiset<nat>, y: multiset<nat>, z: multiset<nat>,
                r: multiset<nat>, h: multiset<nat>, g: multiset<nat>, t: multiset<nat>)
    requires y + r == x + h && z + g == y + t
    ensures z + (r + g) == x + (h + t)
  {
    assert z + (r + g) == (z + g) + r == (y + r) + t;
  }

  /**
   Over every run of allocations and frees all counts stay exact, and each
   block is in use as often as it was at first or was handed out, less the
   times it was given back: no block is handed out twice in between. Blocks not
   handed out keep their content.
   */
  lemma {:induction false} RunBalance(v: Vol, ops: seq<Request>)
    requires Fsck(v) && AllPermitted(v, ops)
    ensures Fsck(RunOf(v, ops)) && RunOf(v, ops).geo == v.geo && |RunOf(v, ops).disk| == |v.disk|
    ensures multiset(Used(RunOf(v, ops))) + multiset(Given(ops)) == multiset(Used(v)) + multiset(Taken(v, ops))
    ensures RunOf(v, ops).totalFree + |Taken(v, ops)| == v.totalFree + |Given(ops)|
    ensures forall b :: 0 <= b < |v.disk| && b !in Taken(v, ops) ==> RunOf(v, ops).disk[b] == v.disk[b]
    decreases |ops|
  {
    hide Fsck, Used, Permitted, Exec, Handed, HandedBack;
    if ops != [] {
      var w, rest := Exec(v, ops[0]), ops[1..];
      ExecBalance(v, ops[0], w);
      RunBalance(w, rest);
      assert multiset(Given(ops)) == multiset(HandedBack(ops[0])) + multiset(Given(rest));
      assert multiset(Taken(v, ops)) == multiset(Handed(v, ops[0])) + multiset(Taken(w, rest));
      Chained(multiset(Used(v)), multiset(Used(w)), multiset(Used(RunOf(w, rest))), multiset(HandedBack(ops[0])),
              multiset(Handed(v, ops[0])), multiset(Given(rest)), multiset(Taken(w, rest)));
    }
  }

  /** A mounted volume, updated in place. */
  class Volume {
    const geo: Geometry
    var disk: Disk
    var bits: seq<bool>
    var groupFree: seq<int>
    var totalFree: int

    constructor (v: Vol)
      ensures Now() == v
    {
      geo, disk, bits, groupFree, totalFree := v.geo, v.disk, v.bits, v.groupFree, v.totalFree;
    }

    function Now(): Vol
      reads this
    {
      Vol(geo, disk, bits, groupFree, totalFree)
    }

    method FindBlock(goal: nat) returns (ret: Err, b: nat)
      requires Fsck(Now())
      ensures (ret, b) == NewBlock(Now(), goal)
    {
      ret, b := FindFirstZero(bits, geo.first, goal, geo.count - 1);
      if ret == ENOENT && goal != geo.first {
        ret, b := FindFirstZero(bits, geo.first, geo.first, goal - 1);
      }
      if ret != Ok {
        b := 0;
      }
    }

    method BlockAllocStats(block: nat, inUse: bool)
      requires Fsck(Now()) && geo.first <= block
      modifies this
      ensures block >= geo.count ==> Now() == old(Now())
      ensures block < geo.count ==>
        GroupOf(old(Now()), block) < |old(Now()).groupFree| && Now() == AllocStats(old(Now()), block, inUse)
    {
      if block >= geo.count {
        return;
      }
      GroupBounds(Now(), block);
      IsDivMod(block - geo.first, geo.perGroup);
      var group := (block - geo.first) / geo.perGroup;
      var delta := if inUse then 1 else -1;
      bits := bits[block - geo.first := inUse];
      groupFree := groupFree[group := groupFree[group] - delta];
      totalFree := totalFree - delta;
    }

    method AllocBlock(goal: nat) returns (ret: Err, b: nat)
      requires Fsck(Now())
      modifies this
      ensures Step(Now(), ret, b) == Alloc(old(Now()), goal)
      ensures Fsck(Now())
    {
      ghost var v := Now();
      AllocOk(v, goal);
      ret, b := FindBlock(goal);
      if ret == Ok {
        disk := disk[b := Zeros(4 * geo.a)];
        BlockAllocStats(b, true);
      }
    }
  }

  // ----- Inode search -----

  /** Every inode of [lo, hi) is in use. */
  predicate InodesTaken(bits: seq<bool>, lo: nat, hi: nat)
    requires 1 <= lo && 1 <= hi <= |bits| + 1
  {
    AllSet(bits, lo - 1, hi - 1)
  }

  /** The first inode of the group of inode dir. */
  function GroupFirstInode(dir: nat, perGroup: nat): (r: nat)
    requires perGroup > 0 && dir > 0
    ensures 1 <= r <= dir
  {
    (dir - 1) / perGroup * perGroup + 1
  }

  /** How many inodes after i belong to its group or open the next one. */
  function GroupLeft(i: nat, perGroup: nat): (r: nat)
    requires perGroup > 0 && i > 0
    ensures 1 <= r <= perGroup
  {
    perGroup - (i - 1) % perGroup
  }

  /** Where the search starts: at the group of dir, but not below the first inode for files. */
  function StartInode(dir: nat, perGroup: nat, firstInode: nat): nat
    requires perGroup > 0
  {
    Max(if dir > 0 then GroupFirstInode(dir, perGroup) else 0, firstInode)
  }

  /**
   ext2_new_inode over a 32-bit bitmap (bit i - 1 stands for inode i), without
   uninitialised groups: from the group of dir to the last inode, then around.
   */
  method NewInode(bits: seq<bool>, dir: nat, perGroup: nat, firstInode: nat) returns (ret: Err, ino: nat)
    requires perGroup > 0 && firstInode > 0 && |bits| < WORD_LIMIT
    ensures ret == Ok || ret == ENOSPC
    ensures ret == Ok ==> firstInode <= ino <= |bits| && !bits[ino - 1]
    ensures ret == ENOSPC <==>
            StartInode(dir, perGroup, firstInode) > |bits| || InodesTaken(bits, firstInode, |bits| + 1)
    ensures ret == Ok ==>
      var start := StartInode(dir, perGroup, firstInode);
      if ino >= start then InodesTaken(bits, start, ino)
      else InodesTaken(bits, start, |bits| + 1) && InodesTaken(bits, firstInode, ino)
  {
    ino := 0;
    var count := |bits|;
    var startInode := 0;
    if dir > 0 {
      startInode := GroupFirstInode(dir, perGroup);
    }
    if startInode < firstInode {
      startInode := firstInode;
    }
    if startInode > count {
      return ENOSPC, 0;
    }
    var i := startInode;
    var wrapped := false;
    while true
      invariant firstInode <= i <= count && firstInode <= startInode <= count
      invariant !wrapped ==> startInode <= i && InodesTaken(bits, startInode, i)
      invariant wrapped ==>
              i <= startInode && InodesTaken(bits, startInode, count + 1) && InodesTaken(bits, firstInode, i)
      invariant wrapped ==> i < startInode
      decreases !wrapped, count - i
    {
      var upto := i + GroupLeft(i, perGroup);
      if i < startInode && upto >= startInode {
        upto := startInode - 1;
      }
      if upto > count {
        upto := count;
      }
      var r, zero := FindFirstZero(bits, 1, i, upto);
      if r == Ok {
        i := zero;
        break;
      }
      i := upto + 1;
      if i > count {
        i := firstInode;
        wrapped := true;
      }
      if i == startInode {
        break;
      }
    }
    if bits[i - 1] {
      return ENOSPC, 0;
    }
    return Ok, i;
  }
}
