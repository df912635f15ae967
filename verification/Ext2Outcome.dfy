/** When loading, flushing, reading and writing an open file succeed. */
module Ext2Outcome {
  import opened Bytes
  import opened Errors
  import opened Memory
  import opened Radix
  import opened Ext2Disk
  import opened Ext2Alloc
  import opened Ext2Inode
  import opened Ext2Bmap
  import opened Ext2View
  import opened Ext2Space
  import opened Ext2File

  // ----- One block -----

  /** A load fails only for a block number that is too big; a hole loads as zeros. */
  lemma LoadSucceeds(h: Handle, nofill: bool)
    requires HandleCheck(h)
    ensures Load(h, nofill).ret == if h.valid || !TooBig(h.vol.geo.a, h.block) then Ok else EFBIG
    ensures Load(h, nofill).ret == Ok && !nofill ==> Load(h, nofill).h.buffer == Content(h, h.block)
    ensures Load(h, nofill).h.vol == h.vol && Load(h, nofill).h.slots == h.slots
  {
    hide InodeCheck, Map, TooBig;
    RemapPlaced(h, false, 0, Remap(h, false, 0));
    if !TooBig(h.vol.geo.a, h.block) {
      BmapReads(h.vol, h.iblocks, h.slots, false, h.block, 0);
    }
    LoadSame(h, h.block);
  }

  /** The cached block can be written back: it is not valid, or has a place, or can be given one. */
  predicate Flushable(h: Handle, goal: nat)
    requires HandleCheck(h)
  {
    !h.valid || h.phys != 0 || Allocatable(h.vol, h.slots, h.block, goal)
  }

  lemma FlushSucceeds(h: Handle, goal: nat)
    requires HandleCheck(h)
    ensures Flush(h, goal).ret == Ok <==> Flushable(h, goal)
  {
    hide InodeCheck, Map, TooBig, Allocatable, Bmap;
    if h.valid {
      ValidPlaced(h);
      if h.phys == 0 {
        BmapSucceeds(h.vol, h.iblocks, h.slots, h.block, goal);
        RemapPlaced(h, true, goal, Remap(h, true, goal));
      }
    }
  }

  lemma SyncSucceeds(h: Handle, goal: nat)
    requires HandleCheck(h)
    ensures Sync(h, goal).ret == Ok <==> Digit(h.pos, BlockSize(h)) == h.block || Flushable(h, goal)
  {
    hide HandleCheck, Flush, Flushable, Digit, BlockSize;
    BlockPositive(h);
    FlushSucceeds(h, goal);
  }

  /** A block is cached for reading exactly when the one before it can be written back and it is not too big. */
  lemma FetchSucceeds(h: Handle, goal: nat)
    requires HandleCheck(h)
    ensures Fetch(h, goal).ret == Ok <==>
            && (Digit(h.pos, BlockSize(h)) == h.block || Flushable(h, goal))
            && !TooBig(h.vol.geo.a, Digit(h.pos, BlockSize(h)))
  {
    hide InodeCheck, Map, TooBig, Sync, Flushable, Digit;
    SyncSucceeds(h, goal);
    SyncSame(h, goal, 0);
    var s := Sync(h, goal);
    if s.ret == Ok {
      LoadSucceeds(s.h, false);
    }
  }

  /** The block a write has come to can be given a place, or has one. */
  predicate Placeable(h: Handle, k: nat, goal: nat)
    requires HandleCheck(h) && k < LevelBase(h.vol.geo.a, 4)
  {
    Map(h.vol, h.slots, k) != 0 || Allocatable(h.vol, h.slots, k, goal)
  }

  /**
   One pass of the loop of ext2_write succeeds exactly when the block before it
   can be written back, its own is not too big, and has a place or can then be
   given one.
   */
  lemma ChunkSucceeds(h: Handle, data: Block, goal: nat, s: Done, k: nat)
    requires HandleCheck(h) && k == Digit(h.pos, BlockSize(h)) && s == Sync(h, goal)
    requires Rest(h.pos, BlockSize(h)) + |data| <= BlockSize(h)
    ensures HandleCheck(s.h) && s.h.vol.geo == h.vol.geo
    ensures Chunk(h, data, goal).ret == Ok <==>
            && (k == h.block || Flushable(h, goal)) && !TooBig(h.vol.geo.a, k) && Placeable(s.h, k, goal)
  {
    hide InodeCheck, Map, Sync, Flushable, Digit, Allocatable, Bmap, Put;
    SyncSucceeds(h, goal);
    SyncSame(h, goal, 0);
    if s.ret == Ok {
      var l := Load(s.h, |data| == BlockSize(h));
      LoadSucceeds(s.h, |data| == BlockSize(h));
      LoadChecked(s.h, |data| == BlockSize(h), 0);
      if l.ret == Ok {
        ValidPlaced(l.h);
        ChecksInode(s.h);
        if Map(s.h.vol, s.h.slots, k) == 0 {
          BmapSucceeds(s.h.vol, l.h.iblocks, s.h.slots, k, goal);
        }
      }
    }
  }

  // ----- What a step leaves -----

  /** A block that had a place keeps it. */
  predicate Leaves(h: Handle, h': Handle, k: nat)
  {
    && HandleCheck(h) && HandleCheck(h') && h'.vol.geo == h.vol.geo
    && (k < LevelBase(h.vol.geo.a, 4) && Map(h.vol, h.slots, k) != 0 ==>
          Map(h'.vol, h'.slots, k) == Map(h.vol, h.slots, k))
  }

  lemma LeavesThen(h: Handle, h1: Handle, h2: Handle, k: nat)
    requires Leaves(h, h1, k) && Leaves(h1, h2, k)
    ensures Leaves(h, h2, k)
  {
    hide HandleCheck, Map, LevelBase;
  }

  /** The free blocks that writing the cached block back may take. */
  function Owed(h: Handle): nat
  {
    if h.valid && h.phys == 0 then 4 else 0
  }

  lemma RemapLeaves(h: Handle, goal: nat, k: nat, r: Done)
    requires HandleCheck(h) && (h.valid ==> h.phys == 0) && r == Remap(h, true, goal)
    ensures Leaves(h, r.h, k) && r.h.vol.totalFree >= h.vol.totalFree - 4
  {
    hide InodeCheck, Map, TooBig, Bmap, LevelBase;
    RemapSame(h, true, goal, 0, r);
    ChecksInode(h);
    BmapCost(h.vol, h.iblocks, h.slots, true, h.block, goal);
    var m := Bmap(h.vol, h.iblocks, h.slots, false, true, h.block, 0, goal);
    if k < LevelBase(h.vol.geo.a, 4) && Map(h.vol, h.slots, k) != 0 {
      BmapStays(h.vol, h.iblocks, h.slots, true, h.block, goal, m, k);
    }
  }

  lemma WriteBackLeaves(h: Handle, h': Handle, k: nat)
    requires HandleCheck(h) && h.valid && 0 != h.phys < |h.vol.disk|
    requires h' == h.(vol := h.vol.(disk := h.vol.disk[h.phys := h.buffer]), dirty := false)
    ensures Leaves(h, h', k) && h'.vol.totalFree == h.vol.totalFree
  {
    hide InodeCheck, Map, TooBig, LevelBase;
    WriteBackSame(h, h', 0);
    BlockBelow(h);
    ViewWritten(h.vol, h.slots, h.block, h.buffer, h'.vol, k);
  }

  lemma BlockBelow(h: Handle)
    requires HandleCheck(h) && h.valid
    ensures h.block < LevelBase(h.vol.geo.a, 4)
  {
    hide InodeCheck;
  }

  lemma FlushLeaves(h: Handle, goal: nat, k: nat, r: Done)
    requires HandleCheck(h) && r == Flush(h, goal)
    ensures Leaves(h, r.h, k) && r.h.vol.totalFree >= h.vol.totalFree - Owed(h)
  {
    hide Remap, InodeCheck, Map, TooBig, LevelBase;
    if h.valid {
      ValidPlaced(h);
      var r0 := Done(h, Ok);
      if h.phys == 0 {
        r0 := Remap(h, true, goal);
        RemapLeaves(h, goal, k, r0);
        RemapPlaced(h, true, goal, r0);
        RemapKeeps(h, goal);
      }
      if r0.ret == Ok {
        PlacedInside(r0.h);
        WriteBackLeaves(r0.h, r.h, k);
        LeavesThen(h, r0.h, r.h, k);
      }
    }
  }

  lemma RemapKeeps(h: Handle, goal: nat)
    requires HandleCheck(h)
    ensures var r := Remap(h, true, goal).h;
      r.valid == h.valid && r.buffer == h.buffer && r.block == h.block && r.pos == h.pos && r.dirty == h.dirty
  {
    hide HandleCheck, Bmap;
  }

  lemma PlacedInside(h: Handle)
    requires Placed(h)
    ensures h.phys < |h.vol.disk|
  {
    hide InodeCheck, Map, TooBig;
  }

  lemma SyncLeaves(h: Handle, goal: nat, k: nat, s: Done)
    requires HandleCheck(h) && s == Sync(h, goal)
    ensures Leaves(h, s.h, k) && s.h.vol.totalFree >= h.vol.totalFree - Owed(h)
  {
    hide Flush, InodeCheck, Map, TooBig, LevelBase, Digit;
    FlushLeaves(h, goal, k, Flush(h, goal));
    SyncSame(h, goal, 0);
  }

  lemma FetchLeaves(h: Handle, goal: nat, k: nat, l: Done)
    requires HandleCheck(h) && l == Fetch(h, goal)
    ensures Leaves(h, l.h, k) && l.h.vol.totalFree >= h.vol.totalFree - Owed(h)
  {
    hide Sync, Load, InodeCheck, Map, TooBig, LevelBase;
    var s := Sync(h, goal);
    SyncLeaves(h, goal, k, s);
    FetchSame(h, goal, 0);
    if s.ret == Ok {
      LoadSucceeds(s.h, false);
    }
  }

  lemma SameMap(h: Handle, h': Handle, k: nat)
    requires HandleCheck(h) && HandleCheck(h') && h'.vol == h.vol && h'.slots == h.slots
    ensures Leaves(h, h', k)
  {
    hide HandleCheck, Map, LevelBase;
    ChecksInode(h);
  }

  lemma ChecksInode(h: Handle)
    requires HandleCheck(h)
    ensures InodeCheck(h.vol, h.slots) && Shaped(h.vol, h.slots) && Fsck(h.vol) && |h.slots| == NSLOTS
    ensures BlockSize(h) > 0
  {
  }

  lemma ChunkLeaves(h: Handle, data: Block, goal: nat, k: nat, r: Done)
    requires HandleCheck(h) && Rest(h.pos, BlockSize(h)) + |data| <= BlockSize(h) && r == Chunk(h, data, goal)
    ensures Leaves(h, r.h, k) && r.h.vol.totalFree >= h.vol.totalFree - Owed(h) - 4
  {
    hide Sync, Load, Remap, InodeCheck, Map, TooBig, LevelBase, Put, Digit, Rest;
    var s := Sync(h, goal);
    ChecksInode(h);
    SyncLeaves(h, goal, k, s);
    SyncSame(h, goal, 0);
    if s.ret == Ok {
      var l := Load(s.h, |data| == BlockSize(h));
      LoadSucceeds(s.h, |data| == BlockSize(h));
      LoadChecked(s.h, |data| == BlockSize(h), 0);
      if l.ret == Ok {
        var c := Copied(l.h, Rest(h.pos, BlockSize(h)), data);
        CopiedChecked(l.h, Rest(h.pos, BlockSize(h)), data);
        SameMap(s.h, c, k);
        LeavesThen(h, s.h, c, k);
        if c.phys == 0 {
          RemapLeaves(c, goal, k, Remap(c, true, goal));
          LeavesThen(h, c, Remap(c, true, goal).h, k);
        }
      }
    }
  }

  // ----- Whole reads and writes -----

  /** Blocks lo to hi all have a place. */
  predicate Backed(h: Handle, lo: nat, hi: nat)
    requires HandleCheck(h)
  {
    forall k :: lo <= k <= hi && k < LevelBase(h.vol.geo.a, 4) ==> Map(h.vol, h.slots, k) != 0
  }

  /** The cached block has a place, or nothing is cached. */
  predicate Settled(h: Handle)
  {
    Owed(h) == 0
  }

  /** Block 0 and the goal belong to the volume, and n blocks are free. */
  predicate Roomy(h: Handle, goal: nat, n: int)
  {
    h.vol.geo.first == 0 && goal < h.vol.geo.count && h.vol.totalFree >= n
  }

  lemma RoomyFlush(h: Handle, goal: nat)
    requires HandleCheck(h) && (Settled(h) || Roomy(h, goal, Owed(h)))
    ensures Flushable(h, goal)
  {
    hide InodeCheck, Map, TooBig, Allocatable, LevelBase;
    if !Settled(h) {
      BmapRoom(h.vol, h.slots, h.block, goal);
    }
  }

  /** One pass of the loop of ext2_write with everything in place, or with room. */
  lemma ChunkOk(h: Handle, data: Block, goal: nat, k: nat, r: Done)
    requires HandleCheck(h) && Rest(h.pos, BlockSize(h)) + |data| <= BlockSize(h) && r == Chunk(h, data, goal)
    requires k == Digit(h.pos, BlockSize(h)) && !TooBig(h.vol.geo.a, k)
    requires (Settled(h) && Backed(h, k, k)) || Roomy(h, goal, 4 + Owed(h))
    ensures r.ret == Ok && HandleCheck(r.h) && Settled(r.h) && r.h.pos == h.pos + |data| && r.h.vol.geo == h.vol.geo
  {
    hide InodeCheck, Map, TooBig, Allocatable, Chunk, Sync, Flushable, Digit, Rest, LevelBase;
    var s := Sync(h, goal);
    ChecksInode(h);
    ChunkSucceeds(h, data, goal, s, k);
    RoomyFlush(h, goal);
    SyncLeaves(h, goal, k, s);
    NotTooBig(h.vol.geo.a, k);
    if !(Settled(h) && Backed(h, k, k)) {
      ChecksInode(s.h);
      BmapRoom(s.h.vol, s.h.slots, k, goal);
    }
    ChunkWrites(h, data, goal, 0, r, k, Rest(h.pos, BlockSize(h)));
    ChunkEnded(h, data, goal, k, r);
  }

  lemma NotTooBig(a: nat, k: nat)
    ensures !TooBig(a, k) ==> k < LevelBase(a, 4)
    ensures forall n :: 0 <= n <= k && !TooBig(a, k) ==> !TooBig(a, n)
  {
  }

  lemma ChunkEnded(h: Handle, data: Block, goal: nat, k: nat, r: Done)
    requires HandleCheck(h) && r.ret == Ok && Rest(h.pos, BlockSize(h)) + |data| <= BlockSize(h)
    requires ChunkDone(h, data, r, k, Rest(h.pos, BlockSize(h)), 0)
    ensures HandleCheck(r.h) && Settled(r.h) && r.h.pos == h.pos + |data| && r.h.vol.geo == h.vol.geo
  {
    hide HandleCheck, Content, Rest;
  }

  lemma {:induction false} DigitGrows(p: nat, q: nat, bs: nat)
    requires bs > 0 && p <= q
    ensures Digit(p, bs) <= Digit(q, bs)
    decreases q
  {
    if p >= bs {
      DigitGrows(p - bs, q - bs, bs);
    }
  }

  /** The bytes up to the end of a block lead to the start of the next one. */
  lemma NextBlock(pos: nat, c: nat, bs: nat)
    requires bs > 0 && Rest(pos, bs) + c == bs
    ensures Digit(pos + c, bs) == Digit(pos, bs) + 1
  {
    hide Digit, Rest, Offset;
    Divide(pos, bs);
    NextOffset(Digit(pos, bs), bs);
    Join(Digit(pos, bs) + 1, 0, bs);
  }

  lemma BackedLeft(h: Handle, h': Handle, lo: nat, lo': nat, hi: nat)
    requires HandleCheck(h) && HandleCheck(h') && Backed(h, lo, hi) && lo <= lo'
    requires forall k :: Leaves(h, h', k)
    ensures Backed(h', lo', hi)
  {
    hide HandleCheck, Map, LevelBase;
    ChecksInode(h');
    forall k | lo' <= k <= hi && k < LevelBase(h'.vol.geo.a, 4)
      ensures Map(h'.vol, h'.slots, k) != 0
    {
      assert Leaves(h, h', k);
    }
  }

  /** What the next pass can rely on. */
  lemma ChunkThen(h: Handle, data: Block, goal: nat, lo: nat, hi: nat, r: Done)
    requires HandleCheck(h) && Rest(h.pos, BlockSize(h)) + |data| <= BlockSize(h) && r == Chunk(h, data, goal)
    requires HandleCheck(r.h) && r.h.vol.geo == h.vol.geo && Settled(r.h) && lo < hi
    requires (Settled(h) && Backed(h, lo, hi)) || Roomy(h, goal, 4 * (hi - lo + 1) + Owed(h))
    ensures (Settled(r.h) && Backed(r.h, lo + 1, hi)) || Roomy(r.h, goal, 4 * (hi - lo) + Owed(r.h))
  {
    hide HandleCheck, Chunk, Rest, Backed, Leaves;
    forall k
      ensures Leaves(h, r.h, k)
    {
      ChunkLeaves(h, data, goal, k, r);
    }
    ChunkLeaves(h, data, goal, 0, r);
    if Settled(h) && Backed(h, lo, hi) {
      BackedLeft(h, r.h, lo, lo + 1, hi);
    }
  }

  lemma BackedPart(h: Handle, lo: nat, hi: nat)
    requires HandleCheck(h) && Backed(h, lo, hi) && lo <= hi
    ensures Backed(h, lo, lo)
  {
    hide HandleCheck, Map, LevelBase;
  }

  /** The loop of ext2_write, from byte i of data on. */
  lemma {:induction false} WriteLoopOk(h: Handle, data: Block, i: nat, goal: nat, lo: nat, hi: nat)
    requires HandleCheck(h) && i < |data| && BlockSize(h) > 0
    requires lo == Digit(h.pos, BlockSize(h)) && hi == Digit(h.pos + |data| - i - 1, BlockSize(h))
    requires !TooBig(h.vol.geo.a, hi)
    requires (Settled(h) && Backed(h, lo, hi)) || Roomy(h, goal, 4 * (hi - lo + 1) + Owed(h))
    ensures WriteLoop(h, data, i, goal).ret == Ok
    decreases |data| - i
  {
    hide *;
    var bs := BlockSize(h);
    var c, r := WriteStep(h, data, i, goal);
    DigitGrows(h.pos, h.pos + |data| - i - 1, bs);
    NotTooBig(h.vol.geo.a, hi);
    RoomyPart(h, goal, lo, hi);
    ChunkOk(h, Part(data, i, c), goal, lo, r);
    SameBlockSize(h, r.h);
    if i + c < |data| {
      NextBlock(h.pos, c, bs);
      DigitGrows(h.pos + c, h.pos + |data| - i - 1, bs);
      ChunkThen(h, Part(data, i, c), goal, lo, hi, r);
      WriteLoopOk(r.h, data, i + c, goal, lo + 1, hi);
    } else {
      WriteNothing(r.h, data, goal, 0, 0);
    }
  }

  lemma RoomyPart(h: Handle, goal: nat, lo: nat, hi: nat)
    requires HandleCheck(h) && lo <= hi
    requires (Settled(h) && Backed(h, lo, hi)) || Roomy(h, goal, 4 * (hi - lo + 1) + Owed(h))
    ensures (Settled(h) && Backed(h, lo, lo)) || Roomy(h, goal, 4 + Owed(h))
  {
    hide HandleCheck, Backed;
    if Backed(h, lo, hi) {
      BackedPart(h, lo, hi);
    }
  }

  /**
   A write whose blocks all have a place, or find room, succeeds exactly when
   its last block is not too big.
   */
  lemma WriteSucceeds(h: Handle, data: Block, offset: nat, goal: nat, lo: nat, hi: nat)
    requires HandleCheck(h) && data != [] && BlockSize(h) > 0
    requires lo == Digit(offset, BlockSize(h)) && hi == Digit(offset + |data| - 1, BlockSize(h))
    requires (Settled(h) && Backed(h, lo, hi)) || Roomy(h, goal, 4 * (hi - lo + 1) + Owed(h))
    ensures Write(h, data, offset, goal).ret == Ok <==> !TooBig(h.vol.geo.a, hi)
  {
    hide HandleCheck, WriteLoop, Write, TooBig, Digit, Backed;
    var h0 := h.(pos := offset);
    MovedChecked(h, offset);
    MovedReady(h, offset, lo, hi);
    var l := WriteLoop(h0, data, 0, goal);
    WriteTail(h, data, offset, goal, 0, l, Write(h, data, offset, goal));
    if !TooBig(h.vol.geo.a, hi) {
      WriteLoopOk(h0, data, 0, goal, lo, hi);
    }
    EndsMeans(h0, data, goal, offset);
  }

  lemma MovedReady(h: Handle, pos: nat, lo: nat, hi: nat)
    requires HandleCheck(h)
    ensures HandleCheck(h.(pos := pos)) && (Backed(h, lo, hi) ==> Backed(h.(pos := pos), lo, hi))
  {
    hide InodeCheck, Map, TooBig, LevelBase;
  }

  /** A write that succeeds has reached its end, in a block that is not too big. */
  lemma EndsMeans(h: Handle, data: Block, goal: nat, offset: nat)
    requires HandleCheck(h) && h.pos == offset && data != []
    ensures WriteLoop(h, data, 0, goal).ret == Ok ==>
      BlockSize(h) > 0 && !TooBig(h.vol.geo.a, Digit(offset + |data| - 1, BlockSize(h)))
  {
    hide HandleCheck, WriteLoop, TooBig, Digit, Rest, ByteWritten;
    ChecksInode(h);
    WriteLoopEnds(h, data, 0, goal, offset);
    WriteLoopBytes(h, data, 0, goal, offset, 0);
  }

  /** A block is cached for reading. */
  lemma FetchOk(h: Handle, goal: nat, k: nat, l: Done)
    requires HandleCheck(h) && BlockSize(h) > 0 && k == Digit(h.pos, BlockSize(h)) && l == Fetch(h, goal)
    requires Settled(h) || Roomy(h, goal, Owed(h))
    ensures l.ret == Ok <==> !TooBig(h.vol.geo.a, k)
    ensures HandleCheck(l.h) && l.h.vol.geo == h.vol.geo && l.h.size == h.size
    ensures l.ret == Ok && Backed(h, k, k) ==> Settled(l.h)
  {
    hide InodeCheck, Map, TooBig, Fetch, Flushable, Digit, LevelBase, Content;
    FetchSucceeds(h, goal);
    RoomyFlush(h, goal);
    FetchSame(h, goal, 0);
    FetchLeaves(h, goal, k, l);
    if l.ret == Ok {
      NotTooBig(h.vol.geo.a, k);
    }
  }

  /** What the next pass of the loop of ext2_read can rely on. */
  lemma FetchThen(h: Handle, goal: nat, lo: nat, hi: nat, l: Done, pos: nat)
    requires HandleCheck(h) && l == Fetch(h, goal) && HandleCheck(l.h) && l.h.vol.geo == h.vol.geo && lo < hi
    requires Backed(h, lo, lo) ==> Settled(l.h)
    requires (Settled(h) && Backed(h, lo, hi)) || Roomy(h, goal, 4 * (hi - lo + 1))
    ensures HandleCheck(l.h.(pos := pos))
    ensures (Settled(l.h) && Backed(l.h.(pos := pos), lo + 1, hi)) || Roomy(l.h, goal, 4 * (hi - lo))
  {
    hide HandleCheck, Fetch, Backed, Leaves;
    forall k
      ensures Leaves(h, l.h, k)
    {
      FetchLeaves(h, goal, k, l);
    }
    FetchLeaves(h, goal, 0, l);
    MovedReady(l.h, pos, lo + 1, hi);
    if Settled(h) && Backed(h, lo, hi) {
      BackedPart(h, lo, hi);
      BackedLeft(h, l.h, lo, lo + 1, hi);
    }
  }

  /**
   A read whose blocks all have a place, or find room (a hole that was cached
   is given one), succeeds exactly when its last block is not too big.
   */
  lemma {:induction false} ReadSucceeds(h: Handle, len: nat, goal: nat, n: nat, lo: nat, hi: nat)
    requires HandleCheck(h) && BlockSize(h) > 0 && n == Available(h.size, h.pos, len) && n > 0
    requires lo == Digit(h.pos, BlockSize(h)) && hi == Digit(h.pos + n - 1, BlockSize(h))
    requires (Settled(h) && Backed(h, lo, hi)) || Roomy(h, goal, 4 * (hi - lo + 1))
    ensures ReadLoop(h, len, goal).ret == Ok <==> !TooBig(h.vol.geo.a, hi)
    decreases len
  {
    hide *;
    var bs := BlockSize(h);
    AvailableMeans(h.size, h.pos, len, n);
    var l, c := ReadStep(h, len, goal);
    ReadEnds(h, len, n, c);
    DigitGrows(h.pos, h.pos + n - 1, bs);
    NotTooBig(h.vol.geo.a, hi);
    FirstReady(h, goal, lo, hi);
    FetchOk(h, goal, lo, l);
    if l.ret == Ok {
      if c < n {
        NextBlock(h.pos, c, bs);
        DigitGrows(h.pos + c, h.pos + n - 1, bs);
        FetchThen(h, goal, lo, hi, l, h.pos + c);
        SameBlockSize(h, l.h.(pos := h.pos + c));
        AvailableLeft(h.size, h.pos, len, c);
        SettledMoved(l.h, h.pos + c, goal, 4 * (hi - lo));
        ReadSucceeds(l.h.(pos := h.pos + c), len - c, goal, n - c, lo + 1, hi);
      } else {
        LastByte(h.pos, c, bs);
        AvailableMeans(h.size, h.pos, len, n);
        ReadNothing(l.h.(pos := h.pos + c), len - c, goal, 0);
      }
    }
  }

  lemma FirstReady(h: Handle, goal: nat, lo: nat, hi: nat)
    requires HandleCheck(h) && lo <= hi
    requires (Settled(h) && Backed(h, lo, hi)) || Roomy(h, goal, 4 * (hi - lo + 1))
    ensures Settled(h) || Roomy(h, goal, Owed(h))
  {
    hide HandleCheck, Backed;
  }

  lemma SettledMoved(h: Handle, pos: nat, goal: nat, n: int)
    ensures Settled(h.(pos := pos)) <==> Settled(h)
    ensures Roomy(h.(pos := pos), goal, n) <==> Roomy(h, goal, n)
  {
  }

  lemma AvailableMeans(size: nat, pos: nat, len: nat, n: nat)
    requires n == Available(size, pos, len)
    ensures n > 0 ==> pos < size && len > 0 && n <= len && pos + n <= size && (n == len || pos + n == size)
  {
  }

  lemma AvailableLeft(size: nat, pos: nat, len: nat, c: nat)
    requires c <= Available(size, pos, len)
    ensures c <= len && Available(size, pos + c, len - c) == Available(size, pos, len) - c
  {
  }

  /** A pass takes all that is left, or all up to the end of the block. */
  lemma ReadEnds(h: Handle, len: nat, n: nat, c: nat)
    requires HandleCheck(h) && h.pos < h.size && n == Available(h.size, h.pos, len) && c == ReadSize(h, len)
    ensures BlockSize(h) > 0 && c <= n && (c == n || Rest(h.pos, BlockSize(h)) + c == BlockSize(h))
  {
    hide HandleCheck, Rest;
    BlockPositive(h);
  }
}
