/** An open file: one cached block in front of the inode's data blocks. */
module Ext2File {
  import opened Bytes
  import opened Errors
  import opened Memory
  import opened Radix
  import opened Ext2Tree
  import opened Ext2Disk
  import opened Ext2Alloc
  import opened Ext2Truncate
  import opened Ext2Inode
  import opened Ext2Bmap
  import opened Ext2View

  /**
   The volume, the inode (i_blocks, block array, size), the file position, and
   the cached block: its number, its physical block, its flags and its bytes.
   */
  datatype Handle = Handle(vol: Vol, iblocks: int, slots: seq<nat>, size: nat, pos: nat,
                           block: nat, phys: nat, valid: bool, dirty: bool, buffer: Block)

  datatype Done = Done(h: Handle, ret: Err)

  function BlockSize(h: Handle): nat
  {
    4 * h.vol.geo.a
  }

  /** A well-formed inode, and a buffer that stands for the block it names. */
  predicate HandleCheck(h: Handle)
  {
    && InodeCheck(h.vol, h.slots) && |h.buffer| == BlockSize(h)
    && (h.valid ==> !TooBig(h.vol.geo.a, h.block) && h.phys == Map(h.vol, h.slots, h.block))
    && (h.dirty ==> h.valid)
  }

  /** What logical block n of the file holds: the buffer stands in for its block. */
  function Content(h: Handle, n: nat): (b: Block)
    requires HandleCheck(h)
    ensures |b| == BlockSize(h)
  {
    if h.valid && n == h.block then h.buffer else View(h.vol, h.slots, n)
  }

  /** ext2_bmap on the handle's inode; the block array of the inode follows. */
  function Remap(h: Handle, alloc: bool, goal: nat): Done
    requires HandleCheck(h)
  {
    var m := Bmap(h.vol, h.iblocks, h.slots, false, alloc, h.block, 0, goal);
    Done(h.(vol := m.vol, iblocks := m.iblocks, slots := m.slots, phys := if m.ret == Ok then m.phys else 0), m.ret)
  }

  /** ext2_file_flush */
  function Flush(h: Handle, goal: nat): Done
    requires HandleCheck(h)
  {
    if !h.valid && !h.dirty then Done(h, Ok)
    else
      var r := if h.phys == 0 then Remap(h, true, goal) else Done(h, Ok);
      if r.ret != Ok then r
      else if r.h.phys >= |r.h.vol.disk| then Done(r.h, EINVAL)
      else Done(r.h.(vol := r.h.vol.(disk := r.h.vol.disk[r.h.phys := h.buffer]), dirty := false), Ok)
  }

  /** ext2_sync_file_buffer_pos */
  function Sync(h: Handle, goal: nat): Done
    requires HandleCheck(h)
  {
    var block := Digit(h.pos, BlockSize(h));
    if block == h.block then Done(h, Ok)
    else
      var r := Flush(h, goal);
      if r.ret != Ok then r else Done(r.h.(valid := false, block := block), Ok)
  }

  /** ext2_load_file_buffer */
  function Load(h: Handle, nofill: bool): Done
    requires HandleCheck(h)
  {
    if h.valid then Done(h, Ok)
    else
      var r := Remap(h, false, 0);
      if r.ret != Ok then r
      else if nofill then Done(r.h.(valid := true), Ok)
      else if r.h.phys == 0 then Done(r.h.(valid := true, buffer := Zeros(BlockSize(h))), Ok)
      else if r.h.phys >= |r.h.vol.disk| then Done(r.h, EINVAL)
      else Done(r.h.(valid := true, buffer := r.h.vol.disk[r.h.phys]), Ok)
  }

  // ----- Flush, reposition and load never change content -----

  /** h' holds the same bytes as h: seen at block n. */
  predicate Same(h: Handle, h': Handle, n: nat)
  {
    && HandleCheck(h) && HandleCheck(h')
    && h'.vol.geo == h.vol.geo && h'.size == h.size && h'.pos == h.pos
    && Content(h', n) == Content(h, n)
  }

  lemma SameTransitive(h: Handle, h1: Handle, h2: Handle, n: nat)
    requires Same(h, h1, n) && Same(h1, h2, n)
    ensures Same(h, h2, n)
  {
  }

  /** The handle names the physical block of its cached block. */
  predicate Placed(h: Handle)
  {
    && InodeCheck(h.vol, h.slots) && !TooBig(h.vol.geo.a, h.block)
    && h.phys == Map(h.vol, h.slots, h.block) && h.phys < |h.vol.disk|
  }

  lemma ValidPlaced(h: Handle)
    requires HandleCheck(h) && h.valid
    ensures Placed(h)
  {
    hide TreesOf, Decode, Offset, Pow;
    MapInside(h.vol, h.slots, h.block);
  }

  lemma RemapPlaced(h: Handle, alloc: bool, goal: nat, r: Done)
    requires HandleCheck(h) && r == Remap(h, alloc, goal)
    ensures InodeCheck(r.h.vol, r.h.slots) && r.h.vol.geo == h.vol.geo
    ensures r.ret == Ok ==> Placed(r.h) && (alloc ==> r.h.phys != 0)
    ensures r.ret != Ok && h.valid && h.phys == 0 ==> Map(r.h.vol, r.h.slots, h.block) == 0
  {
    hide TreesOf, Decode, Encode, Offset, Pow;
    var m := Bmap(h.vol, h.iblocks, h.slots, false, alloc, h.block, 0, goal);
    var f := BmapKeeps(h.vol, h.iblocks, h.slots, alloc, h.block, goal, m);
    if !TooBig(h.vol.geo.a, h.block) {
      BmapMaps(h.vol, h.iblocks, h.slots, false, alloc, h.block, 0, goal, h.block, m);
      MapInside(m.vol, m.slots, h.block);
      if alloc && m.ret == Ok {
        if Map(h.vol, h.slots, h.block) == 0 {
          BmapAllocates(h.vol, h.iblocks, h.slots, h.block, goal, m);
        } else {
          BmapReads(h.vol, h.iblocks, h.slots, alloc, h.block, goal);
        }
      }
    }
  }

  /** Mapping the cached block changes no content. */
  lemma RemapSame(h: Handle, alloc: bool, goal: nat, n: nat, r: Done)
    requires HandleCheck(h) && (h.valid ==> h.phys == 0) && r == Remap(h, alloc, goal)
    ensures Same(h, r.h, n)
  {
    hide TreesOf, Decode, Encode, Offset, Pow;
    RemapPlaced(h, alloc, goal, r);
    BmapView(h.vol, h.iblocks, h.slots, alloc, h.block, goal,
             Bmap(h.vol, h.iblocks, h.slots, false, alloc, h.block, 0, goal), n);
  }

  /** Writing the buffer to its place. */
  lemma WriteBackSame(h: Handle, h': Handle, n: nat)
    requires HandleCheck(h) && h.valid && 0 != h.phys < |h.vol.disk|
    requires h' == h.(vol := h.vol.(disk := h.vol.disk[h.phys := h.buffer]), dirty := false)
    ensures Same(h, h', n)
    ensures View(h'.vol, h'.slots, n) == Content(h', n)
  {
    hide TreesOf, Decode, Offset, Pow;
    ViewWritten(h.vol, h.slots, h.block, h.buffer, h'.vol, n);
    ViewWritten(h.vol, h.slots, h.block, h.buffer, h'.vol, h.block);
  }

  /** A flush, successful or not, changes no content. */
  lemma FlushSame(h: Handle, goal: nat, n: nat)
    requires HandleCheck(h)
    ensures Same(h, Flush(h, goal).h, n)
  {
    hide TreesOf, Decode, Encode, Offset, Pow;
    if h.valid {
      ValidPlaced(h);
      var r := Done(h, Ok);
      if h.phys == 0 {
        r := Remap(h, true, goal);
        RemapSame(h, true, goal, n, r);
        RemapPlaced(h, true, goal, r);
      }
      if r.ret == Ok {
        WriteBackSame(r.h, Flush(h, goal).h, n);
        SameTransitive(h, r.h, Flush(h, goal).h, n);
      }
    }
  }

  /** After a successful flush the disk alone denotes the file. */
  lemma FlushedOnDisk(h: Handle, goal: nat, n: nat, r: Done)
    requires HandleCheck(h) && r == Flush(h, goal) && r.ret == Ok
    ensures HandleCheck(r.h) && !r.h.dirty
    ensures View(r.h.vol, r.h.slots, n) == Content(h, n)
  {
    hide TreesOf, Decode, Encode, Offset, Pow;
    FlushSame(h, goal, n);
    if h.valid {
      ValidPlaced(h);
      var r0 := if h.phys == 0 then Remap(h, true, goal) else Done(h, Ok);
      if h.phys == 0 {
        RemapSame(h, true, goal, n, r0);
        RemapPlaced(h, true, goal, r0);
      }
      WriteBackSame(r0.h, r.h, n);
    }
  }

  lemma SyncSame(h: Handle, goal: nat, n: nat)
    requires HandleCheck(h)
    ensures Same(h, Sync(h, goal).h, n)
    ensures Sync(h, goal).ret == Ok ==> Sync(h, goal).h.block == Digit(h.pos, BlockSize(h))
  {
    hide TreesOf, Decode, Encode, Offset, Pow;
    var r := Flush(h, goal);
    FlushSame(h, goal, n);
    if Digit(h.pos, BlockSize(h)) != h.block && r.ret == Ok {
      FlushedOnDisk(h, goal, n, r);
    }
  }

  lemma LoadSame(h: Handle, n: nat)
    requires HandleCheck(h)
    ensures Same(h, Load(h, false).h, n)
    ensures Load(h, false).ret == Ok ==> Load(h, false).h.valid && Load(h, false).h.block == h.block
  {
    hide TreesOf, Decode, Encode, Offset, Pow;
    if !h.valid {
      var r := Remap(h, false, 0);
      RemapSame(h, false, 0, n, r);
      RemapPlaced(h, false, 0, r);
    }
  }

  // ----- One block of a write -----

  /** Loading without filling leaves a well-formed handle whose other blocks are as they were. */
  lemma LoadChecked(h: Handle, nofill: bool, n: nat)
    requires HandleCheck(h)
    ensures HandleCheck(Load(h, nofill).h)
    ensures Load(h, nofill).ret != Ok || n != h.block ==> Same(h, Load(h, nofill).h, n)
    ensures Load(h, nofill).ret == Ok ==>
      Load(h, nofill).h.valid && Load(h, nofill).h.block == h.block && Load(h, nofill).h.pos == h.pos
    ensures Load(h, nofill).h.vol.geo == h.vol.geo && Load(h, nofill).h.size == h.size
  {
    hide TreesOf, Decode, Encode, Offset, Pow;
    if !h.valid {
      var r := Remap(h, false, 0);
      RemapSame(h, false, 0, n, r);
      RemapPlaced(h, false, 0, r);
    }
  }

  /** The buffer after the bytes have been copied into it. */
  function Copied(h: Handle, start: nat, data: Block): Handle
    requires start + |data| <= |h.buffer|
  {
    h.(dirty := true, buffer := Put(h.buffer, start, data))
  }

  /** Block n of the file once data has been put at start of block k. */
  predicate PutAt(h: Handle, h': Handle, k: nat, start: nat, data: Block, n: nat)
    requires HandleCheck(h) && HandleCheck(h') && start + |data| <= BlockSize(h)
  {
    Content(h', n) == if n == k then Put(Content(h, n), start, data) else Content(h, n)
  }

  predicate Wrote(h: Handle, h': Handle, k: nat, start: nat, data: Block, n: nat)
  {
    && HandleCheck(h) && HandleCheck(h') && start + |data| <= BlockSize(h)
    && h'.vol.geo == h.vol.geo && h'.size == h.size && h'.valid && h'.block == k
    && PutAt(h, h', k, start, data, n)
  }

  /** Copying into a filled buffer, or over the whole of an unfilled one. */
  lemma CopyWrites(h: Handle, start: nat, data: Block, n: nat, r: Done)
    requires HandleCheck(h) && start + |data| <= BlockSize(h)
    requires r == Load(h, |data| == BlockSize(h)) && r.ret == Ok
    ensures |r.h.buffer| == BlockSize(h)
    ensures Wrote(h, Copied(r.h, start, data), h.block, start, data, n)
  {
    hide Load, InodeCheck, View, Map, TooBig;
    LoadChecked(h, |data| == BlockSize(h), n);
    if |data| == BlockSize(h) {
      assert Put(r.h.buffer, start, data) == data;
      assert Put(Content(h, h.block), start, data) == data;
    } else {
      LoadSame(h, n);
      LoadSame(h, h.block);
    }
  }

  lemma WroteThen(h: Handle, h1: Handle, h2: Handle, k: nat, start: nat, data: Block, n: nat)
    requires Wrote(h, h1, k, start, data, n) && Same(h1, h2, n) && h2.valid && h2.block == k
    ensures Wrote(h, h2, k, start, data, n)
  {
  }

  lemma SameWrote(h: Handle, h1: Handle, h2: Handle, k: nat, start: nat, data: Block, n: nat)
    requires Same(h, h1, n) && Wrote(h1, h2, k, start, data, n)
    ensures Wrote(h, h2, k, start, data, n)
  {
  }

  /** One pass of the loop of ext2_write, for bytes that fit in the block at the position. */
  function Chunk(h: Handle, data: Block, goal: nat): Done
    requires HandleCheck(h) && Rest(h.pos, BlockSize(h)) + |data| <= BlockSize(h)
  {
    var s := Sync(h, goal);
    SyncSame(h, goal, 0);
    if s.ret != Ok then s
    else
      var l := Load(s.h, |data| == BlockSize(h));
      LoadChecked(s.h, |data| == BlockSize(h), 0);
      if l.ret != Ok then l
      else
        var c := Copied(l.h, Rest(h.pos, BlockSize(h)), data);
        if c.phys != 0 then Done(c.(pos := h.pos + |data|), Ok)
        else
          var r := Remap(c, true, goal);
          if r.ret != Ok then r else Done(r.h.(pos := h.pos + |data|), Ok)
  }

  lemma WroteMoved(h: Handle, h': Handle, k: nat, start: nat, data: Block, n: nat, pos: nat)
    requires Wrote(h, h', k, start, data, n)
    ensures Wrote(h, h'.(pos := pos), k, start, data, n)
  {
  }

  /** The outcome of one pass of the loop of ext2_write, seen at block n. */
  predicate ChunkDone(h: Handle, data: Block, r: Done, k: nat, start: nat, n: nat)
  {
    if r.ret == Ok then
      Wrote(h, r.h, k, start, data, n) && r.h.pos == h.pos + |data| && r.h.phys != 0
    else
      (Same(h, r.h, n) || Wrote(h, r.h, k, start, data, n)) && r.h.pos == h.pos
  }

  /** One pass of the loop of ext2_write puts its bytes at the position and moves it, or fails. */
  lemma ChunkWrites(h: Handle, data: Block, goal: nat, n: nat, r: Done, k: nat, start: nat)
    requires HandleCheck(h) && k == Digit(h.pos, BlockSize(h)) && start == Rest(h.pos, BlockSize(h))
    requires start + |data| <= BlockSize(h) && r == Chunk(h, data, goal)
    ensures ChunkDone(h, data, r, k, start, n)
  {
    hide TreesOf, Decode, Encode, Offset, Pow;
    var s := Sync(h, goal);
    SyncSame(h, goal, n);
    if s.ret == Ok {
      var l := Load(s.h, |data| == BlockSize(h));
      LoadChecked(s.h, |data| == BlockSize(h), n);
      if l.ret == Ok {
        CopyWrites(s.h, start, data, n, l);
        CopyPlaced(h, s.h, Copied(l.h, start, data), k, start, data, goal, n, r);
      } else {
        SameTransitive(h, s.h, l.h, n);
      }
    }
  }

  lemma CopyPlaced(h: Handle, s: Handle, c: Handle, k: nat, start: nat, data: Block, goal: nat, n: nat, r: Done)
    requires Same(h, s, n) && Wrote(s, c, k, start, data, n) && c.pos == h.pos && HandleCheck(c)
    requires c.phys != 0 ==> r == Done(c.(pos := h.pos + |data|), Ok)
    requires c.phys == 0 ==>
            var m := Remap(c, true, goal); r == if m.ret != Ok then m else Done(m.h.(pos := h.pos + |data|), Ok)
    ensures ChunkDone(h, data, r, k, start, n)
  {
    hide TreesOf, Decode, Encode, Offset, Pow;
    SameWrote(h, s, c, k, start, data, n);
    if c.phys != 0 {
      WroteMoved(h, c, k, start, data, n, h.pos + |data|);
    } else {
      CopyMapped(h, c, k, start, data, goal, n, Remap(c, true, goal));
    }
  }

  lemma CopyMapped(h: Handle, c: Handle, k: nat, start: nat, data: Block, goal: nat, n: nat, r: Done)
    requires Wrote(h, c, k, start, data, n) && c.phys == 0 && c.pos == h.pos && HandleCheck(c)
    requires r == Remap(c, true, goal)
    ensures Wrote(h, r.h, k, start, data, n) && r.h.pos == h.pos
    ensures Wrote(h, r.h.(pos := h.pos + |data|), k, start, data, n)
    ensures r.ret == Ok ==> r.h.phys != 0
  {
    hide TreesOf, Decode, Encode, Offset, Pow;
    RemapSame(c, true, goal, n, r);
    RemapPlaced(c, true, goal, r);
    WroteThen(h, c, r.h, k, start, data, n);
    WroteMoved(h, r.h, k, start, data, n, h.pos + |data|);
  }

  // ----- Bytes -----

  /** Every position lies in exactly one block. */
  lemma {:induction false} Divide(p: nat, bs: nat)
    requires bs > 0
    ensures Rest(p, bs) < bs && p == Offset(Digit(p, bs), bs) + Rest(p, bs)
  {
    if p >= bs {
      Divide(p - bs, bs);
    }
  }

  /** Byte p of the file. */
  function ByteAt(h: Handle, p: nat): byte
    requires HandleCheck(h)
  {
    Divide(p, BlockSize(h));
    Content(h, Digit(p, BlockSize(h)))[Rest(p, BlockSize(h))]
  }

  /** Position p lies among the c bytes from pos on exactly when it lies in the same block, c bytes from start. */
  lemma InChunk(pos: nat, c: nat, bs: nat, p: nat)
    requires bs > 0 && Rest(pos, bs) + c <= bs
    ensures pos <= p < pos + c <==> Digit(p, bs) == Digit(pos, bs) && Rest(pos, bs) <= Rest(p, bs) < Rest(pos, bs) + c
    ensures Digit(p, bs) == Digit(pos, bs) ==> p - pos == Rest(p, bs) - Rest(pos, bs)
  {
    hide *;
    Divide(p, bs);
    Divide(pos, bs);
    var k, n := Digit(pos, bs), Digit(p, bs);
    if n < k {
      OffsetGrows(n, k, bs);
    } else if k < n {
      OffsetGrows(k, n, bs);
    }
  }

  lemma SameBytes(h: Handle, h': Handle, p: nat)
    requires HandleCheck(h) && Same(h, h', Digit(p, BlockSize(h)))
    ensures HandleCheck(h') && ByteAt(h', p) == ByteAt(h, p)
  {
  }

  lemma SplicedByte(b: Block, start: nat, data: Block, i: nat, r: Block)
    requires start + |data| <= |b| && r == Put(b, start, data) && i < |b|
    ensures |r| == |b| && r[i] == if start <= i < start + |data| then data[i - start] else b[i]
  {
    hide Put;
  }

  lemma WroteBytes(h: Handle, h': Handle, k: nat, start: nat, data: Block, p: nat)
    requires HandleCheck(h) && k == Digit(h.pos, BlockSize(h)) && start == Rest(h.pos, BlockSize(h))
    requires Wrote(h, h', k, start, data, Digit(p, BlockSize(h)))
    ensures HandleCheck(h')
    ensures ByteAt(h', p) == if h.pos <= p < h.pos + |data| then data[p - h.pos] else ByteAt(h, p)
  {
    hide HandleCheck, Content, Put, Digit, Rest;
    BlockPositive(h);
    InChunk(h.pos, |data|, BlockSize(h), p);
    Divide(p, BlockSize(h));
    if Digit(p, BlockSize(h)) == k {
      SplicedByte(Content(h, k), start, data, Rest(p, BlockSize(h)), Content(h', k));
    }
  }

  // ----- The write loop -----

  function ChunkSize(pos: nat, bs: nat, len: nat): (c: nat)
    requires bs > 0
    ensures c <= len && Rest(pos, bs) + c <= bs && (len > 0 ==> c > 0)
    ensures c == len || Rest(pos, bs) + c == bs
  {
    Divide(pos, bs);
    if bs - Rest(pos, bs) > len then len else bs - Rest(pos, bs)
  }

  lemma BlockPositive(h: Handle)
    requires HandleCheck(h)
    ensures BlockSize(h) > 0
  {
  }

  lemma ChunkChecked(h: Handle, data: Block, goal: nat)
    requires HandleCheck(h) && Rest(h.pos, BlockSize(h)) + |data| <= BlockSize(h)
    ensures HandleCheck(Chunk(h, data, goal).h)
  {
    hide Chunk;
    ChunkWrites(h, data, goal, 0, Chunk(h, data, goal), Digit(h.pos, BlockSize(h)), Rest(h.pos, BlockSize(h)));
  }

  /** The loop of ext2_write, from byte i of data on. */
  function WriteLoop(h: Handle, data: Block, i: nat, goal: nat): Done
    requires HandleCheck(h) && i <= |data|
    decreases |data| - i
  {
    if i == |data| then Done(h, Ok)
    else
      var c := ChunkSize(h.pos, BlockSize(h), |data| - i);
      var r := Chunk(h, Part(data, i, c), goal);
      ChunkChecked(h, Part(data, i, c), goal);
      if r.ret != Ok then r else WriteLoop(r.h, data, i + c, goal)
  }

  /** One pass of the loop. */
  lemma WriteStep(h: Handle, data: Block, i: nat, goal: nat) returns (c: nat, r: Done)
    requires HandleCheck(h) && i < |data|
    ensures c == ChunkSize(h.pos, BlockSize(h), |data| - i) && 0 < c <= |data| - i
    ensures Rest(h.pos, BlockSize(h)) + c <= BlockSize(h)
    ensures r == Chunk(h, Part(data, i, c), goal) && HandleCheck(r.h)
    ensures WriteLoop(h, data, i, goal) == if r.ret != Ok then r else WriteLoop(r.h, data, i + c, goal)
  {
    hide Chunk, HandleCheck, Part, Rest, BlockSize;
    BlockPositive(h);
    c := ChunkSize(h.pos, BlockSize(h), |data| - i);
    ChunkChecked(h, Part(data, i, c), goal);
    r := Chunk(h, Part(data, i, c), goal);
  }

  /** Byte p after a write of data at position org, from byte i of data on, that got as far as position to. */
  predicate ByteWritten(h: Handle, h': Handle, org: nat, data: Block, i: nat, to: nat, p: nat)
    requires HandleCheck(h) && HandleCheck(h') && to <= org + |data|
  {
    if org + i <= p < to then ByteAt(h', p) == data[p - org]
    else if to <= p < org + |data| then true
    else ByteAt(h', p) == ByteAt(h, p)
  }

  predicate Written(h: Handle, h': Handle, org: nat, data: Block, i: nat, p: nat)
  {
    && HandleCheck(h) && HandleCheck(h') && org + i <= h'.pos <= org + |data|
    && h'.vol.geo == h.vol.geo && h'.size == h.size
    && ByteWritten(h, h', org, data, i, h'.pos, p)
  }

  /** The bytes of a chunk that ended as r, seen at byte p. */
  predicate ChunkAt(h: Handle, h': Handle, data: Block, p: nat)
    requires HandleCheck(h) && HandleCheck(h')
  {
    ByteAt(h', p) == (if h.pos <= p < h.pos + |data| then data[p - h.pos] else ByteAt(h, p))
  }

  lemma DoneBytes(h: Handle, data: Block, p: nat, r: Done, k: nat, start: nat, n: nat)
    requires HandleCheck(h) && k == Digit(h.pos, BlockSize(h)) && start == Rest(h.pos, BlockSize(h))
    requires n == Digit(p, BlockSize(h))
    requires ChunkDone(h, data, r, k, start, n)
    ensures HandleCheck(r.h) && r.h.vol.geo == h.vol.geo && r.h.size == h.size
    ensures r.h.pos == if r.ret == Ok then h.pos + |data| else h.pos
    ensures r.ret == Ok ==> ChunkAt(h, r.h, data, p)
    ensures !(h.pos <= p < h.pos + |data|) ==> ByteAt(r.h, p) == ByteAt(h, p)
  {
    hide HandleCheck, Content, ByteAt, BlockSize, Digit, Rest;
    if Wrote(h, r.h, k, start, data, n) {
      WroteBytes(h, r.h, k, start, data, p);
    } else {
      SameBytes(h, r.h, p);
    }
  }

  /** One chunk, seen at byte p. */
  lemma ChunkBytes(h: Handle, data: Block, goal: nat, p: nat, r: Done)
    requires HandleCheck(h) && Rest(h.pos, BlockSize(h)) + |data| <= BlockSize(h) && r == Chunk(h, data, goal)
    ensures HandleCheck(r.h) && r.h.vol.geo == h.vol.geo && r.h.size == h.size
    ensures r.h.pos == if r.ret == Ok then h.pos + |data| else h.pos
    ensures r.ret == Ok ==> ChunkAt(h, r.h, data, p)
    ensures !(h.pos <= p < h.pos + |data|) ==> ByteAt(r.h, p) == ByteAt(h, p)
  {
    hide *;
    BlockPositive(h);
    var k, start, n := Digit(h.pos, BlockSize(h)), Rest(h.pos, BlockSize(h)), Digit(p, BlockSize(h));
    ChunkWrites(h, data, goal, n, r, k, start);
    DoneBytes(h, data, p, r, k, start, n);
  }

  /** A chunk, then a write of the bytes after it. */
  lemma WrittenThen(h: Handle, h1: Handle, h2: Handle, org: nat, data: Block, i: nat, c: nat, p: nat)
    requires HandleCheck(h) && HandleCheck(h1) && i + c <= |data| && h.pos == org + i && h1.pos == org + i + c
    requires h1.vol.geo == h.vol.geo && h1.size == h.size && ChunkAt(h, h1, Part(data, i, c), p)
    requires Written(h1, h2, org, data, i + c, p)
    ensures Written(h, h2, org, data, i, p)
  {
    hide HandleCheck, ByteAt;
  }

  /** A failed chunk is a failed write. */
  lemma WrittenPart(h: Handle, h1: Handle, org: nat, data: Block, i: nat, c: nat, p: nat)
    requires HandleCheck(h) && HandleCheck(h1) && i + c <= |data| && h.pos == h1.pos == org + i
    requires h1.vol.geo == h.vol.geo && h1.size == h.size
    requires !(h.pos <= p < h.pos + c) ==> ByteAt(h1, p) == ByteAt(h, p)
    ensures Written(h, h1, org, data, i, p)
  {
    hide HandleCheck, ByteAt;
  }

  /** The loop of ext2_write puts the bytes before the position it reaches, and touches none outside its range. */
  lemma {:induction false} WriteLoopBytes(h: Handle, data: Block, i: nat, goal: nat, org: nat, p: nat)
    requires HandleCheck(h) && i <= |data| && h.pos == org + i
    ensures Written(h, WriteLoop(h, data, i, goal).h, org, data, i, p)
    ensures WriteLoop(h, data, i, goal).ret == Ok ==> WriteLoop(h, data, i, goal).h.pos == org + |data|
    decreases |data| - i
  {
    hide *;
    if i == |data| {
      WriteNothing(h, data, goal, org, p);
    } else {
      var c, r := WriteStep(h, data, i, goal);
      ChunkBytes(h, Part(data, i, c), goal, p, r);
      if r.ret != Ok {
        WrittenPart(h, r.h, org, data, i, c, p);
      } else {
        WriteLoopBytes(r.h, data, i + c, goal, org, p);
        WrittenThen(h, r.h, WriteLoop(h, data, i, goal).h, org, data, i, c, p);
      }
    }
  }

  lemma WriteNothing(h: Handle, data: Block, goal: nat, org: nat, p: nat)
    requires HandleCheck(h)
    ensures WriteLoop(h, data, |data|, goal) == Done(h, Ok)
    ensures h.pos == org + |data| ==> Written(h, h, org, data, |data|, p)
  {
    hide HandleCheck, ByteAt;
  }

  /** Where a write that began at position from stopped. */
  predicate Ends(h: Handle, from: nat)
  {
    && HandleCheck(h) && from <= h.pos
    && (from < h.pos ==>
          && !TooBig(h.vol.geo.a, Digit(h.pos - 1, BlockSize(h)))
          && (Rest(h.pos, BlockSize(h)) != 0 ==> h.valid && h.block == Digit(h.pos, BlockSize(h))))
  }

  lemma LastByte(pos: nat, c: nat, bs: nat)
    requires bs > 0 && 0 < c && Rest(pos, bs) + c <= bs
    ensures Digit(pos + c - 1, bs) == Digit(pos, bs)
    ensures Rest(pos + c, bs) != 0 ==> Digit(pos + c, bs) == Digit(pos, bs)
    ensures Rest(pos + c, bs) == 0 <==> Rest(pos, bs) + c == bs
  {
    hide *;
    var k, s := Digit(pos, bs), Rest(pos, bs);
    Divide(pos, bs);
    Join(k, s + c - 1, bs);
    if s + c < bs {
      Join(k, s + c, bs);
    } else {
      NextOffset(k, bs);
      Join(k + 1, 0, bs);
    }
  }

  lemma NextOffset(k: nat, bs: nat)
    ensures Offset(k + 1, bs) == Offset(k, bs) + bs
  {
  }

  lemma ValidFits(h: Handle)
    requires HandleCheck(h) && h.valid
    ensures !TooBig(h.vol.geo.a, h.block)
  {
    hide TooBig;
  }

  /** A position c bytes into the cached block. */
  lemma EndsAt(h: Handle, from: nat, c: nat, bs: nat)
    requires HandleCheck(h) && h.valid && bs == BlockSize(h) && bs > 0 && h.block == Digit(from, bs)
    requires 0 < c && Rest(from, bs) + c <= bs && h.pos == from + c
    ensures Ends(h, from)
    ensures !TooBig(h.vol.geo.a, Digit(h.pos - 1, BlockSize(h)))
  {
    hide Digit, Rest, HandleCheck, TooBig;
    ValidFits(h);
    LastByte(from, c, bs);
  }

  lemma DoneEnds(h: Handle, data: Block, r: Done, k: nat, start: nat)
    requires HandleCheck(h) && k == Digit(h.pos, BlockSize(h)) && start == Rest(h.pos, BlockSize(h))
    requires data != [] && r.ret == Ok && ChunkDone(h, data, r, k, start, 0)
    ensures Ends(r.h, h.pos) && r.h.pos == h.pos + |data|
    ensures !TooBig(r.h.vol.geo.a, Digit(r.h.pos - 1, BlockSize(r.h)))
  {
    hide Digit, Rest, Content, HandleCheck, TooBig, Ends;
    BlockPositive(h);
    EndsAt(r.h, h.pos, |data|, BlockSize(h));
  }

  lemma ChunkEnds(h: Handle, data: Block, goal: nat, r: Done, from: nat)
    requires HandleCheck(h) && data != [] && Rest(h.pos, BlockSize(h)) + |data| <= BlockSize(h)
    requires r == Chunk(h, data, goal) && r.ret == Ok && from <= h.pos
    ensures Ends(r.h, from) && r.h.pos == h.pos + |data| && r.h.vol.geo == h.vol.geo
    ensures Rest(r.h.pos, BlockSize(h)) == 0 <==> Rest(h.pos, BlockSize(h)) + |data| == BlockSize(h)
  {
    hide Chunk, Digit, Rest, HandleCheck, TooBig;
    var k, start := Digit(h.pos, BlockSize(h)), Rest(h.pos, BlockSize(h));
    ChunkWrites(h, data, goal, 0, r, k, start);
    DoneEnds(h, data, r, k, start);
    ChunkBytes(h, data, goal, 0, r);
    LastByte(h.pos, |data|, BlockSize(h));
  }

  /** Where the loop of ext2_write stops. */
  lemma {:induction false} WriteLoopEnds(h: Handle, data: Block, i: nat, goal: nat, from: nat)
    requires HandleCheck(h) && i <= |data| && i <= h.pos && from <= h.pos && Ends(h, from)
    requires from < h.pos && i < |data| ==> Rest(h.pos, BlockSize(h)) == 0
    ensures Ends(WriteLoop(h, data, i, goal).h, from)
    decreases |data| - i
  {
    hide *;
    BlockPositive(h);
    if i == |data| {
      WriteNothing(h, data, goal, h.pos - i, 0);
    } else {
      var c, r := WriteStep(h, data, i, goal);
      ChunkBytes(h, Part(data, i, c), goal, 0, r);
      if r.ret == Ok {
        ChunkEnds(h, Part(data, i, c), goal, r, from);
        SameBlockSize(h, r.h);
        WriteLoopEnds(r.h, data, i + c, goal, from);
      } else {
        FailedEnds(h, r.h, from);
      }
    }
  }

  lemma SameBlockSize(h: Handle, h': Handle)
    requires h'.vol.geo == h.vol.geo
    ensures BlockSize(h') == BlockSize(h)
  {
  }

  /** A chunk that fails leaves the position at the start of a block, or where the write began. */
  lemma FailedEnds(h: Handle, h': Handle, from: nat)
    requires Ends(h, from) && HandleCheck(h') && h'.pos == h.pos && h'.vol.geo == h.vol.geo
    requires from < h.pos ==> Rest(h.pos, BlockSize(h)) == 0
    ensures Ends(h', from)
  {
    hide HandleCheck, Digit, Rest, TooBig;
  }

  // ----- Extending the file -----

  /** The bytes of block k from off on are zeroed on disk, if it has a block there. */
  function ZeroFrom(h: Handle, k: nat, off: nat, goal: nat): Done
    requires HandleCheck(h)
  {
    var m := Bmap(h.vol, h.iblocks, h.slots, false, false, k, 0, goal);
    if m.ret != Ok || m.phys == 0 then Done(h, m.ret)
    else if m.phys >= |h.vol.disk| || off > |h.vol.disk[m.phys]| then Done(h, EINVAL)
    else
      var b := h.vol.disk[m.phys][..off] + Zeros(|h.vol.disk[m.phys]| - off);
      Done(h.(vol := h.vol.(disk := h.vol.disk[m.phys := b])), Ok)
  }

  /** ext2_file_zero_remainder: the bytes of a block from off on are zeroed on disk, below the buffer. */
  function ZeroRemainder(h: Handle, goal: nat): Done
    requires HandleCheck(h)
  {
    var off := Rest(h.size, BlockSize(h));
    if off == 0 then Done(h, Ok)
    else
      var s := Sync(h, goal);
      if s.ret != Ok then s
      else
        SyncSame(h, goal, 0);
        ZeroFrom(s.h, Digit(h.size, BlockSize(h)), off, goal)
  }

  /** ext2_file_set_size to a larger size, which gives no block back. */
  function SetSize(h: Handle, size: nat, goal: nat): Done
    requires HandleCheck(h)
  {
    if size > 0 && TooBig(h.vol.geo.a, Digit(size - 1, BlockSize(h))) then Done(h, EFBIG)
    else ZeroRemainder(h.(size := size), goal)
  }

  /** Zeroing below a valid buffer. */
  lemma ZeroBelow(h: Handle, n: nat, b: Block, h': Handle)
    requires HandleCheck(h) && h.valid && 0 != h.phys < |h.vol.disk| && |b| == BlockSize(h)
    requires h' == h.(vol := h.vol.(disk := h.vol.disk[h.phys := b]))
    ensures Same(h, h', n)
  {
    hide TreesOf, Decode, Offset, Pow;
    ViewWritten(h.vol, h.slots, h.block, b, h'.vol, n);
    ViewWritten(h.vol, h.slots, h.block, b, h'.vol, h.block);
  }

  lemma ZeroRemainderSame(h: Handle, goal: nat, n: nat, r: Done)
    requires HandleCheck(h) && h.size == h.pos && r == ZeroRemainder(h, goal)
    requires Rest(h.pos, BlockSize(h)) != 0 ==> h.valid && h.block == Digit(h.pos, BlockSize(h))
    ensures Same(h, r.h, n) && r.ret == Ok
  {
    hide TreesOf, Decode, Encode, Offset, Pow;
    var off := Rest(h.size, BlockSize(h));
    if off != 0 {
      Divide(h.size, BlockSize(h));
      BmapReads(h.vol, h.iblocks, h.slots, false, h.block, goal);
      ValidPlaced(h);
      if h.phys != 0 {
        ZeroBelow(h, n, h.vol.disk[h.phys][..off] + Zeros(|h.vol.disk[h.phys]| - off), r.h);
      }
    }
  }

  /** Extending the file to the end of a write changes no content. */
  lemma SetSizeSame(h: Handle, from: nat, goal: nat, n: nat, r: Done)
    requires HandleCheck(h) && Ends(h, from) && from < h.pos && r == SetSize(h, h.pos, goal)
    ensures r.ret == Ok && Same(h.(size := h.pos), r.h, n)
  {
    hide TreesOf, Decode, Encode, Offset, Pow;
    ZeroRemainderSame(h.(size := h.pos), goal, n, r);
  }

  lemma ZeroedBelow(h: Handle, k: nat, off: nat, i: nat, h': Handle)
    requires HandleCheck(h) && 0 < off <= i < BlockSize(h) && k < LevelBase(h.vol.geo.a, 4)
    requires var p := Map(h.vol, h.slots, k);
      && 0 < p < |h.vol.disk| && off <= |h.vol.disk[p]|
      && h' == h.(vol := h.vol.(disk := h.vol.disk[p := h.vol.disk[p][..off] + Zeros(|h.vol.disk[p]| - off)]))
    ensures InodeCheck(h'.vol, h'.slots) && View(h'.vol, h'.slots, k)[i] == 0
  {
    hide TreesOf, Decode, Encode, Offset, Pow;
    var p := Map(h.vol, h.slots, k);
    var b := h.vol.disk[p][..off] + Zeros(|h.vol.disk[p]| - off);
    ViewWritten(h.vol, h.slots, k, b, h'.vol, k);
  }

  lemma ZeroFromZeroes(h: Handle, k: nat, off: nat, goal: nat, i: nat, r: Done)
    requires HandleCheck(h) && r == ZeroFrom(h, k, off, goal) && r.ret == Ok && 0 < off <= i < BlockSize(h)
    ensures InodeCheck(r.h.vol, r.h.slots) && r.h.vol.geo == h.vol.geo && View(r.h.vol, r.h.slots, k)[i] == 0
  {
    hide TreesOf, Decode, Encode, Offset, Pow, Bmap, TooBig, Map;
    Accepted(h, k, goal);
    BmapReads(h.vol, h.iblocks, h.slots, false, k, goal);
    if Map(h.vol, h.slots, k) != 0 {
      MapInside(h.vol, h.slots, k);
      ZeroedBelow(h, k, off, i, r.h);
    }
  }

  /** Once the size is set, the rest of its last block is zero on disk, below the buffer. */
  lemma SetSizeZeroes(h: Handle, size: nat, goal: nat, i: nat, r: Done)
    requires HandleCheck(h) && r == SetSize(h, size, goal) && r.ret == Ok
    requires 0 < Rest(size, BlockSize(h)) <= i < BlockSize(h)
    ensures InodeCheck(r.h.vol, r.h.slots) && r.h.vol.geo == h.vol.geo
    ensures View(r.h.vol, r.h.slots, Digit(size, BlockSize(h)))[i] == 0
  {
    hide TreesOf, Decode, Encode, Offset, Pow, Sync, TooBig, ZeroFrom, View;
    var k, off, h1 := Digit(size, BlockSize(h)), Rest(size, BlockSize(h)), h.(size := size);
    var s := Sync(h1, goal);
    SyncSame(h1, goal, 0);
    ZeroFromZeroes(s.h, k, off, goal, i, r);
  }

  lemma Accepted(h: Handle, k: nat, goal: nat)
    requires HandleCheck(h)
    ensures Bmap(h.vol, h.iblocks, h.slots, false, false, k, 0, goal).ret == Ok <==> !TooBig(h.vol.geo.a, k)
    ensures !TooBig(h.vol.geo.a, k) ==> k < LevelBase(h.vol.geo.a, 4)
  {
    hide InodeCheck, Map;
    if !TooBig(h.vol.geo.a, k) {
      BmapReads(h.vol, h.iblocks, h.slots, false, k, goal);
    }
  }

  // ----- ext2_write -----

  /** ext2_write at the given offset. */
  function Write(h: Handle, data: Block, offset: nat, goal: nat): Done
    requires HandleCheck(h)
  {
    var r := WriteLoop(h.(pos := offset), data, 0, goal);
    WriteLoopBytes(h.(pos := offset), data, 0, goal, offset, 0);
    if r.h.pos != offset && r.h.size < r.h.pos then
      var s := SetSize(r.h, r.h.pos, goal);
      Done(s.h, if r.ret == Ok then s.ret else r.ret)
    else r
  }

  lemma ResizedBytes(h: Handle, h1: Handle, p: nat)
    requires HandleCheck(h) && Same(h.(size := h.pos), h1, Digit(p, BlockSize(h)))
    ensures HandleCheck(h1) && ByteAt(h1, p) == ByteAt(h, p) && h1.pos == h.pos && h1.size == h.pos
    ensures h1.vol.geo == h.vol.geo
  {
  }

  /** The end of ext2_write: the size follows the position, the bytes stay. */
  lemma WriteTail(h: Handle, data: Block, offset: nat, goal: nat, p: nat, l: Done, r: Done)
    requires HandleCheck(h) && l == WriteLoop(h.(pos := offset), data, 0, goal) && r == Write(h, data, offset, goal)
    ensures HandleCheck(l.h) && HandleCheck(r.h) && r.ret == l.ret && r.h.pos == l.h.pos
    ensures ByteAt(r.h, p) == ByteAt(l.h, p)
    ensures r.h.size == if l.h.pos != offset then Max(l.h.size, l.h.pos) else l.h.size
  {
    hide TreesOf, Decode, Encode, Offset, Pow;
    WriteLoopBytes(h.(pos := offset), data, 0, goal, offset, p);
    if l.h.pos != offset && l.h.size < l.h.pos {
      WriteLoopEnds(h.(pos := offset), data, 0, goal, offset);
      var s := SetSize(l.h, l.h.pos, goal);
      SetSizeSame(l.h, offset, goal, Digit(p, BlockSize(l.h)), s);
      ResizedBytes(l.h, s.h, p);
    }
  }

  lemma MovedBytes(h: Handle, pos: nat, p: nat)
    requires HandleCheck(h)
    ensures HandleCheck(h.(pos := pos)) && ByteAt(h.(pos := pos), p) == ByteAt(h, p)
  {
  }

  /**
   ext2_write: every byte of the range takes its new value, every other byte of
   the file is as it was, and the size grows to the end of the range if need be.
   */
  lemma WriteBytes(h: Handle, data: Block, offset: nat, goal: nat, p: nat, r: Done)
    requires HandleCheck(h) && r == Write(h, data, offset, goal) && r.ret == Ok
    ensures HandleCheck(r.h)
    ensures ByteAt(r.h, p) == if offset <= p < offset + |data| then data[p - offset] else ByteAt(h, p)
    ensures r.h.size == if data == [] then h.size else Max(h.size, offset + |data|)
  {
    hide TreesOf, Decode, Encode, Offset, Pow;
    WriteLoopBytes(h.(pos := offset), data, 0, goal, offset, p);
    WriteTail(h, data, offset, goal, p, WriteLoop(h.(pos := offset), data, 0, goal), r);
    MovedBytes(h, offset, p);
  }

  /**
   A write, failed or not, leaves a well-formed handle and touches no byte
   outside its range; the bytes before the position it reaches are its data,
   and the size follows that position.
   */
  lemma WriteReaches(h: Handle, data: Block, offset: nat, goal: nat, p: nat, r: Done)
    requires HandleCheck(h) && r == Write(h, data, offset, goal)
    ensures HandleCheck(r.h) && offset <= r.h.pos <= offset + |data|
    ensures r.ret == Ok ==> r.h.pos == offset + |data|
    ensures !(offset <= p < offset + |data|) ==> ByteAt(r.h, p) == ByteAt(h, p)
    ensures offset <= p < r.h.pos ==> ByteAt(r.h, p) == data[p - offset]
    ensures r.h.size == if offset < r.h.pos then Max(h.size, r.h.pos) else h.size
  {
    hide TreesOf, Decode, Encode, Offset, Pow;
    WriteLoopBytes(h.(pos := offset), data, 0, goal, offset, p);
    WriteTail(h, data, offset, goal, p, WriteLoop(h.(pos := offset), data, 0, goal), r);
    MovedBytes(h, offset, p);
  }

  // ----- ext2_read -----

  datatype Got = Got(h: Handle, ret: Err, out: Block)

  function ReadSize(h: Handle, len: nat): (c: nat)
    requires HandleCheck(h) && h.pos < h.size
    ensures c <= len && c <= h.size - h.pos && Rest(h.pos, BlockSize(h)) + c <= BlockSize(h) && (len > 0 ==> c > 0)
  {
    var c := ChunkSize(h.pos, BlockSize(h), len);
    if c > h.size - h.pos then h.size - h.pos else c
  }

  /** The cached block made to stand for the position. */
  function Fetch(h: Handle, goal: nat): Done
    requires HandleCheck(h)
  {
    var s := Sync(h, goal);
    SyncSame(h, goal, 0);
    if s.ret != Ok then s else Load(s.h, false)
  }

  lemma FetchSame(h: Handle, goal: nat, n: nat)
    requires HandleCheck(h)
    ensures Same(h, Fetch(h, goal).h, n)
    ensures Fetch(h, goal).ret == Ok ==> Fetch(h, goal).h.valid && Fetch(h, goal).h.block == Digit(h.pos, BlockSize(h))
  {
    hide Sync, Load, HandleCheck, Content, Digit;
    var s := Sync(h, goal);
    SyncSame(h, goal, n);
    if s.ret == Ok {
      LoadSame(s.h, n);
      SameTransitive(h, s.h, Load(s.h, false).h, n);
    }
  }

  lemma FetchChecked(h: Handle, goal: nat)
    requires HandleCheck(h)
    ensures HandleCheck(Fetch(h, goal).h) && |Fetch(h, goal).h.buffer| == BlockSize(h)
  {
    hide Fetch, Content;
    FetchSame(h, goal, 0);
  }

  lemma MovedChecked(h: Handle, pos: nat)
    requires HandleCheck(h)
    ensures HandleCheck(h.(pos := pos))
  {
  }

  /** The loop of ext2_read. */
  function ReadLoop(h: Handle, len: nat, goal: nat): Got
    requires HandleCheck(h)
    decreases len
  {
    if h.pos >= h.size || len == 0 then Got(h, Ok, [])
    else
      var l := Fetch(h, goal);
      FetchChecked(h, goal);
      if l.ret != Ok then Got(l.h, l.ret, [])
      else
        var start, c := Rest(h.pos, BlockSize(h)), ReadSize(h, len);
        MovedChecked(l.h, h.pos + c);
        var g := ReadLoop(l.h.(pos := h.pos + c), len - c, goal);
        Got(g.h, g.ret, Part(l.h.buffer, start, c) + g.out)
  }

  /** The number of bytes that a read of len bytes at position pos returns. */
  function Available(size: nat, pos: nat, len: nat): nat
  {
    if pos >= size then 0 else if len < size - pos then len else size - pos
  }

  /** A handle that differs only in its cache and position. */
  predicate SameFile(h: Handle, h': Handle, p: nat)
  {
    && HandleCheck(h) && HandleCheck(h')
    && h'.vol.geo == h.vol.geo && h'.size == h.size && ByteAt(h', p) == ByteAt(h, p)
  }

  /** One pass of the loop of ext2_read. */
  lemma ReadStep(h: Handle, len: nat, goal: nat) returns (l: Done, c: nat)
    requires HandleCheck(h) && h.pos < h.size && len > 0
    ensures BlockSize(h) > 0 && 0 < c <= len && c <= h.size - h.pos && Rest(h.pos, BlockSize(h)) + c <= BlockSize(h)
    ensures l == Fetch(h, goal) && |l.h.buffer| == BlockSize(h) && c == ReadSize(h, len)
    ensures l.ret != Ok ==> ReadLoop(h, len, goal) == Got(l.h, l.ret, [])
    ensures l.ret == Ok ==>
      && HandleCheck(l.h.(pos := h.pos + c))
      && var g := ReadLoop(l.h.(pos := h.pos + c), len - c, goal);
         ReadLoop(h, len, goal) == Got(g.h, g.ret, Part(l.h.buffer, Rest(h.pos, BlockSize(h)), c) + g.out)
  {
    hide Fetch, HandleCheck, Part, ReadSize, Rest, BlockSize;
    BlockPositive(h);
    FetchChecked(h, goal);
    l, c := Fetch(h, goal), ReadSize(h, len);
    MovedChecked(l.h, h.pos + c);
  }

  lemma FetchedFile(h: Handle, goal: nat, p: nat, pos: nat)
    requires HandleCheck(h)
    ensures SameFile(h, Fetch(h, goal).h, p) && SameFile(h, Fetch(h, goal).h.(pos := pos), p)
  {
    hide Fetch, HandleCheck, Content, ByteAt, Digit, BlockSize;
    BlockPositive(h);
    FetchSame(h, goal, Digit(p, BlockSize(h)));
    SameBytes(h, Fetch(h, goal).h, p);
    MovedBytes(Fetch(h, goal).h, pos, p);
  }

  lemma SameFileTransitive(h: Handle, h1: Handle, h2: Handle, p: nat)
    requires SameFile(h, h1, p) && SameFile(h1, h2, p)
    ensures SameFile(h, h2, p)
  {
    hide HandleCheck, ByteAt;
  }

  lemma ReadNothing(h: Handle, len: nat, goal: nat, p: nat)
    requires HandleCheck(h) && (h.pos >= h.size || len == 0)
    ensures ReadLoop(h, len, goal) == Got(h, Ok, []) && SameFile(h, h, p)
  {
    hide HandleCheck, ByteAt;
  }

  /** Reading, successful or not, changes no byte of the file. */
  lemma {:induction false} ReadKeeps(h: Handle, len: nat, goal: nat, p: nat)
    requires HandleCheck(h)
    ensures SameFile(h, ReadLoop(h, len, goal).h, p)
    decreases len
  {
    hide *;
    if h.pos < h.size && len > 0 {
      var l, c := ReadStep(h, len, goal);
      FetchedFile(h, goal, p, h.pos + c);
      if l.ret == Ok {
        ReadKeeps(l.h.(pos := h.pos + c), len - c, goal, p);
        SameFileTransitive(h, l.h.(pos := h.pos + c), ReadLoop(h, len, goal).h, p);
      }
    } else {
      ReadNothing(h, len, goal, p);
    }
  }

  lemma Cached(h: Handle, l: Handle, k: nat)
    requires HandleCheck(h) && Same(h, l, k) && l.valid && l.block == k
    ensures l.buffer == Content(h, k)
  {
    hide HandleCheck, View;
  }

  lemma ByteOf(h: Handle, p: nat, k: nat, r: nat)
    requires HandleCheck(h) && BlockSize(h) > 0 && r < BlockSize(h) && p == Offset(k, BlockSize(h)) + r
    ensures ByteAt(h, p) == Content(h, k)[r]
  {
    hide HandleCheck, Content, Digit, Rest, Offset;
    Join(k, r, BlockSize(h));
  }

  /** The bytes taken from the buffer. */
  lemma FetchedByte(h: Handle, goal: nat, i: nat, l: Done)
    requires HandleCheck(h) && BlockSize(h) > 0 && Rest(h.pos, BlockSize(h)) + i < BlockSize(h)
    requires l == Fetch(h, goal) && l.ret == Ok
    ensures |l.h.buffer| == BlockSize(h) && l.h.buffer[Rest(h.pos, BlockSize(h)) + i] == ByteAt(h, h.pos + i)
  {
    hide *;
    var k, start := Digit(h.pos, BlockSize(h)), Rest(h.pos, BlockSize(h));
    FetchSame(h, goal, k);
    Cached(h, l.h, k);
    Divide(h.pos, BlockSize(h));
    ByteOf(h, h.pos + i, k, start + i);
  }

  lemma SizeOf(h: Handle, h': Handle, p: nat)
    requires SameFile(h, h', p)
    ensures h'.size == h.size && HandleCheck(h') && HandleCheck(h) && ByteAt(h', p) == ByteAt(h, p)
  {
    hide HandleCheck, ByteAt;
  }

  lemma {:induction false} ReadCount(h: Handle, len: nat, goal: nat)
    requires HandleCheck(h) && ReadLoop(h, len, goal).ret == Ok
    ensures |ReadLoop(h, len, goal).out| == Available(h.size, h.pos, len)
    decreases len
  {
    hide HandleCheck, Fetch, SameFile, ReadLoop, Part, BlockSize, Rest;
    if h.pos < h.size && len > 0 {
      var l, c := ReadStep(h, len, goal);
      if l.ret == Ok {
        FetchedFile(h, goal, 0, h.pos + c);
        SizeOf(h, l.h.(pos := h.pos + c), 0);
        ReadCount(l.h.(pos := h.pos + c), len - c, goal);
      }
    } else {
      ReadNothing(h, len, goal, 0);
    }
  }

  /** A read returns the bytes of the file from the position on, up to its size. */
  lemma {:induction false} ReadBytes(h: Handle, len: nat, goal: nat, i: nat)
    requires HandleCheck(h) && ReadLoop(h, len, goal).ret == Ok && i < Available(h.size, h.pos, len)
    ensures |ReadLoop(h, len, goal).out| == Available(h.size, h.pos, len)
    ensures ReadLoop(h, len, goal).out[i] == ByteAt(h, h.pos + i)
    decreases len
  {
    hide HandleCheck, Fetch, SameFile, ReadLoop, Part, BlockSize, Rest, ByteAt;
    ReadCount(h, len, goal);
    var l, c := ReadStep(h, len, goal);
    if l.ret == Ok {
      if i < c {
        FetchedByte(h, goal, i, l);
      } else {
        FetchedFile(h, goal, h.pos + i, h.pos + c);
        SizeOf(h, l.h.(pos := h.pos + c), h.pos + i);
        ReadBytes(l.h.(pos := h.pos + c), len - c, goal, i - c);
      }
    }
  }

  // ----- Runs -----

  /** An operation and the goal of the allocations it may make. */
  datatype Op = ReadOp(len: nat, offset: nat, goal: nat) | WriteOp(data: Block, offset: nat, goal: nat)
    | FlushOp(goal: nat)

  function Exec(h: Handle, op: Op): Got
    requires HandleCheck(h)
  {
    match op
    case ReadOp(len, offset, goal) =>
      MovedChecked(h, offset);
      ReadLoop(h.(pos := offset), len, goal)
    case WriteOp(data, offset, goal) =>
      var r := Write(h, data, offset, goal);
      Got(r.h, r.ret, [])
    case FlushOp(goal) =>
      var r := Flush(h, goal);
      Got(r.h, r.ret, [])
  }

  /** The handle after the first n operations of a run, whichever of them failed. */
  function RunTo(h: Handle, ops: seq<Op>, n: nat): (h': Handle)
    requires HandleCheck(h) && n <= |ops|
    ensures HandleCheck(h')
  {
    if n == 0 then h
    else
      ExecKeeps(RunTo(h, ops, n - 1), ops[n - 1], 0);
      Exec(RunTo(h, ops, n - 1), ops[n - 1]).h
  }

  /** What operation n of a run returns. */
  function Reply(h: Handle, ops: seq<Op>, n: nat): Got
    requires HandleCheck(h) && n < |ops|
  {
    Exec(RunTo(h, ops, n), ops[n])
  }

  /** The position that each operation of a run leaves. */
  function Stops(h: Handle, ops: seq<Op>): (stops: seq<nat>)
    requires HandleCheck(h)
    ensures |stops| == |ops| && forall i :: 0 <= i < |ops| ==> stops[i] == Reply(h, ops, i).h.pos
  {
    seq(|ops|, i requires 0 <= i < |ops| => Reply(h, ops, i).h.pos)
  }

  predicate Covers(op: Op, p: nat)
  {
    op.WriteOp? && op.offset <= p < op.offset + |op.data|
  }

  /** Byte p holds what the last write that covers it put there: no later one stopped short of it. */
  predicate Known(ops: seq<Op>, stops: seq<nat>, n: nat, p: nat)
    requires n <= |ops| == |stops|
  {
    n == 0 || (if Covers(ops[n - 1], p) then p < stops[n - 1] else Known(ops, stops, n - 1, p))
  }

  /** Byte p of a flat file that held b there, after the first n operations, each write as far as it got. */
  function FlatByte(b: byte, ops: seq<Op>, stops: seq<nat>, n: nat, p: nat): byte
    requires n <= |ops| == |stops|
  {
    if n == 0 then b
    else if Covers(ops[n - 1], p) && p < stops[n - 1] then ops[n - 1].data[p - ops[n - 1].offset]
    else FlatByte(b, ops, stops, n - 1, p)
  }

  function FlatSize(size: nat, ops: seq<Op>, stops: seq<nat>, n: nat): nat
    requires n <= |ops| == |stops|
  {
    if n == 0 then size
    else
      var op, before := ops[n - 1], FlatSize(size, ops, stops, n - 1);
      if op.WriteOp? && op.offset < stops[n - 1] then Max(before, stops[n - 1]) else before
  }

  lemma FlushKeeps(h: Handle, goal: nat, p: nat)
    requires HandleCheck(h)
    ensures HandleCheck(Flush(h, goal).h) && Flush(h, goal).h.size == h.size
    ensures ByteAt(Flush(h, goal).h, p) == ByteAt(h, p)
  {
    hide Flush, HandleCheck, Content, ByteAt, Digit, BlockSize;
    BlockPositive(h);
    FlushSame(h, goal, Digit(p, BlockSize(h)));
    SameBytes(h, Flush(h, goal).h, p);
  }

  /**
   Every operation leaves a well-formed handle. Only a write changes bytes: to
   its data up to the position it reaches, which is the end of its range if it
   succeeds, and never outside the range. The size follows that position.
   */
  lemma ExecKeeps(h: Handle, op: Op, p: nat)
    requires HandleCheck(h)
    ensures HandleCheck(Exec(h, op).h)
    ensures !Covers(op, p) ==> ByteAt(Exec(h, op).h, p) == ByteAt(h, p)
    ensures Covers(op, p) && p < Exec(h, op).h.pos ==> ByteAt(Exec(h, op).h, p) == op.data[p - op.offset]
    ensures op.WriteOp? ==> op.offset <= Exec(h, op).h.pos <= op.offset + |op.data|
    ensures op.WriteOp? && Exec(h, op).ret == Ok ==> Exec(h, op).h.pos == op.offset + |op.data|
    ensures Exec(h, op).h.size ==
      if op.WriteOp? && op.offset < Exec(h, op).h.pos then Max(h.size, Exec(h, op).h.pos) else h.size
  {
    hide ReadLoop, Write, Flush, HandleCheck, ByteAt, SameFile;
    match op
    case ReadOp(len, offset, goal) =>
      MovedBytes(h, offset, p);
      ReadKeeps(h.(pos := offset), len, goal, p);
      SizeOf(h.(pos := offset), ReadLoop(h.(pos := offset), len, goal).h, p);
    case WriteOp(data, offset, goal) =>
      WriteReaches(h, data, offset, goal, p, Write(h, data, offset, goal));
    case FlushOp(goal) =>
      FlushKeeps(h, goal, p);
  }

  /**
   Any run of reads, writes and flushes, whichever of them fail: the handle
   denotes the flat file that the same writes produce, each as far as it got,
   except for bytes that the last write to cover them did not reach.
   */
  lemma {:induction false} RunIsFlat(h: Handle, ops: seq<Op>, n: nat, p: nat)
    requires HandleCheck(h) && n <= |ops| && Known(ops, Stops(h, ops), n, p)
    ensures ByteAt(RunTo(h, ops, n), p) == FlatByte(ByteAt(h, p), ops, Stops(h, ops), n, p)
  {
    hide Exec, HandleCheck, ByteAt, Covers, Stops;
    if n > 0 {
      ExecKeeps(RunTo(h, ops, n - 1), ops[n - 1], p);
      if !Covers(ops[n - 1], p) {
        RunIsFlat(h, ops, n - 1, p);
      }
    }
  }

  /** The size after any run, whichever operations fail. */
  lemma {:induction false} RunSize(h: Handle, ops: seq<Op>, n: nat)
    requires HandleCheck(h) && n <= |ops|
    ensures RunTo(h, ops, n).size == FlatSize(h.size, ops, Stops(h, ops), n)
  {
    hide Exec, HandleCheck, Covers, Stops;
    if n > 0 {
      RunSize(h, ops, n - 1);
      ExecKeeps(RunTo(h, ops, n - 1), ops[n - 1], 0);
    }
  }

  /** A write of a run stops inside its range, and at the end of it if it succeeds. */
  lemma RunStops(h: Handle, ops: seq<Op>, n: nat)
    requires HandleCheck(h) && n < |ops| && ops[n].WriteOp?
    ensures ops[n].offset <= Stops(h, ops)[n] <= ops[n].offset + |ops[n].data|
    ensures Reply(h, ops, n).ret == Ok ==> Stops(h, ops)[n] == ops[n].offset + |ops[n].data|
  {
    hide Exec, HandleCheck, Covers, Stops, RunTo;
    ExecKeeps(RunTo(h, ops, n), ops[n], 0);
  }

  /** A read in a run returns the slice of the flat file as it is at that time. */
  lemma RunReads(h: Handle, ops: seq<Op>, n: nat, i: nat)
    requires HandleCheck(h) && n < |ops| && ops[n].ReadOp? && Reply(h, ops, n).ret == Ok
    ensures |Reply(h, ops, n).out| == Available(FlatSize(h.size, ops, Stops(h, ops), n), ops[n].offset, ops[n].len)
    ensures i < |Reply(h, ops, n).out| && Known(ops, Stops(h, ops), n, ops[n].offset + i) ==>
      Reply(h, ops, n).out[i] == FlatByte(ByteAt(h, ops[n].offset + i), ops, Stops(h, ops), n, ops[n].offset + i)
  {
    hide HandleCheck, ByteAt, ReadLoop, RunTo, Available, Known, FlatByte, FlatSize, Stops;
    var at, op := RunTo(h, ops, n), ops[n];
    MovedBytes(at, op.offset, op.offset + i);
    RunSize(h, ops, n);
    ReadCount(at.(pos := op.offset), op.len, op.goal);
    if i < |Reply(h, ops, n).out| && Known(ops, Stops(h, ops), n, op.offset + i) {
      ReadBytes(at.(pos := op.offset), op.len, op.goal, i);
      RunIsFlat(h, ops, n, op.offset + i);
    }
  }

  /** Byte p of what the disk alone holds. */
  function DiskByte(h: Handle, p: nat): byte
    requires HandleCheck(h)
  {
    Divide(p, BlockSize(h));
    View(h.vol, h.slots, Digit(p, BlockSize(h)))[Rest(p, BlockSize(h))]
  }

  /** After a final flush the disk alone denotes the flat file. */
  lemma RunOnDisk(h: Handle, ops: seq<Op>, goal: nat, p: nat)
    requires HandleCheck(h) && Known(ops, Stops(h, ops), |ops|, p) && Flush(RunTo(h, ops, |ops|), goal).ret == Ok
    ensures HandleCheck(Flush(RunTo(h, ops, |ops|), goal).h)
    ensures DiskByte(Flush(RunTo(h, ops, |ops|), goal).h, p) ==
            FlatByte(ByteAt(h, p), ops, Stops(h, ops), |ops|, p)
  {
    hide *;
    RunIsFlat(h, ops, |ops|, p);
    BlockPositive(RunTo(h, ops, |ops|));
    FlushDisk(RunTo(h, ops, |ops|), goal, p);
  }

  lemma FlushDisk(h: Handle, goal: nat, p: nat)
    requires HandleCheck(h) && Flush(h, goal).ret == Ok
    ensures HandleCheck(Flush(h, goal).h) && DiskByte(Flush(h, goal).h, p) == ByteAt(h, p)
  {
    hide Flush, Content, View, Digit, Rest;
    BlockPositive(h);
    var n := Digit(p, BlockSize(h));
    FlushedOnDisk(h, goal, n, Flush(h, goal));
    FlushSame(h, goal, n);
  }

  // ----- The code -----

  /** The block of a file position and the offset in it. */
  method BlockAndOffset(p: nat, bs: nat) returns (block: nat, off: nat)
    requires bs > 0
    ensures block == Digit(p, bs) && off == Rest(p, bs)
  {
    IsDivMod(p, bs);
    return p / bs, p % bs;
  }

  /** An open file on a mounted volume. */
  class OpenFile {
    const vol: Volume
    const inode: Inode
    const goal: nat
    var size: nat
    var pos: nat
    var block: nat
    var phys: nat
    var valid: bool
    var dirty: bool
    var buffer: Block

    /** ext2_open_file: nothing is cached yet. */
    constructor (vol: Volume, inode: Inode, goal: nat, size: nat)
      requires InodeCheck(vol.Now(), inode.block[..])
      ensures this.vol == vol && this.inode == inode
      ensures HandleCheck(Now()) && Now().size == size
      ensures forall n :: Content(Now(), n) == View(vol.Now(), inode.block[..], n)
    {
      this.vol, this.inode, this.goal, this.size := vol, inode, goal, size;
      pos, block, phys, valid, dirty, buffer := 0, 0, 0, false, false, Zeros(4 * vol.geo.a);
    }

    function Now(): Handle
      reads this, vol, inode, inode.block
    {
      Handle(vol.Now(), inode.iblocks, inode.block[..], size, pos, block, phys, valid, dirty, buffer)
    }

    /** ext2_bmap for the cached block. */
    method MapBlock(alloc: bool, start: nat) returns (ret: Err)
      requires HandleCheck(Now())
      modifies this, vol, inode, inode.block
      ensures Done(Now(), ret) == Remap(old(Now()), alloc, start)
    {
      hide InodeCheck, Bmap, Map;
      InodeLength(Now());
      ret, phys := BmapInode(vol, inode, false, alloc, block, 0, start);
      if ret != Ok {
        phys := 0;
      }
    }

    method FlushBuffer() returns (ret: Err)
      requires HandleCheck(Now())
      modifies this, vol, inode, inode.block
      ensures Done(Now(), ret) == Flush(old(Now()), goal)
    {
      hide HandleCheck, Bmap;
      if !valid && !dirty {
        return Ok;
      }
      if phys == 0 {
        ret := MapBlock(true, goal);
        if ret != Ok {
          return;
        }
      }
      if phys >= |vol.disk| {
        return EINVAL;
      }
      vol.disk := vol.disk[phys := buffer];
      dirty := false;
      return Ok;
    }

    method SyncPosition() returns (ret: Err)
      requires HandleCheck(Now())
      modifies this, vol, inode, inode.block
      ensures Done(Now(), ret) == Sync(old(Now()), goal)
    {
      hide HandleCheck, Flush;
      BlockPositive(Now());
      var b, _ := BlockAndOffset(pos, 4 * vol.geo.a);
      if b != block {
        ret := FlushBuffer();
        if ret != Ok {
          return;
        }
        valid := false;
      }
      block := b;
      return Ok;
    }

    method LoadBuffer(nofill: bool) returns (ret: Err)
      requires HandleCheck(Now())
      modifies this, vol, inode, inode.block
      ensures Done(Now(), ret) == Load(old(Now()), nofill)
    {
      hide HandleCheck, Remap;
      if !valid {
        ret := MapBlock(false, 0);
        if ret != Ok {
          return;
        }
        if !nofill {
          if phys != 0 {
            if phys >= |vol.disk| {
              return EINVAL;
            }
            buffer := vol.disk[phys];
          } else {
            buffer := Zeros(4 * vol.geo.a);
          }
        }
        valid := true;
      }
      return Ok;
    }

    /** One pass of the loop of ext2_write. */
    method WriteChunk(data: Block) returns (ret: Err)
      requires HandleCheck(Now()) && Rest(pos, 4 * vol.geo.a) + |data| <= 4 * vol.geo.a
      modifies this, vol, inode, inode.block
      ensures Done(Now(), ret) == Chunk(old(Now()), data, goal)
    {
      hide HandleCheck, Sync, Load, Remap, Rest, Put;
      BlockPositive(Now());
      SyncChecked(Now(), goal);
      ret := SyncPosition();
      if ret != Ok {
        return;
      }
      LoadChecked(Now(), |data| == 4 * vol.geo.a, 0);
      ret := LoadBuffer(|data| == 4 * vol.geo.a);
      if ret != Ok {
        return;
      }
      BufferLength(Now());
      var _, start := BlockAndOffset(pos, 4 * vol.geo.a);
      ret := CopyBytes(start, data);
    }

    /** The part of the loop of ext2_write after the block has been loaded. */
    method CopyBytes(start: nat, data: Block) returns (ret: Err)
      requires HandleCheck(Now()) && valid && start + |data| <= |buffer|
      modifies this, vol, inode, inode.block
      ensures HandleCheck(Copied(old(Now()), start, data))
      ensures var c := Copied(old(Now()), start, data);
        Done(Now(), ret) ==
        if c.phys != 0 then Done(c.(pos := old(pos) + |data|), Ok)
        else var r := Remap(c, true, goal); if r.ret != Ok then r else Done(r.h.(pos := old(pos) + |data|), Ok)
    {
      hide HandleCheck, Bmap, Put;
      CopiedChecked(Now(), start, data);
      dirty := true;
      buffer := Put(buffer, start, data);
      ret := Ok;
      if phys == 0 {
        ret := MapBlock(true, goal);
        if ret != Ok {
          return;
        }
      }
      pos := pos + |data|;
    }

    /** The loop of ext2_write. */
    method WriteData(data: Block) returns (ret: Err)
      requires HandleCheck(Now())
      modifies this, vol, inode, inode.block
      ensures Done(Now(), ret) == WriteLoop(old(Now()), data, 0, goal)
    {
      hide HandleCheck, Chunk, Part, Rest, WriteLoop;
      var i := 0;
      ghost var w := WriteLoop(Now(), data, 0, goal);
      while i < |data|
        invariant i <= |data| && HandleCheck(Now())
        invariant w == WriteLoop(Now(), data, i, goal)
      {
        BlockPositive(Now());
        var c := ChunkSize(pos, 4 * vol.geo.a, |data| - i);
        ghost var c', r := WriteStep(Now(), data, i, goal);
        ret := WriteChunk(Part(data, i, c));
        if ret != Ok {
          return;
        }
        i := i + c;
      }
      WriteNothing(Now(), data, goal, 0, 0);
      return Ok;
    }

    /** ext2_file_zero_remainder at the new size. */
    method ZeroTail() returns (ret: Err)
      requires HandleCheck(Now())
      modifies this, vol, inode, inode.block
      ensures Done(Now(), ret) == ZeroRemainder(old(Now()), goal)
    {
      hide HandleCheck, Sync, Bmap, Digit, Rest;
      BlockPositive(Now());
      var last, off := BlockAndOffset(size, 4 * vol.geo.a);
      if off == 0 {
        return Ok;
      }
      SyncChecked(Now(), goal);
      ret := SyncPosition();
      if ret != Ok {
        return;
      }
      InodeLength(Now());
      var b;
      ret, b := FindBlock(last);
      if ret != Ok || b == 0 {
        return;
      }
      if b >= |vol.disk| || off > |vol.disk[b]| {
        return EINVAL;
      }
      vol.disk := vol.disk[b := vol.disk[b][..off] + Zeros(|vol.disk[b]| - off)];
    }

    /** A lookup that leaves the cached block alone. */
    method FindBlock(k: nat) returns (ret: Err, b: nat)
      requires HandleCheck(Now())
      modifies vol, inode, inode.block
      ensures Now() == old(Now())
      ensures var m := Bmap(vol.Now(), inode.iblocks, inode.block[..], false, false, k, 0, goal);
              ret == m.ret && b == m.phys
    {
      hide InodeCheck, Bmap, Map, TooBig;
      InodeLength(Now());
      LookupOnly(Now(), k, goal);
      ret, b := BmapInode(vol, inode, false, false, k, 0, goal);
    }

    /** ext2_write: the count of bytes on success. */
    method WriteFile(data: Block, offset: nat) returns (ret: Err, count: nat)
      requires HandleCheck(Now())
      modifies this, vol, inode, inode.block
      ensures Done(Now(), ret) == Write(old(Now()), data, offset, goal)
      ensures HandleCheck(Now())
      ensures ret == Ok ==> count == |data|
      ensures ret == Ok ==> size == if data == [] then old(size) else Max(old(size), offset + |data|)
      ensures ret == Ok ==> forall p: nat ::
        ByteAt(Now(), p) == if offset <= p < offset + |data| then data[p - offset] else ByteAt(old(Now()), p)
    {
      hide HandleCheck, WriteLoop, ZeroRemainder, Digit, ByteAt, Written, TooBig;
      ghost var h := Now();
      MovedChecked(h, offset);
      WriteLoopBytes(h.(pos := offset), data, 0, goal, offset, 0);
      pos := offset;
      ret := WriteData(data);
      LoopEnded(h.(pos := offset), data, goal, offset);
      count := pos - offset;
      if count != 0 && size < pos {
        BlockPositive(Now());
        var ret2 := SetSizeTo(pos);
        if ret == Ok {
          ret := ret2;
        }
      }
      WriteForall(h, data, offset, goal, Done(Now(), ret));
    }

    /** ext2_file_set_size to a larger size. */
    method SetSizeTo(newSize: nat) returns (ret: Err)
      requires HandleCheck(Now())
      modifies this, vol, inode, inode.block
      ensures Done(Now(), ret) == SetSize(old(Now()), newSize, goal)
    {
      hide HandleCheck, ZeroRemainder, Digit, TooBig;
      BlockPositive(Now());
      if newSize > 0 {
        var last, _ := BlockAndOffset(newSize - 1, 4 * vol.geo.a);
        var tooBig, _, _ := Locate(vol.geo.a, last);
        if tooBig {
          return EFBIG;
        }
      }
      ResizedChecked(Now(), newSize);
      size := newSize;
      ret := ZeroTail();
    }

    /** ext2_read */
    method ReadFile(len: nat, offset: nat) returns (ret: Err, out: Block)
      requires HandleCheck(Now())
      modifies this, vol, inode, inode.block
      ensures HandleCheck(Now())
      ensures forall p: nat :: ByteAt(Now(), p) == ByteAt(old(Now()), p)
      ensures ret == Ok ==> |out| == Available(old(size), offset, len)
      ensures ret == Ok ==> forall i :: 0 <= i < |out| ==> out[i] == ByteAt(old(Now()), offset + i)
    {
      hide HandleCheck, ReadLoop, ByteAt;
      ghost var h := Now();
      MovedChecked(h, offset);
      pos := offset;
      ret, out := ReadData(len);
      ReadForall(h, len, offset, goal, Got(Now(), ret, out));
    }

    /** The loop of ext2_read. */
    method ReadData(len: nat) returns (ret: Err, out: Block)
      requires HandleCheck(Now())
      modifies this, vol, inode, inode.block
      ensures Got(Now(), ret, out) == ReadLoop(old(Now()), len, goal)
    {
      hide HandleCheck, Fetch, Part, Rest, ReadLoop;
      var left: nat := len;
      out := [];
      ghost var g := ReadLoop(Now(), len, goal);
      assert g.out == [] + g.out;
      while pos < size && left > 0
        invariant HandleCheck(Now()) && left <= len
        invariant var more := ReadLoop(Now(), left, goal); g == Got(more.h, more.ret, out + more.out)
        decreases left
      {
        ghost var l, c' := ReadStep(Now(), left, goal);
        BlockPositive(Now());
        var c := ChunkSize(pos, 4 * vol.geo.a, left);
        if c > size - pos {
          c := size - pos;
        }
        var _, start := BlockAndOffset(pos, 4 * vol.geo.a);
        FetchStays(Now(), goal);
        ret := FetchBlock();
        if ret != Ok {
          assert out + [] == out;
          return;
        }
        Glue(out, Part(buffer, start, c), ReadLoop(Now().(pos := pos + c), left - c, goal).out);
        out := out + Part(buffer, start, c);
        pos := pos + c;
        left := left - c;
      }
      ReadNothing(Now(), left, goal, 0);
      assert out + [] == out;
      return Ok, out;
    }

    method FetchBlock() returns (ret: Err)
      requires HandleCheck(Now())
      modifies this, vol, inode, inode.block
      ensures Done(Now(), ret) == Fetch(old(Now()), goal)
    {
      hide HandleCheck, Sync, Load;
      SyncChecked(Now(), goal);
      ret := SyncPosition();
      if ret == Ok {
        ret := LoadBuffer(false);
      }
    }
  }

  lemma Glue(a: Block, b: Block, c: Block)
    ensures a + (b + c) == a + b + c
  {
  }

  lemma FetchStays(h: Handle, goal: nat)
    requires HandleCheck(h)
    ensures Fetch(h, goal).h.pos == h.pos && Fetch(h, goal).h.size == h.size && Fetch(h, goal).h.vol.geo == h.vol.geo
  {
    hide Fetch, HandleCheck, Content;
    FetchSame(h, goal, 0);
  }

  lemma LoopEnded(h: Handle, data: Block, goal: nat, offset: nat)
    requires HandleCheck(h) && h.pos == offset
    ensures HandleCheck(WriteLoop(h, data, 0, goal).h)
    ensures offset <= WriteLoop(h, data, 0, goal).h.pos <= offset + |data|
    ensures WriteLoop(h, data, 0, goal).ret == Ok ==> WriteLoop(h, data, 0, goal).h.pos == offset + |data|
  {
    hide HandleCheck, WriteLoop, ByteWritten;
    WriteLoopBytes(h, data, 0, goal, offset, 0);
  }

  lemma ResizedChecked(h: Handle, size: nat)
    requires HandleCheck(h)
    ensures HandleCheck(h.(size := size))
  {
  }

  lemma WriteForall(h: Handle, data: Block, offset: nat, goal: nat, r: Done)
    requires HandleCheck(h) && r == Write(h, data, offset, goal)
    ensures HandleCheck(r.h)
    ensures r.ret == Ok ==> r.h.size == if data == [] then h.size else Max(h.size, offset + |data|)
    ensures r.ret == Ok ==> forall p: nat ::
      ByteAt(r.h, p) == if offset <= p < offset + |data| then data[p - offset] else ByteAt(h, p)
  {
    hide HandleCheck, Write, ByteAt;
    WriteReaches(h, data, offset, goal, 0, r);
    if r.ret == Ok {
      WriteBytes(h, data, offset, goal, 0, r);
      forall p: nat
        ensures ByteAt(r.h, p) == if offset <= p < offset + |data| then data[p - offset] else ByteAt(h, p)
      {
        WriteBytes(h, data, offset, goal, p, r);
      }
    }
  }

  lemma ReadForall(h: Handle, len: nat, offset: nat, goal: nat, g: Got)
    requires HandleCheck(h) && HandleCheck(h.(pos := offset)) && g == ReadLoop(h.(pos := offset), len, goal)
    ensures HandleCheck(g.h) && forall p: nat :: ByteAt(g.h, p) == ByteAt(h, p)
    ensures g.ret == Ok ==>
      |g.out| == Available(h.size, offset, len) && forall i :: 0 <= i < |g.out| ==> g.out[i] == ByteAt(h, offset + i)
  {
    hide HandleCheck, ReadLoop, ByteAt, SameFile;
    var h0 := h.(pos := offset);
    ReadKeeps(h0, len, goal, 0);
    SizeOf(h0, g.h, 0);
    forall p: nat
      ensures ByteAt(g.h, p) == ByteAt(h, p)
    {
      ReadKeeps(h0, len, goal, p);
      SizeOf(h0, g.h, p);
      MovedBytes(h, offset, p);
    }
    if g.ret == Ok {
      ReadCount(h0, len, goal);
      forall i | 0 <= i < |g.out|
        ensures g.out[i] == ByteAt(h, offset + i)
      {
        ReadBytes(h0, len, goal, i);
        MovedBytes(h, offset, offset + i);
      }
    }
  }

  /** A lookup changes nothing, whether or not the block number is too big. */
  lemma LookupOnly(h: Handle, k: nat, goal: nat)
    requires HandleCheck(h)
    ensures var m := Bmap(h.vol, h.iblocks, h.slots, false, false, k, 0, goal);
      m.vol == h.vol && m.iblocks == h.iblocks && m.slots == h.slots
  {
    hide InodeCheck, Map, SlotBmap;
    if !TooBig(h.vol.geo.a, k) {
      BmapReads(h.vol, h.iblocks, h.slots, false, k, goal);
    }
  }

  lemma SyncChecked(h: Handle, goal: nat)
    requires HandleCheck(h)
    ensures HandleCheck(Sync(h, goal).h) && Sync(h, goal).h.vol.geo == h.vol.geo && Sync(h, goal).h.pos == h.pos
  {
    hide Sync, Content;
    SyncSame(h, goal, 0);
  }

  lemma BufferLength(h: Handle)
    requires HandleCheck(h)
    ensures |h.buffer| == BlockSize(h) > 0
  {
  }

  /** Copying into the buffer of a loaded block keeps the handle well formed. */
  lemma CopiedChecked(h: Handle, start: nat, data: Block)
    requires HandleCheck(h) && h.valid && start + |data| <= |h.buffer|
    ensures HandleCheck(Copied(h, start, data))
  {
    hide InodeCheck, Map, Put, TooBig;
  }

  lemma InodeLength(h: Handle)
    requires HandleCheck(h)
    ensures |h.slots| == NSLOTS && Fsck(h.vol)
  {
    hide Fsck, Map, TooBig;
  }
}
