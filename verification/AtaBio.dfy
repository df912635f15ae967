/** A disk addressed by bytes, on top of transfers of whole sectors. */
module AtaBio {
  import opened Bytes
  import opened Errors
  import opened Memory

  const SECT: nat := 512

  /** The transfers take their sector count as an unsigned char. */
  const MAX_COUNT: nat := 256

  // ----- The split of a byte range -----

  /** The first whole sector at or after offset. */
  function Mid(offset: nat): nat
  {
    (offset + SECT - 1) / SECT
  }

  /** The sector that holds the end of the range. */
  function Last(offset: nat, len: nat): nat
  {
    (offset + len) / SECT
  }

  /** The number of whole sectors asked for in one transfer. */
  function Count(offset: nat, len: nat): nat
  {
    if Mid(offset) <= Last(offset, len) then (Last(offset, len) - Mid(offset)) % MAX_COUNT else 0
  }

  /** Byte i of the range is moved: all of it, but for whole sectors beyond the count. */
  predicate Reached(offset: nat, len: nat, i: nat)
  {
    var at := offset + i;
    at < (Mid(offset) + Count(offset, len)) * SECT || Last(offset, len) * SECT <= at
  }

  /** The whole range is moved exactly when it needs fewer than 256 whole sectors. */
  lemma ReachedAll(offset: nat, len: nat)
    ensures (forall i :: 0 <= i < len ==> Reached(offset, len, i)) <==> Last(offset, len) < Mid(offset) + MAX_COUNT
    ensures (forall i :: 0 <= i < len ==> Reached(offset, len, i)) <==>
            (offset + len) / 512 < (offset + 511) / 512 + 256
  {
    var mid, last := Mid(offset), Last(offset, len);
    if last >= mid + MAX_COUNT {
      var i := (mid + Count(offset, len)) * SECT - offset;
      assert 0 <= i < len && !Reached(offset, len, i);
    }
  }

  /** The numbers the code computes. */
  lemma SplitRange(offset: nat, len: nat)
    ensures offset / SECT + (if offset % SECT != 0 then 1 else 0) == Mid(offset)
    ensures offset <= Mid(offset) * SECT < offset + SECT
    ensures Last(offset, len) * SECT <= offset + len < Last(offset, len) * SECT + SECT
    ensures Mid(offset) > Last(offset, len) ==> Mid(offset) == offset / SECT + 1 && Mid(offset + len) == Mid(offset)
    ensures Mid(offset + len) == Last(offset, len) + if (offset + len) % SECT != 0 then 1 else 0
  {
  }

  /** The moved bytes of the range are equal in the disk d from base on and in the buffer b. */
  predicate Agree(d: Mem, base: nat, b: seq<byte>, offset: nat)
  {
    base + offset + |b| <= |d| && forall i :: 0 <= i < |b| && Reached(offset, |b|, i) ==> b[i] == d[base + offset + i]
  }

  predicate OthersKept(b: seq<byte>, b': seq<byte>, offset: nat)
  {
    |b'| == |b| && forall i :: 0 <= i < |b| && !Reached(offset, |b|, i) ==> b'[i] == b[i]
  }

  /** The whole sectors of the range, the bytes before them and the bytes behind them. */
  function Middle(b: seq<byte>, d: Mem, base: nat, offset: nat): (r: seq<byte>)
    requires Mid(offset) <= Last(offset, |b|) && base + (Mid(offset) + Count(offset, |b|)) * SECT <= |d|
    ensures |r| == |b|
  {
    SplitRange(offset, |b|);
    Put(b, Mid(offset) * SECT - offset, Part(d, base + Mid(offset) * SECT, Count(offset, |b|) * SECT))
  }

  function Head(b: seq<byte>, d: Mem, base: nat, offset: nat): (r: seq<byte>)
    requires Mid(offset) <= Last(offset, |b|) && base + Mid(offset) * SECT <= |d|
    ensures |r| == |b|
  {
    SplitRange(offset, |b|);
    Put(b, 0, Part(d, base + offset, Mid(offset) * SECT - offset))
  }

  function Tail(b: seq<byte>, d: Mem, base: nat, offset: nat): (r: seq<byte>)
    requires Mid(offset) <= Last(offset, |b|) && base + offset + |b| <= |d|
    ensures |r| == |b|
  {
    SplitRange(offset, |b|);
    var at := Last(offset, |b|) * SECT;
    Put(b, at - offset, Part(d, base + at, offset + |b| - at))
  }

  lemma MiddleKeeps(b: seq<byte>, d: Mem, base: nat, offset: nat)
    requires Mid(offset) <= Last(offset, |b|) && base + (Mid(offset) + Count(offset, |b|)) * SECT <= |d|
    ensures OthersKept(b, Middle(b, d, base, offset), offset)
  {
    SplitRange(offset, |b|);
  }

  lemma HeadKeeps(b: seq<byte>, d: Mem, base: nat, offset: nat)
    requires Mid(offset) <= Last(offset, |b|) && base + Mid(offset) * SECT <= |d|
    ensures OthersKept(b, Head(b, d, base, offset), offset)
  {
    SplitRange(offset, |b|);
  }

  lemma TailKeeps(b: seq<byte>, d: Mem, base: nat, offset: nat)
    requires Mid(offset) <= Last(offset, |b|) && base + offset + |b| <= |d|
    ensures OthersKept(b, Tail(b, d, base, offset), offset)
  {
    SplitRange(offset, |b|);
  }

  lemma KeptThen(b: seq<byte>, b1: seq<byte>, b2: seq<byte>, offset: nat)
    requires OthersKept(b, b1, offset) && OthersKept(b1, b2, offset)
    ensures OthersKept(b, b2, offset)
  {
    hide Reached;
  }

  /** The three pieces make up the range. */
  lemma Assembled(b: seq<byte>, d: Mem, base: nat, offset: nat)
    requires Mid(offset) <= Last(offset, |b|) && base + offset + |b| <= |d|
    ensures Last(offset, |b|) * SECT <= offset + |b|
    ensures Agree(d, base, Tail(Head(Middle(b, d, base, offset), d, base, offset), d, base, offset), offset)
  {
    hide Mid, Last;
    SplitRange(offset, |b|);
  }

  /** One sector holds the whole range. */
  lemma OneSector(b: seq<byte>, d: Mem, base: nat, offset: nat)
    requires Mid(offset) > Last(offset, |b|) && base + Mid(offset) * SECT <= |d|
    ensures base + offset + |b| <= |d| && Agree(d, base, Put(b, 0, Part(d, base + offset, |b|)), offset)
    ensures OthersKept(b, Put(b, 0, Part(d, base + offset, |b|)), offset)
  {
    SplitRange(offset, |b|);
  }

  // ----- The same pieces, written -----

  /** Byte x of the disk belongs to the moved part of the range. */
  predicate Touched(base: nat, offset: nat, len: nat, x: nat)
  {
    base + offset <= x < base + offset + len && Reached(offset, len, x - base - offset)
  }

  /** Some moved bytes of the range have their new value, all other bytes are as before. */
  predicate PartlyWritten(d: Mem, d': Mem, b: seq<byte>, base: nat, offset: nat)
  {
    |d'| == |d| && forall x: nat :: x < |d| ==>
      d'[x] == d[x] || (Touched(base, offset, |b|, x) && d'[x] == b[x - base - offset])
  }

  function WriteMiddle(d: Mem, b: seq<byte>, base: nat, offset: nat): (r: Mem)
    requires Mid(offset) <= Last(offset, |b|) && base + (Mid(offset) + Count(offset, |b|)) * SECT <= |d|
    ensures |r| == |d|
  {
    SplitRange(offset, |b|);
    Put(d, base + Mid(offset) * SECT, Part(b, Mid(offset) * SECT - offset, Count(offset, |b|) * SECT))
  }

  function WriteHead(d: Mem, b: seq<byte>, base: nat, offset: nat): (r: Mem)
    requires Mid(offset) <= Last(offset, |b|) && base + Mid(offset) * SECT <= |d|
    ensures |r| == |d|
  {
    SplitRange(offset, |b|);
    Put(d, base + offset, Part(b, 0, Mid(offset) * SECT - offset))
  }

  function WriteTail(d: Mem, b: seq<byte>, base: nat, offset: nat): (r: Mem)
    requires Mid(offset) <= Last(offset, |b|) && base + offset + |b| <= |d|
    ensures |r| == |d|
  {
    SplitRange(offset, |b|);
    var at := Last(offset, |b|) * SECT;
    Put(d, base + at, Part(b, at - offset, offset + |b| - at))
  }

  lemma MiddleWrites(d: Mem, b: seq<byte>, base: nat, offset: nat)
    requires Mid(offset) <= Last(offset, |b|) && base + (Mid(offset) + Count(offset, |b|)) * SECT <= |d|
    ensures PartlyWritten(d, WriteMiddle(d, b, base, offset), b, base, offset)
  {
    SplitRange(offset, |b|);
  }

  lemma HeadWrites(d: Mem, d': Mem, b: seq<byte>, base: nat, offset: nat)
    requires Mid(offset) <= Last(offset, |b|) && base + Mid(offset) * SECT <= |d|
    requires PartlyWritten(d, d', b, base, offset)
    ensures PartlyWritten(d, WriteHead(d', b, base, offset), b, base, offset)
  {
    SplitRange(offset, |b|);
  }

  lemma TailWrites(d: Mem, d': Mem, b: seq<byte>, base: nat, offset: nat)
    requires Mid(offset) <= Last(offset, |b|) && base + offset + |b| <= |d|
    requires PartlyWritten(d, d', b, base, offset)
    ensures PartlyWritten(d, WriteTail(d', b, base, offset), b, base, offset)
  {
    SplitRange(offset, |b|);
  }

  lemma AllWritten(d: Mem, b: seq<byte>, base: nat, offset: nat)
    requires Mid(offset) <= Last(offset, |b|) && base + offset + |b| <= |d|
    ensures Last(offset, |b|) * SECT <= offset + |b|
    ensures Agree(WriteTail(WriteHead(WriteMiddle(d, b, base, offset), b, base, offset), b, base, offset),
                  base, b, offset)
  {
    hide Mid, Last;
    SplitRange(offset, |b|);
  }

  lemma OneSectorWritten(d: Mem, b: seq<byte>, base: nat, offset: nat)
    requires Mid(offset) > Last(offset, |b|) && base + Mid(offset) * SECT <= |d|
    ensures base + offset + |b| <= |d| && Agree(Put(d, base + offset, b), base, b, offset)
    ensures PartlyWritten(d, Put(d, base + offset, b), b, base, offset)
  {
    SplitRange(offset, |b|);
  }

  /** Rewriting a sector with some new bytes is writing these bytes. */
  lemma Rewritten(d: Mem, at: nat, from: nat, bs: seq<byte>)
    requires at + SECT <= |d| && from + |bs| <= SECT
    ensures Put(d, at, Put(Part(d, at, SECT), from, bs)) == Put(d, at + from, bs)
  {
  }

  /** With fewer than 256 whole sectors, a read returns exactly the slice of the disk. */
  lemma ReadsSlice(d: Mem, base: nat, b: seq<byte>, offset: nat)
    requires Agree(d, base, b, offset) && Last(offset, |b|) < Mid(offset) + MAX_COUNT
    ensures b == Part(d, base + offset, |b|)
  {
    hide Reached, Mid, Last;
    ReachedAll(offset, |b|);
  }

  /** With fewer than 256 whole sectors, a write changes exactly the slice of the disk. */
  lemma WritesSlice(d: Mem, d': Mem, b: seq<byte>, base: nat, offset: nat)
    requires PartlyWritten(d, d', b, base, offset) && Agree(d', base, b, offset)
    requires Last(offset, |b|) < Mid(offset) + MAX_COUNT
    ensures d' == Put(d, base + offset, b)
  {
    hide Reached, Mid, Last;
    ReachedAll(offset, |b|);
    forall x: nat | x < |d|
      ensures d'[x] == Put(d, base + offset, b)[x]
    {
      if base + offset <= x < base + offset + |b| {
        assert Reached(offset, |b|, x - base - offset);
      }
    }
  }

  /** A drive, seen through a partition that starts at sector part. */
  class Drive {
    const size: nat
    const part: nat
    var disk: Mem
    const temp: array<byte>

    constructor (size: nat, part: nat, disk: Mem)
      requires |disk| == size * SECT && part <= size
      ensures Valid() && this.disk == disk && this.size == size && this.part == part && fresh(temp)
    {
      this.size, this.part, this.disk := size, part, disk;
      temp := new byte[SECT];
    }

    predicate Valid()
      reads this
    {
      |disk| == size * SECT && part <= size && temp.Length == SECT
    }

    /** ata_read_sectors */
    method ReadSectors(count: nat, lba: nat, buf: array<byte>, at: nat) returns (ret: Err)
      requires Valid() && count < MAX_COUNT && at + count * SECT <= buf.Length
      modifies buf
      ensures ret == Ok <==> lba + count <= size
      ensures buf[..] == if ret == Ok then Put(old(buf[..]), at, Part(disk, lba * SECT, count * SECT)) else old(buf[..])
    {
      if lba + count > size {
        return EINVAL;
      }
      PutBytes(buf, at, Part(disk, lba * SECT, count * SECT));
      return Ok;
    }

    /** ata_write_sectors */
    method WriteSectors(count: nat, lba: nat, buf: array<byte>, at: nat) returns (ret: Err)
      requires Valid() && count < MAX_COUNT && at + count * SECT <= buf.Length
      modifies `disk
      ensures Valid()
      ensures ret == Ok <==> lba + count <= size
      ensures disk == if ret == Ok then Put(old(disk), lba * SECT, Part(buf[..], at, count * SECT)) else old(disk)
    {
      if lba + count > size {
        return EINVAL;
      }
      disk := Put(disk, lba * SECT, Part(buf[..], at, count * SECT));
      return Ok;
    }

    /** The range lies on the drive. */
    predicate InRange(offset: nat, len: nat)
    {
      part + Mid(offset + len) <= size
    }

    /** Part of one sector, read through the temporary buffer. */
    method ReadEdge(sector: nat, from: nat, buf: array<byte>, at: nat, n: nat) returns (ret: Err)
      requires Valid() && buf != temp && from + n <= SECT && at + n <= buf.Length
      modifies buf, temp
      ensures ret == Ok <==> sector < size
      ensures buf[..] == if ret == Ok then Put(old(buf[..]), at, Part(disk, sector * SECT + from, n)) else old(buf[..])
    {
      ret := ReadSectors(1, sector, temp, 0);
      if ret == Ok {
        assert Part(temp[..], from, n) == Part(disk, sector * SECT + from, n);
        PutBytes(buf, at, Part(temp[..], from, n));
      }
    }

    /** The whole sectors. */
    method ReadMiddle(buf: array<byte>, offset: nat, mid: nat, sectors: nat) returns (ret: Err)
      requires Valid() && mid == Mid(offset) && mid + sectors == Last(offset, buf.Length)
      modifies buf
      ensures ret == Ok <==> sectors == 0 || part + mid + sectors % MAX_COUNT <= size
      ensures ret != Ok ==> buf[..] == old(buf[..])
      ensures ret == Ok && part + mid + sectors % MAX_COUNT <= size ==>
        buf[..] == Middle(old(buf[..]), disk, part * SECT, offset)
      ensures sectors == 0 ==> buf[..] == old(buf[..])
    {
      SplitRange(offset, buf.Length);
      ret := Ok;
      if sectors > 0 {
        ret := ReadSectors(sectors % MAX_COUNT, mid + part, buf, mid * SECT - offset);
      }
    }

    /** The bytes before the whole sectors. */
    method ReadHead(buf: array<byte>, offset: nat, start: nat, diff: nat) returns (ret: Err)
      requires Valid() && buf != temp && Mid(offset) <= Last(offset, buf.Length)
      requires start == offset / SECT && diff == Mid(offset) * SECT - offset
      modifies buf, temp
      ensures ret == Ok <==> diff == 0 || part + Mid(offset) <= size
      ensures ret != Ok || diff == 0 ==> buf[..] == old(buf[..])
      ensures ret == Ok && part + Mid(offset) <= size ==> buf[..] == Head(old(buf[..]), disk, part * SECT, offset)
    {
      SplitRange(offset, buf.Length);
      ret := Ok;
      if diff != 0 {
        ret := ReadEdge(start + part, SECT - diff, buf, 0, diff);
      }
    }

    /** The bytes behind the whole sectors. */
    method ReadTail(buf: array<byte>, offset: nat, end: nat, diff: nat) returns (ret: Err)
      requires Valid() && buf != temp && Mid(offset) <= Last(offset, buf.Length)
      requires end == Last(offset, buf.Length) && diff == offset + buf.Length - end * SECT
      modifies buf, temp
      ensures ret == Ok <==> diff == 0 || part + end < size
      ensures ret != Ok || diff == 0 ==> buf[..] == old(buf[..])
      ensures ret == Ok && InRange(offset, buf.Length) ==> buf[..] == Tail(old(buf[..]), disk, part * SECT, offset)
      ensures ret == Ok && diff > 0 ==> InRange(offset, buf.Length)
    {
      SplitRange(offset, buf.Length);
      ret := Ok;
      if diff != 0 {
        ret := ReadEdge(end + part, 0, buf, end * SECT - offset, diff);
      }
    }

    /**
     ata_device_read: each byte of the buffer that is moved takes the byte of the
     disk at its place. A range on the drive is read; any other is refused when
     the sector count fits.
     */
    method Read(buf: array<byte>, offset: nat) returns (ret: Err)
      requires Valid() && buf != temp
      modifies buf, temp
      ensures InRange(offset, buf.Length) || buf.Length == 0 ==> ret == Ok
      ensures ret == Ok && Last(offset, buf.Length) < Mid(offset) + MAX_COUNT ==>
              InRange(offset, buf.Length) || buf.Length == 0
      ensures ret == Ok && InRange(offset, buf.Length) ==> Agree(disk, part * SECT, buf[..], offset)
      ensures OthersKept(old(buf[..]), buf[..], offset)
    {
      hide Put, Part, Middle, Head, Tail, Agree, OthersKept;
      ghost var b := buf[..];
      KeptSame(b, offset);
      if buf.Length == 0 {
        assert b == [];
        NothingAgrees(disk, part, size, offset);
        return Ok;
      }
      SplitRange(offset, buf.Length);
      var start := offset / SECT;
      var mid := start + if offset % SECT != 0 then 1 else 0;
      var end := (offset + buf.Length) / SECT;
      if mid > end {
        ret := ReadEdge(start + part, offset - start * SECT, buf, 0, buf.Length);
        if ret == Ok {
          OneSector(b, disk, part * SECT, offset);
        }
        return;
      }
      ret := ReadMiddle(buf, offset, mid, end - mid);
      if ret != Ok {
        return;
      }
      ghost var b1 := buf[..];
      assert OthersKept(b, b1, offset) by { if b1 != b { MiddleKeeps(b, disk, part * SECT, offset); } }
      ret := ReadHead(buf, offset, start, mid * SECT - offset);
      if ret != Ok {
        return;
      }
      ghost var b2 := buf[..];
      assert OthersKept(b, b2, offset) by {
        if b2 != b1 {
          HeadKeeps(b1, disk, part * SECT, offset);
          KeptThen(b, b1, b2, offset);
        }
      }
      ret := ReadTail(buf, offset, end, offset + buf.Length - end * SECT);
      if buf[..] != b2 {
        TailKeeps(b2, disk, part * SECT, offset);
        KeptThen(b, b2, buf[..], offset);
      }
      if ret == Ok && InRange(offset, buf.Length) {
        Assembled(b, disk, part * SECT, offset);
      }
    }

    /** Part of one sector, written by reading the sector and writing it back. */
    method WriteEdge(sector: nat, from: nat, buf: array<byte>, at: nat, n: nat) returns (ret: Err)
      requires Valid() && buf != temp && from + n <= SECT && at + n <= buf.Length
      modifies `disk, temp
      ensures Valid() && (ret == Ok <==> sector < size)
      ensures disk == if ret == Ok then Put(old(disk), sector * SECT + from, Part(buf[..], at, n)) else old(disk)
    {
      ret := ReadSectors(1, sector, temp, 0);
      if ret == Ok {
        assert temp[..] == Part(disk, sector * SECT, SECT);
        PutBytes(temp, from, Part(buf[..], at, n));
        Rewritten(disk, sector * SECT, from, Part(buf[..], at, n));
        ret := WriteSectors(1, sector, temp, 0);
        assert Part(temp[..], 0, SECT) == temp[..];
      }
    }

    method PutMiddle(buf: array<byte>, offset: nat, mid: nat, sectors: nat) returns (ret: Err)
      requires Valid() && mid == Mid(offset) && mid + sectors == Last(offset, buf.Length)
      modifies `disk
      ensures Valid() && (ret == Ok <==> sectors == 0 || part + mid + sectors % MAX_COUNT <= size)
      ensures ret != Ok || sectors == 0 ==> disk == old(disk)
      ensures ret == Ok && part + mid + sectors % MAX_COUNT <= size ==>
        disk == WriteMiddle(old(disk), buf[..], part * SECT, offset)
    {
      SplitRange(offset, buf.Length);
      ret := Ok;
      if sectors > 0 {
        ret := WriteSectors(sectors % MAX_COUNT, mid + part, buf, mid * SECT - offset);
      }
    }

    method PutHead(buf: array<byte>, offset: nat, start: nat, diff: nat) returns (ret: Err)
      requires Valid() && buf != temp && Mid(offset) <= Last(offset, buf.Length)
      requires start == offset / SECT && diff == Mid(offset) * SECT - offset
      modifies `disk, temp
      ensures Valid() && (ret == Ok <==> diff == 0 || part + Mid(offset) <= size)
      ensures ret != Ok || diff == 0 ==> disk == old(disk)
      ensures ret == Ok && part + Mid(offset) <= size ==> disk == WriteHead(old(disk), buf[..], part * SECT, offset)
    {
      SplitRange(offset, buf.Length);
      ret := Ok;
      if diff != 0 {
        ret := WriteEdge(start + part, SECT - diff, buf, 0, diff);
      }
    }

    method PutTail(buf: array<byte>, offset: nat, end: nat, diff: nat) returns (ret: Err)
      requires Valid() && buf != temp && Mid(offset) <= Last(offset, buf.Length)
      requires end == Last(offset, buf.Length) && diff == offset + buf.Length - end * SECT
      modifies `disk, temp
      ensures Valid() && (ret == Ok <==> diff == 0 || part + end < size)
      ensures ret != Ok || diff == 0 ==> disk == old(disk)
      ensures ret == Ok && InRange(offset, buf.Length) ==> disk == WriteTail(old(disk), buf[..], part * SECT, offset)
      ensures ret == Ok && diff > 0 ==> InRange(offset, buf.Length)
    {
      SplitRange(offset, buf.Length);
      ret := Ok;
      if diff != 0 {
        ret := WriteEdge(end + part, 0, buf, end * SECT - offset, diff);
      }
    }

    /**
     ata_device_write: the moved bytes of the range take the bytes of the buffer,
     and no other byte of the disk changes, whether or not the write succeeds.
     */
    method Write(buf: array<byte>, offset: nat) returns (ret: Err)
      requires Valid() && buf != temp
      modifies `disk, temp
      ensures Valid()
      ensures InRange(offset, buf.Length) || buf.Length == 0 ==> ret == Ok
      ensures ret == Ok && Last(offset, buf.Length) < Mid(offset) + MAX_COUNT ==>
              InRange(offset, buf.Length) || buf.Length == 0
      ensures ret == Ok && InRange(offset, buf.Length) ==> Agree(disk, part * SECT, buf[..], offset)
      ensures PartlyWritten(old(disk), disk, buf[..], part * SECT, offset)
    {
      hide Put, Part, WriteMiddle, WriteHead, WriteTail, Agree, PartlyWritten;
      ghost var d, b := disk, buf[..];
      WrittenSame(d, b, part * SECT, offset);
      if buf.Length == 0 {
        assert b == [];
        NothingAgrees(disk, part, size, offset);
        return Ok;
      }
      SplitRange(offset, buf.Length);
      var start := offset / SECT;
      var mid := start + if offset % SECT != 0 then 1 else 0;
      var end := (offset + buf.Length) / SECT;
      if mid > end {
        ret := WriteEdge(start + part, offset - start * SECT, buf, 0, buf.Length);
        if ret == Ok {
          PartWhole(b);
          OneSectorWritten(d, b, part * SECT, offset);
        }
        return;
      }
      ret := PutMiddle(buf, offset, mid, end - mid);
      if ret != Ok {
        return;
      }
      ghost var d1 := disk;
      assert PartlyWritten(d, d1, b, part * SECT, offset) by {
        if d1 != d { MiddleWrites(d, b, part * SECT, offset); }
      }
      ret := PutHead(buf, offset, start, mid * SECT - offset);
      if ret != Ok {
        return;
      }
      ghost var d2 := disk;
      assert PartlyWritten(d, d2, b, part * SECT, offset) by {
        if d2 != d1 { HeadWrites(d, d1, b, part * SECT, offset); }
      }
      ret := PutTail(buf, offset, end, offset + buf.Length - end * SECT);
      if disk != d2 {
        TailWrites(d, d2, b, part * SECT, offset);
      }
      if ret == Ok && InRange(offset, buf.Length) {
        AllWritten(d, b, part * SECT, offset);
      }
    }
  }

  lemma PartWhole(b: seq<byte>)
    ensures Part(b, 0, |b|) == b
  {
  }

  lemma WrittenSame(d: Mem, b: seq<byte>, base: nat, offset: nat)
    ensures PartlyWritten(d, d, b, base, offset)
  {
  }

  lemma NothingAgrees(d: Mem, part: nat, size: nat, offset: nat)
    requires |d| == size * SECT
    ensures part + Mid(offset) <= size ==> Agree(d, part * SECT, [], offset)
  {
  }

  lemma KeptSame(b: seq<byte>, offset: nat)
    ensures OthersKept(b, b, offset)
  {
  }
}
