/** Boundary tags of the kernel heap in raw memory. */
module HeapTags {
  import opened Bytes
  import opened Memory

  const HEADER: nat := 16
  const FOOTER: nat := 8
  const TAGS: nat := 24
  const MEM_MAGIC: nat := 0xefbeadde
  const MEM_CIGAM: nat := 0xdeadbeef

  // ----- Headers and footers -----

  /** A header with its magic number: size and state. */
  predicate HeaderIs(m: Mem, p: nat, size: nat, live: bool)
  {
    && p + HEADER <= |m|
    && WordAt(m, p) == MEM_MAGIC && WordAt(m, p + 4) == size && (m[p + 8] != 0 <==> live)
  }

  function WriteHeader(m: Mem, p: nat, size: nat, live: bool): (r: Mem)
    requires p + HEADER <= |m|
    ensures |r| == |m|
  {
    Put(Put(Put(m, p, WordBytes(MEM_MAGIC)), p + 4, WordBytes(size)), p + 8, [if live then 1 else 0])
  }

  function WriteFooter(m: Mem, f: nat, owner: nat): (r: Mem)
    requires f + FOOTER <= |m|
    ensures |r| == |m|
  {
    Put(Put(m, f, WordBytes(MEM_CIGAM)), f + 4, WordBytes(owner))
  }

  lemma HeaderSame(m: Mem, m': Mem, p: nat, size: nat, live: bool)
    requires HeaderIs(m, p, size, live) && Same(m, m', p, p + HEADER)
    ensures HeaderIs(m', p, size, live)
  {
    hide WordAt;
    SameLess(m, m', p, p + HEADER, p, p + 4);
    SameLess(m, m', p, p + HEADER, p + 4, p + 8);
    SameWordAt(m, m', p);
    SameWordAt(m, m', p + 4);
  }

  lemma HeaderWritten(m: Mem, p: nat, size: nat, live: bool)
    requires p + HEADER <= |m| && size < WORD_LIMIT
    ensures HeaderIs(WriteHeader(m, p, size, live), p, size, live)
    ensures Only(m, WriteHeader(m, p, size, live), p, p + HEADER)
  {
    hide WordAt, WordBytes;
    var m1 := Put(m, p, WordBytes(MEM_MAGIC));
    var m2 := Put(m1, p + 4, WordBytes(size));
    var m3 := WriteHeader(m, p, size, live);
    PutWord(m, p, MEM_MAGIC);
    PutWord(m1, p + 4, size);
    OnlySame(m1, m2, p + 4, p + 8, p, p + 4);
    SameWordAt(m1, m2, p);
    assert Only(m2, m3, p + 8, p + 9);
    OnlySame(m2, m3, p + 8, p + 9, p, p + 8);
    SameWordAt(m2, m3, p);
    SameWordAt(m2, m3, p + 4);
  }

  /** A footer that names owner. */
  predicate FooterIs(m: Mem, f: nat, owner: nat)
  {
    f + FOOTER <= |m| && WordAt(m, f) == MEM_CIGAM && WordAt(m, f + 4) == owner
  }

  lemma FooterSame(m: Mem, m': Mem, f: nat, owner: nat)
    requires FooterIs(m, f, owner) && Same(m, m', f, f + FOOTER)
    ensures FooterIs(m', f, owner)
  {
    hide WordAt;
    SameLess(m, m', f, f + FOOTER, f, f + 4);
    SameLess(m, m', f, f + FOOTER, f + 4, f + 8);
    SameWordAt(m, m', f);
    SameWordAt(m, m', f + 4);
  }

  lemma FooterWritten(m: Mem, f: nat, owner: nat)
    requires f + FOOTER <= |m| && owner < WORD_LIMIT
    ensures FooterIs(WriteFooter(m, f, owner), f, owner)
    ensures Only(m, WriteFooter(m, f, owner), f, f + FOOTER)
  {
    hide WordAt, WordBytes;
    var m1 := Put(m, f, WordBytes(MEM_CIGAM));
    PutWord(m, f, MEM_CIGAM);
    PutWord(m1, f + 4, owner);
    OnlySame(m1, WriteFooter(m, f, owner), f + 4, f + 8, f, f + 4);
    SameWordAt(m1, WriteFooter(m, f, owner), f);
  }

  // ----- Blocks -----

  datatype Blk = Blk(at: nat, size: nat, live: bool)

  function End(b: Blk): nat
  {
    b.at + TAGS + b.size
  }

  /** The footer names its own header, or a cleared header inside the block. */
  predicate FooterOk(m: Mem, b: Blk)
  {
    && End(b) <= |m| && WordAt(m, b.at + HEADER + b.size) == MEM_CIGAM
    && var q := WordAt(m, b.at + HEADER + b.size + 4);
       q == b.at || (b.at + HEADER <= q && q + HEADER <= b.at + HEADER + b.size && WordAt(m, q) != MEM_MAGIC)
  }

  predicate Good(m: Mem, b: Blk)
  {
    End(b) <= |m| && HeaderIs(m, b.at, b.size, b.live) && FooterOk(m, b)
  }

  /** A block whose bytes have not changed. */
  lemma GoodSame(m: Mem, m': Mem, b: Blk)
    requires Good(m, b) && Same(m, m', b.at, End(b))
    ensures Good(m', b)
  {
    hide WordAt, HeaderIs;
    var f := b.at + HEADER + b.size;
    SameLess(m, m', b.at, End(b), b.at, b.at + HEADER);
    HeaderSame(m, m', b.at, b.size, b.live);
    SameLess(m, m', b.at, End(b), f, f + 4);
    SameLess(m, m', b.at, End(b), f + 4, f + 8);
    SameWordAt(m, m', f);
    SameWordAt(m, m', f + 4);
    var q := WordAt(m, f + 4);
    if q != b.at {
      SameLess(m, m', b.at, End(b), q, q + 4);
      SameWordAt(m, m', q);
    }
  }

  lemma OwnFooter(m: Mem, b: Blk)
    requires End(b) <= |m| && FooterIs(m, b.at + HEADER + b.size, b.at)
    ensures FooterOk(m, b)
  {
    hide WordAt;
  }

  // ----- Splitting and merging in memory -----

  /** The writes of heap_alloc when it cuts a block of the given size off the front of a free one. */
  function CutFront(m: Mem, p: nat, total: nat, size: nat): (r: Mem)
    requires p + TAGS + total <= |m| && size + TAGS < total
    ensures |r| == |m|
  {
    var n := p + TAGS + size;
    var m1 := Put(Put(m, p + 4, WordBytes(size)), p + 8, [1]);
    var m2 := WriteFooter(m1, p + HEADER + size, p);
    var m3 := WriteHeader(m2, n, total - size - TAGS, false);
    WriteFooter(m3, n + HEADER + (total - size - TAGS), n)
  }

  lemma SizeLiveWritten(m: Mem, p: nat, before: nat, was: bool, size: nat)
    requires HeaderIs(m, p, before, was) && size < WORD_LIMIT
    ensures var m' := Put(Put(m, p + 4, WordBytes(size)), p + 8, [1]);
      HeaderIs(m', p, size, true) && Only(m, m', p, p + HEADER)
  {
    hide WordAt, WordBytes;
    var m1 := Put(m, p + 4, WordBytes(size));
    var m2 := Put(m1, p + 8, [1]);
    PutWord(m, p + 4, size);
    OnlySame(m, m1, p + 4, p + 8, p, p + 4);
    SameWordAt(m, m1, p);
    assert Only(m1, m2, p + 8, p + 9);
    OnlySame(m1, m2, p + 8, p + 9, p, p + 8);
    SameWordAt(m1, m2, p);
    SameWordAt(m1, m2, p + 4);
  }

  /** A header and its footer, written one after the other. */
  lemma BlockWritten(m: Mem, b: Blk)
    requires End(b) <= |m| && b.at < WORD_LIMIT && b.size < WORD_LIMIT
    ensures var m1 := WriteHeader(m, b.at, b.size, b.live); var m2 := WriteFooter(m1, b.at + HEADER + b.size, b.at);
      Good(m2, b) && Only(m, m2, b.at, End(b))
  {
    hide WordAt, WordBytes, HeaderIs, Put, WriteHeader, WriteFooter, FooterOk, FooterIs, Only, Same;
    var f := b.at + HEADER + b.size;
    var m1 := WriteHeader(m, b.at, b.size, b.live);
    var m2 := WriteFooter(m1, f, b.at);
    HeaderWritten(m, b.at, b.size, b.live);
    FooterWritten(m1, f, b.at);
    OnlySame(m1, m2, f, f + FOOTER, b.at, b.at + HEADER);
    HeaderSame(m1, m2, b.at, b.size, b.live);
    OwnFooter(m2, b);
    OnlyWider(m, m1, b.at, b.at + HEADER, b.at, End(b));
    OnlyWider(m1, m2, f, f + FOOTER, b.at, End(b));
    OnlyThen(m, m1, m2, b.at, End(b));
  }

  /** Two blocks stand where one stood, and nothing else changed. */
  lemma FrontCut(m: Mem, b: Blk, size: nat)
    requires Good(m, b) && size + TAGS < b.size && End(b) <= WORD_LIMIT
    ensures Good(CutFront(m, b.at, b.size, size), Blk(b.at, size, true))
    ensures Good(CutFront(m, b.at, b.size, size), Blk(b.at + TAGS + size, b.size - size - TAGS, false))
    ensures Only(m, CutFront(m, b.at, b.size, size), b.at, End(b))
  {
    hide WordAt, WordBytes, HeaderIs, Put, WriteHeader, WriteFooter, FooterOk, FooterIs, Only, Same;
    var x, y := Blk(b.at, size, true), Blk(b.at + TAGS + size, b.size - size - TAGS, false);
    var m1 := Put(Put(m, b.at + 4, WordBytes(size)), b.at + 8, [1]);
    var f := b.at + HEADER + size;
    var m2 := WriteFooter(m1, f, b.at);
    var m4 := CutFront(m, b.at, b.size, size);
    SizeLiveWritten(m, b.at, b.size, b.live, size);
    FooterWritten(m1, f, b.at);
    OnlySame(m1, m2, f, f + FOOTER, b.at, b.at + HEADER);
    HeaderSame(m1, m2, b.at, size, true);
    OwnFooter(m2, x);
    BlockWritten(m2, y);
    OnlySame(m2, m4, y.at, End(y), x.at, End(x));
    GoodSame(m2, m4, x);
    OnlyWider(m, m1, b.at, b.at + HEADER, b.at, End(b));
    OnlyWider(m1, m2, f, f + FOOTER, b.at, End(b));
    OnlyWider(m2, m4, y.at, End(y), b.at, End(b));
    OnlyThen(m, m1, m2, b.at, End(b));
    OnlyThen(m, m2, m4, b.at, End(b));
  }

  /** The writes of heap_alloc when it opens a page-aligned block at the back of a free one. */
  function CutPage(m: Mem, p: nat, total: nat, addr: nat): (r: Mem)
    requires p + TAGS + total <= |m| && p + 2 * HEADER + FOOTER < addr < p + HEADER + total
    ensures |r| == |m|
  {
    var h := addr - HEADER;
    var m1 := Put(m, p + HEADER + total + 4, WordBytes(h));
    var m2 := WriteHeader(m1, h, p + HEADER + total - addr, true);
    var m3 := WriteFooter(m2, h - FOOTER, p);
    Put(m3, p + 4, WordBytes(h - FOOTER - p - HEADER))
  }

  lemma SizeWritten(m: Mem, p: nat, before: nat, live: bool, size: nat)
    requires HeaderIs(m, p, before, live) && size < WORD_LIMIT
    ensures HeaderIs(Put(m, p + 4, WordBytes(size)), p, size, live)
    ensures Only(m, Put(m, p + 4, WordBytes(size)), p, p + HEADER)
  {
    hide WordAt, WordBytes;
    var m' := Put(m, p + 4, WordBytes(size));
    PutWord(m, p + 4, size);
    OnlySame(m, m', p + 4, p + 8, p, p + 4);
    SameWordAt(m, m', p);
  }

  lemma OwnerWritten(m: Mem, f: nat, owner: nat)
    requires f + FOOTER <= |m| && WordAt(m, f) == MEM_CIGAM && owner < WORD_LIMIT
    ensures FooterIs(Put(m, f + 4, WordBytes(owner)), f, owner)
    ensures Only(m, Put(m, f + 4, WordBytes(owner)), f, f + FOOTER)
  {
    hide WordAt, WordBytes;
    var m' := Put(m, f + 4, WordBytes(owner));
    PutWord(m, f + 4, owner);
    OnlySame(m, m', f + 4, f + 8, f, f + 4);
    SameWordAt(m, m', f);
  }

  lemma Cigam(m: Mem, b: Blk)
    requires Good(m, b)
    ensures WordAt(m, b.at + HEADER + b.size) == MEM_CIGAM && HeaderIs(m, b.at, b.size, b.live)
  {
    hide WordAt, HeaderIs;
  }

  lemma PageCut(m: Mem, b: Blk, addr: nat)
    requires Good(m, b) && !b.live && End(b) <= WORD_LIMIT
    requires b.at + 2 * HEADER + FOOTER < addr < b.at + HEADER + b.size
    ensures Good(CutPage(m, b.at, b.size, addr), Blk(b.at, addr - b.at - 2 * HEADER - FOOTER, false))
    ensures Good(CutPage(m, b.at, b.size, addr), Blk(addr - HEADER, b.at + HEADER + b.size - addr, true))
    ensures Only(m, CutPage(m, b.at, b.size, addr), b.at, End(b))
  {
    hide WordAt, WordBytes, HeaderIs, Put, WriteHeader, WriteFooter, FooterOk, FooterIs, Only, Same;
    var x, y := Blk(b.at, addr - b.at - 2 * HEADER - FOOTER, false),
                Blk(addr - HEADER, b.at + HEADER + b.size - addr, true);
    var f := b.at + HEADER + b.size;
    var m1 := Put(m, f + 4, WordBytes(y.at));
    var m2 := WriteHeader(m1, y.at, y.size, true);
    var m3 := WriteFooter(m2, y.at - FOOTER, b.at);
    var m4 := CutPage(m, b.at, b.size, addr);
    Cigam(m, b);
    OwnerWritten(m, f, y.at);
    HeaderWritten(m1, y.at, y.size, true);
    FooterWritten(m2, y.at - FOOTER, b.at);
    // the new block
    OnlySame(m1, m2, y.at, y.at + HEADER, f, f + FOOTER);
    FooterSame(m1, m2, f, y.at);
    OwnFooter(m2, y);
    OnlySame(m2, m3, y.at - FOOTER, y.at, y.at, End(y));
    GoodSame(m2, m3, y);
    // the old header
    OnlySame(m, m1, f, f + FOOTER, b.at, b.at + HEADER);
    HeaderSame(m, m1, b.at, b.size, false);
    OnlySame(m1, m2, y.at, y.at + HEADER, b.at, b.at + HEADER);
    HeaderSame(m1, m2, b.at, b.size, false);
    OnlySame(m2, m3, y.at - FOOTER, y.at, b.at, b.at + HEADER);
    HeaderSame(m2, m3, b.at, b.size, false);
    SizeWritten(m3, b.at, b.size, false, x.size);
    // the old block
    OnlySame(m3, m4, b.at, b.at + HEADER, y.at - FOOTER, y.at);
    FooterSame(m3, m4, y.at - FOOTER, b.at);
    OwnFooter(m4, x);
    OnlySame(m3, m4, b.at, b.at + HEADER, y.at, End(y));
    GoodSame(m3, m4, y);
    PageCutOnly(m, m1, m2, m3, m4, b.at, End(b), y.at, f);
  }

  lemma PageCutOnly(m: Mem, m1: Mem, m2: Mem, m3: Mem, m4: Mem, lo: nat, hi: nat, h: nat, f: nat)
    requires lo + HEADER + FOOTER <= h && h + HEADER <= f && f + FOOTER == hi
    requires Only(m, m1, f, f + FOOTER) && Only(m1, m2, h, h + HEADER) && Only(m2, m3, h - FOOTER, h)
    requires Only(m3, m4, lo, lo + HEADER)
    ensures Only(m, m4, lo, hi)
  {
  }

  /** The state byte of a header. */
  lemma StateWritten(m: Mem, b: Blk, x: byte)
    requires Good(m, b)
    ensures Good(Put(m, b.at + 8, [x]), b.(live := x != 0))
    ensures Only(m, Put(m, b.at + 8, [x]), b.at, b.at + HEADER)
  {
    hide WordAt;
    var m' := Put(m, b.at + 8, [x]);
    var f := b.at + HEADER + b.size;
    assert Only(m, m', b.at + 8, b.at + 9);
    hide Put;
    OnlySame(m, m', b.at + 8, b.at + 9, b.at, b.at + 8);
    SameWordAt(m, m', b.at);
    SameWordAt(m, m', b.at + 4);
    OnlySame(m, m', b.at + 8, b.at + 9, b.at + HEADER, End(b));
    SameWordAt(m, m', f);
    SameWordAt(m, m', f + 4);
    var q := WordAt(m, f + 4);
    if q != b.at {
      SameWordAt(m, m', q);
    }
  }

  /** Left merge: the size of the block on the left grows, the magic number of the right one is cleared. */
  function MergeLeft(m: Mem, b: Blk, c: Blk): (r: Mem)
    requires End(b) <= |m| && End(c) <= |m|
    ensures |r| == |m|
  {
    Put(Put(m, b.at + 4, WordBytes(b.size + TAGS + c.size)), c.at, WordBytes(0))
  }

  function Joined(b: Blk, c: Blk): Blk
  {
    Blk(b.at, b.size + TAGS + c.size, false)
  }

  /** The footer of the merged block may now name a cleared header inside it. */
  lemma LeftMerged(m: Mem, b: Blk, c: Blk)
    requires Good(m, b) && Good(m, c) && !b.live && c.at == End(b) && End(c) <= WORD_LIMIT
    ensures Good(MergeLeft(m, b, c), Joined(b, c)) && Only(m, MergeLeft(m, b, c), b.at, End(c))
  {
    hide WordAt, WordBytes, HeaderIs, Put, FooterIs, Only, Same;
    var m1 := Put(m, b.at + 4, WordBytes(b.size + TAGS + c.size));
    var m2 := MergeLeft(m, b, c);
    SizeWritten(m, b.at, b.size, false, b.size + TAGS + c.size);
    PutWord(m1, c.at, 0);
    OnlySame(m1, m2, c.at, c.at + 4, b.at, b.at + HEADER);
    HeaderSame(m1, m2, b.at, b.size + TAGS + c.size, false);
    OnlySame(m, m1, b.at, b.at + HEADER, c.at + 4, End(c));
    OnlySame(m1, m2, c.at, c.at + 4, c.at + 4, End(c));
    SameTwice(m, m1, m2, c.at + 4, End(c));
    MergedFooter(m, m2, b, c);
    OnlyWider(m, m1, b.at, b.at + HEADER, b.at, End(c));
    OnlyWider(m1, m2, c.at, c.at + 4, b.at, End(c));
    OnlyThen(m, m1, m2, b.at, End(c));
  }

  lemma SameTwice(m: Mem, m1: Mem, m2: Mem, lo: nat, hi: nat)
    requires Same(m, m1, lo, hi) && Same(m1, m2, lo, hi)
    ensures Same(m, m2, lo, hi)
  {
  }

  lemma MergedFooter(m: Mem, m': Mem, b: Blk, c: Blk)
    requires Good(m, c) && c.at == End(b) && Same(m, m', c.at + 4, End(c)) && WordAt(m', c.at) == 0
    ensures FooterOk(m', Joined(b, c))
  {
    hide WordAt, HeaderIs;
    var f := c.at + HEADER + c.size;
    SameLess(m, m', c.at + 4, End(c), f, f + 4);
    SameLess(m, m', c.at + 4, End(c), f + 4, f + 8);
    SameWordAt(m, m', f);
    SameWordAt(m, m', f + 4);
    var q := WordAt(m, f + 4);
    if q != c.at {
      SameLess(m, m', c.at + 4, End(c), q, q + 4);
      SameWordAt(m, m', q);
    }
  }

  /** Right merge: the footer of the block on the right is pointed to the left header, whose size grows. */
  function MergeRight(m: Mem, b: Blk, c: Blk): (r: Mem)
    requires End(b) <= |m| && End(c) <= |m|
    ensures |r| == |m|
  {
    Put(Put(m, c.at + HEADER + c.size + 4, WordBytes(b.at)), b.at + 4, WordBytes(b.size + TAGS + c.size))
  }

  lemma RightMerged(m: Mem, b: Blk, c: Blk)
    requires Good(m, b) && Good(m, c) && !b.live && c.at == End(b) && End(c) <= WORD_LIMIT
    ensures Good(MergeRight(m, b, c), Joined(b, c)) && Only(m, MergeRight(m, b, c), b.at, End(c))
  {
    hide WordAt, WordBytes, HeaderIs, Put, FooterIs, Only, Same, FooterOk;
    var f := c.at + HEADER + c.size;
    var m1 := Put(m, f + 4, WordBytes(b.at));
    var m2 := MergeRight(m, b, c);
    Cigam(m, c);
    Cigam(m, b);
    OwnerWritten(m, f, b.at);
    OnlySame(m, m1, f, f + FOOTER, b.at, b.at + HEADER);
    HeaderSame(m, m1, b.at, b.size, false);
    SizeWritten(m1, b.at, b.size, false, b.size + TAGS + c.size);
    OnlySame(m1, m2, b.at, b.at + HEADER, f, f + FOOTER);
    FooterSame(m1, m2, f, b.at);
    OwnFooter(m2, Joined(b, c));
    OnlyWider(m, m1, f, f + FOOTER, b.at, End(c));
    OnlyWider(m1, m2, b.at, b.at + HEADER, b.at, End(c));
    OnlyThen(m, m1, m2, b.at, End(c));
  }
}
