/** The kernel heap: blocks that tile a region, an index of their headers, allocation and release. */
module Heap {
  import opened Bytes
  import opened Memory
  import opened HeapTags
  import opened SortedArray

  const PAGE_SIZE: nat := 4096

  // ----- Tiling -----

  /** The blocks cover [lo, hi) one after the other. */
  ghost predicate Tiled(bs: seq<Blk>, lo: nat, hi: nat)
  {
    && |bs| > 0 && bs[0].at == lo && End(bs[|bs| - 1]) == hi
    && forall k :: 0 <= k < |bs| - 1 ==> bs[k + 1].at == End(bs[k])
  }

  /** Blocks do not overlap. */
  lemma {:induction false} Apart(bs: seq<Blk>, lo: nat, hi: nat, k: nat, m: nat)
    requires Tiled(bs, lo, hi) && k < m < |bs|
    ensures End(bs[k]) <= bs[m].at
    decreases m - k
  {
    if k + 1 < m {
      Apart(bs, lo, hi, k, m - 1);
      assert bs[m - 1 + 1].at == End(bs[m - 1]);
    } else {
      assert bs[k + 1].at == End(bs[k]);
    }
  }

  lemma InRegion(bs: seq<Blk>, lo: nat, hi: nat, k: nat)
    requires Tiled(bs, lo, hi) && k < |bs|
    ensures lo <= bs[k].at && End(bs[k]) <= hi
  {
    if k > 0 {
      Apart(bs, lo, hi, 0, k);
    }
    if k < |bs| - 1 {
      Apart(bs, lo, hi, k, |bs| - 1);
    }
  }

  /** Payload and tags of all blocks from k on. */
  function Total(bs: seq<Blk>, k: nat): nat
    requires k <= |bs|
    decreases |bs| - k
  {
    if k == |bs| then 0 else TAGS + bs[k].size + Total(bs, k + 1)
  }

  /** The blocks use up the region exactly. */
  lemma {:induction false} Conserved(bs: seq<Blk>, lo: nat, hi: nat, k: nat)
    requires Tiled(bs, lo, hi) && k < |bs|
    ensures bs[k].at + Total(bs, k) == hi
    decreases |bs| - k
  {
    if k + 1 < |bs| {
      Conserved(bs, lo, hi, k + 1);
      assert bs[k + 1].at == End(bs[k]);
    } else {
      assert Total(bs, k + 1) == 0;
    }
  }

  /** Block k replaced by two. */
  function Split(bs: seq<Blk>, k: nat, x: Blk, y: Blk): (r: seq<Blk>)
    requires k < |bs|
    ensures |r| == |bs| + 1
    ensures forall i :: 0 <= i < |r| ==>
      r[i] == (if i < k then bs[i] else if i == k then x else if i == k + 1 then y else bs[i - 1])
  {
    seq(|bs| + 1, i requires 0 <= i < |bs| + 1 =>
      if i < k then bs[i] else if i == k then x else if i == k + 1 then y else bs[i - 1])
  }

  /** Blocks k and k + 1 replaced by one. */
  function Join(bs: seq<Blk>, k: nat, x: Blk): (r: seq<Blk>)
    requires k + 1 < |bs|
    ensures |r| == |bs| - 1
    ensures forall i :: 0 <= i < |r| ==> r[i] == (if i < k then bs[i] else if i == k then x else bs[i + 1])
  {
    seq(|bs| - 1, i requires 0 <= i < |bs| - 1 => if i < k then bs[i] else if i == k then x else bs[i + 1])
  }

  lemma SplitTiled(bs: seq<Blk>, lo: nat, hi: nat, k: nat, x: Blk, y: Blk)
    requires Tiled(bs, lo, hi) && k < |bs| && x.at == bs[k].at && y.at == End(x) && End(y) == End(bs[k])
    ensures Tiled(Split(bs, k, x, y), lo, hi)
  {
    var r := Split(bs, k, x, y);
    forall i | 0 <= i < |r| - 1
      ensures r[i + 1].at == End(r[i])
    {
      if i > k + 1 {
        assert bs[i - 1 + 1].at == End(bs[i - 1]);
      } else if i == k + 1 {
        assert bs[k + 1].at == End(bs[k]);
      }
    }
  }

  lemma JoinTiled(bs: seq<Blk>, lo: nat, hi: nat, k: nat, x: Blk)
    requires Tiled(bs, lo, hi) && k + 1 < |bs| && x.at == bs[k].at && End(x) == End(bs[k + 1])
    ensures Tiled(Join(bs, k, x), lo, hi)
  {
    var r := Join(bs, k, x);
    forall i | 0 <= i < |r| - 1
      ensures r[i + 1].at == End(r[i])
    {
      if i >= k {
        assert bs[i + 1 + 1].at == End(bs[i + 1]);
      }
    }
  }

  // ----- Tags of all blocks -----

  ghost predicate AllGood(m: Mem, bs: seq<Blk>)
  {
    forall k :: 0 <= k < |bs| ==> Good(m, bs[k])
  }

  /** Blocks other than k are untouched by writes inside block k. */
  lemma OtherGood(m: Mem, m': Mem, bs: seq<Blk>, lo: nat, hi: nat, k: nat, l: nat, i: nat)
    requires Tiled(bs, lo, hi) && AllGood(m, bs) && k <= l < |bs| && i < |bs| && !(k <= i <= l)
    requires Only(m, m', bs[k].at, End(bs[l]))
    ensures Good(m', bs[i]) && Same(m, m', bs[i].at, End(bs[i]))
  {
    hide Good, Only, Same, Tiled;
    if i < k {
      Apart(bs, lo, hi, i, k);
    } else {
      Apart(bs, lo, hi, l, i);
    }
    OnlySame(m, m', bs[k].at, End(bs[l]), bs[i].at, End(bs[i]));
    GoodSame(m, m', bs[i]);
  }

  lemma SplitGood(m: Mem, m': Mem, bs: seq<Blk>, lo: nat, hi: nat, k: nat, x: Blk, y: Blk)
    requires Tiled(bs, lo, hi) && AllGood(m, bs) && k < |bs| && Only(m, m', bs[k].at, End(bs[k]))
    requires Good(m', x) && Good(m', y)
    ensures AllGood(m', Split(bs, k, x, y))
  {
    hide Good, Only, Tiled;
    var r := Split(bs, k, x, y);
    forall i | 0 <= i < |r|
      ensures Good(m', r[i])
    {
      if i < k {
        OtherGood(m, m', bs, lo, hi, k, k, i);
      } else if i > k + 1 {
        OtherGood(m, m', bs, lo, hi, k, k, i - 1);
      }
    }
  }

  lemma JoinGood(m: Mem, m': Mem, bs: seq<Blk>, lo: nat, hi: nat, k: nat, x: Blk)
    requires Tiled(bs, lo, hi) && AllGood(m, bs) && k + 1 < |bs| && Only(m, m', bs[k].at, End(bs[k + 1])) && Good(m', x)
    ensures AllGood(m', Join(bs, k, x))
  {
    hide Good, Only, Tiled;
    var r := Join(bs, k, x);
    forall i | 0 <= i < |r|
      ensures Good(m', r[i])
    {
      if i < k {
        OtherGood(m, m', bs, lo, hi, k, k + 1, i);
      } else if i > k {
        OtherGood(m, m', bs, lo, hi, k, k + 1, i + 1);
      }
    }
  }

  lemma UpdateGood(m: Mem, m': Mem, bs: seq<Blk>, lo: nat, hi: nat, k: nat, x: Blk)
    requires Tiled(bs, lo, hi) && AllGood(m, bs) && k < |bs| && Only(m, m', bs[k].at, End(bs[k])) && Good(m', x)
    requires x.at == bs[k].at && x.size == bs[k].size
    ensures AllGood(m', bs[k := x]) && Tiled(bs[k := x], lo, hi)
  {
    hide Good, Only;
    forall i | 0 <= i < |bs| && i != k
      ensures Good(m', bs[i])
    {
      OtherGood(m, m', bs, lo, hi, k, k, i);
    }
  }

  // ----- The index -----

  /** Some block starts at address a. */
  ghost predicate Starts(bs: seq<Blk>, a: nat)
  {
    exists k :: 0 <= k < |bs| && bs[k].at == a
  }

  /** The index holds the header of each block exactly once, and nothing else. */
  ghost predicate Indexed(ix: seq<nat>, bs: seq<Blk>)
  {
    Distinct(ix) && forall a :: a in ix <==> Starts(bs, a)
  }

  lemma SplitStarts(bs: seq<Blk>, k: nat, x: Blk, y: Blk, a: nat)
    requires k < |bs| && x.at == bs[k].at
    ensures Starts(Split(bs, k, x, y), a) <==> Starts(bs, a) || a == y.at
  {
    var r := Split(bs, k, x, y);
    if i :| 0 <= i < |bs| && bs[i].at == a {
      assert r[if i <= k then i else i + 1].at == a;
    }
    if i :| 0 <= i < |r| && r[i].at == a {
      if i != k + 1 {
        assert bs[if i <= k then i else i - 1].at == a;
      }
    }
    assert r[k + 1].at == y.at;
  }

  lemma JoinStarts(bs: seq<Blk>, lo: nat, hi: nat, k: nat, x: Blk, a: nat)
    requires Tiled(bs, lo, hi) && k + 1 < |bs| && x.at == bs[k].at
    ensures Starts(Join(bs, k, x), a) <==> Starts(bs, a) && a != bs[k + 1].at
  {
    var r := Join(bs, k, x);
    if i :| 0 <= i < |bs| && bs[i].at == a {
      if a != bs[k + 1].at {
        assert r[if i <= k then i else i - 1].at == a;
      }
    }
    if i :| 0 <= i < |r| && r[i].at == a {
      assert bs[if i <= k then i else i + 1].at == a;
      if i <= k {
        Apart(bs, lo, hi, i, k + 1);
      } else {
        Apart(bs, lo, hi, k + 1, i + 1);
      }
    }
  }

  /** No block starts strictly inside another. */
  lemma NoStartInside(bs: seq<Blk>, lo: nat, hi: nat, k: nat, a: nat)
    requires Tiled(bs, lo, hi) && k < |bs| && bs[k].at < a < End(bs[k])
    ensures !Starts(bs, a)
  {
    if i :| 0 <= i < |bs| && bs[i].at == a {
      if i < k {
        Apart(bs, lo, hi, i, k);
      } else if k < i {
        Apart(bs, lo, hi, k, i);
      }
    }
  }

  lemma SplitIndexed(ix: seq<nat>, bs: seq<Blk>, lo: nat, hi: nat, k: nat, x: Blk, y: Blk, pos: nat)
    requires Indexed(ix, bs) && Tiled(bs, lo, hi) && k < |bs| && x.at == bs[k].at
    requires bs[k].at < y.at < End(bs[k]) && pos <= |ix|
    ensures Indexed(InsertAt(ix, pos, y.at), Split(bs, k, x, y))
  {
    hide Tiled, Starts, Split, InsertAt, Distinct;
    NoStartInside(bs, lo, hi, k, y.at);
    Inserted(ix, pos, y.at);
    forall a: nat
      ensures a in InsertAt(ix, pos, y.at) <==> Starts(Split(bs, k, x, y), a)
    {
      SplitStarts(bs, k, x, y, a);
    }
  }

  lemma JoinIndexed(ix: seq<nat>, bs: seq<Blk>, lo: nat, hi: nat, k: nat, x: Blk, i: nat)
    requires Indexed(ix, bs) && Tiled(bs, lo, hi) && k + 1 < |bs| && x.at == bs[k].at && i < |ix|
    requires ix[i] == bs[k + 1].at
    ensures Indexed(RemoveAt(ix, i), Join(bs, k, x))
  {
    hide Tiled, Starts, Join, RemoveAt, Distinct;
    Removed(ix, i);
    forall a: nat
      ensures a in RemoveAt(ix, i) <==> Starts(Join(bs, k, x), a)
    {
      JoinStarts(bs, lo, hi, k, x, a);
    }
  }

  lemma UpdateIndexed(ix: seq<nat>, bs: seq<Blk>, k: nat, x: Blk)
    requires Indexed(ix, bs) && k < |bs| && x.at == bs[k].at
    ensures Indexed(ix, bs[k := x])
  {
    hide Distinct;
    var r := bs[k := x];
    forall a: nat
      ensures Starts(r, a) <==> Starts(bs, a)
    {
      if i :| 0 <= i < |bs| && bs[i].at == a {
        assert r[i].at == a;
      }
      if i :| 0 <= i < |r| && r[i].at == a {
        assert bs[i].at == a;
      }
    }
  }

  // ----- The invariant, and what operations leave alone -----

  /** Tags, tiling and index agree. The region ends a page below the end of the address space. */
  ghost predicate Sound(m: Mem, lo: nat, hi: nat, bs: seq<Blk>, ix: seq<nat>)
  {
    hi <= |m| && hi + PAGE_SIZE <= WORD_LIMIT && FOOTER <= lo && Tiled(bs, lo, hi) && AllGood(m, bs) && Indexed(ix, bs)
  }

  /** Live blocks other than one at address a are the same before and after, byte for byte. */
  ghost predicate Keeps(m: Mem, bs: seq<Blk>, m': Mem, bs': seq<Blk>, a: nat)
  {
    && (forall k :: 0 <= k < |bs| && bs[k].live && bs[k].at != a ==> bs[k] in bs' && Same(m, m', bs[k].at, End(bs[k])))
    && (forall k :: 0 <= k < |bs'| && bs'[k].live && bs'[k].at != a ==> bs'[k] in bs)
  }

  lemma KeepsThen(m: Mem, bs: seq<Blk>, m1: Mem, bs1: seq<Blk>, m2: Mem, bs2: seq<Blk>, a: nat)
    requires Keeps(m, bs, m1, bs1, a) && Keeps(m1, bs1, m2, bs2, a)
    ensures Keeps(m, bs, m2, bs2, a)
  {
    hide Same;
    forall k | 0 <= k < |bs| && bs[k].live && bs[k].at != a
      ensures bs[k] in bs2 && Same(m, m2, bs[k].at, End(bs[k]))
    {
      var i :| 0 <= i < |bs1| && bs1[i] == bs[k];
      assert bs1[i] in bs2 && Same(m1, m2, bs1[i].at, End(bs1[i]));
      SameTwice(m, m1, m2, bs[k].at, End(bs[k]));
    }
    forall k | 0 <= k < |bs2| && bs2[k].live && bs2[k].at != a
      ensures bs2[k] in bs
    {
      var i :| 0 <= i < |bs1| && bs1[i] == bs2[k];
      assert bs1[i] in bs;
    }
  }

  lemma KeepsAll(m: Mem, bs: seq<Blk>, a: nat)
    ensures Keeps(m, bs, m, bs, a)
  {
  }

  /** Not live, or the block the operation is about. */
  predicate Aside(b: Blk, a: nat)
  {
    b.live ==> b.at == a
  }

  lemma SplitKeeps(m: Mem, m': Mem, bs: seq<Blk>, lo: nat, hi: nat, k: nat, x: Blk, y: Blk, a: nat)
    requires Tiled(bs, lo, hi) && AllGood(m, bs) && k < |bs| && Only(m, m', bs[k].at, End(bs[k]))
    requires Aside(bs[k], a) && Aside(x, a) && Aside(y, a)
    ensures Keeps(m, bs, m', Split(bs, k, x, y), a)
  {
    hide Tiled, AllGood, Only, Same, Good;
    var r := Split(bs, k, x, y);
    forall i | 0 <= i < |bs| && bs[i].live && bs[i].at != a
      ensures bs[i] in r && Same(m, m', bs[i].at, End(bs[i]))
    {
      OtherGood(m, m', bs, lo, hi, k, k, i);
      assert r[if i < k then i else i + 1] == bs[i];
    }
  }

  lemma JoinKeeps(m: Mem, m': Mem, bs: seq<Blk>, lo: nat, hi: nat, k: nat, x: Blk, a: nat)
    requires Tiled(bs, lo, hi) && AllGood(m, bs) && k + 1 < |bs| && Only(m, m', bs[k].at, End(bs[k + 1]))
    requires Aside(bs[k], a) && Aside(bs[k + 1], a) && Aside(x, a)
    ensures Keeps(m, bs, m', Join(bs, k, x), a)
  {
    hide Tiled, AllGood, Only, Same, Good;
    var r := Join(bs, k, x);
    forall i | 0 <= i < |bs| && bs[i].live && bs[i].at != a
      ensures bs[i] in r && Same(m, m', bs[i].at, End(bs[i]))
    {
      OtherGood(m, m', bs, lo, hi, k, k + 1, i);
      assert r[if i < k then i else i - 1] == bs[i];
    }
  }

  lemma UpdateKeeps(m: Mem, m': Mem, bs: seq<Blk>, lo: nat, hi: nat, k: nat, x: Blk, a: nat)
    requires Tiled(bs, lo, hi) && AllGood(m, bs) && k < |bs| && Only(m, m', bs[k].at, End(bs[k]))
    requires Aside(bs[k], a) && Aside(x, a)
    ensures Keeps(m, bs, m', bs[k := x], a)
  {
    hide Tiled, AllGood, Only, Same, Good;
    var r := bs[k := x];
    forall i | 0 <= i < |bs| && bs[i].live && bs[i].at != a
      ensures bs[i] in r && Same(m, m', bs[i].at, End(bs[i]))
    {
      OtherGood(m, m', bs, lo, hi, k, k, i);
      assert r[i] == bs[i];
    }
  }

  // ----- Steps -----

  /** A step that keeps the invariant, every live block but the one at a, and all memory outside the region. */
  ghost predicate Step(lo: nat, hi: nat, m: Mem, bs: seq<Blk>, m': Mem, bs': seq<Blk>, ix': seq<nat>, a: nat)
  {
    Sound(m', lo, hi, bs', ix') && Keeps(m, bs, m', bs', a) && Only(m, m', lo, hi)
  }

  lemma StepNone(lo: nat, hi: nat, m: Mem, bs: seq<Blk>, ix: seq<nat>, a: nat)
    requires Sound(m, lo, hi, bs, ix)
    ensures Step(lo, hi, m, bs, m, bs, ix, a)
  {
    hide Sound;
    KeepsAll(m, bs, a);
  }

  /** Writes to blocks k to l stay inside the region. */
  lemma OnlyInRegion(m: Mem, m': Mem, lo: nat, hi: nat, bs: seq<Blk>, k: nat, l: nat)
    requires Tiled(bs, lo, hi) && k <= l < |bs| && Only(m, m', bs[k].at, End(bs[l]))
    ensures Only(m, m', lo, hi)
  {
    hide Tiled, Only;
    InRegion(bs, lo, hi, k);
    InRegion(bs, lo, hi, l);
    OnlyWider(m, m', bs[k].at, End(bs[l]), lo, hi);
  }

  lemma SplitStep(m: Mem, m': Mem, lo: nat, hi: nat, bs: seq<Blk>, ix: seq<nat>, k: nat, x: Blk, y: Blk, pos: nat,
                  a: nat)
    requires Sound(m, lo, hi, bs, ix) && k < |bs| && pos <= |ix|
    requires x.at == bs[k].at && y.at == End(x) && End(y) == End(bs[k]) && |m'| == |m|
    requires Only(m, m', bs[k].at, End(bs[k])) && Good(m', x) && Good(m', y)
    requires Aside(bs[k], a) && Aside(x, a) && Aside(y, a)
    ensures Step(lo, hi, m, bs, m', Split(bs, k, x, y), InsertAt(ix, pos, y.at), a)
  {
    hide Tiled, AllGood, Only, Good, Indexed, Keeps, Split, InsertAt, Aside;
    SplitTiled(bs, lo, hi, k, x, y);
    SplitGood(m, m', bs, lo, hi, k, x, y);
    SplitIndexed(ix, bs, lo, hi, k, x, y, pos);
    SplitKeeps(m, m', bs, lo, hi, k, x, y, a);
    OnlyInRegion(m, m', lo, hi, bs, k, k);
  }

  lemma JoinStep(m: Mem, m': Mem, lo: nat, hi: nat, bs: seq<Blk>, ix: seq<nat>, k: nat, x: Blk, i: nat, a: nat)
    requires Sound(m, lo, hi, bs, ix) && k + 1 < |bs| && i < |ix| && ix[i] == bs[k + 1].at
    requires x.at == bs[k].at && End(x) == End(bs[k + 1]) && |m'| == |m|
    requires Only(m, m', bs[k].at, End(bs[k + 1])) && Good(m', x)
    requires Aside(bs[k], a) && Aside(bs[k + 1], a) && Aside(x, a)
    ensures Step(lo, hi, m, bs, m', Join(bs, k, x), RemoveAt(ix, i), a)
  {
    hide Tiled, AllGood, Only, Good, Indexed, Keeps, Join, RemoveAt, Aside;
    JoinTiled(bs, lo, hi, k, x);
    JoinGood(m, m', bs, lo, hi, k, x);
    JoinIndexed(ix, bs, lo, hi, k, x, i);
    JoinKeeps(m, m', bs, lo, hi, k, x, a);
    OnlyInRegion(m, m', lo, hi, bs, k, k + 1);
  }

  lemma UpdateStep(m: Mem, m': Mem, lo: nat, hi: nat, bs: seq<Blk>, ix: seq<nat>, k: nat, x: Blk, a: nat)
    requires Sound(m, lo, hi, bs, ix) && k < |bs| && x.at == bs[k].at && x.size == bs[k].size && |m'| == |m|
    requires Only(m, m', bs[k].at, End(bs[k])) && Good(m', x) && Aside(bs[k], a) && Aside(x, a)
    ensures Step(lo, hi, m, bs, m', bs[k := x], ix, a)
  {
    hide Tiled, AllGood, Only, Good, Indexed, Keeps, Aside;
    UpdateGood(m, m', bs, lo, hi, k, x);
    UpdateIndexed(ix, bs, k, x);
    UpdateKeeps(m, m', bs, lo, hi, k, x, a);
    OnlyInRegion(m, m', lo, hi, bs, k, k);
  }

  lemma StepThen(lo: nat, hi: nat, m: Mem, bs: seq<Blk>, m1: Mem, bs1: seq<Blk>, ix1: seq<nat>, m2: Mem, bs2: seq<Blk>,
                 ix2: seq<nat>, a: nat)
    requires Step(lo, hi, m, bs, m1, bs1, ix1, a) && Step(lo, hi, m1, bs1, m2, bs2, ix2, a)
    ensures Step(lo, hi, m, bs, m2, bs2, ix2, a)
  {
    hide Sound, Keeps, Only;
    KeepsThen(m, bs, m1, bs1, m2, bs2, a);
    OnlyThen(m, m1, m2, lo, hi);
  }

  /** The block whose header the index names. */
  lemma BlockAt(m: Mem, lo: nat, hi: nat, bs: seq<Blk>, ix: seq<nat>, i: nat) returns (k: nat)
    requires Sound(m, lo, hi, bs, ix) && i < |ix|
    ensures k < |bs| && bs[k].at == ix[i] && Good(m, bs[k]) && HeaderIs(m, bs[k].at, bs[k].size, bs[k].live)
    ensures lo <= bs[k].at && End(bs[k]) <= hi
  {
    hide HeaderIs, FooterOk;
    assert ix[i] in ix;
    assert Starts(bs, ix[i]);
    k :| 0 <= k < |bs| && bs[k].at == ix[i];
    InRegion(bs, lo, hi, k);
  }

  // ----- Which blocks can serve a request -----

  /** The next page boundary after the start of the payload. */
  function PageAfter(at: nat): (addr: nat)
    ensures addr % PAGE_SIZE == 0 && at + HEADER < addr <= at + HEADER + PAGE_SIZE
  {
    at + HEADER - (at + HEADER) % PAGE_SIZE + PAGE_SIZE
  }

  predicate Serves(b: Blk, size: nat, aligned: bool)
  {
    && !b.live
    && if aligned && (b.at + HEADER) % PAGE_SIZE != 0 then
         var addr := PageAfter(b.at);
         addr < b.at + HEADER + b.size && size <= b.at + HEADER + b.size - addr && addr - b.at > 2 * HEADER + FOOTER
       else size <= b.size
  }

  /**
   A block serves a plain request if it is free and large enough. It serves a
   page-aligned one if that holds behind the first page boundary of its payload,
   which is the start of the payload or leaves room for a header and more before it.
   */
  lemma ServesWhere(b: Blk, size: nat)
    ensures Serves(b, size, false) <==> !b.live && size <= b.size
    ensures Serves(b, size, true) <==> !b.live && exists p :: PageFits(b, size, p)
  {
    if Serves(b, size, true) {
      assert PageFits(b, size, OpenedAt(b, true) + 16);
    }
  }

  /** The first page boundary of the payload of b, and what lies behind it. */
  predicate PageFits(b: Blk, size: nat, p: nat)
  {
    && p % 4096 == 0 && b.at + 16 <= p < b.at + 16 + 4096 && p + size <= b.at + 16 + b.size
    && (p == b.at + 16 || (b.at + 40 < p < b.at + 16 + b.size))
  }

  /** Where a block that serves a request is opened. */
  function OpenedAt(b: Blk, aligned: bool): nat
  {
    if aligned && (b.at + HEADER) % PAGE_SIZE != 0 then PageAfter(b.at) - HEADER else b.at
  }

  /**
   What becomes of free block b when size bytes are taken from the block opened
   at address a: what lies before stays free, and so does what is left behind,
   if it can hold the tags of a block.
   */
  function Pieces(b: Blk, a: nat, size: nat): seq<Blk>
    requires b.at <= a && (a == b.at || b.at + TAGS <= a) && a + TAGS + size <= End(b)
  {
    var room := End(b) - a - TAGS;
    (if a == b.at then [] else [Blk(b.at, a - b.at - TAGS, false)]) +
    (if room > size + TAGS then [Blk(a, size, true), Blk(a + TAGS + size, room - size - TAGS, false)]
     else [Blk(a, room, true)])
  }

  /** The pieces tile the block; one is live, with the bytes asked for and less than a block's tags more. */
  lemma PiecesTile(b: Blk, a: nat, size: nat, ps: seq<Blk>)
    requires b.at <= a && (a == b.at || b.at + TAGS <= a) && a + TAGS + size <= End(b) && ps == Pieces(b, a, size)
    ensures Tiled(ps, b.at, End(b))
    ensures exists k :: 0 <= k < |ps| && ps[k].at == a && ps[k].live && size <= ps[k].size <= size + TAGS
    ensures forall k :: 0 <= k < |ps| && ps[k].live ==> ps[k].at == a
  {
    var k := if a == b.at then 0 else 1;
    assert ps[k].at == a;
  }

  /** Block k of bs has been replaced by ps. */
  ghost predicate Replaced(bs: seq<Blk>, bs': seq<Blk>, k: nat, ps: seq<Blk>)
  {
    && k < |bs| && |bs'| == |bs| - 1 + |ps|
    && (forall i :: 0 <= i < k ==> bs'[i] == bs[i])
    && (forall i :: 0 <= i < |ps| ==> bs'[k + i] == ps[i])
    && (forall i :: k + |ps| <= i < |bs'| ==> bs'[i] == bs[i - |ps| + 1])
  }

  /** The front of block k was taken, and the rest became a free block. */
  lemma TookFront(bs: seq<Blk>, k: nat, size: nat, x: Blk, y: Blk)
    requires k < |bs| && bs[k].size > size + TAGS && x == Blk(bs[k].at, size, true)
    requires y == Blk(bs[k].at + TAGS + size, bs[k].size - size - TAGS, false)
    ensures Pieces(bs[k], bs[k].at, size) == [x, y] && Replaced(bs, Split(bs, k, x, y), k, [x, y])
  {
  }

  /** All of block k was taken. */
  lemma TookWhole(bs: seq<Blk>, k: nat, size: nat, x: Blk)
    requires k < |bs| && size <= bs[k].size <= size + TAGS && x == bs[k].(live := true)
    ensures Pieces(bs[k], bs[k].at, size) == [x] && Replaced(bs, bs[k := x], k, [x])
  {
  }

  lemma IndexJoined(m: Mem, ix: seq<nat>, ix': seq<nat>, pos: nat, h: nat, key: nat)
    requires pos <= |ix| && ix' == InsertAt(ix, pos, h)
    requires (forall j :: 0 <= j < pos ==> Smaller(m, ix[j], key)) && (pos < |ix| ==> !Smaller(m, ix[pos], key))
    ensures JoinedIndex(m, ix, ix', h, key)
  {
    hide Smaller;
  }

  lemma ReplacedTwice(bs: seq<Blk>, bs1: seq<Blk>, bs2: seq<Blk>, k: nat, x: Blk, y: Blk, ps: seq<Blk>)
    requires Replaced(bs, bs1, k, [x, y]) && Replaced(bs1, bs2, k + 1, ps)
    ensures Replaced(bs, bs2, k, [x] + ps)
  {
    var qs := [x] + ps;
    assert bs2[k] == bs1[k] == [x, y][0];
    forall i | 0 <= i < |qs|
      ensures bs2[k + i] == qs[i]
    {
      assert i > 0 ==> bs2[k + 1 + (i - 1)] == ps[i - 1];
    }
  }

  /** A block that serves has room where it is opened. */
  lemma ServesRoom(b: Blk, size: nat, aligned: bool)
    requires Serves(b, size, aligned)
    ensures var a := OpenedAt(b, aligned);
      && b.at <= a && (a == b.at || b.at + TAGS <= a) && a + TAGS + size <= End(b)
      && (aligned ==> (a + HEADER) % PAGE_SIZE == 0)
  {
  }

  /** Block k serves, is the first of the index to do so, and size bytes are taken from it. */
  ghost predicate Taken(bs: seq<Blk>, bs': seq<Blk>, ix: seq<nat>, k: nat, size: nat, aligned: bool, a: nat)
  {
    && k < |bs| && Serves(bs[k], size, aligned) && a == OpenedAt(bs[k], aligned)
    && (ServesRoom(bs[k], size, aligned); Replaced(bs, bs', k, Pieces(bs[k], a, size)))
    && First(bs, ix, k, size, aligned)
  }

  ghost predicate ServedFrom(bs: seq<Blk>, bs': seq<Blk>, ix: seq<nat>, size: nat, aligned: bool, a: nat)
  {
    exists k :: Taken(bs, bs', ix, k, size, aligned, a)
  }

  lemma TakenAt(bs: seq<Blk>, bs': seq<Blk>, ix: seq<nat>, k: nat, size: nat, aligned: bool)
    requires k < |bs| && Serves(bs[k], size, aligned) && OpenedAt(bs[k], aligned) == bs[k].at
    requires size <= bs[k].size && Replaced(bs, bs', k, Pieces(bs[k], bs[k].at, size))
    requires First(bs, ix, k, size, aligned)
    ensures ServedFrom(bs, bs', ix, size, aligned, bs[k].at)
  {
    hide Serves, Replaced, Pieces, First;
    assert Taken(bs, bs', ix, k, size, aligned, bs[k].at);
  }

  lemma TakenPage(bs: seq<Blk>, bs1: seq<Blk>, bs': seq<Blk>, ix: seq<nat>, k: nat, size: nat, a: nat, x: Blk,
                  y: Blk)
    requires k < |bs| && Serves(bs[k], size, true) && a == OpenedAt(bs[k], true) != bs[k].at
    requires x == Blk(bs[k].at, a - bs[k].at - TAGS, false) && y == Blk(a, End(bs[k]) - a - TAGS, true)
    requires size <= y.size
    requires Replaced(bs, bs1, k, [x, y]) && Replaced(bs1, bs', k + 1, Pieces(y, a, size))
    requires First(bs, ix, k, size, true)
    ensures ServedFrom(bs, bs', ix, size, true, a)
  {
    hide Replaced, First;
    ServesRoom(bs[k], size, true);
    ReplacedTwice(bs, bs1, bs', k, x, y, Pieces(y, a, size));
    assert Pieces(bs[k], a, size) == [x] + Pieces(y, a, size);
    assert Taken(bs, bs', ix, k, size, true, a);
  }

  lemma FirstFound(bs: seq<Blk>, m: Mem, lo: nat, hi: nat, ix: seq<nat>, i: nat, k: nat, size: nat, aligned: bool)
    requires Sound(m, lo, hi, bs, ix) && i < |ix| && k < |bs| && ix[i] == bs[k].at
    requires forall n :: 0 <= n < |bs| && !Pos(ix, i, bs[n].at) ==> !Serves(bs[n], size, aligned)
    ensures First(bs, ix, k, size, aligned)
  {
    hide AllGood, Tiled, Serves;
  }

  /** Whatever stands before block k in the index does not serve. */
  ghost predicate First(bs: seq<Blk>, ix: seq<nat>, k: nat, size: nat, aligned: bool)
    requires k < |bs|
  {
    forall i, j, n :: 0 <= i < j < |ix| && ix[j] == bs[k].at && 0 <= n < |bs| && ix[i] == bs[n].at ==>
      !Serves(bs[n], size, aligned)
  }

  /** The header at e names a size below key. */
  predicate Smaller(m: Mem, e: nat, key: nat)
  {
    e + 8 <= |m| && WordAt(m, e + 4) < key
  }

  /** Header h, of a block of size key, has joined the index behind the leading headers of smaller blocks. */
  ghost predicate JoinedIndex(m: Mem, ix: seq<nat>, ix': seq<nat>, h: nat, key: nat)
  {
    exists pos: nat :: pos <= |ix| && ix' == InsertAt(ix, pos, h)
      && (forall j :: 0 <= j < pos ==> Smaller(m, ix[j], key)) && (pos < |ix| ==> !Smaller(m, ix[pos], key))
  }

  /** A live block at address a with room for size bytes. */
  ghost predicate HasLive(bs: seq<Blk>, a: nat, size: nat)
  {
    exists k :: 0 <= k < |bs| && bs[k].at == a && bs[k].live && bs[k].size >= size
  }

  // ----- Which blocks a free one is united with -----

  /** The footer of b names its own header. */
  predicate NamesSelf(m: Mem, b: Blk)
  {
    End(b) <= |m| && WordAt(m, b.at + HEADER + b.size + 4) == b.at
  }

  /** Free block k united with the one before it, if that is free and can be found. */
  function LeftUnited(bs: seq<Blk>, k: nat, found: bool): (r: seq<Blk>)
    requires k < |bs|
    ensures |bs| - 1 <= |r| <= |bs|
  {
    if found && k > 0 && !bs[k - 1].live then Join(bs, k - 1, Joined(bs[k - 1], bs[k])) else bs
  }

  /** Free block k united with the one behind it, if that is free. */
  function RightUnited(bs: seq<Blk>, k: nat): seq<Blk>
    requires k < |bs|
  {
    if k + 1 < |bs| && !bs[k + 1].live then Join(bs, k, Joined(bs[k], bs[k + 1])) else bs
  }

  /** Block k given back: free, and united to the left if found says so, and to the right. */
  function Unified(bs: seq<Blk>, k: nat, found: bool): seq<Blk>
    requires k < |bs|
  {
    var free := bs[k := bs[k].(live := false)];
    var left := LeftUnited(free, k, found);
    RightUnited(left, if |left| < |bs| then k - 1 else k)
  }

  /** The block at address a is given back and united with its neighbours. */
  ghost predicate GivenBack(m: Mem, bs: seq<Blk>, bs': seq<Blk>, a: nat)
  {
    exists k :: 0 <= k < |bs| && bs[k].at == a && bs' == Unified(bs, k, k > 0 && NamesSelf(m, bs[k - 1]))
  }

  lemma GivenBackAt(m: Mem, m1: Mem, lo: nat, hi: nat, bs: seq<Blk>, ix: seq<nat>, bs2: seq<Blk>, bs3: seq<Blk>,
                    k: nat, k': nat)
    requires Sound(m, lo, hi, bs, ix) && k < |bs| && Only(m, m1, bs[k].at, End(bs[k]))
    requires bs2 == LeftUnited(bs[k := bs[k].(live := false)], k, k > 0 && NamesSelf(m1, bs[k - 1]))
    requires k' == (if |bs2| < |bs| then k - 1 else k) && k' < |bs2| && bs3 == RightUnited(bs2, k')
    ensures GivenBack(m, bs, bs3, bs[k].at)
  {
    hide AllGood, Indexed, Tiled, LeftUnited, RightUnited, WordAt;
    if k > 0 {
      BlockFacts(m, lo, hi, bs, ix, k - 1);
      Apart(bs, lo, hi, k - 1, k);
      var f := bs[k - 1].at + HEADER + bs[k - 1].size + 4;
      OnlySame(m, m1, bs[k].at, End(bs[k]), f, f + 4);
      SameWordAt(m, m1, f);
    }
    assert bs3 == Unified(bs, k, k > 0 && NamesSelf(m, bs[k - 1]));
  }

  /**
   The block given back is one free block with the free block behind it, and
   with the free block before it if that one can be found.
   */
  lemma UnifiedCovers(bs: seq<Blk>, k: nat, found: bool)
    requires k < |bs| && forall i :: 0 <= i < |bs| - 1 ==> bs[i + 1].at == End(bs[i])
    ensures exists i :: 0 <= i < |Unified(bs, k, found)| && var x := Unified(bs, k, found)[i];
      && !x.live && x.at == (if found && k > 0 && !bs[k - 1].live then bs[k - 1].at else bs[k].at)
      && End(x) == if k + 1 < |bs| && !bs[k + 1].live then End(bs[k + 1]) else End(bs[k])
  {
    var free := bs[k := bs[k].(live := false)];
    var left := LeftUnited(free, k, found);
    var i := if |left| < |bs| then k - 1 else k;
    var x := Unified(bs, k, found)[i];
    assert k + 1 < |bs| ==> bs[k + 1].at == End(bs[k]);
    assert k > 0 ==> bs[k - 1 + 1].at == End(bs[k - 1]);
  }

  /**
   Giving back what was just taken from the front of free block k restores all
   blocks, unless it is united with a free block that was a separate one before.
   */
  lemma TakeFree(bs: seq<Blk>, bs': seq<Blk>, k: nat, size: nat, found: bool)
    requires k < |bs| && !bs[k].live && size <= bs[k].size
    requires Replaced(bs, bs', k, Pieces(bs[k], bs[k].at, size))
    requires !(found && k > 0 && !bs[k - 1].live)
    requires bs[k].size > size + TAGS || k + 1 == |bs| || bs[k + 1].live
    ensures k < |bs'| && Unified(bs', k, found) == bs
  {
    hide Unified, Join, RightUnited, Pieces;
    var b := bs[k];
    if b.size > size + TAGS {
      var x, y := Blk(b.at, size, true), Blk(b.at + TAGS + size, b.size - size - TAGS, false);
      TookFront(bs, k, size, x, y);
      assert bs'[k + 0] == [x, y][0] && bs'[k - 1 + 1] == bs'[k];
      NotLeft(bs', k, found, bs'[k := x.(live := false)]);
      JoinedBack(bs, bs', k, x, y, bs'[k := x.(live := false)]);
    } else {
      var x := b.(live := true);
      TookWhole(bs, k, size, x);
      assert bs'[k + 0] == [x][0];
      assert bs'[k := x.(live := false)] == bs;
      NotLeft(bs', k, found, bs);
      NotRight(bs, k);
    }
  }

  lemma NotRight(bs: seq<Blk>, k: nat)
    requires k < |bs| && (k + 1 == |bs| || bs[k + 1].live)
    ensures RightUnited(bs, k) == bs
  {
    hide Join;
  }

  lemma NotLeft(bs: seq<Blk>, k: nat, found: bool, free: seq<Blk>)
    requires k < |bs| && free == bs[k := bs[k].(live := false)] && !(found && k > 0 && !bs[k - 1].live)
    ensures Unified(bs, k, found) == RightUnited(free, k)
  {
    hide Join;
  }

  lemma JoinedBack(bs: seq<Blk>, bs': seq<Blk>, k: nat, x: Blk, y: Blk, free: seq<Blk>)
    requires Replaced(bs, bs', k, [x, y]) && free == bs'[k := x.(live := false)] && !y.live
    requires Joined(x.(live := false), y) == bs[k]
    ensures RightUnited(free, k) == bs
  {
    assert bs'[k + 1] == [x, y][1];
    var r := Join(free, k, Joined(free[k], free[k + 1]));
    forall i | 0 <= i < |bs|
      ensures r[i] == bs[i]
    {
      if i > k {
        assert bs'[i + 1] == bs[i + 1 - 2 + 1];
      }
    }
  }

  // ----- The heap -----

  class KernelHeap {
    const lo: nat
    const hi: nat
    const index: Index
    var mem: Mem
    ghost var blocks: seq<Blk>

    ghost predicate Valid()
      reads this, index, index.elems
    {
      index.Valid() && Sound(mem, lo, hi, blocks, index.Contents())
    }

    /** heap_init: one free block over the whole region. */
    constructor (mem: Mem, lo: nat, hi: nat, max: nat)
      requires FOOTER <= lo && lo + TAGS <= hi <= |mem| && hi + PAGE_SIZE <= WORD_LIMIT && max > 0
      ensures Valid() && this.lo == lo && this.hi == hi && blocks == [Blk(lo, hi - lo - TAGS, false)]
      ensures fresh(index) && fresh(index.elems) && index.elems.Length == max && Only(mem, this.mem, lo, hi)
    {
      hide Good, Only, WriteHeader, WriteFooter;
      var b := Blk(lo, hi - lo - TAGS, false);
      this.lo, this.hi := lo, hi;
      this.mem := WriteFooter(WriteHeader(mem, lo, b.size, false), lo + HEADER + b.size, lo);
      blocks := [b];
      index := new Index(max);
      new;
      BlockWritten(mem, b);
      ghost var pos := index.Insert(lo, x => false);
      FirstIndexed(index.Contents(), b);
    }

    /** Whether and where block k serves; heap_alloc's last part: the front of the block, or all of it. */
    method Take(header: nat, size: nat, ghost k: nat) returns (ptr: nat)
      requires Valid() && k < |blocks| && blocks[k].at == header && size <= blocks[k].size
      requires index.size < index.elems.Length
      modifies this, index, index.elems
      ensures Valid() && Step(lo, hi, old(mem), old(blocks), mem, blocks, index.Contents(), header)
      ensures ptr == header + HEADER && HasLive(blocks, header, size)
      ensures Replaced(old(blocks), blocks, k, Pieces(old(blocks[k]), header, size))
      ensures var total := old(blocks[k]).size;
        if total > size + TAGS then
          JoinedIndex(mem, old(index.Contents()), index.Contents(), header + TAGS + size, total - size - TAGS)
        else index.Contents() == old(index.Contents())
    {
      hide Good, Only, Tiled, AllGood, Indexed, Keeps, CutFront, Put, FooterOk, Smaller, JoinedIndex, Replaced, Pieces;
      ghost var b, m, bs, ix := blocks[k], mem, blocks, index.Contents();
      BlockFacts(mem, lo, hi, blocks, ix, k);
      if WordAt(mem, header + 4) > size + HEADER + FOOTER {
        var total := WordAt(mem, header + 4);
        FrontCut(m, b, size);
        ghost var x, y := Blk(header, size, true), Blk(header + TAGS + size, total - size - TAGS, false);
        mem := CutFront(mem, header, total, size);
        var now, key := mem, total - size - TAGS;
        ghost var pos := index.Insert(header + TAGS + size, (e: nat) => Smaller(now, e, key));
        IndexJoined(mem, ix, index.Contents(), pos, header + TAGS + size, key);
        blocks := Split(blocks, k, x, y);
        SplitStep(m, mem, lo, hi, bs, ix, k, x, y, pos, header);
        TookFront(bs, k, size, x, y);
        assert blocks[k] == x;
      } else {
        StateWritten(m, b, 1);
        OnlyWider(m, Put(m, header + 8, [1]), header, header + HEADER, header, End(b));
        mem := Put(mem, header + 8, [1]);
        blocks := blocks[k := b.(live := true)];
        UpdateStep(m, mem, lo, hi, bs, ix, k, b.(live := true), header);
        TookWhole(bs, k, size, b.(live := true));
        assert blocks[k].at == header;
      }
      return header + HEADER;
    }

    /** heap_alloc's first part for a page-aligned request: a block opened at addr at the back of free block k. */
    method OpenPage(header: nat, addr: nat, ghost k: nat) returns (ghost k': nat)
      requires Valid() && k < |blocks| && blocks[k].at == header && !blocks[k].live && index.size < index.elems.Length
      requires header + 2 * HEADER + FOOTER < addr < header + HEADER + blocks[k].size
      modifies this, index, index.elems
      ensures Valid() && Step(lo, hi, old(mem), old(blocks), mem, blocks, index.Contents(), addr - HEADER)
      ensures index.size == old(index.size) + 1
      ensures k' == k + 1 < |blocks|
      ensures blocks[k'] == Blk(addr - HEADER, header + HEADER + old(blocks[k].size) - addr, true)
      ensures Replaced(old(blocks), blocks, k, [Blk(header, addr - header - 2 * HEADER - FOOTER, false),
                                                Blk(addr - HEADER, header + HEADER + old(blocks[k].size) - addr, true)])
      ensures JoinedIndex(mem, old(index.Contents()), index.Contents(), addr - HEADER,
                          header + HEADER + old(blocks[k].size) - addr)
    {
      hide Good, Only, Tiled, AllGood, Indexed, Keeps, CutPage, FooterOk, Smaller, JoinedIndex;
      ghost var b, m, bs, ix := blocks[k], mem, blocks, index.Contents();
      BlockFacts(mem, lo, hi, blocks, ix, k);
      var total := WordAt(mem, header + 4);
      PageCut(m, b, addr);
      ghost var x, y := Blk(header, addr - header - 2 * HEADER - FOOTER, false),
                        Blk(addr - HEADER, header + HEADER + total - addr, true);
      mem := CutPage(mem, header, total, addr);
      var now, key := mem, header + HEADER + total - addr;
      ghost var pos := index.Insert(addr - HEADER, (e: nat) => Smaller(now, e, key));
      IndexJoined(mem, ix, index.Contents(), pos, addr - HEADER, key);
      blocks := Split(blocks, k, x, y);
      SplitStep(m, mem, lo, hi, bs, ix, k, x, y, pos, addr - HEADER);
      k' := k + 1;
    }

    /**
     heap_alloc, with a spare index slot for each block it may open and a size that does not wrap:
     0 exactly when no block can serve the request, otherwise the address of
     a payload that no live block had, aligned when asked for.
     */
    method Alloc(size: nat, aligned: bool) returns (ptr: nat)
      requires Valid() && size + TAGS < WORD_LIMIT
      requires index.size + (if aligned then 2 else 1) <= index.elems.Length
      modifies this, index, index.elems
      ensures Valid()
      ensures ptr == 0 <==> forall k :: 0 <= k < |old(blocks)| ==> !Serves(old(blocks[k]), size, aligned)
      ensures ptr == 0 ==> mem == old(mem) && blocks == old(blocks)
      ensures ptr != 0 ==> ptr >= HEADER && HasLive(blocks, ptr - HEADER, size) && (aligned ==> ptr % PAGE_SIZE == 0)
      ensures ptr != 0 ==>
              Keeps(old(mem), old(blocks), mem, blocks, ptr - HEADER) && !HasLive(old(blocks), ptr - HEADER, 0)
      ensures ptr != 0 ==>
        ServedFrom(old(blocks), blocks, old(index.Contents()), size, aligned, ptr - HEADER)
      ensures Only(old(mem), mem, lo, hi)
    {
      hide Sound, Keeps, Good, HasLive, Replaced, Pieces, First, ServedFrom, JoinedIndex;
      ghost var m, bs, ix := mem, blocks, index.Contents();
      var i := 0;
      AllListed(m, lo, hi, bs, ix);
      while i < index.size
        invariant mem == m && blocks == bs && index.Valid() && index.size == old(index.size) && index.Contents() == ix
        invariant forall k :: 0 <= k < |bs| && !Pos(ix, i, bs[k].at) ==> !Serves(bs[k], size, aligned)
      {
        var header := index.elems[i];
        ghost var k := BlockAt(mem, lo, hi, bs, ix, i);
        BlockFacts(mem, lo, hi, bs, ix, k);
        if WordAt(mem, header) == MEM_MAGIC && mem[header + 8] == 0 {
          if aligned && (header + HEADER) % PAGE_SIZE != 0 {
            var addr := PageAfter(header);
            var end := header + HEADER + WordAt(mem, header + 4);
            if addr < end && size <= end - addr && addr - header > 2 * HEADER + FOOTER {
              FirstFound(bs, m, lo, hi, ix, i, k, size, aligned);
              ghost var k' := OpenPage(header, addr, k);
              ghost var m1, bs1, ix1 := mem, blocks, index.Contents();
              ptr := Take(addr - HEADER, size, k');
              StepThen(lo, hi, m, bs, m1, bs1, ix1, mem, blocks, index.Contents(), addr - HEADER);
              NewAddress(m, lo, hi, bs, ix, k, addr - HEADER);
              TakenPage(bs, bs1, blocks, ix, k, size, addr - HEADER,
                        Blk(header, addr - header - 2 * HEADER - FOOTER, false), bs1[k']);
              return;
            }
          } else if size <= WordAt(mem, header + 4) {
            FreeAddress(m, lo, hi, bs, ix, k);
            FirstFound(bs, m, lo, hi, ix, i, k, size, aligned);
            ptr := Take(header, size, k);
            TakenAt(bs, blocks, ix, k, size, aligned);
            return;
          }
        }
        OneMore(bs, lo, hi, m, ix, i, k, size, aligned);
        i := i + 1;
      }
      NoneLeft(bs, m, lo, hi, ix, size, aligned);
      return 0;
    }

    /** heap_free's left unification of free block k. */
    method UnifyLeft(header: nat, i: nat, ghost k: nat) returns (header': nat, ghost k': nat)
      requires Valid() && k < |blocks| && blocks[k].at == header && !blocks[k].live
      requires i < index.size < index.elems.Length && index.elems[i] == header
      modifies this, index, index.elems
      ensures Valid() && Step(lo, hi, old(mem), old(blocks), mem, blocks, index.Contents(), 0)
      ensures index.size <= old(index.size)
      ensures k' < |blocks| && blocks[k'].at == header' && !blocks[k'].live
      ensures blocks == LeftUnited(old(blocks), k, k > 0 && NamesSelf(old(mem), old(blocks[k - 1])))
      ensures k' == if |blocks| < |old(blocks)| then k - 1 else k
    {
      hide Good, Only, Tiled, AllGood, Indexed, Keeps, MergeLeft, Put, WordAt, WordBytes, Join, RemoveAt;
      header', k' := header, k;
      ghost var m, bs, ix := mem, blocks, index.Contents();
      StepNone(lo, hi, m, bs, ix, 0);
      BlockFacts(m, lo, hi, bs, ix, k);
      FirstOrLater(m, lo, hi, bs, ix, k);
      if header >= lo + FOOTER {
        BlockFacts(m, lo, hi, bs, ix, k - 1);
        ghost var b, c := bs[k - 1], bs[k];
        OwnerOf(m, b);
        var prev := WordAt(mem, header - FOOTER + 4);
        if WordAt(mem, header - FOOTER) == MEM_CIGAM && WordAt(mem, prev) == MEM_MAGIC && mem[prev + 8] == 0 {
          LeftMerged(m, b, c);
          mem := Put(Put(mem, prev + 4, WordBytes(WordAt(mem, prev + 4) + TAGS + WordAt(mem, header + 4))),
                     header, WordBytes(0));
          SameMerge(m, b, c, mem);
          index.Remove(i);
          blocks := Join(blocks, k - 1, Joined(b, c));
          JoinStep(m, mem, lo, hi, bs, ix, k - 1, Joined(b, c), i, 0);
          header', k' := prev, k - 1;
        }
      }
    }

    /** heap_free's right unification of free block k. */
    method UnifyRight(header: nat, ghost k: nat)
      requires Valid() && k < |blocks| && blocks[k].at == header && !blocks[k].live && index.size < index.elems.Length
      modifies this, index, index.elems
      ensures Valid() && Step(lo, hi, old(mem), old(blocks), mem, blocks, index.Contents(), 0)
      ensures blocks == RightUnited(old(blocks), k)
    {
      hide Good, Only, Tiled, AllGood, Indexed, Keeps, MergeRight, Put, WordAt, WordBytes, Join, RemoveAt;
      ghost var m, bs, ix := mem, blocks, index.Contents();
      StepNone(lo, hi, m, bs, ix, 0);
      BlockFacts(m, lo, hi, bs, ix, k);
      NextOrLast(m, lo, hi, bs, ix, k);
      var next := header + HEADER + FOOTER + WordAt(mem, header + 4);
      if next < hi {
        BlockFacts(m, lo, hi, bs, ix, k + 1);
        ghost var b, c := bs[k], bs[k + 1];
        if WordAt(mem, next) == MEM_MAGIC && mem[next + 8] == 0 {
          Listed(m, lo, hi, bs, ix, k + 1);
          var j := index.Find(next);
          if j == index.size {
            return;
          }
          OwnerOf(m, c);
          var footer := next + HEADER + WordAt(mem, next + 4);
          if WordAt(mem, footer) == MEM_CIGAM {
            RightMerged(m, b, c);
            mem := Put(Put(mem, footer + 4, WordBytes(header)), header + 4,
                       WordBytes(WordAt(mem, header + 4) + HEADER + FOOTER + WordAt(mem, next + 4)));
            SameMergeRight(m, b, c, mem);
            index.Remove(j);
            blocks := Join(blocks, k, Joined(b, c));
            JoinStep(m, mem, lo, hi, bs, ix, k, Joined(b, c), j, 0);
          }
        }
      }
    }

    /**
     heap_free of a pointer just behind a header: a block in the index is given
     back, live or not, and every other live block is kept byte for byte; for
     any other pointer nothing happens.
     */
    method Free(ptr: nat)
      requires Valid() && index.size < index.elems.Length
      requires ptr != 0 ==> HEADER <= ptr <= |mem| && WordAt(mem, ptr - HEADER) == MEM_MAGIC
      modifies this, index, index.elems
      ensures Valid() && Only(old(mem), mem, lo, hi)
      ensures ptr == 0 || !Starts(old(blocks), ptr - HEADER) ==> mem == old(mem) && blocks == old(blocks)
      ensures ptr != 0 && Starts(old(blocks), ptr - HEADER) ==>
        Keeps(old(mem), old(blocks), mem, blocks, ptr - HEADER) && !HasLive(blocks, ptr - HEADER, 0)
      ensures ptr != 0 && Starts(old(blocks), ptr - HEADER) ==> GivenBack(old(mem), old(blocks), blocks, ptr - HEADER)
    {
      hide Good, Only, Tiled, AllGood, Indexed, Keeps, HasLive, Sound, Put, WordAt, Starts, Unified, NamesSelf;
      StepNone(lo, hi, mem, blocks, index.Contents(), 0);
      if ptr == 0 {
        return;
      }
      var header := ptr - HEADER;
      ghost var m, bs, ix := mem, blocks, index.Contents();
      IndexMeans(m, lo, hi, bs, ix, header);
      var i := index.Find(header);
      if i == index.size {
        return;
      }
      assert ix[i] == header;
      ghost var k := BlockAt(m, lo, hi, bs, ix, i);
      BlockFacts(m, lo, hi, bs, ix, k);
      ghost var b := bs[k];
      StateWritten(m, b, 0);
      OnlyWider(m, Put(m, header + 8, [0]), header, header + HEADER, header, End(b));
      mem := Put(mem, header + 8, [0]);
      blocks := blocks[k := b.(live := false)];
      UpdateStep(m, mem, lo, hi, bs, ix, k, b.(live := false), header);
      ghost var m1, bs1, ix1 := mem, blocks, index.Contents();
      var merged;
      ghost var k';
      merged, k' := UnifyLeft(header, i, k);
      ghost var m2, bs2, ix2 := mem, blocks, index.Contents();
      UnifyRight(merged, k');
      StepThen(lo, hi, m1, bs1, m2, bs2, ix2, mem, blocks, index.Contents(), 0);
      FreeAddress(m1, lo, hi, bs1, ix1, k);
      StillFree(lo, hi, m1, bs1, mem, blocks, index.Contents(), header);
      StepAny(lo, hi, m1, bs1, ix1, mem, blocks, index.Contents(), header);
      GivenBackAt(m, m1, lo, hi, bs, ix, bs2, blocks, k, k');
      StepThen(lo, hi, m, bs, m1, bs1, ix1, mem, blocks, index.Contents(), header);
    }

    /** An owner writes data at offset at of a live payload. */
    method Store(ptr: nat, at: nat, data: seq<byte>)
      requires Valid() && ptr >= HEADER && HasLive(blocks, ptr - HEADER, at + |data|)
      requires ptr + at + |data| <= |mem| && !Plants(mem, ptr - HEADER, Put(mem, ptr + at, data))
      modifies `mem
      ensures Valid() && mem == Put(old(mem), ptr + at, data) && Only(old(mem), mem, lo, hi)
    {
      hide Sound, HasLive, Plants, Put;
      PayloadWritten(mem, lo, hi, blocks, index.Contents(), ptr, at, data);
      mem := Put(mem, ptr + at, data);
    }

    /**
     Over every run of allocations, frees and writes by owners the heap stays
     sound: the blocks tile the region and are indexed once each, and every
     pointer handed out and not yet given back owns a live payload, no two the
     same, that holds what its owner wrote last. A write is left out if it
     makes a header of the leftover one that the block's footer names.
     */
    method Run(requests: seq<Request>) returns (held: seq<Held>)
      requires Valid()
      modifies this, index, index.elems
      ensures Valid() && AllHeld(mem, blocks, held) && Only(old(mem), mem, lo, hi)
    {
      hide Sound, Keeps, HasLive, AllHeld, Plants, Put, Part;
      held := [];
      NothingHeld(mem, blocks);
      for i := 0 to |requests|
        invariant Valid() && AllHeld(mem, blocks, held) && Only(old(mem), mem, lo, hi)
      {
        ghost var m, bs, ix := mem, blocks, index.Contents();
        match requests[i]
        case Want(size, aligned) =>
          if size + TAGS < WORD_LIMIT && index.size + 2 <= index.elems.Length {
            var ptr := Alloc(size, aligned);
            if ptr != 0 {
              LiveInside(mem, lo, hi, blocks, index.Contents(), ptr, size);
              OneMoreHeld(m, bs, mem, blocks, held, ptr, size);
              held := held + [Held(ptr, Part(mem, ptr, size))];
            }
          }
        case GiveBack(k) =>
          if k < |held| && index.size < index.elems.Length {
            HeldLive(m, bs, held, k);
            LiveHeader(m, lo, hi, bs, ix, held[k].ptr - HEADER);
            Free(held[k].ptr);
            OneLessHeld(m, bs, mem, blocks, held, k);
            held := LessHeld(held, k);
          }
        case Write(k, at, data) =>
          if k < |held| && at + |data| <= |held[k].data| {
            HeldLive(m, bs, held, k);
            var ptr := held[k].ptr;
            if !Plants(mem, ptr - HEADER, Put(mem, ptr + at, data)) {
              LiveFewer(bs, ptr - HEADER, |held[k].data|, at + |data|);
              HeldWritten(m, lo, hi, bs, ix, held, k, at, data);
              Store(ptr, at, data);
              held := held[k := Held(ptr, Put(held[k].data, at, data))];
            }
          }
      }
    }
  }

  // ----- Runs -----

  /** An owner asks for a payload, gives back the k-th one held, or writes to it. */
  datatype Request = Want(size: nat, aligned: bool) | GiveBack(k: nat) | Write(k: nat, at: nat, data: seq<byte>)

  /** A pointer that was handed out, and what its owner expects there. */
  datatype Held = Held(ptr: nat, data: seq<byte>)

  /** In m' the leftover header that the footer of the block at header names in m is a header again. */
  predicate Plants(m: Mem, header: nat, m': Mem)
  {
    && header + HEADER <= |m| && header + HEADER + WordAt(m, header + 4) + 8 <= |m|
    && var q := WordAt(m, header + HEADER + WordAt(m, header + 4) + 4);
       q != header && q + 4 <= |m'| && WordAt(m', q) == MEM_MAGIC
  }

  /** A held pointer owns a live payload with the expected bytes. */
  ghost predicate Holds(m: Mem, bs: seq<Blk>, h: Held)
  {
    && h.ptr >= HEADER && HasLive(bs, h.ptr - HEADER, |h.data|)
    && h.ptr + |h.data| <= |m| && Part(m, h.ptr, |h.data|) == h.data
  }

  /** Every held pointer owns its payload, and no two are the same. */
  ghost predicate AllHeld(m: Mem, bs: seq<Blk>, held: seq<Held>)
  {
    && (forall i :: 0 <= i < |held| ==> Holds(m, bs, held[i]))
    && (forall i, j :: 0 <= i < j < |held| ==> held[i].ptr != held[j].ptr)
  }

  function LessHeld(held: seq<Held>, k: nat): (r: seq<Held>)
    requires k < |held|
    ensures |r| == |held| - 1
    ensures forall i :: 0 <= i < |r| ==> r[i] == held[if i < k then i else i + 1]
  {
    seq(|held| - 1, i requires 0 <= i < |held| - 1 => held[if i < k then i else i + 1])
  }

  lemma NothingHeld(m: Mem, bs: seq<Blk>)
    ensures AllHeld(m, bs, [])
  {
  }

  lemma LiveFewer(bs: seq<Blk>, a: nat, n: nat, n': nat)
    requires HasLive(bs, a, n) && n' <= n
    ensures HasLive(bs, a, n')
  {
  }

  /** A live payload lies inside the memory. */
  lemma LiveInside(m: Mem, lo: nat, hi: nat, bs: seq<Blk>, ix: seq<nat>, ptr: nat, n: nat)
    requires Sound(m, lo, hi, bs, ix) && ptr >= HEADER && HasLive(bs, ptr - HEADER, n)
    ensures ptr + n <= |m|
  {
    hide AllGood, Indexed, Tiled;
    var k :| 0 <= k < |bs| && bs[k].at == ptr - HEADER && bs[k].live && bs[k].size >= n;
    InRegion(bs, lo, hi, k);
  }

  lemma HeldLive(m: Mem, bs: seq<Blk>, held: seq<Held>, k: nat)
    requires AllHeld(m, bs, held) && k < |held|
    ensures held[k].ptr >= HEADER && held[k].ptr + |held[k].data| <= |m|
    ensures HasLive(bs, held[k].ptr - HEADER, |held[k].data|) && HasLive(bs, held[k].ptr - HEADER, 0)
  {
    hide HasLive, Part;
    assert Holds(m, bs, held[k]);
    LiveFewer(bs, held[k].ptr - HEADER, |held[k].data|, 0);
  }

  /** A held payload other than the one at a is the same after the step. */
  lemma KeptHeld(m: Mem, bs: seq<Blk>, m': Mem, bs': seq<Blk>, a: nat, h: Held)
    requires Keeps(m, bs, m', bs', a) && Holds(m, bs, h) && h.ptr - HEADER != a && |m'| == |m|
    ensures Holds(m', bs', h)
  {
    var k :| 0 <= k < |bs| && bs[k].at == h.ptr - HEADER && bs[k].live && bs[k].size >= |h.data|;
    assert bs[k] in bs';
    assert Same(m, m', bs[k].at, End(bs[k]));
  }

  lemma OneMoreHeld(m: Mem, bs: seq<Blk>, m': Mem, bs': seq<Blk>, held: seq<Held>, ptr: nat, size: nat)
    requires AllHeld(m, bs, held) && ptr >= HEADER && Keeps(m, bs, m', bs', ptr - HEADER) && |m'| == |m|
    requires HasLive(bs', ptr - HEADER, size) && !HasLive(bs, ptr - HEADER, 0) && ptr + size <= |m'|
    ensures AllHeld(m', bs', held + [Held(ptr, Part(m', ptr, size))])
  {
    hide HasLive, Keeps, Part;
    forall i | 0 <= i < |held|
      ensures held[i].ptr != ptr && Holds(m', bs', held[i])
    {
      HeldLive(m, bs, held, i);
      KeptHeld(m, bs, m', bs', ptr - HEADER, held[i]);
    }
  }

  lemma OneLessHeld(m: Mem, bs: seq<Blk>, m': Mem, bs': seq<Blk>, held: seq<Held>, k: nat)
    requires AllHeld(m, bs, held) && k < |held| && held[k].ptr >= HEADER && |m'| == |m|
    requires Keeps(m, bs, m', bs', held[k].ptr - HEADER)
    ensures AllHeld(m', bs', LessHeld(held, k))
  {
    hide Holds, Keeps;
    var r := LessHeld(held, k);
    forall i | 0 <= i < |r|
      ensures Holds(m', bs', r[i])
    {
      var j := if i < k then i else i + 1;
      assert r[i] == held[j] && held[j].ptr != held[k].ptr;
      HeldLive(m, bs, held, j);
      KeptHeld(m, bs, m', bs', held[k].ptr - HEADER, held[j]);
    }
  }

  /** A write inside the payload of block k changes no other block and no tag of its own. */
  lemma WriteStays(m: Mem, m': Mem, lo: nat, hi: nat, bs: seq<Blk>, ix: seq<nat>, k: nat, p: nat, n: nat, i: nat)
    requires Sound(m, lo, hi, bs, ix) && k < |bs| && i < |bs|
    requires bs[k].at + HEADER <= p && p + n <= bs[k].at + HEADER + bs[k].size && Only(m, m', p, p + n)
    ensures End(bs[i]) <= |m|
    ensures i != k ==> Same(m, m', bs[i].at, End(bs[i]))
    ensures Same(m, m', bs[i].at, bs[i].at + HEADER) && Same(m, m', bs[i].at + HEADER + bs[i].size, End(bs[i]))
  {
    hide AllGood, Indexed, Tiled;
    InRegion(bs, lo, hi, i);
    if i < k {
      Apart(bs, lo, hi, i, k);
    } else if k < i {
      Apart(bs, lo, hi, k, i);
    }
  }

  /** A write that plants nothing keeps every block's tags. */
  lemma WriteTags(m: Mem, m': Mem, b: Blk, other: bool)
    requires Good(m, b) && |m'| == |m| && (other || b.live)
    requires other ==> Same(m, m', b.at, End(b))
    requires Same(m, m', b.at, b.at + HEADER) && Same(m, m', b.at + HEADER + b.size, End(b))
    requires !other ==> !Plants(m, b.at, m')
    ensures TagsSame(m, m', b)
  {
    hide WordAt;
    var q := WordAt(m, b.at + HEADER + b.size + 4);
    if other && q != b.at {
      SameLess(m, m', b.at, End(b), q, q + 4);
      SameWordAt(m, m', q);
    }
  }

  /** Planting a header where the footer of b points spoils b. */
  lemma PlantSpoils(m: Mem, m': Mem, b: Blk)
    requires Good(m, b) && |m'| == |m| && Plants(m, b.at, m')
    requires Same(m, m', b.at + HEADER + b.size, End(b))
    ensures !Good(m', b)
  {
    hide WordAt;
    var f := b.at + HEADER + b.size;
    SameLess(m, m', f, End(b), f + 4, f + 8);
    SameWordAt(m, m', f + 4);
  }

  /** The heap stays sound under an owner's write exactly when it plants no header where the footer points. */
  lemma PayloadWritten(m: Mem, lo: nat, hi: nat, bs: seq<Blk>, ix: seq<nat>, ptr: nat, at: nat, data: seq<byte>)
    requires Sound(m, lo, hi, bs, ix) && ptr >= HEADER && HasLive(bs, ptr - HEADER, at + |data|)
    requires ptr + at + |data| <= |m|
    ensures Sound(Put(m, ptr + at, data), lo, hi, bs, ix) <==> !Plants(m, ptr - HEADER, Put(m, ptr + at, data))
    ensures Only(m, Put(m, ptr + at, data), lo, hi)
  {
    hide Good, TagsSame, Plants, Tiled, Indexed;
    var m' := Put(m, ptr + at, data);
    var k :| 0 <= k < |bs| && bs[k].at == ptr - HEADER && bs[k].live && bs[k].size >= at + |data|;
    InRegion(bs, lo, hi, k);
    assert Good(m, bs[k]);
    if Plants(m, ptr - HEADER, m') {
      WriteStays(m, m', lo, hi, bs, ix, k, ptr + at, |data|, k);
      PlantSpoils(m, m', bs[k]);
    } else {
      forall i | 0 <= i < |bs|
        ensures TagsSame(m, m', bs[i])
      {
        WriteStays(m, m', lo, hi, bs, ix, k, ptr + at, |data|, i);
        WriteTags(m, m', bs[i], i != k);
      }
      OwnersWrite(m, m', lo, hi, bs, ix);
    }
  }

  lemma HeldWritten(m: Mem, lo: nat, hi: nat, bs: seq<Blk>, ix: seq<nat>, held: seq<Held>, k: nat, at: nat,
                    data: seq<byte>)
    requires Sound(m, lo, hi, bs, ix) && AllHeld(m, bs, held) && k < |held| && at + |data| <= |held[k].data|
    requires held[k].ptr + at + |data| <= |m|
    ensures AllHeld(Put(m, held[k].ptr + at, data), bs, held[k := Held(held[k].ptr, Put(held[k].data, at, data))])
  {
    hide Sound;
    var m', ptr := Put(m, held[k].ptr + at, data), held[k].ptr;
    assert Holds(m, bs, held[k]);
    assert Holds(m', bs, Held(ptr, Put(held[k].data, at, data)));
    forall i | 0 <= i < |held| && i != k
      ensures Holds(m', bs, held[i])
    {
      OtherHeld(m, m', lo, hi, bs, ix, held[k], held[i], ptr + at, |data|);
    }
  }

  /** A write to one held payload does not show in another. */
  lemma OtherHeld(m: Mem, m': Mem, lo: nat, hi: nat, bs: seq<Blk>, ix: seq<nat>, h: Held, g: Held, p: nat, n: nat)
    requires Sound(m, lo, hi, bs, ix) && Holds(m, bs, h) && Holds(m, bs, g) && h.ptr != g.ptr
    requires h.ptr <= p && p + n <= h.ptr + |h.data| && Only(m, m', p, p + n)
    ensures Holds(m', bs, g)
  {
    hide Sound;
    var k :| 0 <= k < |bs| && bs[k].at == h.ptr - HEADER && bs[k].live && bs[k].size >= |h.data|;
    var i :| 0 <= i < |bs| && bs[i].at == g.ptr - HEADER && bs[i].live && bs[i].size >= |g.data|;
    WriteStays(m, m', lo, hi, bs, ix, k, p, n, i);
  }

  /** Address a stands at position i of the index or later. */
  ghost predicate Pos(ix: seq<nat>, i: nat, a: nat)
  {
    exists j :: i <= j < |ix| && ix[j] == a
  }

  lemma AllListed(m: Mem, lo: nat, hi: nat, bs: seq<Blk>, ix: seq<nat>)
    requires Sound(m, lo, hi, bs, ix)
    ensures forall k :: 0 <= k < |bs| ==> Pos(ix, 0, bs[k].at)
  {
    hide AllGood, Tiled;
    forall k | 0 <= k < |bs|
      ensures Pos(ix, 0, bs[k].at)
    {
      assert Starts(bs, bs[k].at);
      assert bs[k].at in ix;
    }
  }

  lemma OneMore(bs: seq<Blk>, lo: nat, hi: nat, m: Mem, ix: seq<nat>, i: nat, k: nat, size: nat, aligned: bool)
    requires Sound(m, lo, hi, bs, ix) && i < |ix| && k < |bs| && bs[k].at == ix[i] && !Serves(bs[k], size, aligned)
    requires forall n :: 0 <= n < |bs| && !Pos(ix, i, bs[n].at) ==> !Serves(bs[n], size, aligned)
    ensures forall n :: 0 <= n < |bs| && !Pos(ix, i + 1, bs[n].at) ==> !Serves(bs[n], size, aligned)
  {
    hide Serves, AllGood, Indexed;
    forall n | 0 <= n < |bs| && !Pos(ix, i + 1, bs[n].at)
      ensures !Serves(bs[n], size, aligned)
    {
      if Pos(ix, i, bs[n].at) {
        assert bs[n].at == ix[i];
        if n < k {
          Apart(bs, lo, hi, n, k);
        } else if k < n {
          Apart(bs, lo, hi, k, n);
        }
      }
    }
  }

  lemma NoneLeft(bs: seq<Blk>, m: Mem, lo: nat, hi: nat, ix: seq<nat>, size: nat, aligned: bool)
    requires forall n :: 0 <= n < |bs| && !Pos(ix, |ix|, bs[n].at) ==> !Serves(bs[n], size, aligned)
    ensures forall n :: 0 <= n < |bs| ==> !Serves(bs[n], size, aligned)
  {
    hide Serves;
  }

  /** No block starts at an address strictly inside block k. */
  lemma NewAddress(m: Mem, lo: nat, hi: nat, bs: seq<Blk>, ix: seq<nat>, k: nat, a: nat)
    requires Sound(m, lo, hi, bs, ix) && k < |bs| && bs[k].at < a < End(bs[k])
    ensures !HasLive(bs, a, 0)
  {
    hide AllGood, Indexed, Tiled;
    assert HasLive(bs, a, 0) ==> Starts(bs, a);
    NoStartInside(bs, lo, hi, k, a);
  }

  /** The block at the address of free block k is not live. */
  lemma FreeAddress(m: Mem, lo: nat, hi: nat, bs: seq<Blk>, ix: seq<nat>, k: nat)
    requires Sound(m, lo, hi, bs, ix) && k < |bs| && !bs[k].live
    ensures !HasLive(bs, bs[k].at, 0)
  {
    hide AllGood, Indexed;
    if HasLive(bs, bs[k].at, 0) {
      var n :| 0 <= n < |bs| && bs[n].at == bs[k].at && bs[n].live;
      if n < k {
        Apart(bs, lo, hi, n, k);
      } else if k < n {
        Apart(bs, lo, hi, k, n);
      }
    }
  }

  /** A block is the first of the region, or the footer of the one before it lies just below. */
  lemma FirstOrLater(m: Mem, lo: nat, hi: nat, bs: seq<Blk>, ix: seq<nat>, k: nat)
    requires Sound(m, lo, hi, bs, ix) && k < |bs|
    ensures k == 0 ==> bs[k].at == lo
    ensures k > 0 ==> bs[k].at >= lo + TAGS && bs[k].at == End(bs[k - 1])
  {
    hide AllGood, Indexed;
    if k > 0 {
      assert bs[k - 1 + 1].at == End(bs[k - 1]);
      InRegion(bs, lo, hi, k - 1);
    }
  }

  lemma NextOrLast(m: Mem, lo: nat, hi: nat, bs: seq<Blk>, ix: seq<nat>, k: nat)
    requires Sound(m, lo, hi, bs, ix) && k < |bs|
    ensures k == |bs| - 1 ==> End(bs[k]) == hi
    ensures k < |bs| - 1 ==> bs[k + 1].at == End(bs[k]) < hi
  {
    hide AllGood, Indexed;
    if k < |bs| - 1 {
      assert bs[k + 1].at == End(bs[k]);
      InRegion(bs, lo, hi, k + 1);
    }
  }

  lemma Listed(m: Mem, lo: nat, hi: nat, bs: seq<Blk>, ix: seq<nat>, k: nat)
    requires Sound(m, lo, hi, bs, ix) && k < |bs|
    ensures bs[k].at in ix
  {
    hide AllGood, Tiled;
    assert Starts(bs, bs[k].at);
  }

  lemma IndexMeans(m: Mem, lo: nat, hi: nat, bs: seq<Blk>, ix: seq<nat>, a: nat)
    requires Sound(m, lo, hi, bs, ix)
    ensures a in ix <==> Starts(bs, a)
  {
    hide AllGood, Tiled, Starts;
  }

  /** A live block has a header, with the magic number. */
  lemma LiveHeader(m: Mem, lo: nat, hi: nat, bs: seq<Blk>, ix: seq<nat>, a: nat)
    requires Sound(m, lo, hi, bs, ix) && HasLive(bs, a, 0)
    ensures Starts(bs, a) && a + HEADER <= |m| && WordAt(m, a) == MEM_MAGIC
  {
    hide Sound, WordAt;
    var k :| 0 <= k < |bs| && bs[k].at == a && bs[k].live;
    BlockFacts(m, lo, hi, bs, ix, k);
  }

  lemma SameMergeRight(m: Mem, b: Blk, c: Blk, m': Mem)
    requires Good(m, b) && Good(m, c)
    requires m' == Put(Put(m, c.at + HEADER + WordAt(m, c.at + 4) + 4, WordBytes(b.at)), b.at + 4,
                       WordBytes(WordAt(m, b.at + 4) + HEADER + FOOTER + WordAt(m, c.at + 4)))
    ensures m' == MergeRight(m, b, c)
  {
    hide WordAt, Put, FooterOk;
  }

  /** A step about no live block makes none live. */
  lemma StillFree(lo: nat, hi: nat, m: Mem, bs: seq<Blk>, m': Mem, bs': seq<Blk>, ix': seq<nat>, a: nat)
    requires Step(lo, hi, m, bs, m', bs', ix', 0) && a > 0
    ensures HasLive(bs', a, 0) ==> HasLive(bs, a, 0)
  {
    hide Sound;
    if HasLive(bs', a, 0) {
      var n :| 0 <= n < |bs'| && bs'[n].at == a && bs'[n].live;
      var i :| 0 <= i < |bs| && bs[i] == bs'[n];
    }
  }

  /** A step about no live block is a step about any. */
  lemma StepAny(lo: nat, hi: nat, m: Mem, bs: seq<Blk>, ix: seq<nat>, m': Mem, bs': seq<Blk>, ix': seq<nat>, a: nat)
    requires Sound(m, lo, hi, bs, ix) && Step(lo, hi, m, bs, m', bs', ix', 0)
    ensures Step(lo, hi, m, bs, m', bs', ix', a)
  {
    hide AllGood, Indexed, Tiled, Same;
    forall k | 0 <= k < |bs|
      ensures bs[k].at != 0
    {
      InRegion(bs, lo, hi, k);
    }
    forall k | 0 <= k < |bs'|
      ensures bs'[k].at != 0
    {
      InRegion(bs', lo, hi, k);
    }
  }

  /**
   The header that a footer names lies in its block; it carries the magic
   number exactly when it is the block's own.
   */
  lemma OwnerOf(m: Mem, b: Blk)
    requires Good(m, b)
    ensures WordAt(m, b.at + HEADER + b.size) == MEM_CIGAM
    ensures var q := WordAt(m, b.at + HEADER + b.size + 4);
      b.at <= q && q + HEADER <= End(b) <= |m| && (WordAt(m, q) == MEM_MAGIC <==> q == b.at)
  {
    hide WordAt;
  }

  lemma SameMerge(m: Mem, b: Blk, c: Blk, m': Mem)
    requires Good(m, b) && Good(m, c)
    requires m' ==
            Put(Put(m, b.at + 4, WordBytes(WordAt(m, b.at + 4) + TAGS + WordAt(m, c.at + 4))), c.at, WordBytes(0))
    ensures m' == MergeLeft(m, b, c)
  {
    hide WordAt, Put, FooterOk;
  }

  lemma FirstIndexed(ix: seq<nat>, b: Blk)
    requires ix == InsertAt([], 0, b.at)
    ensures Indexed(ix, [b])
  {
    assert ix[0] == b.at && [b][0] == b;
    forall a: nat
      ensures a in ix <==> Starts([b], a)
    {
    }
  }

  lemma BlockFacts(m: Mem, lo: nat, hi: nat, bs: seq<Blk>, ix: seq<nat>, k: nat)
    requires Sound(m, lo, hi, bs, ix) && k < |bs|
    ensures Good(m, bs[k]) && 0 < lo <= bs[k].at && End(bs[k]) <= hi <= |m| && hi < WORD_LIMIT
    ensures WordAt(m, bs[k].at) == MEM_MAGIC && WordAt(m, bs[k].at + 4) == bs[k].size
    ensures (m[bs[k].at + 8] != 0 <==> bs[k].live)
  {
    hide WordAt, FooterOk;
    InRegion(bs, lo, hi, k);
    assert Good(m, bs[k]);
  }

  // ----- What the invariant means -----

  /** Every payload is apart from all other blocks and from its own tags. */
  lemma PayloadsApart(m: Mem, lo: nat, hi: nat, bs: seq<Blk>, ix: seq<nat>, k: nat, n: nat, i: nat)
    requires Sound(m, lo, hi, bs, ix) && k < |bs| && n < |bs| && k != n
    requires bs[k].at + HEADER <= i < bs[k].at + HEADER + bs[k].size
    ensures lo <= i < hi && !(bs[n].at <= i < End(bs[n]))
  {
    hide AllGood, Indexed, Tiled;
    InRegion(bs, lo, hi, k);
    if k < n {
      Apart(bs, lo, hi, k, n);
    } else {
      Apart(bs, lo, hi, n, k);
    }
  }

  /** Payload bytes and tags add up to the region, whatever was split or merged. */
  lemma BytesConserved(m: Mem, lo: nat, hi: nat, bs: seq<Blk>, ix: seq<nat>)
    requires Sound(m, lo, hi, bs, ix)
    ensures lo + Total(bs, 0) == hi && |ix| == |bs|
  {
    hide AllGood;
    Conserved(bs, lo, hi, 0);
    var heads := seq(|bs|, k requires 0 <= k < |bs| => bs[k].at);
    forall i, j | 0 <= i < j < |heads|
      ensures heads[i] != heads[j]
    {
      Apart(bs, lo, hi, i, j);
    }
    SameLength(ix, heads, bs);
  }

  lemma SameLength(ix: seq<nat>, heads: seq<nat>, bs: seq<Blk>)
    requires Indexed(ix, bs) && Distinct(heads) && |heads| == |bs| && forall k :: 0 <= k < |bs| ==> heads[k] == bs[k].at
    ensures |ix| == |heads|
  {
    var s, t := Elements(ix), Elements(heads);
    forall a: nat
      ensures a in s <==> a in t
    {
      if Starts(bs, a) {
        var k :| 0 <= k < |bs| && bs[k].at == a;
        assert heads[k] == a;
      }
      if a in heads {
        var k :| 0 <= k < |heads| && heads[k] == a;
        assert bs[k].at == a;
      }
    }
    assert s == t;
  }

  /** The elements of a sequence without repetition, as a set of the same size. */
  ghost function Elements(s: seq<nat>): (r: set<nat>)
    requires Distinct(s)
    ensures |r| == |s| && forall x :: x in r <==> x in s
  {
    if s == [] then {}
    else
      var n := |s| - 1;
      assert s[n] !in s[..n] && s == s[..n] + [s[n]];
      Elements(s[..n]) + {s[n]}
  }

  /**
   The owner of a live payload may write it as long as no write plants the magic
   number on a cleared header that a footer still names.
   */
  lemma OwnersWrite(m: Mem, m': Mem, lo: nat, hi: nat, bs: seq<Blk>, ix: seq<nat>)
    requires Sound(m, lo, hi, bs, ix) && |m'| == |m|
    requires forall k :: 0 <= k < |bs| ==> TagsSame(m, m', bs[k])
    ensures Sound(m', lo, hi, bs, ix)
  {
    hide Tiled, Indexed, Good, TagsSame;
    forall k | 0 <= k < |bs|
      ensures Good(m', bs[k])
    {
      assert Good(m, bs[k]);
      TagsKept(m, m', bs[k]);
    }
  }

  /** The tags of a block are the same; only a live payload may differ, and not into a header its footer names. */
  ghost predicate TagsSame(m: Mem, m': Mem, b: Blk)
  {
    && |m'| == |m| && End(b) <= |m|
    && Same(m, m', b.at, b.at + HEADER) && Same(m, m', b.at + HEADER + b.size, End(b))
    && (!b.live ==> Same(m, m', b.at, End(b)))
    && var q := WordAt(m, b.at + HEADER + b.size + 4);
       q != b.at && q + 4 <= |m| ==> WordAt(m', q) != MEM_MAGIC
  }

  lemma TagsKept(m: Mem, m': Mem, b: Blk)
    requires Good(m, b) && TagsSame(m, m', b)
    ensures Good(m', b)
  {
    hide WordAt, HeaderIs;
    var f := b.at + HEADER + b.size;
    HeaderSame(m, m', b.at, b.size, b.live);
    SameLess(m, m', f, End(b), f, f + 4);
    SameLess(m, m', f, End(b), f + 4, f + 8);
    SameWordAt(m, m', f);
    SameWordAt(m, m', f + 4);
  }
}
