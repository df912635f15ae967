/** Cutting the pointer tree of an inode from a logical block to the end of the file. */
module Ext2Truncate {
  import opened Bytes
  import opened Errors
  import opened Radix
  import opened Ext2Tree
  import opened Ext2Disk
  import opened Ext2Alloc

  const NDIR: nat := 12

  /** The in-memory inode: 12 direct pointers, three indirect ones, and i_blocks. */
  class Inode {
    const block: array<nat>
    var iblocks: int

    constructor (slots: seq<nat>, iblocks: int)
      requires |slots| == 15
      ensures fresh(block) && block[..] == slots && this.iblocks == iblocks
    {
      block := new nat[15](i requires 0 <= i < 15 => slots[i]);
      this.iblocks := iblocks;
    }
  }

  // ----- What a cut frees -----

  /** The blocks of ts that the cut gives back. */
  function Freed(ts: seq<Tree>, cut: seq<Tree>): set<nat>
  {
    OwnAll(ts) - OwnAll(cut)
  }

  lemma {:induction false} ShapePrefix(ts: seq<Tree>, a: nat, level: nat, n: nat)
    requires ShapeAll(ts, a, level) && n <= |ts|
    ensures ShapeAll(ts[..n], a, level)
  {
    if n < |ts| {
      var m := |ts| - 1;
      ShapePrefix(ts[..m], a, level, n);
      assert ts[..m][..n] == ts[..n];
    } else {
      assert ts[..n] == ts;
    }
  }

  lemma {:induction false} SeparatePrefix(ts: seq<Tree>, n: nat)
    requires SeparateAll(ts) && n <= |ts|
    ensures SeparateAll(ts[..n])
    ensures OwnAll(ts[..n]) <= OwnAll(ts) && MetaAll(ts[..n]) <= MetaAll(ts)
  {
    if n < |ts| {
      var m := |ts| - 1;
      SeparatePrefix(ts[..m], n);
      assert ts[..m][..n] == ts[..n];
    } else {
      assert ts[..n] == ts;
    }
  }

  /** Tree i shares nothing with the trees before it. */
  lemma PrefixDisjoint(ts: seq<Tree>, i: nat)
    requires SeparateAll(ts) && i < |ts|
    ensures Separate(ts[i])
    ensures OwnAll(ts[..i]) !! Own(ts[i])
    ensures MetaAll(ts[..i]) !! Meta(ts[i])
    ensures ts[..i + 1][..i] == ts[..i]
  {
    SeparatePrefix(ts, i + 1);
    assert ts[..i + 1][..i] == ts[..i];
    MetaAllOwned(ts[..i]);
    MetaOwned(ts[i]);
  }

  lemma FreedAppend(ts: seq<Tree>, cut: seq<Tree>, t: Tree, t': Tree)
    requires OwnAll(ts) !! Own(t)
    requires OwnAll(cut) <= OwnAll(ts) && Own(t') <= Own(t)
    ensures Freed(ts + [t], cut + [t']) == Freed(ts, cut) + (Own(t) - Own(t'))
    ensures Freed(ts, cut) !! Own(t) - Own(t')
    ensures |Freed(ts + [t], cut + [t'])| == |Freed(ts, cut)| + |Own(t) - Own(t')|
  {
    OwnAppend(ts, t);
    OwnAppend(cut, t');
    SetDifferences(OwnAll(ts), OwnAll(cut), Own(t), Own(t'));
  }

  lemma OwnAppend(ts: seq<Tree>, t: Tree)
    ensures OwnAll(ts + [t]) == OwnAll(ts) + Own(t)
    ensures MetaAll(ts + [t]) == MetaAll(ts) + Meta(t)
  {
    assert (ts + [t])[..|ts|] == ts;
  }

  lemma SetDifferences(s: set<nat>, s': set<nat>, t: set<nat>, t': set<nat>)
    requires s !! t && s' <= s && t' <= t
    ensures (s + t) - (s' + t') == (s - s') + (t - t')
    ensures s - s' !! t - t'
    ensures |(s + t) - (s' + t')| == |s - s'| + |t - t'|
  {
  }

  lemma {:induction false} OffsetAdd(m: nat, n: nat, inc: nat)
    ensures Offset(m + n, inc) == Offset(m, inc) + Offset(n, inc)
  {
    if n > 0 {
      OffsetAdd(m, n - 1, inc);
    }
  }

  lemma SetSizes(s: set<nat>, t: set<nat>)
    requires s <= t
    ensures |s| <= |t|
  {
    hide *;
    assert t == s + (t - s);
  }

  // ----- Disk frames -----

  /** Nothing outside s changed. */
  predicate OnlyOn(d: Disk, d': Disk, s: set<nat>)
  {
    |d| == |d'| && forall b :: 0 <= b < |d| && b !in s ==> d'[b] == d[b]
  }

  lemma {:induction false} MetaInRange(d: Disk, a: nat, level: nat, p: nat)
    requires a > 0 && Shape(TreeOf(d, a, level, p), a, level)
    ensures forall b :: b in Meta(TreeOf(d, a, level, p)) ==> b < |d|
    decreases level, 0
  {
    hide TreesOf, Decode;
    if p != 0 && level > 0 {
      assert p < |d| && |d[p]| == 4 * a;
      MetaAllInRange(d, a, level - 1, Decode(d[p]));
    }
  }

  lemma {:induction false} MetaAllInRange(d: Disk, a: nat, level: nat, ps: seq<nat>)
    requires a > 0 && ShapeAll(TreesOf(d, a, level, ps), a, level)
    ensures forall b :: b in MetaAll(TreesOf(d, a, level, ps)) ==> b < |d|
    decreases level, 1 + |ps|
  {
    if ps != [] {
      var n := |ps| - 1;
      assert TreesOf(d, a, level, ps)[..n] == TreesOf(d, a, level, ps[..n]);
      MetaAllInRange(d, a, level, ps[..n]);
      MetaInRange(d, a, level, ps[n]);
    }
  }

  /** A tree is untouched by writes to blocks that are not its indirect blocks. */
  lemma TreeKept(d: Disk, d': Disk, a: nat, level: nat, p: nat, s: set<nat>)
    requires a > 0 && Shape(TreeOf(d, a, level, p), a, level)
    requires OnlyOn(d, d', s) && Meta(TreeOf(d, a, level, p)) !! s
    ensures TreeOf(d', a, level, p) == TreeOf(d, a, level, p)
  {
    hide TreesOf, Decode;
    MetaInRange(d, a, level, p);
    TreeFrame(d, d', a, level, p);
  }

  lemma TreesKept(d: Disk, d': Disk, a: nat, level: nat, ps: seq<nat>, s: set<nat>)
    requires a > 0 && ShapeAll(TreesOf(d, a, level, ps), a, level)
    requires OnlyOn(d, d', s) && MetaAll(TreesOf(d, a, level, ps)) !! s
    ensures TreesOf(d', a, level, ps) == TreesOf(d, a, level, ps)
  {
    hide TreesOf, Decode;
    MetaAllInRange(d, a, level, ps);
    TreesFrame(d, d', a, level, ps);
  }

  /** A table of pointers is all zero exactly when it denotes only holes. */
  lemma {:induction false} ZeroTable(d: Disk, a: nat, level: nat, ps: seq<nat>)
    ensures AllZero(ps) <==> AllHoles(TreesOf(d, a, level, ps))
  {
    if ps != [] {
      var n := |ps| - 1;
      ZeroTable(d, a, level, ps[..n]);
      assert TreesOf(d, a, level, ps)[..n] == TreesOf(d, a, level, ps[..n]);
    }
  }

  // ----- Freeing blocks -----

  /** The sectors of n blocks. */
  function Sectors(g: Geometry, n: nat): nat
  {
    Offset(n, 4 * g.a / 512)
  }

  /** i_blocks is counted in units of 512 bytes. */
  lemma SectorBytes(g: Geometry, n: nat)
    requires g.a % 128 == 0
    ensures 512 * Sectors(g, n) == n * (4 * g.a)
  {
    hide Offset;
    IsProduct(n, 4 * g.a / 512);
    assert 4 * g.a / 512 * 512 == 4 * g.a;
    assert n * (4 * g.a / 512) * 512 == n * (4 * g.a / 512 * 512);
  }

  /** Trees ready to be cut: well formed, sharing nothing, all blocks in use. */
  predicate Ready(ts: seq<Tree>, a: nat, level: nat, used: set<nat>)
  {
    ShapeAll(ts, a, level) && SeparateAll(ts) && OwnAll(ts) <= used
  }

  lemma OnlyOnTransitive(d: Disk, d1: Disk, d2: Disk, s: set<nat>, t: set<nat>)
    requires OnlyOn(d, d1, s) && OnlyOn(d1, d2, t)
    ensures OnlyOn(d, d2, s + t)
  {
  }

  /** Trees of a pointer array grown by one entry, after writes confined to s. */
  lemma TreesGrow(d: Disk, d': Disk, a: nat, level: nat, ps: seq<nat>, p: nat, s: set<nat>)
    requires a > 0 && ShapeAll(TreesOf(d, a, level, ps), a, level)
    requires OnlyOn(d, d', s) && MetaAll(TreesOf(d, a, level, ps)) !! s
    ensures TreesOf(d', a, level, ps + [p]) == TreesOf(d, a, level, ps) + [TreeOf(d', a, level, p)]
  {
    TreesKept(d, d', a, level, ps, s);
    assert (ps + [p])[..|ps|] == ps;
  }

  /** The cut of one more tree. */
  lemma PruneNext(ts: seq<Tree>, a: nat, level: nat, s: nat, n: nat)
    requires ShapeAll(ts, a, level) && n < |ts|
    ensures ShapeAll(ts[..n], a, level) && ShapeAll(ts[..n + 1], a, level) && Shape(ts[n], a, level)
    ensures ShapeAll(PruneAll(ts[..n], a, level, s), a, level)
    ensures PruneAll(ts[..n + 1], a, level, s) ==
            PruneAll(ts[..n], a, level, s) + [Prune(ts[n], a, level, Minus(s, Offset(n, Pow(a, level))))]
  {
    ShapePrefix(ts, a, level, n);
    ShapePrefix(ts, a, level, n + 1);
    ShapeAt(ts, a, level, n);
    PruneAllShape(ts[..n], a, level, s);
    assert ts[..n + 1][..n] == ts[..n];
  }

  /** What tree n owns is apart from the trees before it, cut or not. */
  lemma PruneApart(ts: seq<Tree>, a: nat, level: nat, s: nat, n: nat)
    requires ShapeAll(ts, a, level) && SeparateAll(ts) && n < |ts| && ShapeAll(ts[..n], a, level)
    ensures MetaAll(PruneAll(ts[..n], a, level, s)) !! Meta(ts[n])
    ensures MetaAll(ts[..n + 1]) == MetaAll(ts[..n]) + Meta(ts[n])
  {
    hide PruneAll, Offset, Pow;
    PrefixDisjoint(ts, n);
    PruneAllOwn(ts[..n], a, level, s);
  }

  lemma FreedNext(ts: seq<Tree>, a: nat, level: nat, s: nat, n: nat)
    requires ShapeAll(ts, a, level) && SeparateAll(ts) && n < |ts|
    requires ShapeAll(ts[..n], a, level) && Shape(ts[n], a, level)
    ensures var cut, t' := PruneAll(ts[..n], a, level, s), Prune(ts[n], a, level, Minus(s, Offset(n, Pow(a, level))));
      && Freed(ts[..n + 1], cut + [t']) == Freed(ts[..n], cut) + (Own(ts[n]) - Own(t'))
      && Freed(ts[..n], cut) !! Own(ts[n]) - Own(t')
  {
    hide *;
    PrefixDisjoint(ts, n);
    PruneAllOwn(ts[..n], a, level, s);
    PruneOwn(ts[n], a, level, Minus(s, Offset(n, Pow(a, level))));
    assert ts[..n + 1] == ts[..n] + [ts[n]];
    FreedAppend(ts[..n], PruneAll(ts[..n], a, level, s), ts[n],
                Prune(ts[n], a, level, Minus(s, Offset(n, Pow(a, level)))));
  }

  // ----- One indirect block -----

  lemma {:induction false} HolesOwnNothing(ts: seq<Tree>)
    requires AllHoles(ts)
    ensures OwnAll(ts) == {}
  {
    if ts != [] {
      HolesOwnNothing(ts[..|ts| - 1]);
    }
  }

  /** Writing a table of pointers to block b. */
  lemma TableWritten(d: Disk, d': Disk, a: nat, level: nat, b: nat, block: Block)
    requires a > 0 && b != 0 && b < |d| && |block| == 4 * a
    requires ShapeAll(TreesOf(d, a, level, Decode(block)), a, level)
    requires b !in MetaAll(TreesOf(d, a, level, Decode(block)))
    requires d' == d[b := block]
    ensures TreeOf(d', a, level + 1, b) == Ind(b, TreesOf(d, a, level, Decode(block)))
  {
    hide TreesOf, Decode;
    assert OnlyOn(d, d', {b});
    TreesKept(d, d', a, level, Decode(block), {b});
    assert d'[b] == block;
  }

  lemma DiskUpdateOk(v: Vol, b: nat, block: Block)
    requires Fsck(v) && b < |v.disk| && |block| == 4 * v.geo.a
    ensures Fsck(v.(disk := v.disk[b := block]))
    ensures Used(v.(disk := v.disk[b := block])) == Used(v)
  {
  }

  /** The disk once the table below b has been cut and written back, b still in place. */
  lemma TableCut(d: Disk, d1: Disk, a: nat, level: nat, b: nat, kids: seq<Tree>, block: Block, s: nat)
    requires a > 0 && b != 0 && b < |d| && |block| == 4 * a
    requires ShapeAll(kids, a, level) && b !in OwnAll(kids)
    requires TreesOf(d1, a, level, Decode(block)) == PruneAll(kids, a, level, s)
    requires OnlyOn(d, d1, MetaAll(kids))
    ensures TreeOf(d1[b := block], a, level + 1, b) == Ind(b, PruneAll(kids, a, level, s))
    ensures OnlyOn(d, d1[b := block], MetaAll(kids) + {b})
  {
    hide TreesOf, PruneAll, Decode, Offset, Pow;
    var cut := PruneAll(kids, a, level, s);
    PruneAllShape(kids, a, level, s);
    PruneAllOwn(kids, a, level, s);
    MetaAllOwned(cut);
    TableWritten(d1, d1[b := block], a, level, b, block);
    OnlyOnTransitive(d, d1, d1[b := block], MetaAll(kids), {b});
  }

  lemma ZeroCut(d: Disk, a: nat, level: nat, block: Block)
    requires |block| == 4 * a
    ensures AllZero(block) <==> AllHoles(TreesOf(d, a, level, Decode(block)))
  {
    hide *;
    ZeroBlock(block);
    ZeroTable(d, a, level, Decode(block));
  }

  /** What an indirect block gives back: what its table gives back, and itself if nothing is left. */
  lemma FreedInd(b: nat, kids: seq<Tree>, cut: seq<Tree>)
    requires b !in OwnAll(kids) && OwnAll(cut) <= OwnAll(kids)
    ensures Own(Ind(b, kids)) - Own(Ind(b, cut)) == Freed(kids, cut)
    ensures AllHoles(cut) ==> Own(Ind(b, kids)) - Own(Hole) == Freed(kids, cut) + {b}
  {
    if AllHoles(cut) {
      HolesOwnNothing(cut);
    }
  }

  /** The cut of an indirect block, read off the block that its table is written back as. */
  lemma EntryCut(d: Disk, d1: Disk, a: nat, level: nat, b: nat, kids: seq<Tree>, block: Block, s: nat)
    requires a > 0 && b != 0 && b < |d| && |block| == 4 * a && s < Pow(a, level + 1)
    requires Shape(Ind(b, kids), a, level + 1) && b !in OwnAll(kids) && ShapeAll(kids, a, level)
    requires TreesOf(d1, a, level, Decode(block)) == PruneAll(kids, a, level, s)
    requires OnlyOn(d, d1, MetaAll(kids))
    ensures OnlyOn(d, d1[b := block], Meta(Ind(b, kids)))
    ensures TreeOf(d1[b := block], a, level + 1, if AllZero(block) then 0 else b) ==
            Prune(Ind(b, kids), a, level + 1, s)
    ensures Own(Ind(b, kids)) - Own(Prune(Ind(b, kids), a, level + 1, s)) ==
            Freed(kids, PruneAll(kids, a, level, s)) + if AllZero(block) then {b} else {}
  {
    hide TreesOf, PruneAll, Decode, Offset, Pow;
    TableCut(d, d1, a, level, b, kids, block, s);
    ZeroCut(d1, a, level, block);
    assert MetaAll(kids) + {b} == Meta(Ind(b, kids));
    PruneAllOwn(kids, a, level, s);
    FreedInd(b, kids, PruneAll(kids, a, level, s));
  }

  // ----- The deallocator -----

  /** Volume, i_blocks, pointer array, entries cleared, and return code. */
  datatype Out = Out(vol: Vol, iblocks: int, ps: seq<nat>, freed: nat, ret: Err)

  /** ext2_block_alloc_stats with inuse -1. */
  function Give(v: Vol, b: nat): (r: Vol)
    ensures r.geo == v.geo && r.disk == v.disk
  {
    if v.geo.perGroup > 0 && v.geo.first <= b < v.geo.first + |v.bits| && GroupOf(v, b) < |v.groupFree|
    then AllocStats(v, b, false)
    else v
  }

  function Store(v: Vol, b: nat, ps: seq<nat>): (r: Vol)
    requires b < |v.disk|
    ensures r.geo == v.geo && |r.disk| == |v.disk|
  {
    v.(disk := v.disk[b := Encode(ps)])
  }

  /** The same volume geometry and array length as before. */
  predicate Fits(o: Out, v: Vol, ps: seq<nat>)
  {
    o.vol.geo == v.geo && |o.vol.disk| == |v.disk| && |o.ps| == |ps|
  }

  /** One entry of ext2_dealloc_indirect_block, for a range that reaches the end of the array. */
  function Entry(o: Out, level: nat, start: nat, i: nat): (r: Out)
    requires i < |o.ps|
    ensures Fits(r, o.vol, o.ps)
    decreases level, 0
  {
    var inc := Pow(o.vol.geo.a, level);
    var offset := Offset(i, inc);
    var b := o.ps[i];
    if b == 0 || offset + inc <= start then o
    else if level == 0 then o.(vol := Give(o.vol, b), ps := o.ps[i := 0], freed := o.freed + 1)
    else if b >= |o.vol.disk| then o.(ret := EINVAL)
    else
      var r := CutTable(o.vol, o.iblocks, Decode(o.vol.disk[b]), level - 1, Minus(start, offset));
      if r.ret != Ok then o.(vol := r.vol, iblocks := r.iblocks, ret := r.ret)
      else
        var v := Store(r.vol, b, r.ps);
        if !AllZero(v.disk[b]) then o.(vol := v, iblocks := r.iblocks)
        else o.(vol := Give(v, b), iblocks := r.iblocks, ps := o.ps[i := 0], freed := o.freed + 1)
  }

  /** The state after the first n entries, stopping at an error. */
  function After(v: Vol, iblocks: int, ps: seq<nat>, level: nat, start: nat, n: nat): (r: Out)
    requires n <= |ps|
    ensures Fits(r, v, ps)
    decreases level, 1, n
  {
    if n == 0 then Out(v, iblocks, ps, 0, Ok)
    else
      var o := After(v, iblocks, ps, level, start, n - 1);
      if o.ret != Ok then o else Entry(o, level, start, n - 1)
  }

  /** ext2_dealloc_indirect_block */
  function CutTable(v: Vol, iblocks: int, ps: seq<nat>, level: nat, start: nat): (r: Out)
    ensures Fits(r, v, ps)
    decreases level, 2
  {
    var o := After(v, iblocks, ps, level, start, |ps|);
    if o.ret != Ok then o else Charge(o)
  }

  /** ext2_iblk_sub_blocks, without the huge-file feature. */
  function Charge(o: Out): Out
  {
    if Sectors(o.vol.geo, o.freed) > o.iblocks then o.(ret := EOVERFLOW)
    else o.(iblocks := o.iblocks - Sectors(o.vol.geo, o.freed))
  }

  // ----- The deallocator carries out the cut -----

  /** The trees ts have been cut to cut, and nothing else has changed. */
  predicate Carried(v: Vol, v': Vol, ts: seq<Tree>, cut: seq<Tree>)
  {
    && Fsck(v')
    && v'.geo == v.geo
    && OnlyOn(v.disk, v'.disk, MetaAll(ts))
    && Used(v') == Used(v) - Freed(ts, cut)
  }

  predicate CarriedOne(v: Vol, v': Vol, t: Tree, t': Tree)
  {
    && Fsck(v')
    && v'.geo == v.geo
    && OnlyOn(v.disk, v'.disk, Meta(t))
    && Used(v') == Used(v) - (Own(t) - Own(t'))
  }

  predicate ReadyOne(t: Tree, a: nat, level: nat, used: set<nat>)
  {
    Shape(t, a, level) && Separate(t) && Own(t) <= used
  }

  lemma GiveOk(v: Vol, b: nat)
    requires Fsck(v) && b != 0 && b in Used(v)
    ensures Fsck(Give(v, b)) && Used(Give(v, b)) == Used(v) - {b}
  {
    hide Offset;
    AllocStatsOk(v, b, false);
  }

  lemma StoreOk(v: Vol, b: nat, ps: seq<nat>)
    requires Fsck(v) && b < |v.disk| && |ps| == v.geo.a && AllWords(ps)
    ensures Fsck(Store(v, b, ps)) && Used(Store(v, b, ps)) == Used(v)
    ensures |Store(v, b, ps).disk[b]| == 4 * v.geo.a && Decode(Store(v, b, ps).disk[b]) == ps
  {
    hide Decode, Encode, Offset;
    DiskUpdateOk(v, b, Encode(ps));
    DecodeEncode(ps);
  }

  /** Releasing block b or not, after its cut table has been stored. */
  lemma StoreCarried(v: Vol, v1: Vol, v2: Vol, b: nat, kids: seq<Tree>, cut: seq<Tree>, t': Tree, gone: bool)
    requires Carried(v, v1, kids, cut) && b != 0 && b in Used(v) && b !in OwnAll(kids)
    requires Fsck(v2) && Used(v2) == Used(v1) && v2.geo == v1.geo
    requires OnlyOn(v.disk, v2.disk, Meta(Ind(b, kids)))
    requires Own(Ind(b, kids)) - Own(t') == Freed(kids, cut) + if gone then {b} else {}
    ensures CarriedOne(v, if gone then Give(v2, b) else v2, Ind(b, kids), t')
  {
    hide Offset;
    if gone {
      GiveOk(v2, b);
    }
  }

  /** Storing the cut table of block b, releasing b when it is empty. */
  lemma StoreCut(v: Vol, v1: Vol, a: nat, level: nat, b: nat, kids: seq<Tree>, ps: seq<nat>, s: nat, t': Tree)
    requires v.geo.a == a > 0 && b != 0 && b in Used(v) && b < |v.disk| && s < Pow(a, level + 1)
    requires Shape(Ind(b, kids), a, level + 1) && b !in OwnAll(kids) && ShapeAll(kids, a, level)
    requires t' == Prune(Ind(b, kids), a, level + 1, s)
    requires Carried(v, v1, kids, PruneAll(kids, a, level, s))
    requires TreesOf(v1.disk, a, level, ps) == PruneAll(kids, a, level, s) && AllWords(ps) && |ps| == a
    ensures |v1.disk| == |v.disk|
    ensures var v2 := Store(v1, b, ps);
      var gone := AllZero(v2.disk[b]);
      && CarriedOne(v, if gone then Give(v2, b) else v2, Ind(b, kids), t')
      && TreeOf(v2.disk, a, level + 1, if gone then 0 else b) == t'
  {
    hide TreesOf, PruneAll, Decode, Encode, Offset, Pow;
    var v2 := Store(v1, b, ps);
    StoreOk(v1, b, ps);
    EntryCut(v.disk, v1.disk, a, level, b, kids, v2.disk[b], s);
    StoreCarried(v, v1, v2, b, kids, PruneAll(kids, a, level, s), t', AllZero(v2.disk[b]));
  }

  /** Indirect block b of level + 1, in use, with the well-formed trees kids in its table. */
  predicate Opened(v: Vol, level: nat, b: nat, kids: seq<Tree>)
  {
    && b != 0 && b < |v.disk| && |v.disk[b]| == 4 * v.geo.a && b in Used(v)
    && |kids| == v.geo.a && b !in OwnAll(kids)
    && kids == TreesOf(v.disk, v.geo.a, level, Decode(v.disk[b]))
    && Ready(kids, v.geo.a, level, Used(v))
    && AllWords(Decode(v.disk[b]))
  }

  lemma Open(v: Vol, level: nat, b: nat)
    requires v.geo.a > 0 && b != 0
    requires ReadyOne(TreeOf(v.disk, v.geo.a, level + 1, b), v.geo.a, level + 1, Used(v))
    ensures b < |v.disk|
    ensures Opened(v, level, b, TreesOf(v.disk, v.geo.a, level, Decode(v.disk[b])))
    ensures TreeOf(v.disk, v.geo.a, level + 1, b) == Ind(b, TreesOf(v.disk, v.geo.a, level, Decode(v.disk[b])))
  {
    hide TreesOf, Decode;
    assert b in Own(TreeOf(v.disk, v.geo.a, level + 1, b));
    DecodeBounded(v.disk[b]);
  }

  /** An entry the cut does not reach keeps its tree. */
  lemma PruneMisses(t: Tree, a: nat, level: nat, s: nat)
    requires Shape(t, a, level) && (t.Hole? || Pow(a, level) <= s)
    ensures Prune(t, a, level, s) == t
  {
  }

  /** The outcome r of an entry of state o, whose tree t is to become t'. */
  predicate EntryDone(o: Out, r: Out, level: nat, i: nat, t: Tree, t': Tree)
  {
    && i < |o.ps| && (r.ps == o.ps || r.ps == o.ps[i := 0])
    && CarriedOne(o.vol, r.vol, t, t')
    && TreeOf(r.vol.disk, o.vol.geo.a, level, r.ps[i]) == t'
  }

  /** The cut position inside entry i of level + 1, which the cut reaches. */
  function Within(start: nat, i: nat, a: nat, level: nat): nat
  {
    Minus(start, Offset(i, Pow(a, level + 1)))
  }

  predicate Reached(start: nat, i: nat, a: nat, level: nat)
  {
    start < Offset(i, Pow(a, level + 1)) + Pow(a, level + 1) && 0 < Pow(a, level + 1)
  }

  /** The table ps of kids has been cut to the state r. */
  predicate TableDone(v: Vol, r: Out, level: nat, s: nat, kids: seq<Tree>)
  {
    && ShapeAll(kids, v.geo.a, level)
    && Carried(v, r.vol, kids, PruneAll(kids, v.geo.a, level, s))
    && TreesOf(r.vol.disk, v.geo.a, level, r.ps) == PruneAll(kids, v.geo.a, level, s)
    && AllWords(r.ps)
  }

  /** Cutting an entry that holds an indirect block, given the cut of its table. */
  lemma EntryTable(o: Out, level: nat, start: nat, i: nat, kids: seq<Tree>, r: Out, t': Tree)
    requires o.vol.geo.a > 0 && i < |o.ps| && Opened(o.vol, level, o.ps[i], kids)
    requires Reached(start, i, o.vol.geo.a, level)
    requires Shape(Ind(o.ps[i], kids), o.vol.geo.a, level + 1)
    requires t' == Prune(Ind(o.ps[i], kids), o.vol.geo.a, level + 1, Within(start, i, o.vol.geo.a, level))
    requires r == CutTable(o.vol, o.iblocks, Decode(o.vol.disk[o.ps[i]]), level, Within(start, i, o.vol.geo.a, level))
    requires r.ret == Ok && TableDone(o.vol, r, level, Within(start, i, o.vol.geo.a, level), kids)
    ensures EntryDone(o, Entry(o, level + 1, start, i), level + 1, i, Ind(o.ps[i], kids), t')
  {
    hide TreesOf, PruneAll, Decode, Encode, Offset, Pow;
    StoreCut(o.vol, r.vol, o.vol.geo.a, level, o.ps[i], kids, r.ps, Within(start, i, o.vol.geo.a, level), t');
  }

  lemma EntryMissed(o: Out, level: nat, start: nat, i: nat, t: Tree)
    requires Fsck(o.vol) && i < |o.ps| && t == TreeOf(o.vol.disk, o.vol.geo.a, level, o.ps[i])
    ensures EntryDone(o, o, level, i, t, t)
  {
    hide TreesOf, Decode, Offset;
    assert Used(o.vol) - (Own(t) - Own(t)) == Used(o.vol);
  }

  lemma EntryData(o: Out, start: nat, i: nat)
    requires Fsck(o.vol) && i < |o.ps| && o.ps[i] != 0 && o.ps[i] in Used(o.vol)
    requires start < Offset(i, 1) + 1
    ensures EntryDone(o, Entry(o, 0, start, i), 0, i, Data(o.ps[i]), Hole)
  {
    hide TreesOf, Decode, Encode;
    GiveOk(o.vol, o.ps[i]);
    assert Own(Data(o.ps[i])) - Own(Hole) == {o.ps[i]};
  }

  /** One entry is cut: its pointer then denotes the pruned tree. */
  lemma {:induction false} EntryCuts(o: Out, level: nat, start: nat, i: nat, t: Tree, t': Tree)
    requires Fsck(o.vol) && i < |o.ps| && o.ret == Ok
    requires t == TreeOf(o.vol.disk, o.vol.geo.a, level, o.ps[i]) && ReadyOne(t, o.vol.geo.a, level, Used(o.vol))
    requires t' == Prune(t, o.vol.geo.a, level, Minus(start, Offset(i, Pow(o.vol.geo.a, level))))
    ensures Entry(o, level, start, i).ret == Ok ==> EntryDone(o, Entry(o, level, start, i), level, i, t, t')
    decreases level, 0
  {
    hide TreesOf, PruneAll, Decode, Encode;
    var a := o.vol.geo.a;
    var inc := Pow(a, level);
    var offset := Offset(i, inc);
    if o.ps[i] == 0 || offset + inc <= start {
      PruneMisses(t, a, level, Minus(start, offset));
      EntryMissed(o, level, start, i, t);
    } else if level == 0 {
      assert o.ps[i] in Own(t);
      EntryData(o, start, i);
    } else {
      PowPositive(a, level);
      EntryCutsTable(o, level - 1, start, i, t, t');
    }
  }

  lemma {:induction false} EntryCutsTable(o: Out, level: nat, start: nat, i: nat, t: Tree, t': Tree)
    requires Fsck(o.vol) && i < |o.ps| && o.ps[i] != 0
    requires Reached(start, i, o.vol.geo.a, level)
    requires t == TreeOf(o.vol.disk, o.vol.geo.a, level + 1, o.ps[i])
    requires ReadyOne(t, o.vol.geo.a, level + 1, Used(o.vol))
    requires t' == Prune(t, o.vol.geo.a, level + 1, Within(start, i, o.vol.geo.a, level))
    ensures Entry(o, level + 1, start, i).ret == Ok ==>
      EntryDone(o, Entry(o, level + 1, start, i), level + 1, i, t, t')
    decreases level, 3
  {
    hide TreesOf, PruneAll, Decode, Encode, Offset, Pow;
    var s := Within(start, i, o.vol.geo.a, level);
    Open(o.vol, level, o.ps[i]);
    var ps := Decode(o.vol.disk[o.ps[i]]);
    var kids := TreesOf(o.vol.disk, o.vol.geo.a, level, ps);
    TableCuts(o.vol, o.iblocks, ps, level, s, kids);
    var r := CutTable(o.vol, o.iblocks, ps, level, s);
    if r.ret == Ok {
      EntryTable(o, level, start, i, kids, r, t');
    }
  }

  /** A whole pointer array is cut. */
  lemma {:induction false} TableCuts(v: Vol, iblocks: int, ps: seq<nat>, level: nat, start: nat, ts: seq<Tree>)
    requires Fsck(v) && AllWords(ps) && ts == TreesOf(v.disk, v.geo.a, level, ps)
    requires Ready(ts, v.geo.a, level, Used(v))
    ensures CutTable(v, iblocks, ps, level, start).ret == Ok ==>
      TableDone(v, CutTable(v, iblocks, ps, level, start), level, start, ts)
    decreases level, 2
  {
    hide TreesOf, PruneAll, Decode, Encode, Offset, Pow;
    AfterCuts(v, iblocks, ps, level, start, |ps|, ts);
    assert ts[..|ps|] == ts;
    var o := After(v, iblocks, ps, level, start, |ps|);
    assert o.ps[..|ps|] == o.ps;
  }

  /** After the cut of the first n trees, tree n is still as it was. */
  lemma NextReady(v: Vol, v': Vol, level: nat, ps: seq<nat>, n: nat, ts: seq<Tree>, cut: seq<Tree>)
    requires v.geo.a > 0 && n < |ps| && ts == TreesOf(v.disk, v.geo.a, level, ps)
    requires Ready(ts, v.geo.a, level, Used(v)) && Carried(v, v', ts[..n], cut)
    ensures TreeOf(v'.disk, v.geo.a, level, ps[n]) == ts[n]
    ensures ReadyOne(ts[n], v.geo.a, level, Used(v'))
  {
    hide TreesOf, Decode, Offset;
    TreesAt(v.disk, v.geo.a, level, ps, n);
    ShapeAt(ts, v.geo.a, level, n);
    PrefixDisjoint(ts, n);
    OwnAt(ts, n);
    TreeKept(v.disk, v'.disk, v.geo.a, level, ps[n], MetaAll(ts[..n]));
  }

  /** The cut of one more tree: volumes. */
  lemma NextCarried(v: Vol, v1: Vol, v2: Vol, a: nat, level: nat, start: nat, n: nat, ts: seq<Tree>)
    requires n < |ts| && ShapeAll(ts, a, level) && SeparateAll(ts)
    requires ShapeAll(ts[..n], a, level) && ShapeAll(ts[..n + 1], a, level) && Shape(ts[n], a, level)
    requires Carried(v, v1, ts[..n], PruneAll(ts[..n], a, level, start))
    requires CarriedOne(v1, v2, ts[n], Prune(ts[n], a, level, Minus(start, Offset(n, Pow(a, level)))))
    ensures Carried(v, v2, ts[..n + 1], PruneAll(ts[..n + 1], a, level, start))
  {
    hide PruneAll, Offset, Pow;
    PruneNext(ts, a, level, start, n);
    PruneApart(ts, a, level, start, n);
    FreedNext(ts, a, level, start, n);
    OnlyOnTransitive(v.disk, v1.disk, v2.disk, MetaAll(ts[..n]), Meta(ts[n]));
  }

  /** The cut of one more tree: pointers. */
  lemma NextTrees(d: Disk, d': Disk, a: nat, level: nat, start: nat, n: nat, ts: seq<Tree>, ps: seq<nat>, p: nat)
    requires a > 0 && n < |ts| && ShapeAll(ts, a, level) && SeparateAll(ts) && |ps| == n
    requires ShapeAll(ts[..n], a, level) && ShapeAll(ts[..n + 1], a, level) && Shape(ts[n], a, level)
    requires TreesOf(d, a, level, ps) == PruneAll(ts[..n], a, level, start)
    requires OnlyOn(d, d', Meta(ts[n]))
    requires TreeOf(d', a, level, p) == Prune(ts[n], a, level, Minus(start, Offset(n, Pow(a, level))))
    ensures TreesOf(d', a, level, ps + [p]) == PruneAll(ts[..n + 1], a, level, start)
  {
    hide *;
    PruneNext(ts, a, level, start, n);
    PruneApart(ts, a, level, start, n);
    TreesGrow(d, d', a, level, ps, p, Meta(ts[n]));
  }

  /** The pointers from n on are the same. */
  predicate SameFrom(ps: seq<nat>, qs: seq<nat>, n: nat)
  {
    |ps| == |qs| && forall i :: n <= i < |ps| ==> ps[i] == qs[i]
  }

  /** The first n pointers are cut and the others are as they were. */
  predicate CutTo(v: Vol, o: Out, level: nat, start: nat, n: nat, ts: seq<Tree>, ps: seq<nat>)
    requires n <= |ts| && ShapeAll(ts[..n], v.geo.a, level)
  {
    && |o.ps| == |ps| && n <= |ps| && SameFrom(o.ps, ps, n) && AllWords(o.ps)
    && Carried(v, o.vol, ts[..n], PruneAll(ts[..n], v.geo.a, level, start))
    && TreesOf(o.vol.disk, v.geo.a, level, o.ps[..n]) == PruneAll(ts[..n], v.geo.a, level, start)
  }

  lemma NextCut(v: Vol, o: Out, r: Out, level: nat, start: nat, n: nat, ts: seq<Tree>, ps: seq<nat>)
    requires v.geo.a > 0 && n < |ts| == |ps| && ShapeAll(ts, v.geo.a, level) && SeparateAll(ts)
    requires ShapeAll(ts[..n], v.geo.a, level) && ShapeAll(ts[..n + 1], v.geo.a, level) && Shape(ts[n], v.geo.a, level)
    requires CutTo(v, o, level, start, n, ts, ps)
    requires EntryDone(o, r, level, n, ts[n],
                       Prune(ts[n], v.geo.a, level, Minus(start, Offset(n, Pow(v.geo.a, level)))))
    ensures CutTo(v, r, level, start, n + 1, ts, ps)
  {
    hide TreesOf, PruneAll, Decode, Offset, Pow;
    var a := v.geo.a;
    NextCarried(v, o.vol, r.vol, a, level, start, n, ts);
    NextTrees(o.vol.disk, r.vol.disk, a, level, start, n, ts, o.ps[..n], r.ps[n]);
    assert r.ps[..n + 1] == o.ps[..n] + [r.ps[n]];
  }

  /** What holds when entry n is reached. */
  lemma NextEntry(v: Vol, o: Out, level: nat, start: nat, n: nat, ts: seq<Tree>, ps: seq<nat>)
    requires Fsck(v) && n < |ps| && ts == TreesOf(v.disk, v.geo.a, level, ps)
    requires Ready(ts, v.geo.a, level, Used(v)) && ShapeAll(ts[..n], v.geo.a, level)
    requires CutTo(v, o, level, start, n, ts, ps)
    ensures Fsck(o.vol) && o.vol.geo == v.geo && |o.ps| == |ps|
    ensures ts[n] == TreeOf(o.vol.disk, v.geo.a, level, o.ps[n])
    ensures ReadyOne(ts[n], v.geo.a, level, Used(o.vol))
  {
    hide TreesOf, PruneAll, Decode, Offset, Pow;
    NextReady(v, o.vol, level, ps, n, ts, PruneAll(ts[..n], v.geo.a, level, start));
  }

  /** The first n pointers are cut and the others are as they were, unless an error stopped the loop. */
  lemma {:induction false} AfterCuts(v: Vol, iblocks: int, ps: seq<nat>, level: nat, start: nat, n: nat, ts: seq<Tree>)
    requires Fsck(v) && AllWords(ps) && n <= |ps| && ts == TreesOf(v.disk, v.geo.a, level, ps)
    requires Ready(ts, v.geo.a, level, Used(v))
    ensures ShapeAll(ts[..n], v.geo.a, level)
    ensures After(v, iblocks, ps, level, start, n).ret == Ok ==>
      CutTo(v, After(v, iblocks, ps, level, start, n), level, start, n, ts, ps)
    decreases level, 1, n
  {
    hide TreesOf, PruneAll, Decode, Encode, Offset, Pow;
    ShapePrefix(ts, v.geo.a, level, n);
    if n == 0 {
      assert ts[..0] == [] && PruneAll(ts[..0], v.geo.a, level, start) == [];
    } else {
      AfterCuts(v, iblocks, ps, level, start, n - 1, ts);
      var o := After(v, iblocks, ps, level, start, n - 1);
      if o.ret == Ok {
        ShapeAt(ts, v.geo.a, level, n - 1);
        NextEntry(v, o, level, start, n - 1, ts, ps);
        EntryCuts(o, level, start, n - 1, ts[n - 1],
                  Prune(ts[n - 1], v.geo.a, level, Minus(start, Offset(n - 1, Pow(v.geo.a, level)))));
        if Entry(o, level, start, n - 1).ret == Ok {
          NextCut(v, o, Entry(o, level, start, n - 1), level, start, n - 1, ts, ps);
        }
      }
    }
  }

  // ----- i_blocks -----

  /** The blocks below its root that the cut of one tree gives back. */
  function Below(t: Tree, a: nat, level: nat, s: nat): nat
    requires Shape(t, a, level)
    decreases t, 1
  {
    if t.Ind? && s < Pow(a, level) then
      BelowAll(t.kids, a, level - 1, s) + TopAll(t.kids, a, level - 1, s)
    else 0
  }

  /** 1 if the cut releases the root block of the tree. */
  function Top(t: Tree, a: nat, level: nat, s: nat): nat
    requires Shape(t, a, level)
  {
    if !t.Hole? && Prune(t, a, level, s).Hole? then 1 else 0
  }

  function BelowAll(ts: seq<Tree>, a: nat, level: nat, s: nat): nat
    requires ShapeAll(ts, a, level)
    decreases ts, 0
  {
    if ts == [] then 0
    else
      var n := |ts| - 1;
      BelowAll(ts[..n], a, level, s) + Below(ts[n], a, level, Minus(s, Offset(n, Pow(a, level))))
  }

  function TopAll(ts: seq<Tree>, a: nat, level: nat, s: nat): nat
    requires ShapeAll(ts, a, level)
  {
    if ts == [] then 0
    else
      var n := |ts| - 1;
      TopAll(ts[..n], a, level, s) + Top(ts[n], a, level, Minus(s, Offset(n, Pow(a, level))))
  }

  /** The number of blocks that the cut of consecutive trees gives back. */
  function CutSize(ts: seq<Tree>, a: nat, level: nat, s: nat): nat
    requires ShapeAll(ts, a, level)
  {
    BelowAll(ts, a, level, s) + TopAll(ts, a, level, s)
  }

  /** The count is the size of the set of blocks given back. */
  lemma {:induction false} CutSizeIsFreed(ts: seq<Tree>, a: nat, level: nat, s: nat)
    requires ShapeAll(ts, a, level) && SeparateAll(ts)
    ensures CutSize(ts, a, level, s) == |Freed(ts, PruneAll(ts, a, level, s))|
    decreases ts, 0
  {
    if ts != [] {
      var n := |ts| - 1;
      CutSizeIsFreed(ts[..n], a, level, s);
      LostIsFreed(ts[n], a, level, Minus(s, Offset(n, Pow(a, level))));
      FreedLast(ts, a, level, s, n);
    } else {
      assert Freed(ts, PruneAll(ts, a, level, s)) == {};
    }
  }

  lemma FreedLast(ts: seq<Tree>, a: nat, level: nat, s: nat, n: nat)
    requires ShapeAll(ts, a, level) && SeparateAll(ts) && |ts| == n + 1
    requires ShapeAll(ts[..n], a, level) && Shape(ts[n], a, level)
    ensures |Freed(ts, PruneAll(ts, a, level, s))| ==
            |Freed(ts[..n], PruneAll(ts[..n], a, level, s))| +
            |Own(ts[n]) - Own(Prune(ts[n], a, level, Minus(s, Offset(n, Pow(a, level)))))|
  {
    hide Offset, Pow, Prune, OwnAll, Own, ShapeAll, SeparateAll;
    FreedNext(ts, a, level, s, n);
    assert ts[..n + 1] == ts;
  }

  lemma {:induction false} LostIsFreed(t: Tree, a: nat, level: nat, s: nat)
    requires Shape(t, a, level) && Separate(t)
    ensures Below(t, a, level, s) + Top(t, a, level, s) == |Own(t) - Own(Prune(t, a, level, s))|
    decreases t, 1
  {
    hide PruneAll, Offset, Pow;
    if t.Ind? && s < Pow(a, level) {
      CutSizeIsFreed(t.kids, a, level - 1, s);
      PruneAllOwn(t.kids, a, level - 1, s);
      FreedInd(t.block, t.kids, PruneAll(t.kids, a, level - 1, s));
    } else if t.Data? && s < Pow(a, level) {
      assert Own(t) - Own(Hole) == {t.block};
    } else {
      assert Own(t) - Own(Prune(t, a, level, s)) == {};
    }
  }

  /** The charge of n blocks succeeded, or i_blocks was too small for it. */
  predicate Charged(o: Out, r: Out, n: nat, top: nat)
  {
    && (r.ret == Ok <==> Sectors(o.vol.geo, n) <= o.iblocks)
    && (r.ret == Ok || r.ret == EOVERFLOW)
    && (r.ret == Ok ==> r.iblocks == o.iblocks - Sectors(o.vol.geo, n) && r.freed == o.freed + top)
  }

  lemma {:induction false} EntryCharges(o: Out, level: nat, start: nat, i: nat, t: Tree, m: nat, top: nat)
    requires Fsck(o.vol) && i < |o.ps| && o.ret == Ok && o.iblocks >= 0
    requires t == TreeOf(o.vol.disk, o.vol.geo.a, level, o.ps[i])
    requires ReadyOne(t, o.vol.geo.a, level, Used(o.vol))
    requires m == Below(t, o.vol.geo.a, level, Minus(start, Offset(i, Pow(o.vol.geo.a, level))))
    requires top == Top(t, o.vol.geo.a, level, Minus(start, Offset(i, Pow(o.vol.geo.a, level))))
    ensures Charged(o, Entry(o, level, start, i), m, top)
    decreases level, 0
  {
    hide TreesOf, PruneAll, Decode, Encode;
    var a := o.vol.geo.a;
    var inc := Pow(a, level);
    var offset := Offset(i, inc);
    var s := Minus(start, offset);
    if o.ps[i] == 0 || offset + inc <= start {
      PruneMisses(t, a, level, s);
      NoCharge(o, o, 0);
    } else if level == 0 {
      NoCharge(o, Entry(o, level, start, i), 1);
    } else {
      PowPositive(a, level);
      Open(o.vol, level - 1, o.ps[i]);
      var kids := TreesOf(o.vol.disk, a, level - 1, Decode(o.vol.disk[o.ps[i]]));
      EntryChargesTable(o, level - 1, start, i, kids, m, AllHoles(PruneAll(kids, a, level - 1, s)));
    }
  }

  lemma NoCharge(o: Out, r: Out, top: nat)
    requires o.iblocks >= 0 && r.ret == Ok && r.iblocks == o.iblocks && r.freed == o.freed + top
    ensures Charged(o, r, 0, top)
  {
  }

  /** Charges add up; a failed one stays failed. */
  lemma ChargesAdd(o: Out, o1: Out, r: Out, m: nat, top: nat, n: nat, top': nat)
    requires Charged(o, o1, m, top) && o1.vol.geo == o.vol.geo
    requires if o1.ret == Ok then Charged(o1, r, n, top') else r == o1
    ensures Charged(o, r, m + n, top + top')
  {
    hide Offset;
    OffsetAdd(m, n, 4 * o.vol.geo.a / 512);
  }

  /** The charge for an indirect block's table, read off the state after it. */
  lemma EntryTableCharges(o: Out, level: nat, start: nat, i: nat, r: Out, m: nat, empty: bool)
    requires i < |o.ps| && o.ret == Ok && o.ps[i] != 0 && o.ps[i] < |o.vol.disk|
    requires Reached(start, i, o.vol.geo.a, level)
    requires r == CutTable(o.vol, o.iblocks, Decode(o.vol.disk[o.ps[i]]), level, Within(start, i, o.vol.geo.a, level))
    requires Charged(o, r.(freed := o.freed), m, 0)
    requires r.ret == Ok ==> (AllZero(Store(r.vol, o.ps[i], r.ps).disk[o.ps[i]]) <==> empty)
    ensures Charged(o, Entry(o, level + 1, start, i), m, if empty then 1 else 0)
  {
  }

  lemma StoredEmpty(v: Vol, v1: Vol, level: nat, b: nat, ps: seq<nat>, kids: seq<Tree>, cut: seq<Tree>)
    requires v.geo.a > 0 && Carried(v, v1, kids, cut) && b < |v1.disk|
    requires TreesOf(v1.disk, v.geo.a, level, ps) == cut && AllWords(ps) && |ps| == v.geo.a
    ensures AllZero(Store(v1, b, ps).disk[b]) <==> AllHoles(cut)
  {
    hide TreesOf, Decode, Encode, Offset;
    StoreOk(v1, b, ps);
    ZeroCut(v1.disk, v.geo.a, level, Store(v1, b, ps).disk[b]);
  }

  lemma {:induction false} EntryChargesTable(o: Out, level: nat, start: nat, i: nat, kids: seq<Tree>, m: nat,
                                             empty: bool)
    requires Fsck(o.vol) && i < |o.ps| && o.ret == Ok && o.iblocks >= 0
    requires Reached(start, i, o.vol.geo.a, level)
    requires Opened(o.vol, level, o.ps[i], kids) && ShapeAll(kids, o.vol.geo.a, level)
    requires m == CutSize(kids, o.vol.geo.a, level, Within(start, i, o.vol.geo.a, level))
    requires empty == AllHoles(PruneAll(kids, o.vol.geo.a, level, Within(start, i, o.vol.geo.a, level)))
    ensures Charged(o, Entry(o, level + 1, start, i), m, if empty then 1 else 0)
    decreases level, 3
  {
    hide TreesOf, PruneAll, Decode, Encode, Offset, Pow;
    var s := Within(start, i, o.vol.geo.a, level);
    var ps := Decode(o.vol.disk[o.ps[i]]);
    TableCharges(o.vol, o.iblocks, ps, level, s, kids, m);
    TableEmpties(o.vol, o.iblocks, ps, level, s, kids, o.ps[i]);
    EntryTableCharges(o, level, start, i, CutTable(o.vol, o.iblocks, ps, level, s), m, empty);
  }

  /** The stored table is all zero exactly when the cut leaves only holes. */
  lemma {:induction false} TableEmpties(v: Vol, iblocks: int, ps: seq<nat>, level: nat, start: nat, ts: seq<Tree>,
                                        b: nat)
    requires Fsck(v) && AllWords(ps) && ts == TreesOf(v.disk, v.geo.a, level, ps)
    requires Ready(ts, v.geo.a, level, Used(v)) && |ps| == v.geo.a && b < |v.disk|
    ensures ShapeAll(ts, v.geo.a, level)
    ensures var r := CutTable(v, iblocks, ps, level, start);
      r.ret == Ok ==> (AllZero(Store(r.vol, b, r.ps).disk[b]) <==> AllHoles(PruneAll(ts, v.geo.a, level, start)))
  {
    hide TreesOf, PruneAll, Decode, Encode, Offset, Pow;
    TableCuts(v, iblocks, ps, level, start, ts);
    var r := CutTable(v, iblocks, ps, level, start);
    if r.ret == Ok {
      StoredEmpty(v, r.vol, level, b, r.ps, ts, PruneAll(ts, v.geo.a, level, start));
    }
  }

  /** A pointer array is cut without error exactly when i_blocks covers all the blocks that go. */
  lemma {:induction false} TableCharges(v: Vol, iblocks: int, ps: seq<nat>, level: nat, start: nat, ts: seq<Tree>,
                                        m: nat)
    requires Fsck(v) && AllWords(ps) && ts == TreesOf(v.disk, v.geo.a, level, ps)
    requires Ready(ts, v.geo.a, level, Used(v)) && iblocks >= 0 && ShapeAll(ts, v.geo.a, level)
    requires m == CutSize(ts, v.geo.a, level, start)
    ensures Charged(Out(v, iblocks, ps, 0, Ok), CutTable(v, iblocks, ps, level, start).(freed := 0), m, 0)
    decreases level, 2
  {
    hide TreesOf, PruneAll, Decode, Encode, Offset, Pow;
    var below, top := BelowAll(ts, v.geo.a, level, start), TopAll(ts, v.geo.a, level, start);
    assert ts[..|ps|] == ts;
    AfterCharges(v, iblocks, ps, level, start, |ps|, ts, below, top);
    ChargeDone(Out(v, iblocks, ps, 0, Ok), After(v, iblocks, ps, level, start, |ps|), below, top);
  }

  lemma ChargeDone(o: Out, o1: Out, m: nat, top: nat)
    requires Charged(o, o1, m, top) && o.freed == 0 && o1.vol.geo == o.vol.geo
    ensures Charged(o, (if o1.ret == Ok then Charge(o1) else o1).(freed := 0), m + top, 0)
  {
    hide Offset;
    OffsetAdd(m, top, 4 * o.vol.geo.a / 512);
  }

  lemma BelowNext(ts: seq<Tree>, a: nat, level: nat, s: nat, n: nat)
    requires n < |ts| && ShapeAll(ts[..n], a, level) && ShapeAll(ts[..n + 1], a, level) && Shape(ts[n], a, level)
    ensures BelowAll(ts[..n + 1], a, level, s) ==
            BelowAll(ts[..n], a, level, s) + Below(ts[n], a, level, Minus(s, Offset(n, Pow(a, level))))
    ensures TopAll(ts[..n + 1], a, level, s) ==
            TopAll(ts[..n], a, level, s) + Top(ts[n], a, level, Minus(s, Offset(n, Pow(a, level))))
  {
    hide PruneAll, Offset, Pow;
    assert ts[..n + 1][..n] == ts[..n];
  }

  lemma AfterChargesNext(v: Vol, iblocks: int, ps: seq<nat>, level: nat, start: nat, n: nat, o: Out,
                         m: nat, top: nat, m': nat, top': nat)
    requires 0 < n <= |ps| && o == After(v, iblocks, ps, level, start, n - 1) && m' <= m && top' <= top
    requires Charged(Out(v, iblocks, ps, 0, Ok), o, m - m', top - top')
    requires o.ret == Ok ==> Charged(o, Entry(o, level, start, n - 1), m', top')
    ensures Charged(Out(v, iblocks, ps, 0, Ok), After(v, iblocks, ps, level, start, n), m, top)
  {
    hide Decode, Encode, Offset, Pow;
    ChargesAdd(Out(v, iblocks, ps, 0, Ok), o, After(v, iblocks, ps, level, start, n), m - m', top - top', m', top');
  }

  lemma AfterChargesNone(v: Vol, iblocks: int, ps: seq<nat>, level: nat, start: nat)
    requires iblocks >= 0
    ensures Charged(Out(v, iblocks, ps, 0, Ok), After(v, iblocks, ps, level, start, 0), 0, 0)
  {
  }

  lemma ChargeFits(o: Out, r: Out, m: nat, top: nat)
    requires Charged(o, r, m, top) && r.ret == Ok
    ensures r.iblocks >= 0
  {
  }

  /** The charge of entry n, once the entries before it are cut. */
  lemma {:induction false} EntryAfter(v: Vol, iblocks: int, ps: seq<nat>, level: nat, start: nat, n: nat, ts: seq<Tree>,
                                      o: Out, m: nat, top: nat)
    requires Fsck(v) && AllWords(ps) && n < |ps| && ts == TreesOf(v.disk, v.geo.a, level, ps)
    requires Ready(ts, v.geo.a, level, Used(v)) && Shape(ts[n], v.geo.a, level)
    requires m == Below(ts[n], v.geo.a, level, Minus(start, Offset(n, Pow(v.geo.a, level))))
    requires top == Top(ts[n], v.geo.a, level, Minus(start, Offset(n, Pow(v.geo.a, level))))
    requires o == After(v, iblocks, ps, level, start, n) && o.ret == Ok && o.iblocks >= 0
    ensures Charged(o, Entry(o, level, start, n), m, top)
    decreases level, 1, n, 1
  {
    hide *;
    AfterCuts(v, iblocks, ps, level, start, n, ts);
    NextEntry(v, o, level, start, n, ts, ps);
    EntryCharges(o, level, start, n, ts[n], m, top);
  }

  lemma {:induction false} AfterCharges(v: Vol, iblocks: int, ps: seq<nat>, level: nat, start: nat, n: nat,
                                        ts: seq<Tree>,
                                        m: nat, top: nat)
    requires Fsck(v) && AllWords(ps) && n <= |ps| && ts == TreesOf(v.disk, v.geo.a, level, ps)
    requires Ready(ts, v.geo.a, level, Used(v)) && iblocks >= 0 && ShapeAll(ts[..n], v.geo.a, level)
    requires m == BelowAll(ts[..n], v.geo.a, level, start) && top == TopAll(ts[..n], v.geo.a, level, start)
    ensures Charged(Out(v, iblocks, ps, 0, Ok), After(v, iblocks, ps, level, start, n), m, top)
    decreases level, 1, n, 2
  {
    hide Decode, Encode, Offset, Pow, TreesOf;
    if n == 0 {
      assert ts[..0] == [];
      AfterChargesNone(v, iblocks, ps, level, start);
    } else {
      ShapePrefix(ts, v.geo.a, level, n - 1);
      ShapeAt(ts, v.geo.a, level, n - 1);
      BelowNext(ts, v.geo.a, level, start, n - 1);
      var s := Minus(start, Offset(n - 1, Pow(v.geo.a, level)));
      var m1, top1 := Below(ts[n - 1], v.geo.a, level, s), Top(ts[n - 1], v.geo.a, level, s);
      AfterCharges(v, iblocks, ps, level, start, n - 1, ts, m - m1, top - top1);
      var o := After(v, iblocks, ps, level, start, n - 1);
      if o.ret == Ok {
        ChargeFits(Out(v, iblocks, ps, 0, Ok), o, m - m1, top - top1);
        EntryAfter(v, iblocks, ps, level, start, n - 1, ts, o, m1, top1);
      }
      AfterChargesNext(v, iblocks, ps, level, start, n, o, m, top, m1, top1);
    }
  }

  // ----- The kernel's loops -----

  /** ext2_check_zero_block */
  method CheckZeroBlock(block: Block) returns (zero: bool)
    ensures zero <==> AllZero(block)
  {
    AllZeroMeans(block);
    var i := 0;
    while i < |block|
      invariant i <= |block|
      invariant forall j :: 0 <= j < i ==> block[j] == 0
    {
      if block[i] != 0 {
        return false;
      }
      i := i + 1;
    }
    return true;
  }

  /** ext2_iblk_sub_blocks, without the huge-file feature. */
  method SubBlocks(geo: Geometry, inode: Inode, n: nat) returns (ret: Err)
    modifies inode
    ensures ret == if Sectors(geo, n) > old(inode.iblocks) then EOVERFLOW else Ok
    ensures inode.iblocks == old(inode.iblocks) - if ret == Ok then Sectors(geo, n) else 0
    ensures geo.a % 128 == 0 ==> (ret == Ok <==> n * (4 * geo.a) <= 512 * old(inode.iblocks))
  {
    hide Offset;
    IsProduct(n, 4 * geo.a / 512);
    if geo.a % 128 == 0 {
      SectorBytes(geo, n);
    }
    var sectors := n * (4 * geo.a / 512);
    if sectors > inode.iblocks {
      return EOVERFLOW;
    }
    inode.iblocks := inode.iblocks - sectors;
    return Ok;
  }

  /** ext2_read_blocks into a table of words. */
  method ReadTable(vol: Volume, b: nat) returns (buf: array<nat>)
    requires b < |vol.disk|
    ensures fresh(buf) && buf[..] == Decode(vol.disk[b])
  {
    var ws := Decode(vol.disk[b]);
    buf := new nat[|ws|](i requires 0 <= i < |ws| => ws[i]);
    assert buf[..] == ws;
  }

  /** Give on a block in use is ext2_block_alloc_stats. */
  method Release(vol: Volume, b: nat)
    requires Fsck(vol.Now()) && b in Used(vol.Now())
    modifies vol
    ensures vol.Now() == Give(old(vol.Now()), b)
  {
    GroupBounds(vol.Now(), b);
    vol.BlockAllocStats(b, false);
  }

  /** Write a cut table back to block b; report whether it is empty. */
  method WriteTable(vol: Volume, b: nat, buf: array<nat>) returns (zero: bool)
    requires b < |vol.disk|
    modifies vol
    ensures vol.Now() == Store(old(vol.Now()), b, buf[..])
    ensures zero == AllZero(vol.disk[b])
  {
    vol.disk := vol.disk[b := Encode(buf[..])];
    zero := CheckZeroBlock(vol.disk[b]);
  }

  /** The table part of an array: entries base .. base + max - 1. */
  function Entries(p: array<nat>, base: nat, max: nat): seq<nat>
    requires base + max <= p.Length
    reads p
  {
    p[base..base + max]
  }

  /** The precondition of the deallocator: a sound volume and well-formed trees in use. */
  predicate Fit(v: Vol, ps: seq<nat>, level: nat)
  {
    && Fsck(v) && AllWords(ps)
    && Ready(TreesOf(v.disk, v.geo.a, level, ps), v.geo.a, level, Used(v))
  }

  lemma FitOne(v: Vol, b: nat, level: nat)
    requires b != 0 && Fsck(v)
    requires ReadyOne(TreeOf(v.disk, v.geo.a, level, b), v.geo.a, level, Used(v))
    ensures b in Used(v)
  {
    hide TreesOf, Decode, Offset;
    assert b in Own(TreeOf(v.disk, v.geo.a, level, b));
  }

  /** Cutting one pointer on its own, at the given offset of its array. */
  function Lone(v: Vol, iblocks: int, b: nat, level: nat, start: nat, offset: nat): (r: Out)
    ensures |r.ps| == 1
  {
    if b == 0 || offset + Pow(v.geo.a, level) <= start then Out(v, iblocks, [b], 0, Ok)
    else Entry(Out(v, iblocks, [b], 0, Ok), level, Minus(start, offset), 0)
  }

  /** Cutting entry i of an array is cutting its pointer on its own. */
  lemma EntryLone(o: Out, level: nat, start: nat, i: nat, r: Out)
    requires i < |o.ps| && o.ret == Ok && 0 < Pow(o.vol.geo.a, level)
    requires r == Lone(o.vol, o.iblocks, o.ps[i], level, start, Offset(i, Pow(o.vol.geo.a, level)))
    ensures Entry(o, level, start, i) == Out(r.vol, r.iblocks, o.ps[i := r.ps[0]], o.freed + r.freed, r.ret)
  {
    hide Decode, Encode;
    assert Offset(0, Pow(o.vol.geo.a, level)) == 0;
    assert o.ps[i := o.ps[i]] == o.ps;
  }

  /** Write the cut table back to block b, and release b if the table is empty. */
  method Settle(vol: Volume, b: nat, buf: array<nat>) returns (gone: bool)
    requires Fsck(vol.Now()) && b in Used(vol.Now()) && b < |vol.disk|
    requires buf.Length == vol.geo.a && AllWords(buf[..])
    modifies vol
    ensures gone == AllZero(Encode(buf[..]))
    ensures vol.Now() == if gone then Give(Store(old(vol.Now()), b, buf[..]), b) else Store(old(vol.Now()), b, buf[..])
  {
    hide Encode, Decode, AllZero, Offset;
    StoreOk(vol.Now(), b, buf[..]);
    gone := WriteTable(vol, b, buf);
    if gone {
      Release(vol, b);
    }
  }

  /** What the state after cutting the table of block b allows. */
  lemma TableSound(v: Vol, iblocks: int, level: nat, s: nat, b: nat, kids: seq<Tree>)
    requires Fsck(v) && Opened(v, level, b, kids)
    ensures var r := CutTable(v, iblocks, Decode(v.disk[b]), level, s);
      r.ret == Ok ==> Fsck(r.vol) && b in Used(r.vol) && |r.ps| == v.geo.a && AllWords(r.ps)
  {
    hide TreesOf, PruneAll, Decode, Encode, Offset, Pow;
    TableCuts(v, iblocks, Decode(v.disk[b]), level, s, kids);
  }

  /** An indirect block of level + 1 that the cut reaches: cut its table, then settle it. */
  method DeallocTable(vol: Volume, inode: Inode, b: nat, level: nat, s: nat, count: nat) returns (ret: Err, gone: bool)
    requires b != 0 && Fsck(vol.Now())
    requires ReadyOne(TreeOf(vol.disk, vol.geo.a, level + 1, b), vol.geo.a, level + 1, Used(vol.Now()))
    requires s < Pow(vol.geo.a, level + 1) && 2 * Pow(vol.geo.a, level + 1) <= count
    modifies vol, inode
    ensures Out(vol.Now(), inode.iblocks, [if gone then 0 else b], if gone then 1 else 0, ret) ==
            Entry(Out(old(vol.Now()), old(inode.iblocks), [b], 0, Ok), level + 1, s, 0)
    decreases level, 5
  {
    ghost var v, iblocks := vol.Now(), inode.iblocks;
    Open(v, level, b);
    gone := false;
    var buf := ReadTable(vol, b);
    assert Entries(buf, 0, buf.Length) == buf[..];
    TableSound(v, iblocks, level, s, b, TreesOf(v.disk, v.geo.a, level, buf[..]));
    ret := DeallocIndirectBlock(vol, inode, buf, 0, level, s, count, buf.Length);
    assert Entries(buf, 0, buf.Length) == buf[..];
    ghost var r := CutTable(v, iblocks, Decode(v.disk[b]), level, s);
    if ret == Ok {
      gone := Settle(vol, b, buf);
    }
    EntrySettled(v, iblocks, b, level, s, r,
                 Out(vol.Now(), inode.iblocks, [if gone then 0 else b], if gone then 1 else 0, ret));
  }

  /** The entry of an indirect block, from the outcome of its table. */
  lemma EntrySettled(v: Vol, iblocks: int, b: nat, level: nat, s: nat, r: Out, x: Out)
    requires b != 0 && b < |v.disk| && s < Pow(v.geo.a, level + 1)
    requires r == CutTable(v, iblocks, Decode(v.disk[b]), level, s)
    requires r.ret != Ok ==> x == Out(r.vol, r.iblocks, [b], 0, r.ret)
    requires r.ret == Ok ==>
      var v' := Store(r.vol, b, r.ps);
      x == if AllZero(Encode(r.ps)) then Out(Give(v', b), r.iblocks, [0], 1, Ok) else Out(v', r.iblocks, [b], 0, Ok)
    ensures x == Entry(Out(v, iblocks, [b], 0, Ok), level + 1, s, 0)
  {
    hide Decode, Encode;
    assert Offset(0, Pow(v.geo.a, level + 1)) == 0;
    assert [b][0 := 0] == [0];
  }

  /** One entry of ext2_dealloc_indirect_block: pointer p[at], at the given offset. */
  method DeallocEntry(vol: Volume, inode: Inode, p: array<nat>, at: nat, level: nat, start: nat, offset: nat,
                      count: nat)
    returns (ret: Err, freed: nat)
    requires at < p.Length && Fsck(vol.Now())
    requires ReadyOne(TreeOf(vol.disk, vol.geo.a, level, p[at]), vol.geo.a, level, Used(vol.Now()))
    requires offset + 2 * Pow(vol.geo.a, level) <= count
    modifies vol, inode, p
    ensures p[..] == old(p[..])[at := p[at]]
    ensures Out(vol.Now(), inode.iblocks, [p[at]], freed, ret) ==
            Lone(old(vol.Now()), old(inode.iblocks), old(p[at]), level, start, offset)
    decreases level, 1
  {
    var inc, b := Pow(vol.geo.a, level), p[at];
    ret, freed := Ok, 0;
    if b != 0 && offset + inc > start {
      FitOne(vol.Now(), b, level);
      PowPositive(vol.geo.a, level);
      var gone := true;
      if level == 0 {
        Release(vol, b);
      } else {
        var s := if start > offset then start - offset else 0;
        ret, gone := DeallocTable(vol, inode, b, level - 1, s, count - offset);
      }
      if gone {
        p[at] := 0;
        freed := 1;
      }
    }
  }

  /** One turn of the loop of ext2_dealloc_indirect_block, from the state after i entries. */
  method DeallocNext(vol: Volume, inode: Inode, p: array<nat>, base: nat, level: nat, start: nat, count: nat, max: nat,
                     i: nat, offset: nat, freed: nat, ghost v: Vol, ghost iblocks: int, ghost ps: seq<nat>)
    returns (ret: Err, n: nat)
    requires base + max <= p.Length && i < max == |ps| && Fit(v, ps, level) && v.geo == vol.geo
    requires offset == Offset(i, Pow(v.geo.a, level)) && offset + 2 * Pow(v.geo.a, level) <= count
    requires Out(vol.Now(), inode.iblocks, Entries(p, base, max), freed, Ok) == After(v, iblocks, ps, level, start, i)
    modifies vol, inode, p
    ensures p[..base] == old(p[..base]) && p[base + max..] == old(p[base + max..])
    ensures var x := Out(vol.Now(), inode.iblocks, Entries(p, base, max), n, ret);
      x == After(v, iblocks, ps, level, start, i + 1) && (ret != Ok ==> x == After(v, iblocks, ps, level, start, max))
    decreases level, 2
  {
    hide Decode, Encode, TreesOf, After, Pow;
    ghost var o, q := After(v, iblocks, ps, level, start, i), p[..];
    AtEntry(v, iblocks, ps, level, start, i);
    ret, n := DeallocEntry(vol, inode, p, base + i, level, start, offset, count);
    n := freed + n;
    Frame(q, p[..], base, max, i);
    AfterLone(v, iblocks, ps, level, start, i, o, Lone(o.vol, o.iblocks, o.ps[i], level, start, offset),
              Out(vol.Now(), inode.iblocks, Entries(p, base, max), n, ret));
  }

  /** The loop of ext2_dealloc_indirect_block, for a range that reaches to the end of the array. */
  method DeallocEntries(vol: Volume, inode: Inode, p: array<nat>, base: nat, level: nat,
                        start: nat, count: nat, max: nat) returns (ret: Err, freed: nat)
    requires base + max <= p.Length && Fit(vol.Now(), Entries(p, base, max), level)
    requires 2 * Offset(max, Pow(vol.geo.a, level)) <= count
    modifies vol, inode, p
    ensures p[..base] == old(p[..base]) && p[base + max..] == old(p[base + max..])
    ensures Out(vol.Now(), inode.iblocks, Entries(p, base, max), freed, ret) ==
            After(old(vol.Now()), old(inode.iblocks), old(Entries(p, base, max)), level, start, max)
    decreases level, 3
  {
    ghost var v, iblocks, ps := vol.Now(), inode.iblocks, Entries(p, base, max);
    var inc := Pow(vol.geo.a, level);
    PowPositive(vol.geo.a, level);
    var i, offset := 0, 0;
    ret, freed := Ok, 0;
    while i < max
      invariant i <= max && offset == Offset(i, inc) && ret == Ok
      invariant p[..base] == old(p[..base]) && p[base + max..] == old(p[base + max..])
      invariant Out(vol.Now(), inode.iblocks, Entries(p, base, max), freed, ret) ==
              After(v, iblocks, ps, level, start, i)
    {
      OffsetGrows(i, max, inc);
      if offset >= start + count {
        break;
      }
      ret, freed := DeallocNext(vol, inode, p, base, level, start, count, max, i, offset, freed, v, iblocks, ps);
      if ret != Ok {
        return;
      }
      i, offset := i + 1, offset + inc;
    }
  }

  /**
   ext2_dealloc_indirect_block for a range that reaches to the end of the
   array: cuts the trees of max consecutive pointers at start.
   */
  method DeallocIndirectBlock(vol: Volume, inode: Inode, p: array<nat>, base: nat, level: nat,
                              start: nat, count: nat, max: nat) returns (ret: Err)
    requires base + max <= p.Length && Fit(vol.Now(), Entries(p, base, max), level)
    requires 2 * Offset(max, Pow(vol.geo.a, level)) <= count
    modifies vol, inode, p
    ensures p[..base] == old(p[..base]) && p[base + max..] == old(p[base + max..])
    ensures var o := CutTable(old(vol.Now()), old(inode.iblocks), old(Entries(p, base, max)), level, start);
      vol.Now() == o.vol && inode.iblocks == o.iblocks && Entries(p, base, max) == o.ps && ret == o.ret
    decreases level, 4
  {
    var freed;
    ret, freed := DeallocEntries(vol, inode, p, base, level, start, count, max);
    if ret == Ok {
      ret := SubBlocks(vol.geo, inode, freed);
    }
  }

  /** One element of a window of an array has changed. */
  lemma Frame(q: seq<nat>, q': seq<nat>, base: nat, max: nat, i: nat)
    requires i < max && base + max <= |q| == |q'| && q' == q[base + i := q'[base + i]]
    ensures q'[..base] == q[..base] && q'[base + max..] == q[base + max..]
    ensures q'[base..base + max] == q[base..base + max][i := q'[base + i]]
  {
  }

  /** The state after one more entry; an error ends the loop. */
  lemma AfterLone(v: Vol, iblocks: int, ps: seq<nat>, level: nat, start: nat, i: nat, o: Out, r: Out, x: Out)
    requires i < |ps| && o == After(v, iblocks, ps, level, start, i) && o.ret == Ok && 0 < Pow(v.geo.a, level)
    requires r == Lone(o.vol, o.iblocks, o.ps[i], level, start, Offset(i, Pow(v.geo.a, level)))
    requires x == Out(r.vol, r.iblocks, o.ps[i := r.ps[0]], o.freed + r.freed, r.ret)
    ensures After(v, iblocks, ps, level, start, i + 1) == x
    ensures x.ret != Ok ==> After(v, iblocks, ps, level, start, |ps|) == x
  {
    hide Decode, Encode, Offset, Pow;
    EntryLone(o, level, start, i, r);
    if x.ret != Ok {
      StopsHere(v, iblocks, ps, level, start, i + 1, |ps|);
    }
  }

  /** What holds when the loop reaches entry i. */
  lemma AtEntry(v: Vol, iblocks: int, ps: seq<nat>, level: nat, start: nat, i: nat)
    requires Fit(v, ps, level) && i < |ps| && After(v, iblocks, ps, level, start, i).ret == Ok
    ensures var o := After(v, iblocks, ps, level, start, i);
      && Fsck(o.vol) && 0 < Pow(v.geo.a, level)
      && ReadyOne(TreeOf(o.vol.disk, v.geo.a, level, o.ps[i]), v.geo.a, level, Used(o.vol))
  {
    hide TreesOf, PruneAll, Decode, Encode, Offset, Pow;
    var ts := TreesOf(v.disk, v.geo.a, level, ps);
    AfterCuts(v, iblocks, ps, level, start, i, ts);
    NextEntry(v, After(v, iblocks, ps, level, start, i), level, start, i, ts, ps);
    PowPositive(v.geo.a, level);
  }

  /** An error stops the loop. */
  lemma {:induction false} StopsHere(v: Vol, iblocks: int, ps: seq<nat>, level: nat, start: nat, i: nat, n: nat)
    requires i <= n <= |ps| && After(v, iblocks, ps, level, start, i).ret != Ok
    ensures After(v, iblocks, ps, level, start, n) == After(v, iblocks, ps, level, start, i)
  {
    hide Decode, Encode, Offset, Pow;
    if i < n {
      StopsHere(v, iblocks, ps, level, start, i, n - 1);
    }
  }
}
