/** Mapping a logical block: lookup, assignment and allocation along the pointer tree. */
module Ext2Bmap {
  import opened Bytes
  import opened Errors
  import opened Radix
  import opened Ext2Tree
  import opened Ext2Disk
  import opened Ext2Alloc
  import opened Ext2Truncate
  import opened Ext2Inode

  // ----- block_ind_bmap and its chains -----

  /**
   block_ind_bmap: entry i of indirect block ind is read, set to val, or, with
   alloc, filled by a fresh block when it is 0.
   */
  function IndBmap(v: Vol, set_: bool, alloc: bool, ind: nat, i: nat, val: nat): (r: Step)
    requires Fsck(v) && i < v.geo.a && val < WORD_LIMIT
    ensures Fsck(r.vol) && r.vol.geo == v.geo
  {
    if ind == 0 then Step(v, if set_ then EINVAL else Ok, 0)
    else if ind >= |v.disk| then Step(v, EINVAL, 0)
    else
      var ws := Decode(v.disk[ind]);
      DecodeBounded(v.disk[ind]);
      if set_ then
        StoreOk(v, ind, ws[i := val]);
        Step(Store(v, ind, ws[i := val]), Ok, val)
      else if ws[i] == 0 && alloc then
        var goal := if i != 0 then ws[i - 1] else ind;
        var r := Alloc(v, goal);
        AllocOk(v, goal);
        if r.ret != Ok then r
        else
          StoreOk(r.vol, ind, ws[i := r.result]);
          Step(Store(r.vol, ind, ws[i := r.result]), Ok, r.result)
      else Step(v, Ok, ws[i])
  }

  /** The chain of k lookups that leads from pointer p to block q below it; only the last one sets. */
  function Walk(v: Vol, set_: bool, alloc: bool, p: nat, k: nat, q: nat, val: nat): (r: Step)
    requires Fsck(v) && k > 0 && q < Pow(v.geo.a, k) && val < WORD_LIMIT
    ensures Fsck(r.vol) && r.vol.geo == v.geo
    decreases k
  {
    if k == 1 then
      IsPower(v.geo.a);
      IndBmap(v, set_, alloc, p, q, val)
    else
      var inc := Pow(v.geo.a, k - 1);
      PowPositive(v.geo.a, k - 1);
      Split(q, v.geo.a, inc);
      var r := IndBmap(v, false, alloc, p, Digit(q, inc), 0);
      if r.ret != Ok then r else Walk(r.vol, set_, alloc, r.result, k - 1, Rest(q, inc), val)
  }

  // ----- Changing one tree of a sequence -----

  lemma {:induction false} OwnUpdate(ts: seq<Tree>, i: nat, t: Tree)
    requires SeparateAll(ts) && i < |ts|
    ensures OwnAll(ts[i := t]) == (OwnAll(ts) - Own(ts[i])) + Own(t)
  {
    var n := |ts| - 1;
    if i < n {
      OwnUpdate(ts[..n], i, t);
      OwnAt(ts[..n], i);
      assert ts[i := t][..n] == ts[..n][i := t];
    } else {
      assert ts[i := t][..n] == ts[..n];
    }
  }

  lemma {:induction false} MetaUpdate(ts: seq<Tree>, i: nat, t: Tree)
    requires i < |ts|
    ensures MetaAll(ts[i := t]) <= MetaAll(ts) + Meta(t)
  {
    var n := |ts| - 1;
    if i < n {
      MetaUpdate(ts[..n], i, t);
      assert ts[i := t][..n] == ts[..n][i := t];
    } else {
      assert ts[i := t][..n] == ts[..n];
    }
  }

  lemma {:induction false} ShapeUpdate(ts: seq<Tree>, a: nat, level: nat, i: nat, t: Tree)
    requires ShapeAll(ts, a, level) && i < |ts| && Shape(t, a, level)
    ensures ShapeAll(ts[i := t], a, level)
  {
    var n := |ts| - 1;
    if i < n {
      ShapeUpdate(ts[..n], a, level, i, t);
      assert ts[i := t][..n] == ts[..n][i := t];
    } else {
      assert ts[i := t][..n] == ts[..n];
    }
  }

  /** A tree may be replaced by one that shares nothing with the other trees. */
  lemma {:induction false} SeparateUpdate(ts: seq<Tree>, i: nat, t: Tree)
    requires SeparateAll(ts) && i < |ts| && Separate(t)
    requires Own(t) !! OwnAll(ts) - Own(ts[i])
    ensures SeparateAll(ts[i := t])
  {
    var n := |ts| - 1;
    if i < n {
      OwnAt(ts[..n], i);
      SeparateUpdate(ts[..n], i, t);
      OwnUpdate(ts[..n], i, t);
      assert ts[i := t][..n] == ts[..n][i := t];
    } else {
      assert ts[i := t][..n] == ts[..n];
    }
  }

  lemma {:induction false} TreesUpdate(d: Disk, a: nat, level: nat, ps: seq<nat>, i: nat, x: nat)
    requires i < |ps|
    ensures TreesOf(d, a, level, ps[i := x]) == TreesOf(d, a, level, ps)[i := TreeOf(d, a, level, x)]
  {
    var n := |ps| - 1;
    if i < n {
      TreesUpdate(d, a, level, ps[..n], i, x);
      assert ps[i := x][..n] == ps[..n][i := x];
    } else {
      assert ps[i := x][..n] == ps[..n];
    }
  }

  /** Writes that only concern the indirect blocks of tree i leave the other trees. */
  lemma {:induction false} TreesReplace(d: Disk, d': Disk, a: nat, level: nat, ps: seq<nat>, i: nat, s: set<nat>)
    requires a > 0 && i < |ps| && ShapeAll(TreesOf(d, a, level, ps), a, level) && OnlyOn(d, d', s)
    requires forall j :: 0 <= j < |ps| && j != i ==> Meta(TreesOf(d, a, level, ps)[j]) !! s
    ensures TreesOf(d', a, level, ps) == TreesOf(d, a, level, ps)[i := TreeOf(d', a, level, ps[i])]
  {
    hide *;
    var ts, ts' := TreesOf(d, a, level, ps), TreesOf(d', a, level, ps);
    forall j | 0 <= j < |ps| && j != i
      ensures ts'[j] == ts[j]
    {
      TreesAt(d, a, level, ps, j);
      TreesAt(d', a, level, ps, j);
      ShapeAt(ts, a, level, j);
      TreeKept(d, d', a, level, ps[j], s);
    }
    TreesAt(d', a, level, ps, i);
  }

  // ----- A step along the tree -----

  /** Tree t has become t': only its indirect blocks and the new blocks f were written. */
  predicate Moved(v: Vol, v': Vol, t: Tree, t': Tree, level: nat, f: set<nat>)
  {
    && Fsck(v') && v'.geo == v.geo
    && f !! Used(v) && Used(v') == Used(v) + f
    && Shape(t', v.geo.a, level)
    && OnlyOn(v.disk, v'.disk, Meta(t) + f)
    && Meta(t') <= Meta(t) + f
  }

  /** Tree t has taken in the new blocks f and is still well formed. */
  predicate Grown(v: Vol, v': Vol, t: Tree, t': Tree, level: nat, f: set<nat>)
  {
    Moved(v, v', t, t', level, f) && Separate(t') && Own(t') == Own(t) + f
  }

  lemma MovedTransitive(v: Vol, v1: Vol, v2: Vol, t: Tree, t1: Tree, t2: Tree, level: nat, f1: set<nat>, f2: set<nat>)
    requires Moved(v, v1, t, t1, level, f1) && Moved(v1, v2, t1, t2, level, f2)
    ensures Moved(v, v2, t, t2, level, f1 + f2)
  {
    hide Offset;
    OnlyOnTransitive(v.disk, v1.disk, v2.disk, Meta(t) + f1, Meta(t1) + f2);
  }

  lemma GrownTransitive(v: Vol, v1: Vol, v2: Vol, t: Tree, t1: Tree, t2: Tree, level: nat, f1: set<nat>, f2: set<nat>)
    requires Grown(v, v1, t, t1, level, f1) && Grown(v1, v2, t1, t2, level, f2)
    ensures Grown(v, v2, t, t2, level, f1 + f2)
  {
    hide Offset;
    MovedTransitive(v, v1, v2, t, t1, t2, level, f1, f2);
  }

  lemma NotMoved(v: Vol, t: Tree, level: nat)
    requires Fsck(v) && ReadyOne(t, v.geo.a, level, Used(v))
    ensures Grown(v, v, t, t, level, {})
  {
  }

  /** The other entries own nothing that a change below entry i may write. */
  lemma OthersApart(kids: seq<Tree>, i: nat, j: nat, f: set<nat>, used: set<nat>)
    requires SeparateAll(kids) && i < |kids| && j < |kids| && i != j
    requires OwnAll(kids) <= used && f !! used
    ensures Meta(kids[j]) !! Meta(kids[i]) + f
  {
    hide *;
    MetaOwned(kids[i]);
    MetaOwned(kids[j]);
    OwnAt(kids, j);
    DisjointAt(kids, if i < j then i else j, if i < j then j else i);
  }

  /** Block p keeps its table, and the table its other entries. */
  lemma KidTree(v: Vol, d: Disk, level: nat, p: nat, kids: seq<Tree>, i: nat, f: set<nat>)
    requires v.geo.a > 0 && Opened(v, level, p, kids) && i < |kids|
    requires OnlyOn(v.disk, d, Meta(kids[i]) + f) && f !! Used(v)
    ensures TreeOf(d, v.geo.a, level + 1, p) == Ind(p, kids[i := TreeOf(d, v.geo.a, level, Decode(v.disk[p])[i])])
  {
    hide TreesOf, Decode;
    var ws := Decode(v.disk[p]);
    forall j | 0 <= j < |ws| && j != i
      ensures Meta(TreesOf(v.disk, v.geo.a, level, ws)[j]) !! Meta(kids[i]) + f
    {
      OthersApart(kids, i, j, f, Used(v));
    }
    TreesReplace(v.disk, d, v.geo.a, level, ws, i, Meta(kids[i]) + f);
    OwnAt(kids, i);
    MetaOwned(kids[i]);
    assert d[p] == v.disk[p];
  }

  /** A change below entry i of indirect block p, seen from p. */
  lemma KidMoved(v: Vol, v': Vol, level: nat, p: nat, kids: seq<Tree>, i: nat, t': Tree, f: set<nat>)
    requires ShapeAll(kids, v.geo.a, level) && |kids| == v.geo.a && i < |kids|
    requires Moved(v, v', kids[i], t', level, f)
    ensures Moved(v, v', Ind(p, kids), Ind(p, kids[i := t']), level + 1, f)
  {
    hide Offset;
    OwnAt(kids, i);
    MetaUpdate(kids, i, t');
    ShapeUpdate(kids, v.geo.a, level, i, t');
  }

  lemma KidGrown(v: Vol, v': Vol, level: nat, p: nat, kids: seq<Tree>, i: nat, t': Tree, f: set<nat>)
    requires Opened(v, level, p, kids) && i < |kids|
    requires Grown(v, v', kids[i], t', level, f)
    ensures Grown(v, v', Ind(p, kids), Ind(p, kids[i := t']), level + 1, f)
  {
    hide TreesOf, Decode, Offset;
    KidMoved(v, v', level, p, kids, i, t', f);
    OwnAt(kids, i);
    OwnUpdate(kids, i, t');
    SeparateUpdate(kids, i, t');
  }

  // ----- New blocks -----

  /** The tree of a zeroed block b. */
  predicate New(t: Tree, a: nat, level: nat, b: nat)
  {
    if level == 0 then t == Data(b) else t.Ind? && t.block == b && |t.kids| == a && AllHoles(t.kids)
  }

  lemma {:induction false} HolesReady(ts: seq<Tree>, a: nat, level: nat)
    requires AllHoles(ts)
    ensures ShapeAll(ts, a, level) && SeparateAll(ts) && OwnAll(ts) == {} && MetaAll(ts) == {}
  {
    if ts != [] {
      HolesReady(ts[..|ts| - 1], a, level);
    }
  }

  lemma NewReady(t: Tree, a: nat, level: nat, b: nat)
    requires New(t, a, level, b)
    ensures Shape(t, a, level) && Separate(t) && Own(t) == {b} && Meta(t) <= {b}
  {
    if level > 0 {
      HolesReady(t.kids, a, level - 1);
    }
  }

  /** Below a new indirect block every offset is a hole. */
  lemma NewLookup(t: Tree, a: nat, level: nat, b: nat, off: nat)
    requires a > 0 && New(t, a, level, b) && off < Pow(a, level)
    ensures Shape(t, a, level)
    ensures Lookup(t, a, level, off) == if level == 0 then b else 0
  {
    hide Offset, Pow;
    NewReady(t, a, level, b);
    if level > 0 {
      LookupKid(t, a, level, off);
      AllHolesMeans(t.kids);
    }
  }

  lemma NewTree(d: Disk, a: nat, level: nat, b: nat)
    requires b != 0 && b < |d| && d[b] == Zeros(4 * a)
    ensures New(TreeOf(d, a, level, b), a, level, b)
  {
    hide TreesOf, Decode;
    if level > 0 {
      AllZeroMeans(d[b]);
      ZeroCut(d, a, level - 1, d[b]);
      assert Ind(b, TreesOf(d, a, level - 1, Decode(d[b]))) == TreeOf(d, a, level, b);
    }
  }

  /** A table with entry i replaced, once written to block p. */
  lemma EntryWritten(v: Vol, d: Disk, level: nat, p: nat, kids: seq<Tree>, i: nat, x: nat, f: set<nat>)
    requires v.geo.a > 0 && Opened(v, level, p, kids) && i < |kids|
    requires f !! Used(v) && OnlyOn(v.disk, d, {p} + f)
    requires |d[p]| == 4 * v.geo.a && Decode(d[p]) == Decode(v.disk[p])[i := x]
    ensures TreeOf(d, v.geo.a, level + 1, p) == Ind(p, kids[i := TreeOf(d, v.geo.a, level, x)])
  {
    hide TreesOf, Decode;
    var ws := Decode(v.disk[p]);
    MetaAllOwned(kids);
    TreesKept(v.disk, d, v.geo.a, level, ws, {p} + f);
    TreesUpdate(d, v.geo.a, level, ws, i, x);
  }

  /** A new tree of block b under entry i, which was a hole. */
  lemma FilledGrown(v: Vol, v': Vol, level: nat, p: nat, kids: seq<Tree>, i: nat, t': Tree, b: nat)
    requires Opened(v, level, p, kids) && i < |kids| && kids[i].Hole?
    requires Fsck(v') && v'.geo == v.geo && b !in Used(v) && Used(v') == Used(v) + {b}
    requires OnlyOn(v.disk, v'.disk, {p} + {b}) && New(t', v.geo.a, level, b)
    ensures Grown(v, v', Ind(p, kids), Ind(p, kids[i := t']), level + 1, {b})
  {
    hide TreesOf, Decode, Offset, Fsck, AllWords, Pow, ShapeAll, SeparateAll, OwnAll, MetaAll;
    NewReady(t', v.geo.a, level, b);
    OwnUpdate(kids, i, t');
    SeparateUpdate(kids, i, t');
    MetaUpdate(kids, i, t');
    ShapeUpdate(kids, v.geo.a, level, i, t');
  }

  /** Storing the new block b in entry i of block p. */
  lemma NewStored(v: Vol, v1: Vol, p: nat, i: nat, b: nat)
    requires Fsck(v) && Fsck(v1) && v1.geo == v.geo
    requires p in Used(v) && p < |v.disk| && i < v.geo.a && b !in Used(v) && 0 != b < |v.disk|
    requires v1.disk == v.disk[b := Zeros(4 * v.geo.a)]
    ensures |Decode(v.disk[p])| == v.geo.a
    ensures var v' := Store(v1, p, Decode(v.disk[p])[i := b]);
      && Fsck(v') && Used(v') == Used(v1)
      && |v'.disk[p]| == 4 * v.geo.a && Decode(v'.disk[p]) == Decode(v.disk[p])[i := b]
      && v'.disk[b] == Zeros(4 * v.geo.a)
      && OnlyOn(v.disk, v'.disk, {p} + {b})
  {
    hide Decode, Encode, Offset;
    DecodeBounded(v.disk[p]);
    StoreOk(v1, p, Decode(v.disk[p])[i := b]);
  }

  /** What an allocation in entry i of block p, a hole before, leaves behind. */
  predicate Filled(v: Vol, r: Step, level: nat, p: nat, kids: seq<Tree>, i: nat, t': Tree)
    requires i < |kids|
  {
    && 0 != r.result < |r.vol.disk| && r.result !in Used(v) && p < |r.vol.disk|
    && i < |Decode(r.vol.disk[p])| && Decode(r.vol.disk[p])[i] == r.result
    && r.vol.disk[r.result] == Zeros(4 * v.geo.a)
    && New(t', v.geo.a, level, r.result)
    && TreeOf(r.vol.disk, v.geo.a, level + 1, p) == Ind(p, kids[i := t'])
    && Grown(v, r.vol, Ind(p, kids), Ind(p, kids[i := t']), level + 1, {r.result})
  }

  /** Entry i of block p now points to the new, zeroed block r.result. */
  predicate Pointed(v: Vol, r: Step, p: nat, i: nat)
  {
    && Fsck(r.vol) && r.vol.geo == v.geo
    && 0 != r.result < |r.vol.disk| && r.result !in Used(v) && Used(r.vol) == Used(v) + {r.result}
    && p < |v.disk| && OnlyOn(v.disk, r.vol.disk, {p} + {r.result})
    && i < |Decode(v.disk[p])|
    && |r.vol.disk[p]| == 4 * v.geo.a && Decode(r.vol.disk[p]) == Decode(v.disk[p])[i := r.result]
    && r.vol.disk[r.result] == Zeros(4 * v.geo.a)
  }

  lemma IndPuts(v: Vol, p: nat, i: nat, r: Step)
    requires Fsck(v) && p in Used(v) && 0 != p < |v.disk| && i < v.geo.a
    requires |Decode(v.disk[p])| == v.geo.a && Decode(v.disk[p])[i] == 0
    requires r == IndBmap(v, false, true, p, i, 0) && r.ret == Ok
    ensures Pointed(v, r, p, i)
  {
    hide Decode, Encode, Offset;
    var ws := Decode(v.disk[p]);
    var goal := if i != 0 then ws[i - 1] else p;
    AllocOk(v, goal);
    NewStored(v, Alloc(v, goal).vol, p, i, Alloc(v, goal).result);
  }

  lemma PutFills(v: Vol, level: nat, p: nat, kids: seq<Tree>, i: nat, r: Step, t': Tree)
    requires v.geo.a > 0 && Opened(v, level, p, kids) && i < |kids| && kids[i].Hole?
    requires Pointed(v, r, p, i) && t' == TreeOf(r.vol.disk, v.geo.a, level, r.result)
    ensures Filled(v, r, level, p, kids, i, t')
  {
    hide TreesOf, Decode, Offset;
    NewTree(r.vol.disk, v.geo.a, level, r.result);
    EntryWritten(v, r.vol.disk, level, p, kids, i, r.result, {r.result});
    FilledGrown(v, r.vol, level, p, kids, i, t', r.result);
  }

  lemma IndAllocates(v: Vol, level: nat, p: nat, kids: seq<Tree>, i: nat, r: Step, t': Tree)
    requires Fsck(v) && Opened(v, level, p, kids) && i < |kids| && kids[i].Hole?
    requires r == IndBmap(v, false, true, p, i, 0) && r.ret == Ok && t' == TreeOf(r.vol.disk, v.geo.a, level, r.result)
    ensures Filled(v, r, level, p, kids, i, t')
  {
    hide TreesOf, Decode, Encode, Offset;
    TreesAt(v.disk, v.geo.a, level, Decode(v.disk[p]), i);
    TreeRoot(v.disk, v.geo.a, level, Decode(v.disk[p])[i]);
    IndPuts(v, p, i, r);
    PutFills(v, level, p, kids, i, r, t');
  }

  /** An entry that is in use, or that may not be filled, is only read. */
  lemma IndReads(v: Vol, alloc: bool, level: nat, p: nat, kids: seq<Tree>, i: nat)
    requires Fsck(v) && Opened(v, level, p, kids) && i < |kids|
    requires !alloc || !kids[i].Hole?
    ensures |Decode(v.disk[p])| == v.geo.a
    ensures IndBmap(v, false, alloc, p, i, 0) == Step(v, Ok, Decode(v.disk[p])[i])
    ensures kids[i] == TreeOf(v.disk, v.geo.a, level, Decode(v.disk[p])[i])
    ensures kids[i].Hole? <==> Decode(v.disk[p])[i] == 0
    ensures ReadyOne(kids[i], v.geo.a, level, Used(v))
  {
    hide TreesOf, Decode, Encode, Offset;
    TreesAt(v.disk, v.geo.a, level, Decode(v.disk[p]), i);
    TreeRoot(v.disk, v.geo.a, level, Decode(v.disk[p])[i]);
    ShapeAt(kids, v.geo.a, level, i);
    SeparateAt(kids, i);
    OwnAt(kids, i);
  }

  /** Setting entry i of a lowest-level indirect block. */
  lemma IndSets(v: Vol, alloc: bool, p: nat, kids: seq<Tree>, i: nat, val: nat, r: Step)
    requires Fsck(v) && Opened(v, 0, p, kids) && i < |kids| && val < WORD_LIMIT
    requires r == IndBmap(v, true, alloc, p, i, val)
    ensures r.ret == Ok && r.result == val
    ensures TreeOf(r.vol.disk, v.geo.a, 1, p) == Ind(p, kids[i := TreeOf(r.vol.disk, v.geo.a, 0, val)])
    ensures Moved(v, r.vol, Ind(p, kids), Ind(p, kids[i := TreeOf(r.vol.disk, v.geo.a, 0, val)]), 1, {})
  {
    hide TreesOf, Decode, Encode, Offset;
    var ws := Decode(v.disk[p])[i := val];
    StoreOk(v, p, ws);
    EntryWritten(v, r.vol.disk, 0, p, kids, i, val, {});
    var t' := TreeOf(r.vol.disk, v.geo.a, 0, val);
    MetaUpdate(kids, i, t');
    ShapeUpdate(kids, v.geo.a, 0, i, t');
  }

  // ----- The whole walk -----

  /** The map of an indirect block with entry i replaced. */
  lemma LookupUpdate(a: nat, level: nat, p: nat, kids: seq<Tree>, i: nat, t': Tree, off: nat)
    requires a > 0 && Shape(Ind(p, kids), a, level + 1) && i < |kids| && Shape(t', a, level) && off < Pow(a, level + 1)
    ensures Shape(Ind(p, kids[i := t']), a, level + 1)
    ensures Pow(a, level) > 0 && Rest(off, Pow(a, level)) < Pow(a, level)
    ensures Lookup(Ind(p, kids[i := t']), a, level + 1, off) ==
            if Digit(off, Pow(a, level)) == i then Lookup(t', a, level, Rest(off, Pow(a, level)))
            else Lookup(Ind(p, kids), a, level + 1, off)
  {
    hide Offset, Pow;
    ShapeUpdate(kids, a, level, i, t');
    LookupKid(Ind(p, kids), a, level + 1, off);
    LookupKid(Ind(p, kids[i := t']), a, level + 1, off);
  }

  /** Offset q maps to b, every other offset is as it was. */
  predicate OnlyAt(t: Tree, t': Tree, a: nat, level: nat, q: nat, b: nat, off: nat)
    requires a > 0 && Shape(t, a, level) && Shape(t', a, level) && off < Pow(a, level)
  {
    Lookup(t', a, level, off) == if off == q then b else Lookup(t, a, level, off)
  }

  predicate SameMap(t: Tree, t': Tree, a: nat, level: nat, off: nat)
    requires a > 0 && Shape(t, a, level) && Shape(t', a, level) && off < Pow(a, level)
  {
    Lookup(t', a, level, off) == Lookup(t, a, level, off)
  }

  /** The map of t' at offset off: that of t, but for block b at offset q when the call succeeded. */
  predicate MapStep(t: Tree, t': Tree, a: nat, level: nat, q: nat, b: nat, off: nat, ok: bool)
  {
    && a > 0 && Shape(t, a, level) && Shape(t', a, level) && off < Pow(a, level)
    && (if ok then OnlyAt(t, t', a, level, q, b, off) else SameMap(t, t', a, level, off))
  }

  /** Outcome r of a walk for offset q below pointer p, seen at offset off. */
  predicate Walked(v: Vol, r: Step, level: nat, p: nat, q: nat, off: nat, set_: bool, f: set<nat>)
  {
    var t, t' := TreeOf(v.disk, v.geo.a, level, p), TreeOf(r.vol.disk, v.geo.a, level, p);
    && Moved(v, r.vol, t, t', level, f)
    && (set_ || Grown(v, r.vol, t, t', level, f))
    && MapStep(t, t', v.geo.a, level, q, r.result, off, r.ret == Ok)
  }

  /** A walk that ends without a change. */
  lemma StaysPut(v: Vol, ret: Err, b: nat, level: nat, p: nat, q: nat, off: nat, set_: bool)
    requires Fsck(v) && off < Pow(v.geo.a, level) && q < Pow(v.geo.a, level)
    requires ReadyOne(TreeOf(v.disk, v.geo.a, level, p), v.geo.a, level, Used(v))
    requires ret == Ok ==> b == Lookup(TreeOf(v.disk, v.geo.a, level, p), v.geo.a, level, q)
    ensures Walked(v, Step(v, ret, b), level, p, q, off, set_, {})
  {
    hide TreesOf, Decode, Offset, Pow;
    NotMoved(v, TreeOf(v.disk, v.geo.a, level, p), level);
  }

  /** Two offsets are equal when their digits are. */
  lemma SameDigits(q: nat, off: nat, a: nat, inc: nat)
    requires inc > 0 && q < Offset(a, inc) && off < Offset(a, inc)
    ensures q == off <==> Digit(q, inc) == Digit(off, inc) && Rest(q, inc) == Rest(off, inc)
  {
    hide *;
    Split(q, a, inc);
    Split(off, a, inc);
  }

  /** Changing the map below entry i of block p at offset q' only changes the map of p at q only. */
  lemma DescendMap(a: nat, level: nat, p: nat, kids: seq<Tree>, i: nat, t': Tree, q: nat, q': nat, off: nat, off': nat,
                   b: nat)
    requires a > 0 && Shape(Ind(p, kids), a, level + 1) && Shape(t', a, level) && Pow(a, level) > 0
    requires q < Pow(a, level + 1) && off < Pow(a, level + 1) && off' < Pow(a, level)
    requires i == Digit(q, Pow(a, level)) < |kids| && Shape(kids[i], a, level)
    requires q' == Rest(q, Pow(a, level)) && off' == Rest(off, Pow(a, level))
    ensures Shape(Ind(p, kids[i := t']), a, level + 1)
    ensures OnlyAt(kids[i], t', a, level, q', b, off') ==>
            OnlyAt(Ind(p, kids), Ind(p, kids[i := t']), a, level + 1, q, b, off)
    ensures SameMap(kids[i], t', a, level, off') ==> SameMap(Ind(p, kids), Ind(p, kids[i := t']), a, level + 1, off)
  {
    LookupUpdate(a, level, p, kids, i, t', off);
    LookupKid(Ind(p, kids), a, level + 1, off);
    SameDigits(q, off, a, Pow(a, level));
  }

  /** What a walk below entry i of block p means for p. */
  lemma Descend(v: Vol, r: Step, level: nat, p: nat, kids: seq<Tree>, q: nat, off: nat, set_: bool, f: set<nat>, i: nat,
                q': nat, off': nat)
    requires Opened(v, level, p, kids) && v.geo.a > 0 && Pow(v.geo.a, level) > 0
    requires q < Pow(v.geo.a, level + 1) && off < Pow(v.geo.a, level + 1)
    requires i == Digit(q, Pow(v.geo.a, level)) < |kids|
    requires q' == Rest(q, Pow(v.geo.a, level)) && off' == Rest(off, Pow(v.geo.a, level))
    requires Walked(v, r, level, Decode(v.disk[p])[i], q', off', set_, f)
    ensures Walked(v, r, level + 1, p, q, off, set_, f)
  {
    hide TreesOf, Decode, Offset, Pow;
    var t' := TreeOf(r.vol.disk, v.geo.a, level, Decode(v.disk[p])[i]);
    TreesAt(v.disk, v.geo.a, level, Decode(v.disk[p]), i);
    KidTree(v, r.vol.disk, level, p, kids, i, f);
    KidMoved(v, r.vol, level, p, kids, i, t', f);
    if !set_ {
      KidGrown(v, r.vol, level, p, kids, i, t', f);
    }
    DescendMap(v.geo.a, level, p, kids, i, t', q, q', off, off', r.result);
  }

  /** Nothing is mapped below a hole. */
  lemma {:induction false} WalkHole(v: Vol, set_: bool, alloc: bool, k: nat, q: nat, val: nat)
    requires Fsck(v) && k > 0 && q < Pow(v.geo.a, k) && val < WORD_LIMIT
    ensures Walk(v, set_, alloc, 0, k, q, val) == Step(v, if set_ then EINVAL else Ok, 0)
  {
    hide Decode, Encode;
    if k > 1 {
      PowPositive(v.geo.a, k - 1);
      Split(q, v.geo.a, Pow(v.geo.a, k - 1));
      WalkHole(v, set_, alloc, k - 1, Rest(q, Pow(v.geo.a, k - 1)), val);
    }
  }

  /** A new entry on the way, then the rest of the walk. */
  lemma Compose(v: Vol, v1: Vol, r: Step, level: nat, p: nat, q: nat, off: nat, set_: bool, f1: set<nat>, f2: set<nat>)
    requires Shape(TreeOf(v.disk, v.geo.a, level, p), v.geo.a, level) && v.geo.a > 0 && off < Pow(v.geo.a, level)
    requires Grown(v, v1, TreeOf(v.disk, v.geo.a, level, p), TreeOf(v1.disk, v.geo.a, level, p), level, f1)
    requires SameMap(TreeOf(v.disk, v.geo.a, level, p), TreeOf(v1.disk, v.geo.a, level, p), v.geo.a, level, off)
    requires Walked(v1, r, level, p, q, off, set_, f2)
    ensures Walked(v, r, level, p, q, off, set_, f1 + f2)
  {
    hide TreesOf, Decode, Offset, Pow;
    var t, t1, t2 := TreeOf(v.disk, v.geo.a, level, p), TreeOf(v1.disk, v.geo.a, level, p),
                     TreeOf(r.vol.disk, v.geo.a, level, p);
    MovedTransitive(v, v1, r.vol, t, t1, t2, level, f1, f2);
    if !set_ {
      GrownTransitive(v, v1, r.vol, t, t1, t2, level, f1, f2);
    }
  }

  /** Entry q of a lowest-level indirect block has become t', which maps to b. */
  lemma LastMap(a: nat, p: nat, kids: seq<Tree>, q: nat, t': Tree, b: nat, off: nat)
    requires a > 0 && Shape(Ind(p, kids), a, 1) && q < |kids| && off < Pow(a, 1) && Shape(t', a, 0)
    requires 0 < Pow(a, 0) && Lookup(t', a, 0, 0) == b
    ensures MapStep(Ind(p, kids), Ind(p, kids[q := t']), a, 1, q, b, off, true)
  {
    hide Shape, Offset;
    OneDigit(off);
    LookupUpdate(a, 0, p, kids, q, t', off);
  }

  /** The last step of a walk, filling or setting the entry. */
  lemma WalkLast(v: Vol, set_: bool, alloc: bool, p: nat, kids: seq<Tree>, q: nat, val: nat, off: nat)
    returns (f: set<nat>)
    requires Fsck(v) && Opened(v, 0, p, kids) && q < v.geo.a && off < v.geo.a && val < WORD_LIMIT
    requires TreeOf(v.disk, v.geo.a, 1, p) == Ind(p, kids)
    requires ReadyOne(Ind(p, kids), v.geo.a, 1, Used(v))
    ensures Walked(v, IndBmap(v, set_, alloc, p, q, val), 1, p, q, off, set_, f)
  {
    hide TreesOf, Decode, Encode, Offset, IndBmap, Fsck;
    var a := v.geo.a;
    var r := IndBmap(v, set_, alloc, p, q, val);
    IsPower(a);
    LookupKid(Ind(p, kids), a, 1, q);
    OneDigit(q);
    IndIgnores(v, alloc, p, q, val);
    f := {};
    if set_ {
      IndSets(v, alloc, p, kids, q, val, r);
      LastMap(a, p, kids, q, TreeOf(r.vol.disk, a, 0, val), val, off);
    } else if alloc && kids[q].Hole? {
      if r.ret == Ok {
        f := {r.result};
        var t' := TreeOf(r.vol.disk, a, 0, r.result);
        IndAllocates(v, 0, p, kids, q, r, t');
        LastMap(a, p, kids, q, t', r.result, off);
      } else {
        IndRefused(v, p, q);
        StaysPut(v, r.ret, r.result, 1, p, q, off, set_);
      }
    } else {
      IndReads(v, alloc, 0, p, kids, q);
      StaysPut(v, r.ret, r.result, 1, p, q, off, set_);
    }
  }

  lemma IndIgnores(v: Vol, alloc: bool, p: nat, q: nat, val: nat)
    requires Fsck(v) && q < v.geo.a && val < WORD_LIMIT
    ensures IndBmap(v, false, alloc, p, q, val) == IndBmap(v, false, alloc, p, q, 0)
  {
    hide Decode, Encode;
  }

  lemma IndRefused(v: Vol, p: nat, q: nat)
    requires Fsck(v) && q < v.geo.a && IndBmap(v, false, true, p, q, 0).ret != Ok
    ensures IndBmap(v, false, true, p, q, 0).vol == v
  {
    hide Decode, Encode;
    if 0 != p < |v.disk| {
      AllocOk(v, if q != 0 then Decode(v.disk[p])[q - 1] else p);
    }
  }

  lemma {:induction false} OneDigit(q: nat)
    ensures Digit(q, 1) == q && Rest(q, 1) == 0
  {
    if q > 0 {
      OneDigit(q - 1);
    }
  }

  /** The first step of a longer walk filled entry i: the map has not changed, and the walk can go on. */
  lemma FirstFilled(v: Vol, r: Step, level: nat, p: nat, kids: seq<Tree>, i: nat, t1: Tree, off: nat)
    requires Fsck(v) && Opened(v, level, p, kids) && i < |kids| && kids[i].Hole? && level > 0
    requires Shape(Ind(p, kids), v.geo.a, level + 1) && off < Pow(v.geo.a, level + 1)
    requires t1 == TreeOf(r.vol.disk, v.geo.a, level, r.result) && Filled(v, r, level, p, kids, i, t1)
    ensures Opened(r.vol, level, p, kids[i := t1])
    ensures Shape(Ind(p, kids[i := t1]), v.geo.a, level + 1)
    ensures SameMap(Ind(p, kids), Ind(p, kids[i := t1]), v.geo.a, level + 1, off)
  {
    hide TreesOf, Decode, Offset, Pow;
    Open(r.vol, level, p);
    NewReady(t1, v.geo.a, level, r.result);
    LookupUpdate(v.geo.a, level, p, kids, i, t1, off);
    LookupKid(Ind(p, kids), v.geo.a, level + 1, off);
    NewLookup(t1, v.geo.a, level, r.result, Rest(off, Pow(v.geo.a, level)));
  }

  /** The unfolding of a walk of two or more steps. */
  lemma WalkUnfold(v: Vol, set_: bool, alloc: bool, p: nat, level: nat, q: nat, val: nat)
    requires Fsck(v) && level > 0 && q < Pow(v.geo.a, level + 1) && val < WORD_LIMIT
    ensures Pow(v.geo.a, level) > 0 && Digit(q, Pow(v.geo.a, level)) < v.geo.a
    ensures Rest(q, Pow(v.geo.a, level)) < Pow(v.geo.a, level)
    ensures var r := IndBmap(v, false, alloc, p, Digit(q, Pow(v.geo.a, level)), 0);
      Walk(v, set_, alloc, p, level + 1, q, val) ==
      if r.ret != Ok then r else Walk(r.vol, set_, alloc, r.result, level, Rest(q, Pow(v.geo.a, level)), val)
  {
    hide Decode, Encode;
    PowPositive(v.geo.a, level);
    Split(q, v.geo.a, Pow(v.geo.a, level));
  }

  /**
   The chain of lookups below a pointer: whatever the flags, only the mapping
   of offset q may change; without SET the tree stays well formed and takes in
   exactly the blocks that were newly marked in use.
   */
  lemma {:induction false} WalkMaps(v: Vol, set_: bool, alloc: bool, p: nat, k: nat, q: nat, val: nat, off: nat)
    returns (f: set<nat>)
    requires Fsck(v) && k > 0 && q < Pow(v.geo.a, k) && off < Pow(v.geo.a, k) && val < WORD_LIMIT && p != 0
    requires ReadyOne(TreeOf(v.disk, v.geo.a, k, p), v.geo.a, k, Used(v))
    ensures Walked(v, Walk(v, set_, alloc, p, k, q, val), k, p, q, off, set_, f)
    decreases k, 0
  {
    hide TreesOf, Decode, Encode, Offset, Pow;
    if k == 1 {
      Open(v, 0, p);
      IsPower(v.geo.a);
      f := WalkLast(v, set_, alloc, p, TreesOf(v.disk, v.geo.a, 0, Decode(v.disk[p])), q, val, off);
    } else {
      f := WalkLong(v, set_, alloc, p, k - 1, q, val, off);
    }
  }

  lemma {:induction false} WalkLong(v: Vol, set_: bool, alloc: bool, p: nat, level: nat, q: nat, val: nat, off: nat)
    returns (f: set<nat>)
    requires Fsck(v) && level > 0 && q < Pow(v.geo.a, level + 1) && off < Pow(v.geo.a, level + 1)
    requires val < WORD_LIMIT && p != 0
    requires ReadyOne(TreeOf(v.disk, v.geo.a, level + 1, p), v.geo.a, level + 1, Used(v))
    ensures Walked(v, Walk(v, set_, alloc, p, level + 1, q, val), level + 1, p, q, off, set_, f)
    decreases level, 3
  {
    hide TreesOf, Decode, Encode;
    Open(v, level, p);
    var kids := TreesOf(v.disk, v.geo.a, level, Decode(v.disk[p]));
    PowPositive(v.geo.a, level);
    Split(q, v.geo.a, Pow(v.geo.a, level));
    if alloc && kids[Digit(q, Pow(v.geo.a, level))].Hole? {
      f := WalkFill(v, set_, p, level, kids, q, val, off);
    } else {
      f := WalkPass(v, set_, alloc, p, level, kids, q, val, off);
    }
  }

  /** A longer walk whose first entry has to be filled. */
  lemma {:induction false} WalkFill(v: Vol, set_: bool, p: nat, level: nat, kids: seq<Tree>, q: nat, val: nat, off: nat)
    returns (f: set<nat>)
    requires Fsck(v) && level > 0 && q < Pow(v.geo.a, level + 1) && off < Pow(v.geo.a, level + 1) && val < WORD_LIMIT
    requires Opened(v, level, p, kids) && Pow(v.geo.a, level) > 0
    requires TreeOf(v.disk, v.geo.a, level + 1, p) == Ind(p, kids)
    requires ReadyOne(Ind(p, kids), v.geo.a, level + 1, Used(v))
    requires Digit(q, Pow(v.geo.a, level)) < |kids| && kids[Digit(q, Pow(v.geo.a, level))].Hole?
    ensures Walked(v, Walk(v, set_, true, p, level + 1, q, val), level + 1, p, q, off, set_, f)
    decreases level, 2
  {
    hide TreesOf, Decode, Encode, Offset, Pow;
    WalkUnfold(v, set_, true, p, level, q, val);
    var i := Digit(q, Pow(v.geo.a, level));
    var r1 := IndBmap(v, false, true, p, i, 0);
    if r1.ret == Ok {
      var t1 := TreeOf(r1.vol.disk, v.geo.a, level, r1.result);
      IndAllocates(v, level, p, kids, i, r1, t1);
      FirstFilled(v, r1, level, p, kids, i, t1, off);
      var r := Walk(r1.vol, set_, true, r1.result, level, Rest(q, Pow(v.geo.a, level)), val);
      var f2 := WalkBelow(r1.vol, set_, true, p, level, kids[i := t1], q, val, off, i, r1.result, r);
      Compose(v, r1.vol, r, level + 1, p, q, off, set_, {r1.result}, f2);
      f := {r1.result} + f2;
    } else {
      f := {};
      StaysPut(v, r1.ret, r1.result, level + 1, p, q, off, set_);
    }
  }

  /** A longer walk whose first entry is only read. */
  lemma {:induction false} WalkPass(v: Vol, set_: bool, alloc: bool, p: nat, level: nat, kids: seq<Tree>, q: nat,
                                    val: nat, off: nat) returns (f: set<nat>)
    requires Fsck(v) && level > 0 && q < Pow(v.geo.a, level + 1) && off < Pow(v.geo.a, level + 1) && val < WORD_LIMIT
    requires Opened(v, level, p, kids) && Pow(v.geo.a, level) > 0
    requires TreeOf(v.disk, v.geo.a, level + 1, p) == Ind(p, kids)
    requires ReadyOne(Ind(p, kids), v.geo.a, level + 1, Used(v))
    requires Digit(q, Pow(v.geo.a, level)) < |kids| && !(alloc && kids[Digit(q, Pow(v.geo.a, level))].Hole?)
    ensures Walked(v, Walk(v, set_, alloc, p, level + 1, q, val), level + 1, p, q, off, set_, f)
    decreases level, 2
  {
    hide TreesOf, Decode, Encode, Offset, Pow;
    WalkUnfold(v, set_, alloc, p, level, q, val);
    var i := Digit(q, Pow(v.geo.a, level));
    IndReads(v, alloc, level, p, kids, i);
    var c := Decode(v.disk[p])[i];
    if c == 0 {
      f := {};
      WalkHole(v, set_, alloc, level, Rest(q, Pow(v.geo.a, level)), val);
      LookupKid(Ind(p, kids), v.geo.a, level + 1, q);
      StaysPut(v, if set_ then EINVAL else Ok, 0, level + 1, p, q, off, set_);
    } else {
      f := WalkBelow(v, set_, alloc, p, level, kids, q, val, off, i, c, Walk(v, set_, alloc, p, level + 1, q, val));
    }
  }

  lemma {:induction false} WalkBelow(v: Vol, set_: bool, alloc: bool, p: nat, level: nat, kids: seq<Tree>, q: nat,
                                     val: nat, off: nat,
                                     i: nat, c: nat, r: Step) returns (f: set<nat>)
    requires Fsck(v) && level > 0 && q < Pow(v.geo.a, level + 1) && off < Pow(v.geo.a, level + 1) && val < WORD_LIMIT
    requires Opened(v, level, p, kids) && Pow(v.geo.a, level) > 0
    requires i == Digit(q, Pow(v.geo.a, level)) < |kids| && Rest(q, Pow(v.geo.a, level)) < Pow(v.geo.a, level)
    requires c == Decode(v.disk[p])[i] && c != 0
    requires r == Walk(v, set_, alloc, c, level, Rest(q, Pow(v.geo.a, level)), val)
    ensures Walked(v, r, level + 1, p, q, off, set_, f)
    decreases level, 1
  {
    hide TreesOf, Decode, Encode;
    TreesAt(v.disk, v.geo.a, level, Decode(v.disk[p]), i);
    ShapeAt(kids, v.geo.a, level, i);
    SeparateAt(kids, i);
    OwnAt(kids, i);
    Split(off, v.geo.a, Pow(v.geo.a, level));
    var q', off' := Rest(q, Pow(v.geo.a, level)), Rest(off, Pow(v.geo.a, level));
    f := WalkMaps(v, set_, alloc, c, level, q', val, off');
    Descend(v, r, level, p, kids, q, off, set_, f, i, q', off');
  }

  /** The last lookup reads the mapped block. */
  lemma {:induction false} WalkReads(v: Vol, alloc: bool, p: nat, k: nat, q: nat)
    requires Fsck(v) && k > 0 && q < Pow(v.geo.a, k) && p != 0
    requires ReadyOne(TreeOf(v.disk, v.geo.a, k, p), v.geo.a, k, Used(v))
    requires !alloc || Lookup(TreeOf(v.disk, v.geo.a, k, p), v.geo.a, k, q) != 0
    ensures Walk(v, false, alloc, p, k, q, 0) == Step(v, Ok, Lookup(TreeOf(v.disk, v.geo.a, k, p), v.geo.a, k, q))
    decreases k
  {
    hide TreesOf, Decode, Encode;
    var level := k - 1;
    Open(v, level, p);
    var kids := TreesOf(v.disk, v.geo.a, level, Decode(v.disk[p]));
    LookupKid(Ind(p, kids), v.geo.a, k, q);
    var i := Digit(q, Pow(v.geo.a, level));
    IndReads(v, alloc, level, p, kids, i);
    if k == 1 {
      OneDigit(q);
    } else {
      WalkUnfold(v, false, alloc, p, level, q, 0);
      if kids[i].Hole? {
        WalkHole(v, false, alloc, level, Rest(q, Pow(v.geo.a, level)), 0);
      } else {
        WalkReads(v, alloc, Decode(v.disk[p])[i], level, Rest(q, Pow(v.geo.a, level)));
      }
    }
  }

  // ----- Setting an entry -----

  /** A walk that sets and succeeds returns the value it was given. */
  lemma {:induction false} WalkResult(v: Vol, alloc: bool, p: nat, k: nat, q: nat, val: nat)
    requires Fsck(v) && k > 0 && q < Pow(v.geo.a, k) && val < WORD_LIMIT
    ensures Walk(v, true, alloc, p, k, q, val).ret == Ok ==> Walk(v, true, alloc, p, k, q, val).result == val
    decreases k
  {
    hide Decode, Encode, Fsck, Pow;
    if k > 1 {
      WalkUnfold(v, true, alloc, p, k - 1, q, val);
      var r := IndBmap(v, false, alloc, p, Digit(q, Pow(v.geo.a, k - 1)), 0);
      if r.ret == Ok {
        WalkResult(r.vol, alloc, r.result, k - 1, Rest(q, Pow(v.geo.a, k - 1)), val);
      }
    }
  }

  /** Every indirect block on the way to offset q of the tree is there. */
  predicate Tabled(t: Tree, a: nat, k: nat, q: nat)
    requires a > 0 && k > 0 && Shape(t, a, k) && q < Pow(a, k)
    decreases k
  {
    && t.Ind?
    && (k == 1 ||
        (LookupKid(t, a, k, q);
         var inc := Pow(a, k - 1);
         Tabled(t.kids[Digit(q, inc)], a, k - 1, Rest(q, inc))))
  }

  /** Without ALLOC an entry is set exactly when every indirect block on the way to it is there. */
  lemma {:induction false} WalkSets(v: Vol, p: nat, k: nat, q: nat, val: nat)
    requires Fsck(v) && k > 0 && q < Pow(v.geo.a, k) && val < WORD_LIMIT && p != 0
    requires ReadyOne(TreeOf(v.disk, v.geo.a, k, p), v.geo.a, k, Used(v))
    ensures Walk(v, true, false, p, k, q, val).ret ==
            if Tabled(TreeOf(v.disk, v.geo.a, k, p), v.geo.a, k, q) then Ok else EINVAL
    decreases k
  {
    hide TreesOf, Decode, Encode;
    var level := k - 1;
    Open(v, level, p);
    if k > 1 {
      var kids := TreesOf(v.disk, v.geo.a, level, Decode(v.disk[p]));
      LookupKid(Ind(p, kids), v.geo.a, k, q);
      var i := Digit(q, Pow(v.geo.a, level));
      IndReads(v, false, level, p, kids, i);
      WalkUnfold(v, true, false, p, level, q, val);
      if kids[i].Hole? {
        WalkHole(v, true, false, level, Rest(q, Pow(v.geo.a, level)), val);
      } else {
        WalkSets(v, Decode(v.disk[p])[i], level, Rest(q, Pow(v.geo.a, level)), val);
      }
    }
  }

  /** Block b was free before, is in use now, and is zeroed. */
  predicate FreshBlock(v: Vol, v': Vol, b: nat)
  {
    0 != b < |v'.disk| && b in Used(v') - Used(v) && v'.disk[b] == Zeros(4 * v.geo.a)
  }

  /** Allocation below a pointer maps a hole to a block that was free, zeroed. */
  lemma {:induction false} WalkAllocates(v: Vol, p: nat, k: nat, q: nat, r: Step)
    requires Fsck(v) && k > 0 && q < Pow(v.geo.a, k) && p != 0
    requires ReadyOne(TreeOf(v.disk, v.geo.a, k, p), v.geo.a, k, Used(v))
    requires Lookup(TreeOf(v.disk, v.geo.a, k, p), v.geo.a, k, q) == 0
    requires r == Walk(v, false, true, p, k, q, 0) && r.ret == Ok
    ensures FreshBlock(v, r.vol, r.result)
    decreases k, 0
  {
    hide TreesOf, Decode, Encode;
    var level := k - 1;
    Open(v, level, p);
    var kids := TreesOf(v.disk, v.geo.a, level, Decode(v.disk[p]));
    LookupKid(Ind(p, kids), v.geo.a, k, q);
    var i := Digit(q, Pow(v.geo.a, level));
    if k == 1 {
      OneDigit(q);
      TreesAt(v.disk, v.geo.a, 0, Decode(v.disk[p]), q);
      IndAllocates(v, 0, p, kids, q, r, TreeOf(r.vol.disk, v.geo.a, 0, r.result));
    } else if kids[i].Hole? {
      WalkUnfold(v, false, true, p, level, q, 0);
      AllocatesBelow(v, p, level, kids, i, Rest(q, Pow(v.geo.a, level)), r);
    } else {
      WalkUnfold(v, false, true, p, level, q, 0);
      IndReads(v, true, level, p, kids, i);
      WalkAllocates(v, Decode(v.disk[p])[i], level, Rest(q, Pow(v.geo.a, level)), r);
    }
  }

  lemma {:induction false} AllocatesBelow(v: Vol, p: nat, level: nat, kids: seq<Tree>, i: nat, q: nat, r: Step)
    requires Fsck(v) && level > 0 && q < Pow(v.geo.a, level) && Opened(v, level, p, kids)
    requires i < |kids| && kids[i].Hole?
    requires var r1 := IndBmap(v, false, true, p, i, 0);
             r1.ret == Ok && r == Walk(r1.vol, false, true, r1.result, level, q, 0)
    requires r.ret == Ok
    ensures FreshBlock(v, r.vol, r.result)
    decreases level, 1
  {
    hide TreesOf, Decode, Encode, Offset, Pow;
    var r1 := IndBmap(v, false, true, p, i, 0);
    var t1 := TreeOf(r1.vol.disk, v.geo.a, level, r1.result);
    IndAllocates(v, level, p, kids, i, r1, t1);
    NewReady(t1, v.geo.a, level, r1.result);
    NewLookup(t1, v.geo.a, level, r1.result, q);
    WalkAllocates(r1.vol, r1.result, level, q, r);
  }

  /** What stands left of entry q in its table: the block there, 0 for a hole; for the first entry the table itself. */
  function LeftOf(t: Tree, a: nat, k: nat, q: nat): nat
    requires a > 0 && k > 0 && Shape(t, a, k) && q < Pow(a, k) && Tabled(t, a, k, q)
    decreases k
  {
    LookupKid(t, a, k, q);
    var i := Digit(q, Pow(a, k - 1));
    if k > 1 then LeftOf(t.kids[i], a, k - 1, Rest(q, Pow(a, k - 1)))
    else if i == 0 then t.block
    else if t.kids[i - 1].Hole? then 0
    else t.kids[i - 1].block
  }

  /** With all tables there, the new block is the one nearest to what stands left of the entry. */
  lemma {:induction false} WalkNear(v: Vol, p: nat, k: nat, q: nat, t: Tree, r: Step)
    requires Fsck(v) && k > 0 && q < Pow(v.geo.a, k) && p != 0 && t == TreeOf(v.disk, v.geo.a, k, p)
    requires ReadyOne(t, v.geo.a, k, Used(v)) && Tabled(t, v.geo.a, k, q) && Lookup(t, v.geo.a, k, q) == 0
    requires r == Walk(v, false, true, p, k, q, 0) && r.ret == Ok
    ensures Nearest(v, LeftOf(t, v.geo.a, k, q), r.result)
    decreases k
  {
    hide TreesOf, Decode, Encode, Nearest, CountsOk;
    var level := k - 1;
    Open(v, level, p);
    var kids := TreesOf(v.disk, v.geo.a, level, Decode(v.disk[p]));
    LookupKid(Ind(p, kids), v.geo.a, k, q);
    var i := Digit(q, Pow(v.geo.a, level));
    if k == 1 {
      OneDigit(q);
      TreesAt(v.disk, v.geo.a, 0, Decode(v.disk[p]), q);
      LastNear(v, p, kids, q, r);
    } else {
      WalkUnfold(v, false, true, p, level, q, 0);
      IndReads(v, true, level, p, kids, i);
      WalkNear(v, Decode(v.disk[p])[i], level, Rest(q, Pow(v.geo.a, level)), kids[i], r);
    }
  }

  lemma LastNear(v: Vol, p: nat, kids: seq<Tree>, i: nat, r: Step)
    requires Fsck(v) && Opened(v, 0, p, kids) && i < |kids| && kids[i].Hole?
    requires r == IndBmap(v, false, true, p, i, 0) && r.ret == Ok
    ensures Nearest(v, if i == 0 then p else if kids[i - 1].Hole? then 0 else kids[i - 1].block, r.result)
  {
    hide TreesOf, Decode, Encode, Nearest, CountsOk;
    TreesAt(v.disk, v.geo.a, 0, Decode(v.disk[p]), i);
    TreeRoot(v.disk, v.geo.a, 0, Decode(v.disk[p])[i]);
    if i > 0 {
      TreesAt(v.disk, v.geo.a, 0, Decode(v.disk[p]), i - 1);
    }
    AllocOk(v, if i != 0 then Decode(v.disk[p])[i - 1] else p);
  }

  // ----- One slot of the inode -----

  /** The outcome for one slot: new volume, new slot, error code, physical block. */
  datatype SlotStep = SlotStep(vol: Vol, slot: nat, ret: Err, phys: nat)

  /**
   What ext2_bmap does for offset q below a slot of level j: an empty slot is
   filled first when alloc is given, then the chain of lookups is followed.
   */
  function SlotBmap(v: Vol, set_: bool, alloc: bool, p: nat, j: nat, goal: nat, q: nat, val: nat): (x: SlotStep)
    requires Fsck(v) && q < Pow(v.geo.a, j) && val < WORD_LIMIT
    ensures x.vol.geo == v.geo
  {
    if j == 0 && set_ then SlotStep(v, val, Ok, val)
    else if p == 0 && !alloc then SlotStep(v, 0, if set_ then EINVAL else Ok, 0)
    else if p == 0 then
      var r := Alloc(v, goal);
      AllocOk(v, goal);
      if r.ret != Ok then SlotStep(v, 0, r.ret, 0)
      else if j == 0 then SlotStep(r.vol, r.result, Ok, r.result)
      else
        var w := Walk(r.vol, set_, true, r.result, j, q, val);
        SlotStep(w.vol, r.result, w.ret, w.result)
    else if j == 0 then SlotStep(v, p, Ok, p)
    else
      var w := Walk(v, set_, alloc, p, j, q, val);
      SlotStep(w.vol, p, w.ret, w.result)
  }

  /** The tree of the slot, before and after, seen at offset off. */
  predicate SlotWalked(v: Vol, x: SlotStep, j: nat, p: nat, q: nat, off: nat, set_: bool, f: set<nat>)
  {
    var t, t' := TreeOf(v.disk, v.geo.a, j, p), TreeOf(x.vol.disk, v.geo.a, j, x.slot);
    && Moved(v, x.vol, t, t', j, f)
    && (set_ || Grown(v, x.vol, t, t', j, f))
    && MapStep(t, t', v.geo.a, j, q, x.phys, off, x.ret == Ok)
  }

  lemma SlotStays(v: Vol, j: nat, p: nat, q: nat, off: nat, set_: bool, ret: Err, b: nat)
    requires Fsck(v) && off < Pow(v.geo.a, j) && q < Pow(v.geo.a, j)
    requires ReadyOne(TreeOf(v.disk, v.geo.a, j, p), v.geo.a, j, Used(v))
    requires ret == Ok ==> b == Lookup(TreeOf(v.disk, v.geo.a, j, p), v.geo.a, j, q)
    ensures SlotWalked(v, SlotStep(v, p, ret, b), j, p, q, off, set_, {})
  {
    hide TreesOf, Decode, Offset, Pow;
    NotMoved(v, TreeOf(v.disk, v.geo.a, j, p), j);
  }

  /** An empty slot takes a new block. */
  lemma RootAllocates(v: Vol, j: nat, goal: nat, r: Step, t1: Tree)
    requires Fsck(v) && r == Alloc(v, goal) && r.ret == Ok && t1 == TreeOf(r.vol.disk, v.geo.a, j, r.result)
    ensures Fsck(r.vol) && r.vol.geo == v.geo
    ensures FreshBlock(v, r.vol, r.result) && New(t1, v.geo.a, j, r.result)
    ensures Grown(v, r.vol, Hole, t1, j, {r.result})
    ensures ReadyOne(t1, v.geo.a, j, Used(r.vol))
  {
    hide TreesOf, Decode, Offset;
    AllocOk(v, goal);
    NewTree(r.vol.disk, v.geo.a, j, r.result);
    NewReady(t1, v.geo.a, j, r.result);
  }

  lemma SlotFilled(v: Vol, set_: bool, j: nat, goal: nat, q: nat, val: nat, off: nat, r: Step) returns (f: set<nat>)
    requires Fsck(v) && j > 0 && q < Pow(v.geo.a, j) && off < Pow(v.geo.a, j) && val < WORD_LIMIT
    requires r == Alloc(v, goal) && r.ret == Ok
    ensures Fsck(r.vol) && r.vol.geo == v.geo
    ensures var w := Walk(r.vol, set_, true, r.result, j, q, val);
      SlotWalked(v, SlotStep(w.vol, r.result, w.ret, w.result), j, 0, q, off, set_, f)
  {
    hide TreesOf, Decode, Encode, Offset, Pow;
    var t1 := TreeOf(r.vol.disk, v.geo.a, j, r.result);
    RootAllocates(v, j, goal, r, t1);
    var f2 := WalkMaps(r.vol, set_, true, r.result, j, q, val, off);
    f := {r.result} + f2;
    NewLookup(t1, v.geo.a, j, r.result, off);
    RootThen(v, r.vol, Walk(r.vol, set_, true, r.result, j, q, val), j, r.result, q, off, set_, t1, {r.result}, f2);
  }

  lemma RootThen(v: Vol, v1: Vol, w: Step, j: nat, b: nat, q: nat, off: nat, set_: bool, t1: Tree, f1: set<nat>,
                 f2: set<nat>)
    requires v.geo.a > 0 && v1.geo == v.geo && off < Pow(v.geo.a, j)
    requires t1 == TreeOf(v1.disk, v.geo.a, j, b) && Grown(v, v1, Hole, t1, j, f1)
    requires Shape(t1, v.geo.a, j) && SameMap(Hole, t1, v.geo.a, j, off)
    requires Walked(v1, w, j, b, q, off, set_, f2)
    ensures SlotWalked(v, SlotStep(w.vol, b, w.ret, w.result), j, 0, q, off, set_, f1 + f2)
  {
    hide TreesOf, Decode, Offset, Pow;
    var t2 := TreeOf(w.vol.disk, v.geo.a, j, b);
    MovedTransitive(v, v1, w.vol, Hole, t1, t2, j, f1, f2);
    if !set_ {
      GrownTransitive(v, v1, w.vol, Hole, t1, t2, j, f1, f2);
    }
  }

  /** The tree of a slot, whatever the flags: only the mapping of offset q may change. */
  lemma SlotMaps(v: Vol, set_: bool, alloc: bool, p: nat, j: nat, goal: nat, q: nat, val: nat, off: nat)
    returns (f: set<nat>)
    requires Fsck(v) && q < Pow(v.geo.a, j) && off < Pow(v.geo.a, j) && val < WORD_LIMIT
    requires ReadyOne(TreeOf(v.disk, v.geo.a, j, p), v.geo.a, j, Used(v))
    ensures SlotWalked(v, SlotBmap(v, set_, alloc, p, j, goal, q, val), j, p, q, off, set_, f)
  {
    hide TreesOf, Decode, Encode;
    f := {};
    if j == 0 && set_ {
      NotMoved(v, TreeOf(v.disk, v.geo.a, j, p), j);
    } else if p == 0 && !alloc {
      SlotStays(v, j, p, q, off, set_, if set_ then EINVAL else Ok, 0);
    } else if p == 0 {
      var r := Alloc(v, goal);
      if r.ret != Ok {
        AllocOk(v, goal);
        SlotStays(v, j, p, q, off, set_, r.ret, 0);
      } else if j == 0 {
        RootAllocates(v, j, goal, r, TreeOf(r.vol.disk, v.geo.a, j, r.result));
        f := {r.result};
      } else {
        f := SlotFilled(v, set_, j, goal, q, val, off, r);
      }
    } else if j == 0 {
      SlotStays(v, j, p, q, off, set_, Ok, p);
    } else {
      f := WalkMaps(v, set_, alloc, p, j, q, val, off);
    }
  }

  // ----- The whole inode -----

  /** Volume, i_blocks, block array, return code and physical block. */
  datatype Mapped = Mapped(vol: Vol, iblocks: int, slots: seq<nat>, ret: Err, phys: nat)

  /** ext2_iblk_add_blocks, whose overflow error ext2_bmap ignores. */
  function AddBlocks(g: Geometry, iblocks: int, n: nat): int
  {
    if iblocks + Sectors(g, n) > 0xffff_ffff then iblocks else iblocks + Sectors(g, n)
  }

  /** ext2_file_block_offset_too_big */
  predicate TooBig(a: nat, k: nat)
  {
    k >= 0xffff_ffff || k >= LevelBase(a, 4)
  }

  /** The position of logical block k among the slots of its level. */
  function IndexOf(k: nat): nat
  {
    if k < NDIR then k else 0
  }

  /** The offset of logical block k below its slot. */
  function OffsetOf(a: nat, k: nat): (q: nat)
    requires k < LevelBase(a, 4)
    ensures q < Pow(a, LevelOf(a, k))
    ensures k == LevelBase(a, LevelOf(a, k)) + Offset(IndexOf(k), Pow(a, LevelOf(a, k))) + q
  {
    LevelBases(a);
    IsPower(a);
    if k < NDIR then
      IsProduct(k, 1);
      0
    else k - LevelBase(a, LevelOf(a, k))
  }

  /** The slot of logical block k. */
  function SlotOf(a: nat, k: nat): (s: nat)
    requires k < LevelBase(a, 4)
    ensures s < NSLOTS
    ensures s == IndexOf(k) + if LevelOf(a, k) == 0 then 0 else NDIR + LevelOf(a, k) - 1
  {
    LevelBases(a);
    if k < NDIR then k else NDIR + LevelOf(a, k) - 1
  }

  /** An offset below a pointer of a level, which is a slot of the inode. */
  datatype Address = Address(level: nat, index: nat, slot: nat, offset: nat)

  /** Block k is found at address w. */
  predicate At(a: nat, k: nat, w: Address)
  {
    && w.level < 4 && w.index < (if w.level == 0 then NDIR else 1) && w.slot < NSLOTS
    && w.slot == w.index + (if w.level == 0 then 0 else NDIR + w.level - 1)
    && w.offset < Pow(a, w.level) && k == LevelBase(a, w.level) + Offset(w.index, Pow(a, w.level)) + w.offset
  }

  function AddressOf(a: nat, k: nat): Address
    requires k < LevelBase(a, 4)
  {
    Address(LevelOf(a, k), IndexOf(k), SlotOf(a, k), OffsetOf(a, k))
  }

  lemma BlockAt(a: nat, k: nat)
    requires k < LevelBase(a, 4)
    ensures At(a, k, AddressOf(a, k))
  {
    hide Offset, Pow;
    LevelBases(a);
  }

  /** Every address is that of exactly one block, and no other address is that block's. */
  lemma AddressUnique(a: nat, k: nat, w: Address)
    requires a > 0 && At(a, k, w)
    ensures k < LevelBase(a, 4) && w == AddressOf(a, k)
  {
    LevelBases(a);
    IsPower(a);
    IsProduct(w.index, 1);
    assert Offset(0, Pow(a, w.level)) == 0;
    if w.level == 0 {
      assert k == w.index;
    } else if w.level == 1 {
      assert 12 <= k < 12 + a;
    } else if w.level == 2 {
      assert 12 + a <= k < 12 + a + a * a;
    } else {
      assert 12 + a + a * a <= k < 12 + a + a * a + a * a * a;
    }
  }

  /** Where the search for a new block of slot s starts. */
  function GoalOf(slots: seq<nat>, s: nat, goal: nat): nat
    requires s < |slots|
  {
    if s == 0 then goal else slots[s - 1]
  }

  /**
   ext2_bmap for an inode without extents or inline data: goal is the answer of
   ext2_find_inode_goal, val the block to set.
   */
  function Bmap(v: Vol, iblocks: int, slots: seq<nat>, set_: bool, alloc: bool, k: nat, val: nat,
                goal: nat): (m: Mapped)
    requires Fsck(v) && |slots| == NSLOTS && val < WORD_LIMIT
    ensures |m.slots| == NSLOTS && m.vol.geo == v.geo
  {
    if TooBig(v.geo.a, k) then Mapped(v, iblocks, slots, EFBIG, 0)
    else
      var s := SlotOf(v.geo.a, k);
      var x := SlotBmap(v, set_, alloc, slots[s], LevelOf(v.geo.a, k),
                        GoalOf(slots, s, goal), OffsetOf(v.geo.a, k), val);
      var counted := if x.ret == Ok && slots[s] == 0 && x.slot != 0 && !(set_ && k < NDIR) then 1 else 0;
      Mapped(x.vol, AddBlocks(v.geo, iblocks, counted), slots[s := x.slot], x.ret, x.phys)
  }

  // ----- What a change below one slot means for the inode -----

  /** Changing one pointer of a level. */
  lemma SlotLevels(slots: seq<nat>, j: nat, i: nat, s: nat, p: nat)
    requires |slots| == NSLOTS && j < 4 && s < NSLOTS && s == i + (if j == 0 then 0 else NDIR + j - 1)
    requires i < if j == 0 then NDIR else 1
    ensures LevelSlots(slots, j)[i] == slots[s]
    ensures LevelSlots(slots[s := p], j) == LevelSlots(slots, j)[i := p]
    ensures forall h :: 0 <= h < 4 && h != j ==> LevelSlots(slots[s := p], h) == LevelSlots(slots, h)
  {
    forall h | 0 <= h < 4 && h != j
      ensures LevelSlots(slots[s := p], h) == LevelSlots(slots, h)
    {
    }
  }

  /** The trees of the level whose pointer i changed. */
  lemma LevelMoved(v: Vol, x: SlotStep, j: nat, ps: seq<nat>, i: nat, f: set<nat>, ts: seq<Tree>)
    requires v.geo.a > 0 && i < |ps| && ts == TreesOf(v.disk, v.geo.a, j, ps) && Ready(ts, v.geo.a, j, Used(v))
    requires OnlyOn(v.disk, x.vol.disk, Meta(ts[i]) + f) && f !! Used(v)
    ensures TreesOf(x.vol.disk, v.geo.a, j, ps[i := x.slot]) == ts[i := TreeOf(x.vol.disk, v.geo.a, j, x.slot)]
  {
    hide TreesOf, Decode;
    forall h | 0 <= h < |ps| && h != i
      ensures Meta(TreesOf(v.disk, v.geo.a, j, ps)[h]) !! Meta(ts[i]) + f
    {
      OthersApart(ts, i, h, f, Used(v));
    }
    TreesReplace(v.disk, x.vol.disk, v.geo.a, j, ps, i, Meta(ts[i]) + f);
    TreesUpdate(x.vol.disk, v.geo.a, j, ps, i, x.slot);
  }

  /** Trees of another level are out of reach. */
  lemma OtherLevel(v: Vol, v': Vol, h: nat, ps: seq<nat>, t: Tree, f: set<nat>, own: set<nat>)
    requires v.geo.a > 0 && Ready(TreesOf(v.disk, v.geo.a, h, ps), v.geo.a, h, Used(v))
    requires Own(t) <= own && OwnAll(TreesOf(v.disk, v.geo.a, h, ps)) !! own
    requires OnlyOn(v.disk, v'.disk, Meta(t) + f) && f !! Used(v)
    ensures TreesOf(v'.disk, v.geo.a, h, ps) == TreesOf(v.disk, v.geo.a, h, ps)
  {
    hide TreesOf, Decode;
    MetaAllOwned(TreesOf(v.disk, v.geo.a, h, ps));
    MetaOwned(t);
    TreesKept(v.disk, v'.disk, v.geo.a, h, ps, Meta(t) + f);
  }

  /** Tree i of level j has become t', all other trees of the inode are as they were. */
  predicate InodeMoved(v: Vol, slots: seq<nat>, v': Vol, slots': seq<nat>, j: nat, i: nat, t': Tree)
  {
    && |slots| == |slots'| == NSLOTS && j < 4 && v'.geo == v.geo
    && i < |Level(v, slots, j)|
    && Shape(Level(v, slots, j)[i], v.geo.a, j) && Shape(t', v.geo.a, j)
    && Level(v', slots', j) == Level(v, slots, j)[i := t']
    && (forall h :: 0 <= h < 4 && h != j ==> Level(v', slots', h) == Level(v, slots, h))
  }

  lemma InodeMoves(v: Vol, slots: seq<nat>, x: SlotStep, k: nat, w: Address, f: set<nat>, t: Tree, t': Tree)
    requires InodeCheck(v, slots) && At(v.geo.a, k, w)
    requires t == TreeOf(v.disk, v.geo.a, w.level, slots[w.slot]) && t' == TreeOf(x.vol.disk, v.geo.a, w.level, x.slot)
    requires Moved(v, x.vol, t, t', w.level, f)
    ensures w.index < |Level(v, slots, w.level)| && Level(v, slots, w.level)[w.index] == t
    ensures InodeMoved(v, slots, x.vol, slots[w.slot := x.slot], w.level, w.index, t')
  {
    hide TreesOf, Decode, Offset, Pow;
    var j, i, s := w.level, w.index, w.slot;
    SlotLevels(slots, j, i, s, x.slot);
    LevelReady(v, slots, j);
    var ps, ts := LevelSlots(slots, j), Level(v, slots, j);
    TreesAt(v.disk, v.geo.a, j, ps, i);
    ShapeAt(ts, v.geo.a, j, i);
    LevelMoved(v, x, j, ps, i, f, ts);
    OwnAt(ts, i);
    forall h | 0 <= h < 4 && h != j
      ensures Level(x.vol, slots[s := x.slot], h) == Level(v, slots, h)
    {
      LevelReady(v, slots, h);
      OtherLevel(v, x.vol, h, LevelSlots(slots, h), t, f, OwnAll(ts));
    }
  }

  lemma InodeShaped(v: Vol, slots: seq<nat>, v': Vol, slots': seq<nat>, j: nat, i: nat, t': Tree)
    requires Shaped(v, slots) && InodeMoved(v, slots, v', slots', j, i, t')
    ensures Shaped(v', slots')
  {
    hide TreesOf, Decode;
    forall h | 0 <= h < 4
      ensures ShapeAll(Level(v', slots', h), v.geo.a, h)
    {
      if h == j {
        ShapeUpdate(Level(v, slots, j), v.geo.a, j, i, t');
      } else {
        assert Level(v', slots', h) == Level(v, slots, h);
      }
    }
  }

  /** The level whose tree took in the new blocks f. */
  lemma LevelGrown(v: Vol, v': Vol, ts: seq<Tree>, j: nat, i: nat, t': Tree, f: set<nat>)
    requires Ready(ts, v.geo.a, j, Used(v)) && i < |ts| && Grown(v, v', ts[i], t', j, f)
    ensures Ready(ts[i := t'], v.geo.a, j, Used(v'))
    ensures OwnAll(ts[i := t']) == OwnAll(ts) + f
  {
    OwnAt(ts, i);
    OwnUpdate(ts, i, t');
    SeparateUpdate(ts, i, t');
    ShapeUpdate(ts, v.geo.a, j, i, t');
  }

  lemma InodeGrows(v: Vol, slots: seq<nat>, v': Vol, slots': seq<nat>, j: nat, i: nat, t': Tree, f: set<nat>)
    requires InodeCheck(v, slots) && InodeMoved(v, slots, v', slots', j, i, t') && AllWords(slots')
    requires Grown(v, v', Level(v, slots, j)[i], t', j, f)
    ensures OwnAll(Level(v', slots', j)) == OwnAll(Level(v, slots, j)) + f
    ensures InodeCheck(v', slots')
  {
    hide TreesOf, Decode, Offset;
    LevelReady(v, slots, j);
    LevelGrown(v, v', Level(v, slots, j), j, i, t', f);
    InodeShaped(v, slots, v', slots', j, i, t');
    forall h | 0 <= h < 4
      ensures Ready(Level(v', slots', h), v.geo.a, h, Used(v'))
    {
      LevelReady(v, slots, h);
    }
    forall g, h | 0 <= g < h < 4
      ensures OwnAll(Level(v', slots', g)) !! OwnAll(Level(v', slots', h))
    {
      LevelReady(v, slots, g);
      LevelReady(v, slots, h);
    }
  }

  /** Tree i of ts may be replaced by t'. */
  predicate Swappable(ts: seq<Tree>, a: nat, level: nat, i: nat, t': Tree)
  {
    && a > 0 && i < |ts| && ShapeAll(ts, a, level) && ShapeAll(ts[i := t'], a, level)
    && Shape(ts[i], a, level) && Shape(t', a, level)
  }

  /** The map of one level with tree i replaced. */
  lemma FindUpdate(ts: seq<Tree>, a: nat, level: nat, i: nat, t': Tree, q: nat, b: nat, off: nat, rest: nat, ok: bool)
    requires Swappable(ts, a, level, i, t')
    requires q < Pow(a, level) && off < Offset(|ts|, Pow(a, level)) && Pow(a, level) > 0
    requires rest == Rest(off, Pow(a, level)) && MapStep(ts[i], t', a, level, q, b, rest, ok)
    ensures Find(ts[i := t'], a, level, off) ==
            if ok && off == Offset(i, Pow(a, level)) + q then b else Find(ts, a, level, off)
  {
    hide Offset, Pow;
    Split(off, |ts|, Pow(a, level));
    Join(i, q, Pow(a, level));
  }

  lemma MovedSwappable(v: Vol, slots: seq<nat>, v': Vol, slots': seq<nat>, j: nat, i: nat, t': Tree)
    requires Shaped(v, slots) && Shaped(v', slots') && InodeMoved(v, slots, v', slots', j, i, t')
    ensures Swappable(Level(v, slots, j), v.geo.a, j, i, t')
  {
    hide TreesOf, Decode;
    LevelShape(v, slots, j);
    LevelShape(v', slots', j);
  }

  lemma LevelShape(v: Vol, slots: seq<nat>, j: nat)
    requires Shaped(v, slots) && j < 4
    ensures ShapeAll(Level(v, slots, j), v.geo.a, j) && v.geo.a > 0
    ensures |Level(v, slots, j)| == if j == 0 then NDIR else 1
  {
  }

  /** Two inodes whose level of block n has the same trees. */
  lemma MapSame(v: Vol, slots: seq<nat>, v': Vol, slots': seq<nat>, n: nat)
    requires Shaped(v, slots) && Shaped(v', slots') && v'.geo == v.geo && n < LevelBase(v.geo.a, 4)
    requires Level(v', slots', LevelOf(v.geo.a, n)) == Level(v, slots, LevelOf(v.geo.a, n))
    ensures Map(v', slots', n) == Map(v, slots, n)
  {
  }

  lemma MapIs(v: Vol, slots: seq<nat>, j: nat, n: nat, base: nat)
    requires Shaped(v, slots) && n < LevelBase(v.geo.a, 4) && j == LevelOf(v.geo.a, n) && base == LevelBase(v.geo.a, j)
    ensures v.geo.a > 0 && ShapeAll(Level(v, slots, j), v.geo.a, j)
    ensures base <= n && n - base < Offset(|Level(v, slots, j)|, Pow(v.geo.a, j))
    ensures Map(v, slots, n) == Find(Level(v, slots, j), v.geo.a, j, n - base)
  {
    hide TreesOf, Decode, Offset, Pow;
    LevelShape(v, slots, j);
  }

  /** The offset below its slot at which logical block n is seen, if it belongs to level j. */
  function Seen(a: nat, j: nat, n: nat): nat
    requires a > 0 && n < LevelBase(a, 4)
  {
    PowPositive(a, j);
    if LevelOf(a, n) == j then Rest(n - LevelBase(a, j), Pow(a, j)) else 0
  }

  lemma SeenBelow(a: nat, j: nat, n: nat)
    requires a > 0 && n < LevelBase(a, 4) && j < 4
    ensures Seen(a, j, n) < Pow(a, j)
  {
    hide Offset, Pow;
    PowPositive(a, j);
    if LevelOf(a, n) == j {
      Split(n - LevelBase(a, j), if j == 0 then NDIR else 1, Pow(a, j));
    }
  }

  lemma SeenIs(a: nat, j: nat, n: nat, base: nat)
    requires a > 0 && n < LevelBase(a, 4) && j == LevelOf(a, n) && base == LevelBase(a, j)
    ensures Pow(a, j) > 0 && base <= n && Seen(a, j, n) == Rest(n - base, Pow(a, j))
  {
    hide Offset, Pow;
    PowPositive(a, j);
  }

  /** The tree of the slot of logical block k is ready. */
  lemma SlotReady(v: Vol, slots: seq<nat>, k: nat)
    requires InodeCheck(v, slots) && k < LevelBase(v.geo.a, 4)
    ensures ReadyOne(TreeOf(v.disk, v.geo.a, LevelOf(v.geo.a, k), slots[SlotOf(v.geo.a, k)]),
                     v.geo.a, LevelOf(v.geo.a, k), Used(v))
    ensures IndexOf(k) < if LevelOf(v.geo.a, k) == 0 then NDIR else 1
  {
    hide TreesOf, Decode, Offset, Pow;
    var j, i, s := LevelOf(v.geo.a, k), IndexOf(k), SlotOf(v.geo.a, k);
    LevelBases(v.geo.a);
    LevelReady(v, slots, j);
    SlotLevels(slots, j, i, s, 0);
    var ts := Level(v, slots, j);
    TreesAt(v.disk, v.geo.a, j, LevelSlots(slots, j), i);
    ShapeAt(ts, v.geo.a, j, i);
    SeparateAt(ts, i);
    OwnAt(ts, i);
  }

  lemma SlotBmapWord(v: Vol, set_: bool, alloc: bool, p: nat, j: nat, goal: nat, q: nat, val: nat)
    requires Fsck(v) && q < Pow(v.geo.a, j) && val < WORD_LIMIT && p < WORD_LIMIT
    ensures SlotBmap(v, set_, alloc, p, j, goal, q, val).slot < WORD_LIMIT
  {
    hide Decode, Encode, Offset, Pow;
    AllocOk(v, goal);
  }

  /** The slot of k, its tree before and after, and the call's outcome for it. */
  lemma BmapSlot(v: Vol, iblocks: int, slots: seq<nat>, set_: bool, alloc: bool, k: nat, val: nat, goal: nat, n: nat,
                 m: Mapped)
    returns (x: SlotStep, t': Tree, f: set<nat>)
    requires InodeCheck(v, slots) && val < WORD_LIMIT && !TooBig(v.geo.a, k) && n < LevelBase(v.geo.a, 4)
    requires m == Bmap(v, iblocks, slots, set_, alloc, k, val, goal)
    ensures x.vol == m.vol && x.ret == m.ret && x.phys == m.phys && x.slot < WORD_LIMIT
    ensures m.slots == slots[SlotOf(v.geo.a, k) := x.slot]
    ensures t' == TreeOf(x.vol.disk, v.geo.a, LevelOf(v.geo.a, k), x.slot)
    ensures SlotWalked(v, x, LevelOf(v.geo.a, k), slots[SlotOf(v.geo.a, k)], OffsetOf(v.geo.a, k),
                       Seen(v.geo.a, LevelOf(v.geo.a, k), n), set_, f)
  {
    hide TreesOf, Decode, Encode, Offset, Pow;
    var j, s, q := LevelOf(v.geo.a, k), SlotOf(v.geo.a, k), OffsetOf(v.geo.a, k);
    SlotReady(v, slots, k);
    SeenBelow(v.geo.a, j, n);
    x := SlotBmap(v, set_, alloc, slots[s], j, GoalOf(slots, s, goal), q, val);
    SlotBmapWord(v, set_, alloc, slots[s], j, GoalOf(slots, s, goal), q, val);
    t' := TreeOf(x.vol.disk, v.geo.a, j, x.slot);
    f := SlotMaps(v, set_, alloc, slots[s], j, GoalOf(slots, s, goal), q, val, Seen(v.geo.a, j, n));
  }

  // ----- Theorems about ext2_bmap -----

  /** The map of level j, once tree i of that level has become t'. */
  lemma LevelFinds(v: Vol, slots: seq<nat>, v': Vol, slots': seq<nat>, j: nat, i: nat, t': Tree, q: nat, b: nat,
                   at: nat, n: nat, rest: nat, ok: bool)
    requires Shaped(v, slots) && Shaped(v', slots') && InodeMoved(v, slots, v', slots', j, i, t')
    requires q < Pow(v.geo.a, j) && n < Offset(|Level(v, slots, j)|, Pow(v.geo.a, j)) && Pow(v.geo.a, j) > 0
    requires rest == Rest(n, Pow(v.geo.a, j)) && MapStep(Level(v, slots, j)[i], t', v.geo.a, j, q, b, rest, ok)
    requires at == Offset(i, Pow(v.geo.a, j)) + q
    ensures v.geo.a > 0 && |Level(v', slots', j)| == |Level(v, slots, j)|
    ensures ShapeAll(Level(v, slots, j), v.geo.a, j) && ShapeAll(Level(v', slots', j), v.geo.a, j)
    ensures Find(Level(v', slots', j), v.geo.a, j, n) ==
            if ok && n == at then b else Find(Level(v, slots, j), v.geo.a, j, n)
  {
    hide TreesOf, Decode, Offset, Pow;
    MovedSwappable(v, slots, v', slots', j, i, t');
    FindUpdate(Level(v, slots, j), v.geo.a, j, i, t', q, b, n, rest, ok);
  }

  lemma AtOffset(a: nat, k: nat, w: Address) returns (base: nat, at: nat)
    requires At(a, k, w)
    ensures base == LevelBase(a, w.level) && at == Offset(w.index, Pow(a, w.level)) + w.offset
    ensures k == base + at && w.offset < Pow(a, w.level)
  {
    hide Offset, Pow;
    var j, i, q := w.level, w.index, w.offset;
    base, at := LevelBase(a, j), Offset(i, Pow(a, j)) + q;
  }

  /** The map of the inode at a block n of the level of k, once the tree of k has become t'. */
  lemma InodeMaps(v: Vol, slots: seq<nat>, v': Vol, slots': seq<nat>, k: nat, w: Address, t': Tree, b: nat, n: nat,
                  rest: nat, ok: bool)
    requires Shaped(v, slots) && Shaped(v', slots') && InodeMoved(v, slots, v', slots', w.level, w.index, t')
    requires At(v.geo.a, k, w) && n < LevelBase(v.geo.a, 4) && w.level == LevelOf(v.geo.a, n) && v.geo.a > 0
    requires rest == Seen(v.geo.a, w.level, n)
    requires MapStep(Level(v, slots, w.level)[w.index], t', v.geo.a, w.level, w.offset, b, rest, ok)
    ensures Map(v', slots', n) == if ok && n == k then b else Map(v, slots, n)
  {
    hide TreesOf, Decode, Offset, Pow;
    var j, i, q := w.level, w.index, w.offset;
    var base, at := AtOffset(v.geo.a, k, w);
    SeenIs(v.geo.a, j, n, base);
    MapIs(v, slots, j, n, base);
    MapIs(v', slots', j, n, base);
    LevelFinds(v, slots, v', slots', j, i, t', q, b, at, n - base, rest, ok);
  }

  /** What one slot's outcome means for the map of the inode. */
  lemma SlotMap(v: Vol, slots: seq<nat>, set_: bool, k: nat, n: nat, x: SlotStep, f: set<nat>, w: Address,
                slots': seq<nat>)
    requires InodeCheck(v, slots) && At(v.geo.a, k, w) && n < LevelBase(v.geo.a, 4)
    requires slots' == slots[w.slot := x.slot] && k < LevelBase(v.geo.a, 4) && w.level == LevelOf(v.geo.a, k)
    requires SlotWalked(v, x, w.level, slots[w.slot], w.offset, Seen(v.geo.a, w.level, n), set_, f)
    ensures Shaped(x.vol, slots') && x.vol.geo == v.geo
    ensures Map(x.vol, slots', n) == if x.ret == Ok && n == k then x.phys else Map(v, slots, n)
  {
    hide TreesOf, Decode, Offset, Pow;
    var j, i, s := w.level, w.index, w.slot;
    var t, t' := TreeOf(v.disk, v.geo.a, j, slots[s]), TreeOf(x.vol.disk, v.geo.a, j, x.slot);
    InodeMoves(v, slots, x, k, w, f, t, t');
    InodeShaped(v, slots, x.vol, slots', j, i, t');
    if LevelOf(v.geo.a, n) == j {
      InodeMaps(v, slots, x.vol, slots', k, w, t', x.phys, n, Seen(v.geo.a, j, n), x.ret == Ok);
    } else {
      MapSame(v, slots, x.vol, slots', n);
    }
  }

  /**
   Whatever the flags, a call for block k changes the mapping of no other
   block; if it succeeds, k maps to the block it returns; if it fails, the map
   is what it was.
   */
  lemma BmapMaps(v: Vol, iblocks: int, slots: seq<nat>, set_: bool, alloc: bool, k: nat, val: nat, goal: nat, n: nat,
                 m: Mapped)
    requires InodeCheck(v, slots) && val < WORD_LIMIT && n < LevelBase(v.geo.a, 4)
    requires m == Bmap(v, iblocks, slots, set_, alloc, k, val, goal)
    ensures Shaped(m.vol, m.slots)
    ensures Map(m.vol, m.slots, n) == if m.ret == Ok && n == k then m.phys else Map(v, slots, n)
  {
    hide TreesOf, Decode, Encode, Offset, Pow;
    if !TooBig(v.geo.a, k) {
      var x, t', f := BmapSlot(v, iblocks, slots, set_, alloc, k, val, goal, n, m);
      BlockAt(v.geo.a, k);
      SlotMap(v, slots, set_, k, n, x, f, AddressOf(v.geo.a, k), m.slots);
    }
  }

  lemma {:induction false} LevelsOwnMoved(v: Vol, slots: seq<nat>, v': Vol, slots': seq<nat>, j: nat, f: set<nat>,
                                          n: nat)
    requires |slots| == |slots'| == NSLOTS && j < 4 && n <= 4
    requires forall i :: 0 <= i < 4 && i != j ==> Level(v', slots', i) == Level(v, slots, i)
    requires OwnAll(Level(v', slots', j)) == OwnAll(Level(v, slots, j)) + f
    ensures LevelsOwn(v', slots', n) == LevelsOwn(v, slots, n) + if n <= j then f else {}
    decreases 4 - n
  {
    hide Level, OwnAll;
    if n < 4 {
      LevelsOwnMoved(v, slots, v', slots', j, f, n + 1);
    }
  }

  /** The new blocks f are exactly what the inode took in. */
  predicate TookIn(v: Vol, slots: seq<nat>, v': Vol, slots': seq<nat>, f: set<nat>)
  {
    && |slots| == |slots'| == NSLOTS
    && f !! Used(v) && Used(v') == Used(v) + f
    && LevelsOwn(v', slots', 0) == LevelsOwn(v, slots, 0) + f
  }

  lemma SlotKeeps(v: Vol, slots: seq<nat>, k: nat, x: SlotStep, t: Tree, t': Tree, f: set<nat>, w: Address,
                  slots': seq<nat>)
    requires InodeCheck(v, slots) && At(v.geo.a, k, w) && x.slot < WORD_LIMIT
    requires t == TreeOf(v.disk, v.geo.a, w.level, slots[w.slot])
    requires t' == TreeOf(x.vol.disk, v.geo.a, w.level, x.slot) && slots' == slots[w.slot := x.slot]
    requires Grown(v, x.vol, t, t', w.level, f)
    ensures InodeCheck(x.vol, slots') && TookIn(v, slots, x.vol, slots', f)
  {
    hide TreesOf, Decode, Offset, Pow;
    var j, i := w.level, w.index;
    InodeMoves(v, slots, x, k, w, f, t, t');
    InodeGrows(v, slots, x.vol, slots', j, i, t', f);
    LevelsOwnMoved(v, slots, x.vol, slots', j, f, 0);
  }

  /**
   A call without SET, successful or not, leaves a well-formed inode, and every
   block that it marks in use belongs to the inode: none is lost.
   */
  lemma BmapKeeps(v: Vol, iblocks: int, slots: seq<nat>, alloc: bool, k: nat, goal: nat, m: Mapped)
    returns (f: set<nat>)
    requires InodeCheck(v, slots) && m == Bmap(v, iblocks, slots, false, alloc, k, 0, goal)
    ensures InodeCheck(m.vol, m.slots)
    ensures TookIn(v, slots, m.vol, m.slots, f)
  {
    hide TreesOf, Decode, Encode, Offset, Pow;
    f := {};
    if !TooBig(v.geo.a, k) {
      var x, t';
      x, t', f := BmapSlot(v, iblocks, slots, false, alloc, k, 0, goal, k, m);
      BlockAt(v.geo.a, k);
      var j, s := LevelOf(v.geo.a, k), SlotOf(v.geo.a, k);
      SlotKeeps(v, slots, k, x, TreeOf(v.disk, v.geo.a, j, slots[s]), t', f, AddressOf(v.geo.a, k), m.slots);
    }
  }

  // ----- Lookup, allocation and the block count -----

  /** The map of the inode at k is the map of its slot's tree at q. */
  lemma SlotLookup(v: Vol, slots: seq<nat>, k: nat, w: Address, t: Tree)
    requires Shaped(v, slots) && At(v.geo.a, k, w) && k < LevelBase(v.geo.a, 4) && w.level == LevelOf(v.geo.a, k)
    requires t == TreeOf(v.disk, v.geo.a, w.level, slots[w.slot]) && Shape(t, v.geo.a, w.level)
    ensures Map(v, slots, k) == Lookup(t, v.geo.a, w.level, w.offset)
  {
    hide TreesOf, Decode, Offset, Pow;
    var j, i, s, q := w.level, w.index, w.slot, w.offset;
    var base, at := AtOffset(v.geo.a, k, w);
    MapIs(v, slots, j, k, base);
    SlotLevels(slots, j, i, s, 0);
    TreesAt(v.disk, v.geo.a, j, LevelSlots(slots, j), i);
    Join(i, q, Pow(v.geo.a, j));
  }

  /** A slot that is only read. */
  lemma SlotReads(v: Vol, alloc: bool, p: nat, j: nat, goal: nat, q: nat, t: Tree)
    requires Fsck(v) && q < Pow(v.geo.a, j) && t == TreeOf(v.disk, v.geo.a, j, p)
    requires ReadyOne(t, v.geo.a, j, Used(v)) && (!alloc || Lookup(t, v.geo.a, j, q) != 0)
    ensures SlotBmap(v, false, alloc, p, j, goal, q, 0) == SlotStep(v, p, Ok, Lookup(t, v.geo.a, j, q))
  {
    hide TreesOf, Decode, Encode, Offset, Pow;
    if p != 0 && j > 0 {
      WalkReads(v, alloc, p, j, q);
    }
  }

  /** The slot's address, tree and mapping for a call. */
  lemma BmapTree(v: Vol, slots: seq<nat>, k: nat) returns (j: nat, s: nat, q: nat, t: Tree)
    requires InodeCheck(v, slots) && k < LevelBase(v.geo.a, 4)
    ensures j == LevelOf(v.geo.a, k) && s == SlotOf(v.geo.a, k) && q == OffsetOf(v.geo.a, k) && q < Pow(v.geo.a, j)
    ensures t == TreeOf(v.disk, v.geo.a, j, slots[s]) && ReadyOne(t, v.geo.a, j, Used(v))
    ensures Shape(t, v.geo.a, j) && Map(v, slots, k) == Lookup(t, v.geo.a, j, q)
  {
    hide TreesOf, Decode, Offset, Pow;
    BlockAt(v.geo.a, k);
    SlotReady(v, slots, k);
    j, s, q := LevelOf(v.geo.a, k), SlotOf(v.geo.a, k), OffsetOf(v.geo.a, k);
    t := TreeOf(v.disk, v.geo.a, j, slots[s]);
    SlotLookup(v, slots, k, AddressOf(v.geo.a, k), t);
  }

  /** A lookup, or an allocating call for a mapped block, changes nothing and returns the mapping. */
  lemma BmapReads(v: Vol, iblocks: int, slots: seq<nat>, alloc: bool, k: nat, goal: nat)
    requires InodeCheck(v, slots) && !TooBig(v.geo.a, k) && (!alloc || Map(v, slots, k) != 0)
    ensures Bmap(v, iblocks, slots, false, alloc, k, 0, goal) == Mapped(v, iblocks, slots, Ok, Map(v, slots, k))
  {
    hide TreesOf, Decode, Encode;
    var j, s, q, t := BmapTree(v, slots, k);
    SlotReads(v, alloc, slots[s], j, GoalOf(slots, s, goal), q, t);
    assert slots[s := slots[s]] == slots;
  }

  /** A lookup fails only for a block number beyond 32 bits or beyond the four ranges. */
  lemma LookupAccepts(v: Vol, iblocks: int, slots: seq<nat>, k: nat, goal: nat)
    requires InodeCheck(v, slots)
    ensures var a := v.geo.a;
      Bmap(v, iblocks, slots, false, false, k, 0, goal).ret ==
      if k < 0xffff_ffff && k < 12 + a + a * a + a * a * a then Ok else EFBIG
  {
    hide InodeCheck, Map;
    LevelBases(v.geo.a);
    if !TooBig(v.geo.a, k) {
      BmapReads(v, iblocks, slots, false, k, goal);
    }
  }

  /** The slot of block k can be set without allocating: it is a direct one, or all its indirect blocks are there. */
  predicate Settable(v: Vol, slots: seq<nat>, k: nat)
    requires InodeCheck(v, slots) && k < LevelBase(v.geo.a, 4)
  {
    k < NDIR ||
    (BmapShape(v, slots, k);
     var j, s := LevelOf(v.geo.a, k), SlotOf(v.geo.a, k);
     Tabled(TreeOf(v.disk, v.geo.a, j, slots[s]), v.geo.a, j, OffsetOf(v.geo.a, k)))
  }

  lemma BmapShape(v: Vol, slots: seq<nat>, k: nat)
    requires InodeCheck(v, slots) && k < LevelBase(v.geo.a, 4)
    ensures var j := LevelOf(v.geo.a, k);
      Shape(TreeOf(v.disk, v.geo.a, j, slots[SlotOf(v.geo.a, k)]), v.geo.a, j) && v.geo.a > 0 && (k >= NDIR ==> j > 0)
  {
    hide TreesOf, Decode, Offset, Pow;
    var j, s, q, t := BmapTree(v, slots, k);
    LevelBases(v.geo.a);
  }

  /**
   A call with SET that succeeds maps k to val. Without ALLOC it succeeds
   exactly when the entry for k is there: always for a direct block, else when
   every indirect block on the way exists.
   */
  lemma BmapSets(v: Vol, iblocks: int, slots: seq<nat>, alloc: bool, k: nat, val: nat, goal: nat, m: Mapped)
    requires InodeCheck(v, slots) && val < WORD_LIMIT && m == Bmap(v, iblocks, slots, true, alloc, k, val, goal)
    ensures m.ret == Ok ==>
      k < LevelBase(v.geo.a, 4) && Shaped(m.vol, m.slots) && m.phys == val && Map(m.vol, m.slots, k) == val
    ensures !TooBig(v.geo.a, k) && k < NDIR ==> m.ret == Ok
    ensures !TooBig(v.geo.a, k) && !alloc ==> m.ret == if Settable(v, slots, k) then Ok else EINVAL
    ensures TooBig(v.geo.a, k) ==> m.ret == EFBIG
  {
    hide TreesOf, Decode, Encode, Offset, Pow, Map, Walk, Tabled;
    if !TooBig(v.geo.a, k) {
      var j, s, q, t := BmapTree(v, slots, k);
      BmapShape(v, slots, k);
      LevelBases(v.geo.a);
      BmapMaps(v, iblocks, slots, true, alloc, k, val, goal, k, m);
      SlotSets(v, alloc, slots[s], j, GoalOf(slots, s, goal), q, val, t);
    }
  }

  lemma SlotSets(v: Vol, alloc: bool, p: nat, j: nat, goal: nat, q: nat, val: nat, t: Tree)
    requires Fsck(v) && q < Pow(v.geo.a, j) && val < WORD_LIMIT && t == TreeOf(v.disk, v.geo.a, j, p)
    requires ReadyOne(t, v.geo.a, j, Used(v)) && Shape(t, v.geo.a, j)
    ensures var x := SlotBmap(v, true, alloc, p, j, goal, q, val);
      && (x.ret == Ok ==> x.phys == val) && (j == 0 ==> x.ret == Ok)
      && (j > 0 && !alloc ==> x.ret == if Tabled(t, v.geo.a, j, q) then Ok else EINVAL)
  {
    hide TreesOf, Decode, Encode, Offset, Pow, Walk;
    if j > 0 {
      if p != 0 {
        WalkResult(v, alloc, p, j, q, val);
        if !alloc {
          WalkSets(v, p, j, q, val);
        }
      } else if alloc {
        var r := Alloc(v, goal);
        AllocOk(v, goal);
        if r.ret == Ok {
          WalkResult(r.vol, true, r.result, j, q, val);
        }
      }
    }
  }

  lemma SlotAllocates(v: Vol, p: nat, j: nat, goal: nat, q: nat, t: Tree, x: SlotStep)
    requires Fsck(v) && q < Pow(v.geo.a, j) && t == TreeOf(v.disk, v.geo.a, j, p)
    requires ReadyOne(t, v.geo.a, j, Used(v)) && Lookup(t, v.geo.a, j, q) == 0
    requires x == SlotBmap(v, false, true, p, j, goal, q, 0) && x.ret == Ok
    ensures FreshBlock(v, x.vol, x.phys)
    ensures p == 0 ==> x.slot != 0 && x.slot !in Used(v) && (x.slot == x.phys <==> j == 0)
    ensures p != 0 ==> j > 0 && x.slot == p
  {
    hide TreesOf, Decode, Encode, Offset, Pow;
    if p != 0 {
      if j > 0 {
        WalkAllocates(v, p, j, q, Walk(v, false, true, p, j, q, 0));
      }
    } else {
      var r := Alloc(v, goal);
      var t1 := TreeOf(r.vol.disk, v.geo.a, j, r.result);
      RootAllocates(v, j, goal, r, t1);
      if j > 0 {
        NewLookup(t1, v.geo.a, j, r.result, q);
        WalkAllocates(r.vol, r.result, j, q, Walk(r.vol, false, true, r.result, j, q, 0));
      }
    }
  }

  /** A successful allocation maps k to a block that was free, zeroed on disk. */
  lemma BmapAllocates(v: Vol, iblocks: int, slots: seq<nat>, k: nat, goal: nat, m: Mapped)
    requires InodeCheck(v, slots) && !TooBig(v.geo.a, k) && Map(v, slots, k) == 0
    requires m == Bmap(v, iblocks, slots, false, true, k, 0, goal) && m.ret == Ok
    ensures FreshBlock(v, m.vol, m.phys)
  {
    hide TreesOf, Decode, Encode, Offset, Pow;
    var j, s, q, t := BmapTree(v, slots, k);
    var x := SlotBmap(v, false, true, slots[s], j, GoalOf(slots, s, goal), q, 0);
    SlotAllocates(v, slots[s], j, GoalOf(slots, s, goal), q, t, x);
  }

  /** What stands left of the entry of an indirect block k in its table. */
  function LeftInTable(v: Vol, slots: seq<nat>, k: nat): nat
    requires InodeCheck(v, slots) && NDIR <= k < LevelBase(v.geo.a, 4) && Settable(v, slots, k)
  {
    BmapShape(v, slots, k);
    var j := LevelOf(v.geo.a, k);
    LeftOf(TreeOf(v.disk, v.geo.a, j, slots[SlotOf(v.geo.a, k)]), v.geo.a, j, OffsetOf(v.geo.a, k))
  }

  /**
   Where a new block comes from when only it is missing: the free block nearest
   to what stands left of its pointer, be it in the inode or in its table.
   */
  lemma BmapNear(v: Vol, iblocks: int, slots: seq<nat>, k: nat, goal: nat, m: Mapped)
    requires InodeCheck(v, slots) && !TooBig(v.geo.a, k) && Map(v, slots, k) == 0 && Settable(v, slots, k)
    requires m == Bmap(v, iblocks, slots, false, true, k, 0, goal) && m.ret == Ok
    ensures k == 0 ==> Nearest(v, goal, m.phys)
    ensures 0 < k < NDIR ==> Nearest(v, slots[k - 1], m.phys)
    ensures k >= NDIR ==> Nearest(v, LeftInTable(v, slots, k), m.phys)
  {
    hide TreesOf, Decode, Encode, Offset, Pow, Nearest, Walk, LeftOf, CountsOk;
    LevelBases(v.geo.a);
    BmapShape(v, slots, k);
    var j, s, q, t := BmapTree(v, slots, k);
    if k < NDIR {
      AllocOk(v, GoalOf(slots, s, goal));
    } else {
      TabledRoot(v, j, slots[s], q, t);
      WalkNear(v, slots[s], j, q, t, Walk(v, false, true, slots[s], j, q, 0));
    }
  }

  lemma TabledRoot(v: Vol, j: nat, p: nat, q: nat, t: Tree)
    requires v.geo.a > 0 && j > 0 && t == TreeOf(v.disk, v.geo.a, j, p) && Shape(t, v.geo.a, j) && q < Pow(v.geo.a, j)
    requires Tabled(t, v.geo.a, j, q)
    ensures p != 0
  {
    hide TreesOf, Decode;
    TreeRoot(v.disk, v.geo.a, j, p);
  }

  /** An allocation in an empty slot takes at least two blocks, one in a direct slot. */
  lemma SlotTakes(v: Vol, j: nat, goal: nat, q: nat, x: SlotStep)
    requires Fsck(v) && q < Pow(v.geo.a, j)
    requires x == SlotBmap(v, false, true, 0, j, goal, q, 0) && x.ret == Ok
    ensures j == 0 ==> x.slot !in Used(v) && Used(x.vol) == Used(v) + {x.slot}
    ensures j > 0 ==> x.slot in Used(x.vol) - Used(v)
  {
    hide TreesOf, Decode, Encode, Offset, Pow;
    var r := Alloc(v, goal);
    var t1 := TreeOf(r.vol.disk, v.geo.a, j, r.result);
    RootAllocates(v, j, goal, r, t1);
    if j > 0 {
      var f := WalkMaps(r.vol, false, true, r.result, j, q, 0, q);
    }
  }

  lemma TwoAtLeast(s: set<nat>, x: nat, y: nat)
    requires x in s && y in s && x != y
    ensures |s| >= 2
  {
    hide *;
    assert |s - {x}| >= |{y}| by {
      assert {y} <= s - {x};
      SetSizes({y}, s - {x});
    }
  }

  lemma OneAtLeast(s: set<nat>, x: nat)
    requires x in s
    ensures |s| >= 1
  {
  }

  /**
   i_blocks and the blocks taken. The call counts one block if the slot itself
   was empty and the count stays below 2^32, else none; below an indirect slot
   it takes at least one more. So the count is exact for direct blocks below
   that limit only.
   */
  lemma BmapCounts(v: Vol, iblocks: int, slots: seq<nat>, k: nat, goal: nat, m: Mapped)
    requires InodeCheck(v, slots) && !TooBig(v.geo.a, k) && Map(v, slots, k) == 0 && v.geo.a >= 128
    requires m == Bmap(v, iblocks, slots, false, true, k, 0, goal) && m.ret == Ok
    ensures m.iblocks == iblocks +
      if slots[SlotOf(v.geo.a, k)] == 0 && iblocks + Sectors(v.geo, 1) <= 0xffff_ffff then Sectors(v.geo, 1) else 0
    ensures m.iblocks <= iblocks + Sectors(v.geo, |Used(m.vol) - Used(v)|)
    ensures m.iblocks == iblocks + Sectors(v.geo, |Used(m.vol) - Used(v)|) <==>
            k < NDIR && iblocks + Sectors(v.geo, 1) <= 0xffff_ffff
  {
    hide TreesOf, Decode, Encode, Offset, Pow;
    var j, s, q, t := BmapTree(v, slots, k);
    var x := SlotBmap(v, false, true, slots[s], j, GoalOf(slots, s, goal), q, 0);
    SlotAllocates(v, slots[s], j, GoalOf(slots, s, goal), q, t, x);
    var f := Used(m.vol) - Used(v);
    LevelBases(v.geo.a);
    OneAtLeast(f, x.phys);
    OffsetGrows(0, |f|, 4 * v.geo.a / 512);
    assert Sectors(v.geo, 0) == 0 by { IsProduct(0, 4 * v.geo.a / 512); }
    if slots[s] == 0 {
      SlotTakes(v, j, GoalOf(slots, s, goal), q, x);
      if j == 0 {
        assert f == {x.slot};
      } else {
        TwoAtLeast(f, x.slot, x.phys);
        OffsetGrows(1, |f|, 4 * v.geo.a / 512);
      }
    }
  }

  // ----- The code -----

  method BlockIndBmap(vol: Volume, set_: bool, alloc: bool, ind: nat, blockno: nat, val: nat)
    returns (ret: Err, result: nat)
    requires Fsck(vol.Now()) && blockno < vol.geo.a && val < WORD_LIMIT
    modifies vol
    ensures Step(vol.Now(), ret, result) == IndBmap(old(vol.Now()), set_, alloc, ind, blockno, val)
    ensures Fsck(vol.Now())
  {
    if ind == 0 {
      return (if set_ then EINVAL else Ok), 0;
    }
    if ind >= |vol.disk| {
      return EINVAL, 0;
    }
    var words := Decode(vol.disk[ind]);
    if set_ {
      vol.disk := vol.disk[ind := Encode(words[blockno := val])];
      return Ok, val;
    }
    var b := words[blockno];
    if b == 0 && alloc {
      b := if blockno != 0 then words[blockno - 1] else ind;
      ret, b := vol.AllocBlock(b);
      if ret != Ok {
        return ret, b;
      }
      vol.disk := vol.disk[ind := Encode(words[blockno := b])];
    }
    return Ok, b;
  }

  /** Two steps of the walk, with the digits as the code computes them. */
  lemma WalkTwo(v: Vol, set_: bool, alloc: bool, p: nat, q: nat, val: nat)
    requires Fsck(v) && q < Pow(v.geo.a, 2) && val < WORD_LIMIT
    ensures q / v.geo.a < v.geo.a
    ensures var r := IndBmap(v, false, alloc, p, q / v.geo.a, 0);
      Walk(v, set_, alloc, p, 2, q, val) ==
      if r.ret != Ok then r else IndBmap(r.vol, set_, alloc, r.result, q % v.geo.a, val)
  {
    hide Decode, Encode;
    IsPower(v.geo.a);
    IsDivMod(q, v.geo.a);
    Split(q, v.geo.a, v.geo.a);
  }

  /** Peeling the last digit first or the first digit first is the same walk. */
  lemma WalkThree(v: Vol, set_: bool, alloc: bool, p: nat, q: nat, val: nat)
    requires Fsck(v) && q < Pow(v.geo.a, 3) && val < WORD_LIMIT
    ensures q / v.geo.a < Pow(v.geo.a, 2)
    ensures var r := Walk(v, false, alloc, p, 2, q / v.geo.a, 0);
      Walk(v, set_, alloc, p, 3, q, val) ==
      if r.ret != Ok then r else IndBmap(r.vol, set_, alloc, r.result, q % v.geo.a, val)
  {
    hide *;
    var a := v.geo.a;
    IsPower(a);
    QuotientBelow(q, a);
    LastDigit(q, a, a);
    WalkUnfold(v, set_, alloc, p, 2, q, val);
    IsDivMod(q, a * a);
    WalkTwo(v, false, alloc, p, q / a, 0);
    var r1 := IndBmap(v, false, alloc, p, q / (a * a), 0);
    if r1.ret == Ok {
      WalkTwo(r1.vol, set_, alloc, r1.result, q % (a * a), val);
    }
  }

  lemma QuotientBelow(q: nat, a: nat)
    requires a > 0 && q < a * a * a
    ensures q / a < a * a
  {
    hide *;
    assert a * a * a == (a * a) * a;
  }

  method BlockDindBmap(vol: Volume, set_: bool, alloc: bool, dind: nat, blockno: nat, val: nat)
    returns (ret: Err, result: nat)
    requires Fsck(vol.Now()) && blockno < Pow(vol.geo.a, 2) && val < WORD_LIMIT
    modifies vol
    ensures Step(vol.Now(), ret, result) == Walk(old(vol.Now()), set_, alloc, dind, 2, blockno, val)
    ensures Fsck(vol.Now())
  {
    WalkTwo(vol.Now(), set_, alloc, dind, blockno, val);
    ret, result := BlockIndBmap(vol, false, alloc, dind, blockno / vol.geo.a, 0);
    if ret == Ok {
      ret, result := BlockIndBmap(vol, set_, alloc, result, blockno % vol.geo.a, val);
    }
  }

  method BlockTindBmap(vol: Volume, set_: bool, alloc: bool, tind: nat, blockno: nat, val: nat)
    returns (ret: Err, result: nat)
    requires Fsck(vol.Now()) && blockno < Pow(vol.geo.a, 3) && val < WORD_LIMIT
    modifies vol
    ensures Step(vol.Now(), ret, result) == Walk(old(vol.Now()), set_, alloc, tind, 3, blockno, val)
    ensures Fsck(vol.Now())
  {
    WalkThree(vol.Now(), set_, alloc, tind, blockno, val);
    ret, result := BlockDindBmap(vol, false, alloc, tind, blockno / vol.geo.a, 0);
    if ret == Ok {
      ret, result := BlockIndBmap(vol, set_, alloc, result, blockno % vol.geo.a, val);
    }
  }

  /** The chain below an indirect slot of level j. */
  method WalkSlot(vol: Volume, set_: bool, alloc: bool, p: nat, j: nat, blockno: nat, val: nat)
    returns (ret: Err, result: nat)
    requires Fsck(vol.Now()) && 1 <= j <= 3 && blockno < Pow(vol.geo.a, j) && val < WORD_LIMIT
    modifies vol
    ensures Step(vol.Now(), ret, result) == Walk(old(vol.Now()), set_, alloc, p, j, blockno, val)
  {
    if j == 1 {
      IsPower(vol.geo.a);
      ret, result := BlockIndBmap(vol, set_, alloc, p, blockno, val);
    } else if j == 2 {
      ret, result := BlockDindBmap(vol, set_, alloc, p, blockno, val);
    } else {
      ret, result := BlockTindBmap(vol, set_, alloc, p, blockno, val);
    }
  }

  /** The part of ext2_bmap for a block below indirect slot s of level j. */
  method BmapIndirect(vol: Volume, inode: Inode, set_: bool, alloc: bool, j: nat, s: nat, blockno: nat, val: nat,
                      ghost x: SlotStep)
    returns (ret: Err, phys: nat, blocksAlloc: nat)
    requires inode.block.Length == NSLOTS && Fsck(vol.Now()) && val < WORD_LIMIT
    requires 1 <= j <= 3 && s == NDIR + j - 1 && blockno < Pow(vol.geo.a, j)
    requires x == SlotBmap(vol.Now(), set_, alloc, inode.block[s], j, inode.block[s - 1], blockno, val)
    modifies vol, inode.block
    ensures SlotStep(vol.Now(), inode.block[s], ret, phys) == x
    ensures inode.block[..] == old(inode.block[..])[s := x.slot]
    ensures blocksAlloc == if old(inode.block[s]) == 0 && x.slot != 0 then 1 else 0
  {
    blocksAlloc := 0;
    var b := inode.block[s];
    if b == 0 {
      if !alloc {
        return (if set_ then EINVAL else Ok), 0, 0;
      }
      AllocOk(vol.Now(), inode.block[s - 1]);
      ret, b := vol.AllocBlock(inode.block[s - 1]);
      if ret != Ok {
        return ret, 0, 0;
      }
      inode.block[s] := b;
      blocksAlloc := 1;
    }
    ret, phys := WalkSlot(vol, set_, alloc, b, j, blockno, val);
  }

  /** The part of ext2_bmap for one of the direct blocks. */
  method BmapDirect(vol: Volume, inode: Inode, set_: bool, alloc: bool, block: nat, val: nat, goal: nat,
                    ghost x: SlotStep)
    returns (ret: Err, phys: nat, blocksAlloc: nat)
    requires inode.block.Length == NSLOTS && Fsck(vol.Now()) && val < WORD_LIMIT && block < NDIR
    requires x == SlotBmap(vol.Now(), set_, alloc, inode.block[block], 0, GoalOf(inode.block[..], block, goal), 0, val)
    modifies vol, inode.block
    ensures SlotStep(vol.Now(), inode.block[block], ret, phys) == x
    ensures inode.block[..] == old(inode.block[..])[block := x.slot]
    ensures blocksAlloc == if old(inode.block[block]) == 0 && x.slot != 0 && !set_ then 1 else 0
  {
    ret, phys, blocksAlloc := Ok, val, 0;
    if set_ {
      inode.block[block] := val;
      return;
    }
    phys := inode.block[block];
    var b := if block == 0 then goal else inode.block[block - 1];
    if phys == 0 && alloc {
      AllocOk(vol.Now(), b);
      ret, b := vol.AllocBlock(b);
      if ret != Ok {
        return;
      }
      inode.block[block] := b;
      blocksAlloc := 1;
      phys := b;
    }
  }

  /** The four ranges of block numbers that ext2_bmap tells apart. */
  method Locate(a: nat, block: nat) returns (tooBig: bool, level: nat, offset: nat)
    ensures tooBig == TooBig(a, block)
    ensures !tooBig ==> level == LevelOf(a, block) && offset == OffsetOf(a, block)
  {
    LevelBases(a);
    tooBig, level, offset := block >= 0xffff_ffff || block >= 12 + a + a * a + a * a * a, 0, 0;
    if !tooBig && block >= NDIR {
      level, offset := 1, block - NDIR;
      if offset >= a {
        level, offset := 2, offset - a;
        if offset >= a * a {
          level, offset := 3, offset - a * a;
        }
      }
    }
  }

  /** The end of ext2_bmap: the outcome x for the slot of block k is the outcome of the call. */
  lemma BmapIs(v: Vol, iblocks: int, slots: seq<nat>, set_: bool, alloc: bool, k: nat, val: nat, goal: nat, j: nat,
               s: nat, q: nat, x: SlotStep, n: nat)
    requires Fsck(v) && |slots| == NSLOTS && val < WORD_LIMIT && !TooBig(v.geo.a, k)
    requires j == LevelOf(v.geo.a, k) && s == SlotOf(v.geo.a, k) && q == OffsetOf(v.geo.a, k)
    requires x == SlotBmap(v, set_, alloc, slots[s], j, GoalOf(slots, s, goal), q, val)
    requires n == if slots[s] == 0 && x.slot != 0 && !(set_ && k < NDIR) then 1 else 0
    ensures Bmap(v, iblocks, slots, set_, alloc, k, val, goal) ==
            Mapped(x.vol, if x.ret == Ok then AddBlocks(v.geo, iblocks, n) else iblocks,
                   slots[s := x.slot], x.ret, x.phys)
  {
  }

  /** The slot of a block and the chain below it. */
  method BmapBlock(vol: Volume, inode: Inode, set_: bool, alloc: bool, block: nat, val: nat, goal: nat, level: nat,
                   offset: nat, s: nat, ghost x: SlotStep)
    returns (ret: Err, phys: nat, blocksAlloc: nat)
    requires inode.block.Length == NSLOTS && Fsck(vol.Now()) && val < WORD_LIMIT
    requires level <= 3 && (level == 0 <==> block < NDIR) && offset < Pow(vol.geo.a, level)
    requires (level == 0 ==> offset == 0)
    requires s == if level == 0 then block else NDIR + level - 1
    requires x == SlotBmap(vol.Now(), set_, alloc, inode.block[s], level, GoalOf(inode.block[..], s, goal), offset, val)
    modifies vol, inode.block
    ensures SlotStep(vol.Now(), inode.block[s], ret, phys) == x
    ensures inode.block[..] == old(inode.block[..])[s := x.slot]
    ensures blocksAlloc == if old(inode.block[s]) == 0 && x.slot != 0 && !(set_ && block < NDIR) then 1 else 0
  {
    if level == 0 {
      ret, phys, blocksAlloc := BmapDirect(vol, inode, set_, alloc, block, val, goal, x);
    } else {
      ret, phys, blocksAlloc := BmapIndirect(vol, inode, set_, alloc, level, s, offset, val, x);
    }
  }

  /** ext2_bmap for an inode without extents or inline data. */
  method BmapInode(vol: Volume, inode: Inode, set_: bool, alloc: bool, block: nat, val: nat, goal: nat)
    returns (ret: Err, phys: nat)
    requires inode.block.Length == NSLOTS && Fsck(vol.Now()) && val < WORD_LIMIT
    modifies vol, inode, inode.block
    ensures Mapped(vol.Now(), inode.iblocks, inode.block[..], ret, phys) ==
            Bmap(old(vol.Now()), old(inode.iblocks), old(inode.block[..]), set_, alloc, block, val, goal)
  {
    var tooBig, level, offset := Locate(vol.geo.a, block);
    if tooBig {
      return EFBIG, 0;
    }
    var s := SlotOf(vol.geo.a, block);
    ghost var v, slots := vol.Now(), inode.block[..];
    ghost var x := SlotBmap(v, set_, alloc, slots[s], level, GoalOf(slots, s, goal), offset, val);
    var blocksAlloc;
    ret, phys, blocksAlloc := BmapBlock(vol, inode, set_, alloc, block, val, goal, level, offset, s, x);
    BmapIs(v, inode.iblocks, slots, set_, alloc, block, val, goal, level, s, offset, x, blocksAlloc);
    if ret == Ok {
      inode.iblocks := AddBlocks(vol.geo, inode.iblocks, blocksAlloc);
    }
  }
}
