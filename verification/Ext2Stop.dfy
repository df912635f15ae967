/** What a truncation leaves behind that stops because i_blocks is too small. */
module Ext2Stop {
  import opened Bytes
  import opened Errors
  import opened Radix
  import opened Ext2Tree
  import opened Ext2Disk
  import opened Ext2Alloc
  import opened Ext2Truncate
  import opened Ext2Inode
  import opened Ext2Bmap
  import opened Ext2Space

  // ----- Trees that are partly cut -----

  /** t' owns part of what t owns, and all of that which is in use. */
  predicate Fewer(t: Tree, t': Tree, used: set<nat>)
  {
    Own(t) * used <= Own(t') <= Own(t) && Meta(t') <= Meta(t)
  }

  /** t' maps each offset as t does, or from s on possibly to nothing. */
  predicate Thinned(t: Tree, t': Tree, a: nat, level: nat, s: nat)
  {
    && a > 0 && Shape(t, a, level) && Shape(t', a, level)
    && (forall q :: 0 <= q < Pow(a, level) ==>
          Lookup(t', a, level, q) == Lookup(t, a, level, q) || (s <= q && Lookup(t', a, level, q) == 0))
  }

  predicate Partly(t: Tree, t': Tree, a: nat, level: nat, s: nat, used: set<nat>)
  {
    Fewer(t, t', used) && Thinned(t, t', a, level, s)
  }

  predicate PartlyAll(ts: seq<Tree>, ts': seq<Tree>, a: nat, level: nat, s: nat, used: set<nat>)
  {
    && |ts'| == |ts|
    && (forall i :: 0 <= i < |ts| ==> Partly(ts[i], ts'[i], a, level, Minus(s, Offset(i, Pow(a, level))), used))
  }

  lemma PartlySelf(t: Tree, a: nat, level: nat, s: nat, used: set<nat>)
    requires a > 0 && Shape(t, a, level)
    ensures Partly(t, t, a, level, s, used)
  {
  }

  lemma PartlyPrune(t: Tree, a: nat, level: nat, s: nat, used: set<nat>)
    requires a > 0 && Shape(t, a, level) && Own(t) * used <= Own(Prune(t, a, level, s))
    ensures Partly(t, Prune(t, a, level, s), a, level, s, used)
  {
    hide Prune, Lookup, Own, Meta, Pow;
    PruneOwn(t, a, level, s);
    PruneShape(t, a, level, s);
    forall q | 0 <= q < Pow(a, level)
      ensures Lookup(Prune(t, a, level, s), a, level, q) == if q < s then Lookup(t, a, level, q) else 0
    {
      PruneLookup(t, a, level, s, q);
    }
  }

  lemma PartlyPruneAll(ts: seq<Tree>, a: nat, level: nat, s: nat, used: set<nat>)
    requires a > 0 && ShapeAll(ts, a, level) && SeparateAll(ts)
    requires OwnAll(ts) * used <= OwnAll(PruneAll(ts, a, level, s))
    ensures PartlyAll(ts, PruneAll(ts, a, level, s), a, level, s, used)
  {
    hide *;
    var cut := PruneAll(ts, a, level, s);
    forall i | 0 <= i < |ts|
      ensures Partly(ts[i], cut[i], a, level, Minus(s, Offset(i, Pow(a, level))), used)
    {
      PruneAt(ts, a, level, s, i);
      OwnAt(ts, i);
      forall x | x in Own(ts[i]) && x in used
        ensures x in Own(cut[i])
      {
        if x !in Own(cut[i]) {
          PruneDrops(ts, a, level, s, i, x);
        }
      }
      PartlyPrune(ts[i], a, level, Minus(s, Offset(i, Pow(a, level))), used);
    }
    PartlyAllIntro(ts, cut, a, level, s, used);
  }

  lemma PartlyAllIntro(ts: seq<Tree>, ts': seq<Tree>, a: nat, level: nat, s: nat, used: set<nat>)
    requires |ts'| == |ts|
    requires forall i :: 0 <= i < |ts| ==> Partly(ts[i], ts'[i], a, level, Minus(s, Offset(i, Pow(a, level))), used)
    ensures PartlyAll(ts, ts', a, level, s, used)
  {
  }

  lemma {:induction false} FewerAll(ts: seq<Tree>, ts': seq<Tree>, used: set<nat>)
    requires |ts'| == |ts| && forall i :: 0 <= i < |ts| ==> Fewer(ts[i], ts'[i], used)
    ensures OwnAll(ts) * used <= OwnAll(ts') <= OwnAll(ts) && MetaAll(ts') <= MetaAll(ts)
  {
    if ts != [] {
      var n := |ts| - 1;
      FewerAll(ts[..n], ts'[..n], used);
      assert Fewer(ts[n], ts'[n], used);
    }
  }

  lemma {:induction false} ShapeEach(ts: seq<Tree>, a: nat, level: nat)
    requires forall i :: 0 <= i < |ts| ==> Shape(ts[i], a, level)
    ensures ShapeAll(ts, a, level)
  {
    hide Shape;
    if ts != [] {
      ShapeEach(ts[..|ts| - 1], a, level);
    }
  }

  lemma PartlyAllOwn(ts: seq<Tree>, ts': seq<Tree>, a: nat, level: nat, s: nat, used: set<nat>)
    requires PartlyAll(ts, ts', a, level, s, used)
    ensures ShapeAll(ts', a, level)
    ensures OwnAll(ts) * used <= OwnAll(ts') <= OwnAll(ts) && MetaAll(ts') <= MetaAll(ts)
  {
    hide Fewer, OwnAll, MetaAll, Shape, ShapeAll, Lookup, Offset, Pow;
    FewerAll(ts, ts', used);
    ShapeEach(ts', a, level);
  }

  lemma ThinnedAt(t: Tree, t': Tree, a: nat, level: nat, s: nat, q: nat)
    requires Thinned(t, t', a, level, s) && q < Pow(a, level)
    ensures a > 0 && Shape(t, a, level) && Shape(t', a, level)
    ensures Lookup(t', a, level, q) == Lookup(t, a, level, q) || (s <= q && Lookup(t', a, level, q) == 0)
  {
  }

  /** An indirect block over partly cut entries is partly cut. */
  lemma PartlyInd(b: nat, kids: seq<Tree>, kids': seq<Tree>, a: nat, level: nat, s: nat, used: set<nat>)
    requires a > 0 && |kids| == a && ShapeAll(kids, a, level) && PartlyAll(kids, kids', a, level, s, used)
    ensures Partly(Ind(b, kids), Ind(b, kids'), a, level + 1, s, used)
  {
    hide Fewer, OwnAll, MetaAll, ShapeAll, Lookup, Offset, Pow, Thinned;
    var t, t', h := Ind(b, kids), Ind(b, kids'), level + 1;
    PartlyAllOwn(kids, kids', a, level, s, used);
    assert Fewer(t, t', used) by { FewerInd(b, kids, kids', used); }
    forall q | 0 <= q < Pow(a, h)
      ensures Lookup(t', a, h, q) == Lookup(t, a, h, q) || (s <= q && Lookup(t', a, h, q) == 0)
    {
      LookupKid(t, a, h, q);
      LookupKid(t', a, h, q);
      var inc := Pow(a, level);
      var i := Digit(q, inc);
      ThinnedAt(kids[i], kids'[i], a, level, Minus(s, Offset(i, inc)), Rest(q, inc));
    }
    ThinnedIntro(t, t', a, h, s);
  }

  lemma FewerInd(b: nat, kids: seq<Tree>, kids': seq<Tree>, used: set<nat>)
    requires OwnAll(kids) * used <= OwnAll(kids') <= OwnAll(kids) && MetaAll(kids') <= MetaAll(kids)
    ensures Fewer(Ind(b, kids), Ind(b, kids'), used)
  {
    hide OwnAll, MetaAll;
  }

  lemma ThinnedIntro(t: Tree, t': Tree, a: nat, level: nat, s: nat)
    requires a > 0 && Shape(t, a, level) && Shape(t', a, level)
    requires forall q :: 0 <= q < Pow(a, level) ==>
      Lookup(t', a, level, q) == Lookup(t, a, level, q) || (s <= q && Lookup(t', a, level, q) == 0)
    ensures Thinned(t, t', a, level, s)
  {
  }

  // ----- Volumes -----

  /** Only the blocks m are written and only blocks of f are given back. */
  predicate Released(v: Vol, v': Vol, m: set<nat>, f: set<nat>)
  {
    Fsck(v') && v'.geo == v.geo && OnlyOn(v.disk, v'.disk, m) && Used(v) - f <= Used(v') <= Used(v)
  }

  /** Pointer p at place i denotes t, partly cut. */
  predicate PartAt(w: Vol, level: nat, start: nat, i: nat, t: Tree, p: nat)
  {
    var a := w.geo.a;
    Partly(t, TreeOf(w.disk, a, level, p), a, level, Minus(start, Offset(i, Pow(a, level))), Used(w))
  }

  /** Entry i of state o, at tree t: whether read through the old pointer or the new one, t is partly cut. */
  predicate EntryPart(o: Out, r: Out, level: nat, start: nat, i: nat, t: Tree)
  {
    var a := o.vol.geo.a;
    && i < |o.ps| && Shape(t, a, level) && (r.ps == o.ps || r.ps == o.ps[i := 0])
    && Released(o.vol, r.vol, Meta(t), Own(t) - Own(Prune(t, a, level, Minus(start, Offset(i, Pow(a, level))))))
    && PartAt(r.vol, level, start, i, t, o.ps[i]) && PartAt(r.vol, level, start, i, t, r.ps[i])
  }

  lemma EntryPartMissed(o: Out, level: nat, start: nat, i: nat, t: Tree)
    requires Fsck(o.vol) && i < |o.ps| && t == TreeOf(o.vol.disk, o.vol.geo.a, level, o.ps[i])
    requires Shape(t, o.vol.geo.a, level)
    ensures EntryPart(o, o, level, start, i, t)
  {
    hide Fsck, TreeOf, Decode, Own, Meta, Shape, Partly, Used, Prune, Offset, Pow;
    var a := o.vol.geo.a;
    assert a > 0 by { FsckPositive(o.vol); }
    PartlySelf(t, a, level, Minus(start, Offset(i, Pow(a, level))), Used(o.vol));
  }

  lemma FsckPositive(v: Vol)
    requires Fsck(v)
    ensures v.geo.a > 0 && v.geo.first < v.geo.count
  {
  }

  /** An entry that was cut to the end. */
  lemma EntryPartDone(o: Out, r: Out, level: nat, start: nat, i: nat, t: Tree)
    requires Fsck(o.vol) && i < |o.ps| && Shape(t, o.vol.geo.a, level)
    requires EntryDone(o, r, level, i, t,
                       Prune(t, o.vol.geo.a, level, Minus(start, Offset(i, Pow(o.vol.geo.a, level)))))
    requires PartAt(r.vol, level, start, i, t, o.ps[i])
    ensures EntryPart(o, r, level, start, i, t)
  {
    hide Fsck, TreeOf, Decode, Own, Meta, Shape, Partly, Used, Prune, Offset, Pow;
    var a := o.vol.geo.a;
    FsckPositive(o.vol);
    var s := Minus(start, Offset(i, Pow(a, level)));
    PartlyPrune(t, a, level, s, Used(r.vol));
  }

  /** The pointer array ps of ts has been cut to the state r, or as far as it went. */
  predicate TablePart(v: Vol, r: Out, level: nat, start: nat, ts: seq<Tree>, ps: seq<nat>)
  {
    && ShapeAll(ts, v.geo.a, level) && |r.ps| == |ps|
    && Released(v, r.vol, MetaAll(ts), Freed(ts, PruneAll(ts, v.geo.a, level, start)))
    && PartlyAll(ts, TreesOf(r.vol.disk, v.geo.a, level, ps), v.geo.a, level, start, Used(r.vol))
    && PartlyAll(ts, TreesOf(r.vol.disk, v.geo.a, level, r.ps), v.geo.a, level, start, Used(r.vol))
  }

  /** The blocks an indirect block's table gives back are among those the cut of the whole gives back. */
  lemma FreedBelow(b: nat, kids: seq<Tree>, a: nat, level: nat, s: nat)
    requires b !in OwnAll(kids) && ShapeAll(kids, a, level) && |kids| == a && s < Pow(a, level + 1)
    ensures Freed(kids, PruneAll(kids, a, level, s)) <= Own(Ind(b, kids)) - Own(Prune(Ind(b, kids), a, level + 1, s))
  {
    hide PruneAll, OwnAll, ShapeAll, Pow, AllHoles;
    PruneAllOwn(kids, a, level, s);
    FreedInd(b, kids, PruneAll(kids, a, level, s));
  }

  /** The tree of b after its table was cut only in part and not written back. */
  lemma TableDropped(v: Vol, w: Vol, level: nat, b: nat, kids: seq<Tree>)
    requires Opened(v, level, b, kids) && w.geo == v.geo && OnlyOn(v.disk, w.disk, MetaAll(kids))
    ensures TreeOf(w.disk, v.geo.a, level + 1, b) == Ind(b, TreesOf(w.disk, v.geo.a, level, Decode(v.disk[b])))
  {
    hide TreesOf, Decode, OwnAll, MetaAll, Ready;
    MetaAllOwned(kids);
  }

  lemma EntryStopped(o: Out, level: nat, start: nat, i: nat, kids: seq<Tree>, r: Out)
    requires Fsck(o.vol) && i < |o.ps| && Opened(o.vol, level, o.ps[i], kids)
    requires Reached(start, i, o.vol.geo.a, level) && Shape(Ind(o.ps[i], kids), o.vol.geo.a, level + 1)
    requires TablePart(o.vol, r, level, Within(start, i, o.vol.geo.a, level), kids, Decode(o.vol.disk[o.ps[i]]))
    ensures EntryPart(o, o.(vol := r.vol, iblocks := r.iblocks, ret := r.ret), level + 1, start, i, Ind(o.ps[i], kids))
  {
    hide Fsck, TreesOf, TreeOf, Decode, OwnAll, MetaAll, PruneAll, Prune, Used, Offset, Pow;
    hide ShapeAll, Partly, PartlyAll;
    FsckPositive(o.vol);
    var a, s, b := o.vol.geo.a, Within(start, i, o.vol.geo.a, level), o.ps[i];
    TableDropped(o.vol, r.vol, level, b, kids);
    FreedBelow(b, kids, a, level, s);
    PartlyInd(b, kids, TreesOf(r.vol.disk, a, level, Decode(o.vol.disk[b])), a, level, s, Used(r.vol));
  }

  /** The tree of b once its cut table is written back, read through the old pointer. */
  lemma EntryFinished(o: Out, level: nat, start: nat, i: nat, kids: seq<Tree>, r: Out)
    requires Fsck(o.vol) && i < |o.ps| && Opened(o.vol, level, o.ps[i], kids)
    requires Reached(start, i, o.vol.geo.a, level) && Shape(Ind(o.ps[i], kids), o.vol.geo.a, level + 1)
    requires r == CutTable(o.vol, o.iblocks, Decode(o.vol.disk[o.ps[i]]), level, Within(start, i, o.vol.geo.a, level))
    requires r.ret == Ok && TableDone(o.vol, r, level, Within(start, i, o.vol.geo.a, level), kids)
    ensures EntryPart(o, Entry(o, level + 1, start, i), level + 1, start, i, Ind(o.ps[i], kids))
  {
    hide Fsck, TreesOf, TreeOf, Decode, Encode, OwnAll, MetaAll, PruneAll, Prune, Used, Offset, Pow;
    hide ShapeAll, Partly, PartlyAll, CutTable;
    FsckPositive(o.vol);
    var a, s, b := o.vol.geo.a, Within(start, i, o.vol.geo.a, level), o.ps[i];
    var t, x := Ind(b, kids), Entry(o, level + 1, start, i);
    EntryTable(o, level, start, i, kids, r, Prune(t, a, level + 1, s));
    var v2 := Store(r.vol, b, r.ps);
    StoreOk(r.vol, b, r.ps);
    TableCut(o.vol.disk, r.vol.disk, a, level, b, kids, v2.disk[b], s);
    assert x.vol.disk == v2.disk;
    FreedBelow(b, kids, a, level, s);
    PartlyPruneAll(kids, a, level, s, Used(x.vol));
    PartlyInd(b, kids, PruneAll(kids, a, level, s), a, level, s, Used(x.vol));
    EntryPartDone(o, x, level + 1, start, i, t);
  }

  /** Cutting one entry, to the end or until it stops. */
  lemma {:induction false} EntryParts(o: Out, level: nat, start: nat, i: nat, t: Tree)
    requires Fsck(o.vol) && i < |o.ps| && o.ret == Ok
    requires t == TreeOf(o.vol.disk, o.vol.geo.a, level, o.ps[i]) && ReadyOne(t, o.vol.geo.a, level, Used(o.vol))
    ensures EntryPart(o, Entry(o, level, start, i), level, start, i, t)
    decreases level, 0
  {
    hide TreesOf, PruneAll, Decode, Encode, EntryPart, CutTable, Used, Own, CountsOk;
    var a := o.vol.geo.a;
    var offset, inc := Offset(i, Pow(a, level)), Pow(a, level);
    if o.ps[i] == 0 || offset + inc <= start {
      EntryPartMissed(o, level, start, i, t);
    } else if level == 0 {
      EntryCuts(o, level, start, i, t, Prune(t, a, level, Minus(start, offset)));
      var x := Entry(o, level, start, i);
      PartlySelf(t, a, level, Minus(start, offset), Used(x.vol));
      EntryPartDone(o, x, level, start, i, t);
    } else {
      PowPositive(a, level);
      EntryTableParts(o, level - 1, start, i, t);
    }
  }

  lemma EntryOf(o: Out, level: nat, start: nat, i: nat, kids: seq<Tree>, r: Out)
    requires i < |o.ps| && Opened(o.vol, level, o.ps[i], kids) && Reached(start, i, o.vol.geo.a, level)
    requires r == CutTable(o.vol, o.iblocks, Decode(o.vol.disk[o.ps[i]]), level, Within(start, i, o.vol.geo.a, level))
    requires r.ret != Ok
    ensures Entry(o, level + 1, start, i) == o.(vol := r.vol, iblocks := r.iblocks, ret := r.ret)
  {
    hide CutTable, TreesOf, Decode, Used, Ready, Pow, Offset;
  }

  lemma {:induction false} EntryTableParts(o: Out, level: nat, start: nat, i: nat, t: Tree)
    requires Fsck(o.vol) && i < |o.ps| && o.ps[i] != 0 && Reached(start, i, o.vol.geo.a, level)
    requires t == TreeOf(o.vol.disk, o.vol.geo.a, level + 1, o.ps[i])
    requires ReadyOne(t, o.vol.geo.a, level + 1, Used(o.vol))
    ensures EntryPart(o, Entry(o, level + 1, start, i), level + 1, start, i, t)
    decreases level, 3
  {
    hide *;
    FsckPositive(o.vol);
    var s := Within(start, i, o.vol.geo.a, level);
    Open(o.vol, level, o.ps[i]);
    var ps := Decode(o.vol.disk[o.ps[i]]);
    var kids := TreesOf(o.vol.disk, o.vol.geo.a, level, ps);
    OpenedHas(o.vol, level, o.ps[i], kids);
    ReadyShape(t, o.vol.geo.a, level + 1, Used(o.vol));
    var r := CutTable(o.vol, o.iblocks, ps, level, s);
    if r.ret == Ok {
      TableCuts(o.vol, o.iblocks, ps, level, s, kids);
      EntryFinished(o, level, start, i, kids, r);
    } else {
      TableParts(o.vol, o.iblocks, ps, level, s, kids);
      EntryStopped(o, level, start, i, kids, r);
      EntryOf(o, level, start, i, kids, r);
    }
  }

  lemma OpenedHas(v: Vol, level: nat, b: nat, kids: seq<Tree>)
    requires Opened(v, level, b, kids)
    ensures b < |v.disk| && AllWords(Decode(v.disk[b])) && Ready(kids, v.geo.a, level, Used(v))
  {
    hide Ready, TreesOf, Decode, Used, OwnAll;
  }

  lemma ReadyShape(t: Tree, a: nat, level: nat, used: set<nat>)
    requires ReadyOne(t, a, level, used)
    ensures Shape(t, a, level)
  {
  }

  // ----- The loop over a pointer array -----

  /** The first n pointers are cut as far as it went, the others are as they were. */
  predicate AfterPart(v: Vol, o: Out, level: nat, start: nat, n: nat, ts: seq<Tree>, ps: seq<nat>)
    requires n <= |ts| == |ps| && ShapeAll(ts[..n], v.geo.a, level)
  {
    && SameFrom(o.ps, ps, n)
    && Released(v, o.vol, MetaAll(ts[..n]), Freed(ts[..n], PruneAll(ts[..n], v.geo.a, level, start)))
    && (forall i :: 0 <= i < n ==> PartAt(o.vol, level, start, i, ts[i], ps[i]))
    && (forall i :: 0 <= i < n ==> PartAt(o.vol, level, start, i, ts[i], o.ps[i]))
  }

  /** A partly cut tree stays so while writes and frees happen elsewhere. */
  lemma PartKept(w: Vol, w': Vol, level: nat, start: nat, i: nat, t: Tree, p: nat, m: set<nat>, f: set<nat>)
    requires PartAt(w, level, start, i, t, p) && Released(w, w', m, f) && Meta(t) !! m
    ensures PartAt(w', level, start, i, t, p)
  {
    hide Fsck, TreeOf, Decode, Own, Meta, Shape, Lookup, Used, Offset, Pow;
    TreeKept(w.disk, w'.disk, w.geo.a, level, p, m);
  }

  lemma ReleasedNext(v: Vol, v1: Vol, v2: Vol, level: nat, start: nat, n: nat, ts: seq<Tree>)
    requires n < |ts| && ShapeAll(ts, v.geo.a, level) && SeparateAll(ts) && v1.geo == v.geo
    requires ShapeAll(ts[..n], v.geo.a, level) && ShapeAll(ts[..n + 1], v.geo.a, level) && Shape(ts[n], v.geo.a, level)
    requires Released(v, v1, MetaAll(ts[..n]), Freed(ts[..n], PruneAll(ts[..n], v.geo.a, level, start)))
    requires Released(v1, v2, Meta(ts[n]),
      Own(ts[n]) - Own(Prune(ts[n], v.geo.a, level, Minus(start, Offset(n, Pow(v.geo.a, level))))))
    ensures Released(v, v2, MetaAll(ts[..n + 1]), Freed(ts[..n + 1], PruneAll(ts[..n + 1], v.geo.a, level, start)))
  {
    hide Fsck, PruneAll, Prune, Own, OwnAll, Freed, Meta, MetaAll, Used, Offset, Pow, Shape, ShapeAll, SeparateAll;
    var a := v.geo.a;
    PruneNext(ts, a, level, start, n);
    PruneApart(ts, a, level, start, n);
    FreedNext(ts, a, level, start, n);
    OnlyOnTransitive(v.disk, v1.disk, v2.disk, MetaAll(ts[..n]), Meta(ts[n]));
  }

  /** The indirect blocks of two different trees. */
  lemma MetaApart(ts: seq<Tree>, i: nat, n: nat)
    requires SeparateAll(ts) && i < n < |ts|
    ensures Meta(ts[i]) !! Meta(ts[n])
  {
    hide Own, Meta, SeparateAll;
    DisjointAt(ts, i, n);
    MetaOwned(ts[i]);
    MetaOwned(ts[n]);
  }

  /** One more entry was cut, as far as it went. */
  lemma NextPart(v: Vol, o: Out, r: Out, level: nat, start: nat, n: nat, ts: seq<Tree>, ps: seq<nat>)
    requires n < |ts| == |ps| && ShapeAll(ts, v.geo.a, level) && SeparateAll(ts)
    requires ShapeAll(ts[..n], v.geo.a, level) && ShapeAll(ts[..n + 1], v.geo.a, level) && Shape(ts[n], v.geo.a, level)
    requires AfterPart(v, o, level, start, n, ts, ps) && EntryPart(o, r, level, start, n, ts[n])
    ensures AfterPart(v, r, level, start, n + 1, ts, ps)
  {
    hide Fsck, PruneAll, Prune, Own, Freed, Meta, Used, Offset, Pow, Shape, SeparateAll, PartAt;
    ReleasedNext(v, o.vol, r.vol, level, start, n, ts);
    forall i | 0 <= i < n
      ensures PartAt(r.vol, level, start, i, ts[i], ps[i]) && PartAt(r.vol, level, start, i, ts[i], r.ps[i])
    {
      MetaApart(ts, i, n);
      var f := Own(ts[n]) - Own(Prune(ts[n], v.geo.a, level, Minus(start, Offset(n, Pow(v.geo.a, level)))));
      PartKept(o.vol, r.vol, level, start, i, ts[i], ps[i], Meta(ts[n]), f);
      PartKept(o.vol, r.vol, level, start, i, ts[i], o.ps[i], Meta(ts[n]), f);
    }
  }

  lemma StillThere(v: Vol, w: Vol, level: nat, n: nat, ts: seq<Tree>, ps: seq<nat>, f: set<nat>)
    requires Fsck(v) && n < |ps| && ts == TreesOf(v.disk, v.geo.a, level, ps)
    requires Ready(ts, v.geo.a, level, Used(v)) && Released(v, w, MetaAll(ts[..n]), f)
    ensures ts[n] == TreeOf(w.disk, v.geo.a, level, ps[n]) && Shape(ts[n], v.geo.a, level)
  {
    hide Fsck, TreesOf, TreeOf, Decode, Own, OwnAll, Meta, MetaAll, Shape, Used;
    FsckPositive(v);
    TreesAt(v.disk, v.geo.a, level, ps, n);
    ShapeAt(ts, v.geo.a, level, n);
    PrefixDisjoint(ts, n);
    TreeKept(v.disk, w.disk, v.geo.a, level, ps[n], MetaAll(ts[..n]));
  }

  lemma AfterNone(v: Vol, iblocks: int, ps: seq<nat>, level: nat, start: nat, ts: seq<Tree>)
    requires Fsck(v) && |ts| == |ps| && ShapeAll(ts[..0], v.geo.a, level)
    ensures AfterPart(v, Out(v, iblocks, ps, 0, Ok), level, start, 0, ts, ps)
  {
    hide Fsck, Used, PartAt, Freed;
  }

  lemma AfterStep(v: Vol, iblocks: int, ps: seq<nat>, level: nat, start: nat, n: nat, o: Out)
    requires n < |ps| && o == After(v, iblocks, ps, level, start, n)
    ensures |o.ps| == |ps|
    ensures After(v, iblocks, ps, level, start, n + 1) == if o.ret != Ok then o else Entry(o, level, start, n)
  {
    hide Entry;
  }

  lemma {:induction false} AfterParts(v: Vol, iblocks: int, ps: seq<nat>, level: nat, start: nat, n: nat, ts: seq<Tree>)
    requires Fsck(v) && AllWords(ps) && n <= |ps| && ts == TreesOf(v.disk, v.geo.a, level, ps)
    requires Ready(ts, v.geo.a, level, Used(v))
    ensures ShapeAll(ts[..n], v.geo.a, level)
    ensures AfterPart(v, After(v, iblocks, ps, level, start, n), level, start, n, ts, ps)
    decreases level, 1, n
  {
    hide *;
    ReadyHas(ts, v.geo.a, level, Used(v));
    ShapePrefix(ts, v.geo.a, level, n);
    if n == 0 {
      AfterFirst(v, iblocks, ps, level, start);
      AfterNone(v, iblocks, ps, level, start, ts);
    } else {
      var m := n - 1;
      var o := After(v, iblocks, ps, level, start, m);
      AfterParts(v, iblocks, ps, level, start, m, ts);
      AfterStep(v, iblocks, ps, level, start, m, o);
      AfterPartHas(v, o, level, start, m, ts, ps);
      StillThere(v, o.vol, level, m, ts, ps, Freed(ts[..m], PruneAll(ts[..m], v.geo.a, level, start)));
      if o.ret != Ok {
        EntryPartMissed(o, level, start, m, ts[m]);
        NextPart(v, o, o, level, start, m, ts, ps);
      } else {
        AfterCuts(v, iblocks, ps, level, start, m, ts);
        NextEntry(v, o, level, start, m, ts, ps);
        EntryParts(o, level, start, m, ts[m]);
        NextPart(v, o, Entry(o, level, start, m), level, start, m, ts, ps);
      }
    }
  }

  lemma AfterFirst(v: Vol, iblocks: int, ps: seq<nat>, level: nat, start: nat)
    ensures After(v, iblocks, ps, level, start, 0) == Out(v, iblocks, ps, 0, Ok)
  {
  }

  lemma ReadyHas(ts: seq<Tree>, a: nat, level: nat, used: set<nat>)
    requires Ready(ts, a, level, used)
    ensures ShapeAll(ts, a, level) && SeparateAll(ts) && OwnAll(ts) <= used
  {
    hide ShapeAll, SeparateAll, OwnAll;
  }

  lemma AfterPartHas(v: Vol, o: Out, level: nat, start: nat, n: nat, ts: seq<Tree>, ps: seq<nat>)
    requires n < |ts| == |ps| && ShapeAll(ts[..n], v.geo.a, level) && AfterPart(v, o, level, start, n, ts, ps)
    ensures Released(v, o.vol, MetaAll(ts[..n]), Freed(ts[..n], PruneAll(ts[..n], v.geo.a, level, start)))
    ensures Fsck(o.vol) && o.vol.geo == v.geo && n < |o.ps| && o.ps[n] == ps[n]
  {
    hide ShapeAll, Fsck, MetaAll, Freed, PruneAll, Used, PartAt, OnlyOn;
  }

  /** A whole pointer array is cut, to the end or until it stops. */
  lemma {:induction false} TableParts(v: Vol, iblocks: int, ps: seq<nat>, level: nat, start: nat, ts: seq<Tree>)
    requires Fsck(v) && AllWords(ps) && ts == TreesOf(v.disk, v.geo.a, level, ps)
    requires Ready(ts, v.geo.a, level, Used(v))
    ensures TablePart(v, CutTable(v, iblocks, ps, level, start), level, start, ts, ps)
    decreases level, 2
  {
    hide *;
    ReadyHas(ts, v.geo.a, level, Used(v));
    AfterParts(v, iblocks, ps, level, start, |ps|, ts);
    assert ts[..|ps|] == ts;
    CutTableOf(v, iblocks, ps, level, start);
    AllParts(v, CutTable(v, iblocks, ps, level, start), After(v, iblocks, ps, level, start, |ps|), level, start, ts,
             ps);
  }

  lemma CutTableOf(v: Vol, iblocks: int, ps: seq<nat>, level: nat, start: nat)
    ensures CutTable(v, iblocks, ps, level, start).vol == After(v, iblocks, ps, level, start, |ps|).vol
    ensures CutTable(v, iblocks, ps, level, start).ps == After(v, iblocks, ps, level, start, |ps|).ps
  {
    hide After;
  }

  lemma AllParts(v: Vol, r: Out, o: Out, level: nat, start: nat, ts: seq<Tree>, ps: seq<nat>)
    requires |ts| == |ps| && ts[..|ps|] == ts && ShapeAll(ts, v.geo.a, level) && r.vol == o.vol && r.ps == o.ps
    requires AfterPart(v, o, level, start, |ps|, ts, ps)
    ensures TablePart(v, r, level, start, ts, ps)
  {
    hide Fsck, TreesOf, TreeOf, MetaAll, Freed, PruneAll, Used, ShapeAll, Partly, Offset, Pow;
    forall i | 0 <= i < |ps|
      ensures TreesOf(r.vol.disk, v.geo.a, level, ps)[i] == TreeOf(r.vol.disk, v.geo.a, level, ps[i])
      ensures TreesOf(r.vol.disk, v.geo.a, level, r.ps)[i] == TreeOf(r.vol.disk, v.geo.a, level, r.ps[i])
    {
      TreesAt(r.vol.disk, v.geo.a, level, ps, i);
      TreesAt(r.vol.disk, v.geo.a, level, r.ps, i);
    }
  }

  // ----- The inode -----

  /** Level i is partly cut at s, and what a full cut would leave of it is in use. */
  predicate LevelPart(v: Vol, slots: seq<nat>, c: Cut, i: nat, s: nat)
    requires |slots| == NSLOTS && |c.slots| == NSLOTS && i < 4
  {
    var a, ts := v.geo.a, Level(v, slots, i);
    && ShapeAll(ts, a, i) && PartlyAll(ts, Level(c.vol, c.slots, i), a, i, s, Used(c.vol))
    && OwnAll(PruneAll(ts, a, i, s)) <= Used(c.vol)
  }

  /** Level i is as it was and still in use. */
  predicate LevelSame(v: Vol, slots: seq<nat>, c: Cut, i: nat)
    requires |slots| == NSLOTS && |c.slots| == NSLOTS && i < 4
  {
    Level(c.vol, c.slots, i) == Level(v, slots, i) && OwnAll(Level(v, slots, i)) <= Used(c.vol)
  }

  /** Levels j and up have been cut as far as it went, the levels below are as they were. */
  predicate PartFrom(v: Vol, slots: seq<nat>, c: Cut, start: nat, j: nat)
    requires |slots| == NSLOTS && |c.slots| == NSLOTS && j <= 4
  {
    && Fsck(c.vol) && c.vol.geo == v.geo && Used(c.vol) <= Used(v)
    && (forall i :: 0 <= i < j ==> LevelSame(v, slots, c, i))
    && (forall i :: j <= i < 4 ==> LevelPart(v, slots, c, i, Left(v.geo.a, start, j, i)))
  }

  lemma PartlySelfAll(ts: seq<Tree>, a: nat, level: nat, s: nat, used: set<nat>)
    requires a > 0 && ShapeAll(ts, a, level)
    ensures PartlyAll(ts, ts, a, level, s, used)
  {
    hide Partly, Offset, Pow, ShapeAll, Shape;
    forall i | 0 <= i < |ts|
      ensures Partly(ts[i], ts[i], a, level, Minus(s, Offset(i, Pow(a, level))), used)
    {
      ShapeAt(ts, a, level, i);
      PartlySelf(ts[i], a, level, Minus(s, Offset(i, Pow(a, level))), used);
    }
  }

  /** A level nothing happened to. */
  lemma SamePart(v: Vol, slots: seq<nat>, c: Cut, i: nat, s: nat)
    requires InodeCheck(v, slots) && |c.slots| == NSLOTS && i < 4 && LevelSame(v, slots, c, i)
    ensures LevelPart(v, slots, c, i, s)
  {
    hide InodeCheck, Level, PruneAll, OwnAll, ShapeAll, PartlyAll, Used, Ready;
    LevelTable(v, slots, i);
    PruneAllOwn(Level(v, slots, i), v.geo.a, i, s);
    PartlySelfAll(Level(v, slots, i), v.geo.a, i, s, Used(c.vol));
  }

  /** What the blocks of level j leave of a level i that owns none of them. */
  lemma OtherLevel(v: Vol, slots: seq<nat>, c: Cut, i: nat, j: nat, f: set<nat>)
    requires InodeCheck(v, slots) && |slots| == |c.slots| == NSLOTS && i < 4 && j < 4 && i != j
    requires Released(v, c.vol, MetaAll(Level(v, slots, j)), f) && f <= OwnAll(Level(v, slots, j))
    requires LevelSlots(c.slots, i) == LevelSlots(slots, i)
    ensures LevelSame(v, slots, c, i)
  {
    hide InodeCheck, Fsck, TreesOf, OwnAll, MetaAll, ShapeAll, SeparateAll, Used, LevelSlots;
    LevelTable(v, slots, i);
    LevelsApart(v, slots, i, j);
    MetaAllOwned(Level(v, slots, i));
    MetaAllOwned(Level(v, slots, j));
    TreesKept(v.disk, c.vol.disk, v.geo.a, i, LevelSlots(slots, i), MetaAll(Level(v, slots, j)));
  }

  /** The run stops in level j. */
  lemma LevelStops(v: Vol, iblocks: int, slots: seq<nat>, start: nat, j: nat, r: Out, c: Cut)
    requires InodeCheck(v, slots) && |slots| == NSLOTS && j < 4
    requires r == CutTable(v, iblocks, LevelSlots(slots, j), j, start)
    requires c == Cut(r.vol, r.iblocks, PutLevel(slots, j, r.ps), r.ret)
    ensures PartFrom(v, slots, c, start, j)
  {
    hide *;
    var a, ts, ps := v.geo.a, Level(v, slots, j), LevelSlots(slots, j);
    LevelTable(v, slots, j);
    TableParts(v, iblocks, ps, j, start, ts);
    var f := Freed(ts, PruneAll(ts, a, j, start));
    FreedOwned(ts, a, j, start, Used(v), Used(c.vol));
    PartOfTable(v, slots, r, c, start, j);
    forall i | 0 <= i < 4 && i != j
      ensures LevelSame(v, slots, c, i) && LevelPart(v, slots, c, i, Left(a, start, j, i))
    {
      OtherLevel(v, slots, c, i, j, f);
      SamePart(v, slots, c, i, Left(a, start, j, i));
    }
    PartIntro(v, slots, c, start, j);
  }

  lemma FreedOwned(ts: seq<Tree>, a: nat, level: nat, s: nat, u: set<nat>, u': set<nat>)
    requires ShapeAll(ts, a, level) && Ready(ts, a, level, u)
    ensures Freed(ts, PruneAll(ts, a, level, s)) <= OwnAll(ts)
    ensures u - Freed(ts, PruneAll(ts, a, level, s)) <= u' ==> OwnAll(PruneAll(ts, a, level, s)) <= u'
  {
    hide ShapeAll, SeparateAll, OwnAll, PruneAll;
    PruneAllOwn(ts, a, level, s);
  }

  lemma PartOfTable(v: Vol, slots: seq<nat>, r: Out, c: Cut, start: nat, j: nat)
    requires |slots| == NSLOTS && j < 4 && TablePart(v, r, j, start, Level(v, slots, j), LevelSlots(slots, j))
    requires ShapeAll(Level(v, slots, j), v.geo.a, j) && Ready(Level(v, slots, j), v.geo.a, j, Used(v))
    requires c == Cut(r.vol, r.iblocks, PutLevel(slots, j, r.ps), r.ret)
    ensures LevelPart(v, slots, c, j, Left(v.geo.a, start, j, j))
    ensures var ts := Level(v, slots, j);
      Released(v, c.vol, MetaAll(ts), Freed(ts, PruneAll(ts, v.geo.a, j, start)))
    ensures forall i :: 0 <= i < 4 && i != j ==> LevelSlots(c.slots, i) == LevelSlots(slots, i)
    ensures Fsck(c.vol) && c.vol.geo == v.geo && Used(c.vol) <= Used(v)
  {
    hide Fsck, TreesOf, OwnAll, MetaAll, ShapeAll, Used, LevelSlots, PutLevel, PartlyAll, PruneAll, Ready;
    FreedOwned(Level(v, slots, j), v.geo.a, j, start, Used(v), Used(c.vol));
  }

  lemma PartIntro(v: Vol, slots: seq<nat>, c: Cut, start: nat, j: nat)
    requires |slots| == NSLOTS && |c.slots| == NSLOTS && j < 4
    requires Fsck(c.vol) && c.vol.geo == v.geo && Used(c.vol) <= Used(v)
    requires LevelPart(v, slots, c, j, Left(v.geo.a, start, j, j))
    requires forall i :: 0 <= i < j ==> LevelSame(v, slots, c, i)
    requires forall i :: j < i < 4 ==> LevelPart(v, slots, c, i, Left(v.geo.a, start, j, i))
    ensures PartFrom(v, slots, c, start, j)
  {
    hide LevelSame, LevelPart, Fsck, Used, Left;
  }

  /** The run has cut level j and goes on. */
  lemma LevelGoesOn(v: Vol, iblocks: int, slots: seq<nat>, start: nat, j: nat, r: Out, c: Cut)
    requires InodeCheck(v, slots) && |slots| == |c.slots| == NSLOTS && j < 4 && start < LevelSpan(v.geo.a, j)
    requires r == CutTable(v, iblocks, LevelSlots(slots, j), j, start) && r.ret == Ok
    requires PartFrom(r.vol, PutLevel(slots, j, r.ps), c, 0, j + 1)
    ensures PartFrom(v, slots, c, start, j)
  {
    hide TreesOf, PruneAll, Decode, OwnAll, MetaAll, PartlyAll, ShapeAll, CutTable, PutLevel, LevelSlots, InodeCheck;
    hide Used, Fsck, LevelSpan;
    var a, slots1, ts := v.geo.a, PutLevel(slots, j, r.ps), Level(v, slots, j);
    LevelCut(v, iblocks, slots, j, start, r);
    LevelTable(v, slots, j);
    PartlyPruneAll(ts, a, j, start, Used(c.vol));
    forall i | 0 <= i < j
      ensures LevelSame(v, slots, c, i)
    {
      assert LevelSame(r.vol, slots1, c, i);
    }
    assert LevelSame(r.vol, slots1, c, j);
    forall i | j < i < 4
      ensures LevelPart(v, slots, c, i, Left(a, start, j, i))
    {
      LeftStep(a, start, j, i);
      assert LevelPart(r.vol, slots1, c, i, Left(a, 0, j + 1, i));
    }
    LeftStep(a, start, j, j);
    PartIntro(v, slots, c, start, j);
  }

  lemma LeftStep(a: nat, start: nat, j: nat, i: nat)
    ensures Left(a, start, j, i) == if i <= j then start else Left(a, Minus(start, LevelSpan(a, j)), j + 1, i)
  {
  }

  lemma {:induction false} DeallocParts(v: Vol, iblocks: int, slots: seq<nat>, start: nat, j: nat)
    requires InodeCheck(v, slots) && |slots| == NSLOTS && j <= 4
    ensures PartFrom(v, slots, DeallocFrom(v, iblocks, slots, start, j), start, j)
    decreases 4 - j
  {
    hide *;
    var c := DeallocFrom(v, iblocks, slots, start, j);
    if j == 4 {
      PartNone(v, iblocks, slots, start);
    } else if start < LevelSpan(v.geo.a, j) {
      var r := CutTable(v, iblocks, LevelSlots(slots, j), j, start);
      DeallocUnfold(v, iblocks, slots, start, j, r);
      if r.ret == Ok {
        DeallocParts(r.vol, r.iblocks, PutLevel(slots, j, r.ps), 0, j + 1);
        LevelGoesOn(v, iblocks, slots, start, j, r, c);
      } else {
        LevelStops(v, iblocks, slots, start, j, r, c);
      }
    } else {
      DeallocSkip(v, iblocks, slots, start, j);
      DeallocParts(v, iblocks, slots, start - LevelSpan(v.geo.a, j), j + 1);
      PartSkip(v, slots, c, start, j);
    }
  }

  lemma PartNone(v: Vol, iblocks: int, slots: seq<nat>, start: nat)
    requires InodeCheck(v, slots) && |slots| == NSLOTS
    ensures PartFrom(v, slots, DeallocFrom(v, iblocks, slots, start, 4), start, 4)
  {
    hide TreesOf, OwnAll, ShapeAll, SeparateAll, CountsOk, Used, AllWords;
  }

  lemma PartSkip(v: Vol, slots: seq<nat>, c: Cut, start: nat, j: nat)
    requires InodeCheck(v, slots) && |slots| == |c.slots| == NSLOTS && j < 4 && start >= LevelSpan(v.geo.a, j)
    requires PartFrom(v, slots, c, start - LevelSpan(v.geo.a, j), j + 1)
    ensures PartFrom(v, slots, c, start, j)
  {
    hide InodeCheck, LevelSame, LevelPart, Fsck, Used, LevelSpan;
    SamePart(v, slots, c, j, Left(v.geo.a, start, j, j));
    forall i | j < i < 4
      ensures LevelPart(v, slots, c, i, Left(v.geo.a, start, j, i))
    {
      LeftStep(v.geo.a, start, j, i);
    }
    PartIntro(v, slots, c, start, j);
  }

  lemma FindPartly(ts: seq<Tree>, ts': seq<Tree>, a: nat, level: nat, s: nat, used: set<nat>, off: nat)
    requires a > 0 && ShapeAll(ts, a, level) && PartlyAll(ts, ts', a, level, s, used)
    requires off < Offset(|ts|, Pow(a, level))
    ensures ShapeAll(ts', a, level) && |ts'| == |ts|
    ensures Find(ts', a, level, off) == Find(ts, a, level, off) || (s <= off && Find(ts', a, level, off) == 0)
  {
    hide Offset, Pow, ShapeAll, Shape, Fewer, Thinned, Lookup;
    var inc := Pow(a, level);
    PartlyAllOwn(ts, ts', a, level, s, used);
    PowPositive(a, level);
    Split(off, |ts|, inc);
    var i := Digit(off, inc);
    ThinnedAt(ts[i], ts'[i], a, level, Minus(s, Offset(i, inc)), Rest(off, inc));
  }

  lemma PartAll(v: Vol, slots: seq<nat>, c: Cut, start: nat, i: nat)
    requires InodeCheck(v, slots) && |slots| == |c.slots| == NSLOTS && i < 4 && PartFrom(v, slots, c, start, 0)
    ensures v.geo.a > 0 && LevelPart(v, slots, c, i, Minus(start, LevelBase(v.geo.a, i)))
  {
    hide InodeCheck, Level, LevelPart, LevelSame, Fsck, Used;
    LevelTable(v, slots, i);
    LeftIs(v.geo.a, start, 0, i);
  }

  lemma {:induction false} PartOwns(v: Vol, slots: seq<nat>, c: Cut, start: nat, j: nat)
    requires InodeCheck(v, slots) && |slots| == |c.slots| == NSLOTS && j <= 4 && PartFrom(v, slots, c, start, 0)
    ensures LevelsOwn(v, slots, j) * Used(c.vol) <= LevelsOwn(c.vol, c.slots, j) <= LevelsOwn(v, slots, j)
    decreases 4 - j
  {
    hide InodeCheck, PartFrom, Level, OwnAll, PruneAll, PartlyAll, ShapeAll, Used, LevelBase;
    if j < 4 {
      PartOwns(v, slots, c, start, j + 1);
      PartAll(v, slots, c, start, j);
      PartlyAllOwn(Level(v, slots, j), Level(c.vol, c.slots, j), v.geo.a, j, Minus(start, LevelBase(v.geo.a, j)),
                   Used(c.vol));
    }
  }

  lemma PartShaped(v: Vol, slots: seq<nat>, c: Cut, start: nat)
    requires InodeCheck(v, slots) && |slots| == |c.slots| == NSLOTS && PartFrom(v, slots, c, start, 0)
    ensures Shaped(c.vol, c.slots) && Fsck(c.vol) && c.vol.geo == v.geo && Used(c.vol) <= Used(v)
  {
    hide InodeCheck, Level, OwnAll, PruneAll, PartlyAll, ShapeAll, Used, Fsck, LevelPart, LevelSame;
    forall i | 0 <= i < 4
      ensures ShapeAll(Level(c.vol, c.slots, i), v.geo.a, i)
    {
      PartAll(v, slots, c, start, i);
      LevelPartShape(v, slots, c, i, Minus(start, LevelBase(v.geo.a, i)));
    }
    LevelTable(v, slots, 0);
  }

  lemma LevelPartShape(v: Vol, slots: seq<nat>, c: Cut, i: nat, s: nat)
    requires |slots| == |c.slots| == NSLOTS && i < 4 && LevelPart(v, slots, c, i, s)
    ensures ShapeAll(Level(c.vol, c.slots, i), v.geo.a, i)
  {
    hide Level, OwnAll, PruneAll, PartlyAll, ShapeAll, Used;
    PartlyAllOwn(Level(v, slots, i), Level(c.vol, c.slots, i), v.geo.a, i, s, Used(c.vol));
  }

  lemma PartMap(v: Vol, slots: seq<nat>, c: Cut, start: nat, k: nat)
    requires InodeCheck(v, slots) && |slots| == |c.slots| == NSLOTS && PartFrom(v, slots, c, start, 0)
    requires Shaped(c.vol, c.slots) && c.vol.geo == v.geo && k < LevelBase(v.geo.a, 4)
    ensures k < start ==> Map(c.vol, c.slots, k) == Map(v, slots, k)
    ensures k < start && Map(v, slots, k) != 0 ==> Map(v, slots, k) in Used(c.vol)
    ensures Map(c.vol, c.slots, k) == 0 || Map(c.vol, c.slots, k) == Map(v, slots, k)
  {
    hide PartFrom, TreesOf, Decode, OwnAll, PruneAll, PartlyAll, ShapeAll, Used, Find, Offset, Pow, Ready;
    var a, j := v.geo.a, LevelOf(v.geo.a, k);
    var s, off := Minus(start, LevelBase(a, j)), k - LevelBase(a, j);
    PartAll(v, slots, c, start, j);
    LevelTable(v, slots, j);
    FindPartly(Level(v, slots, j), Level(c.vol, c.slots, j), a, j, s, Used(c.vol), off);
    if k < start && Map(v, slots, k) != 0 {
      ReadyHas(Level(v, slots, j), a, j, Used(v));
      FindFrees(Level(v, slots, j), a, j, s, off);
    }
  }

  /**
   Whatever a truncation at start returns, the volume's counts are exact, every
   mapping below start stays and its block stays in use, a mapping from start
   on is kept or gone, and no block leaves the inode without being given back.
   */
  lemma TruncateStops(v: Vol, iblocks: int, slots: seq<nat>, start: nat, k: nat, c: Cut)
    requires InodeCheck(v, slots) && k < LevelBase(v.geo.a, 4) && c == DeallocFrom(v, iblocks, slots, start, 0)
    ensures Fsck(c.vol) && Shaped(c.vol, c.slots) && c.vol.geo == v.geo && Used(c.vol) <= Used(v)
    ensures k < start ==> Map(c.vol, c.slots, k) == Map(v, slots, k)
    ensures k < start && Map(v, slots, k) != 0 ==> Map(v, slots, k) in Used(c.vol)
    ensures Map(c.vol, c.slots, k) == 0 || Map(c.vol, c.slots, k) == Map(v, slots, k)
    ensures LevelsOwn(v, slots, 0) * Used(c.vol) <= LevelsOwn(c.vol, c.slots, 0) <= LevelsOwn(v, slots, 0)
  {
    hide *;
    LevelTable(v, slots, 0);
    DeallocParts(v, iblocks, slots, start, 0);
    PartShaped(v, slots, c, start);
    PartMap(v, slots, c, start, k);
    PartOwns(v, slots, c, start, 0);
  }

  // ----- When a stopped truncation leaves pointers to free blocks -----

  /** Something under pointer p is free. */
  predicate Dangles(w: Vol, level: nat, p: nat)
  {
    !(Own(TreeOf(w.disk, w.geo.a, level, p)) <= Used(w))
  }

  lemma {:induction false} TopAt(ts: seq<Tree>, a: nat, level: nat, s: nat) returns (i: nat)
    requires ShapeAll(ts, a, level) && TopAll(ts, a, level, s) > 0
    ensures i < |ts| && !ts[i].Hole? && PruneAll(ts, a, level, s)[i].Hole?
  {
    hide Prune, Offset, Pow;
    var n := |ts| - 1;
    if TopAll(ts[..n], a, level, s) > 0 {
      i := TopAt(ts[..n], a, level, s);
    } else {
      i := n;
    }
  }

  /** A root that the cut gives back is free, and still found through the old pointer. */
  lemma RootDangles(v: Vol, w: Vol, level: nat, start: nat, ts: seq<Tree>, ps: seq<nat>, i: nat)
    requires Fsck(v) && ts == TreesOf(v.disk, v.geo.a, level, ps) && ShapeAll(ts, v.geo.a, level) && SeparateAll(ts)
    requires i < |ps| && !ts[i].Hole? && PruneAll(ts, v.geo.a, level, start)[i].Hole? && w.geo == v.geo
    requires Used(w) == Used(v) - Freed(ts, PruneAll(ts, v.geo.a, level, start))
    ensures Dangles(w, level, ps[i])
  {
    hide Fsck, TreesOf, Decode, OwnAll, PruneAll, ShapeAll, SeparateAll, Used;
    var cut, b := PruneAll(ts, v.geo.a, level, start), ps[i];
    TreesAt(v.disk, v.geo.a, level, ps, i);
    TreeRoot(v.disk, v.geo.a, level, b);
    TreeRoot(w.disk, v.geo.a, level, b);
    PruneDrops(ts, v.geo.a, level, start, i, b);
    OwnAt(ts, i);
    assert b in Freed(ts, cut);
  }

  /** The last charge of a table failed: the blocks it was for are free. */
  lemma ChargeDangles(v: Vol, iblocks: int, ps: seq<nat>, level: nat, start: nat, ts: seq<Tree>, o: Out)
    returns (i: nat)
    requires Fsck(v) && AllWords(ps) && ts == TreesOf(v.disk, v.geo.a, level, ps) && iblocks >= 0
    requires Ready(ts, v.geo.a, level, Used(v)) && ShapeAll(ts, v.geo.a, level)
    requires o == After(v, iblocks, ps, level, start, |ps|) && o.ret == Ok && TopAll(ts, v.geo.a, level, start) > 0
    ensures i < |ps| && Dangles(o.vol, level, ps[i])
  {
    hide *;
    ReadyHas(ts, v.geo.a, level, Used(v));
    i := TopAt(ts, v.geo.a, level, start);
    AfterCuts(v, iblocks, ps, level, start, |ps|, ts);
    assert ts[..|ps|] == ts;
    CutUsed(v, o, level, start, ts, ps);
    RootDangles(v, o.vol, level, start, ts, ps, i);
  }

  lemma CutUsed(v: Vol, o: Out, level: nat, start: nat, ts: seq<Tree>, ps: seq<nat>)
    requires |ts| == |ps| && ts[..|ps|] == ts && ShapeAll(ts, v.geo.a, level)
    requires CutTo(v, o, level, start, |ps|, ts, ps)
    ensures o.vol.geo == v.geo && Used(o.vol) == Used(v) - Freed(ts, PruneAll(ts, v.geo.a, level, start))
    ensures |o.ps| == |ps| && TreesOf(o.vol.disk, v.geo.a, level, o.ps) == PruneAll(ts, v.geo.a, level, start)
  {
    hide TreesOf, PruneAll, Freed, Used, ShapeAll, Fsck, MetaAll;
    assert o.ps[..|ps|] == o.ps;
  }

  lemma TableDroppedDangles(v: Vol, w: Vol, level: nat, b: nat, kids: seq<Tree>, j: nat)
    requires Opened(v, level, b, kids) && w.geo == v.geo && OnlyOn(v.disk, w.disk, MetaAll(kids))
    requires j < |Decode(v.disk[b])| && Dangles(w, level, Decode(v.disk[b])[j])
    ensures Dangles(w, level + 1, b)
  {
    hide TreesOf, Decode, OwnAll, MetaAll, Used, Opened, Own;
    OpenedSize(v, level, b, kids);
    TableDropped(v, w, level, b, kids);
    var ps := Decode(v.disk[b]);
    TreesAt(w.disk, v.geo.a, level, ps, j);
    OwnAt(TreesOf(w.disk, v.geo.a, level, ps), j);
    IndOwns(b, TreesOf(w.disk, v.geo.a, level, ps));
  }

  lemma IndOwns(b: nat, kids: seq<Tree>)
    ensures OwnAll(kids) <= Own(Ind(b, kids))
  {
    hide OwnAll;
  }

  lemma {:induction false} EntryDangles(o: Out, level: nat, start: nat, i: nat, t: Tree)
    requires Fsck(o.vol) && i < |o.ps| && o.ret == Ok && o.iblocks >= 0
    requires t == TreeOf(o.vol.disk, o.vol.geo.a, level, o.ps[i]) && ReadyOne(t, o.vol.geo.a, level, Used(o.vol))
    requires Entry(o, level, start, i).ret != Ok
    ensures Entry(o, level, start, i).ps == o.ps && Dangles(Entry(o, level, start, i).vol, level, o.ps[i])
    decreases level, 0
  {
    hide TreesOf, PruneAll, Decode, Encode, CutTable, Used, Own, CountsOk, Dangles;
    PowPositive(o.vol.geo.a, level);
    EntryTableDangles(o, level - 1, start, i, t);
  }

  lemma {:induction false} EntryTableDangles(o: Out, level: nat, start: nat, i: nat, t: Tree)
    requires Fsck(o.vol) && i < |o.ps| && o.ps[i] != 0 && Reached(start, i, o.vol.geo.a, level) && o.iblocks >= 0
    requires t == TreeOf(o.vol.disk, o.vol.geo.a, level + 1, o.ps[i])
    requires ReadyOne(t, o.vol.geo.a, level + 1, Used(o.vol)) && o.ret == Ok
    requires Entry(o, level + 1, start, i).ret != Ok
    ensures Entry(o, level + 1, start, i).ps == o.ps && Dangles(Entry(o, level + 1, start, i).vol, level + 1, o.ps[i])
    decreases level, 3
  {
    hide *;
    FsckPositive(o.vol);
    var s := Within(start, i, o.vol.geo.a, level);
    Open(o.vol, level, o.ps[i]);
    var ps := Decode(o.vol.disk[o.ps[i]]);
    var kids := TreesOf(o.vol.disk, o.vol.geo.a, level, ps);
    OpenedHas(o.vol, level, o.ps[i], kids);
    var r := CutTable(o.vol, o.iblocks, ps, level, s);
    EntryFails(o, level, start, i, kids, r);
    var j := TableDangles(o.vol, o.iblocks, ps, level, s, kids);
    TableParts(o.vol, o.iblocks, ps, level, s, kids);
    TablePartHas(o.vol, r, level, s, kids, ps);
    TableDroppedDangles(o.vol, r.vol, level, o.ps[i], kids, j);
  }

  lemma EntryFails(o: Out, level: nat, start: nat, i: nat, kids: seq<Tree>, r: Out)
    requires i < |o.ps| && Opened(o.vol, level, o.ps[i], kids) && Reached(start, i, o.vol.geo.a, level) && o.ret == Ok
    requires r == CutTable(o.vol, o.iblocks, Decode(o.vol.disk[o.ps[i]]), level, Within(start, i, o.vol.geo.a, level))
    requires Entry(o, level + 1, start, i).ret != Ok
    ensures r.ret != Ok && Entry(o, level + 1, start, i) == o.(vol := r.vol, iblocks := r.iblocks, ret := r.ret)
  {
    hide CutTable, TreesOf, Decode, Used, Ready, Pow, Offset, Encode, AllZero;
  }

  lemma TablePartHas(v: Vol, r: Out, level: nat, start: nat, ts: seq<Tree>, ps: seq<nat>)
    requires TablePart(v, r, level, start, ts, ps)
    ensures r.vol.geo == v.geo && OnlyOn(v.disk, r.vol.disk, MetaAll(ts))
  {
    hide PartlyAll, TreesOf, MetaAll, Freed, PruneAll, Used, ShapeAll, Fsck, OnlyOn;
  }

  lemma {:induction false} AfterDangles(v: Vol, iblocks: int, ps: seq<nat>, level: nat, start: nat, n: nat,
                                        ts: seq<Tree>) returns (i: nat)
    requires Fsck(v) && AllWords(ps) && n <= |ps| && ts == TreesOf(v.disk, v.geo.a, level, ps) && iblocks >= 0
    requires Ready(ts, v.geo.a, level, Used(v)) && After(v, iblocks, ps, level, start, n).ret != Ok
    ensures var o := After(v, iblocks, ps, level, start, n);
      i < |o.ps| == |ps| && o.ps[i] == ps[i] && Dangles(o.vol, level, ps[i])
    decreases level, 1, n
  {
    hide *;
    if n == 0 {
      AfterFirst(v, iblocks, ps, level, start);
    }
    var m := n - 1;
    var o := After(v, iblocks, ps, level, start, m);
    AfterStep(v, iblocks, ps, level, start, m, o);
    if o.ret != Ok {
      i := AfterDangles(v, iblocks, ps, level, start, m, ts);
    } else {
      ReadyHas(ts, v.geo.a, level, Used(v));
      ShapePrefix(ts, v.geo.a, level, m);
      var below, top := BelowAll(ts[..m], v.geo.a, level, start), TopAll(ts[..m], v.geo.a, level, start);
      AfterCharges(v, iblocks, ps, level, start, m, ts, below, top);
      ChargeFits(Out(v, iblocks, ps, 0, Ok), o, below, top);
      AfterCuts(v, iblocks, ps, level, start, m, ts);
      NextEntry(v, o, level, start, m, ts, ps);
      AfterParts(v, iblocks, ps, level, start, m, ts);
      AfterPartHas(v, o, level, start, m, ts, ps);
      EntryDangles(o, level, start, m, ts[m]);
      i := m;
    }
  }

  /** A table that cannot be cut to the end leads, as it is on disk, to a free block. */
  lemma {:induction false} TableDangles(v: Vol, iblocks: int, ps: seq<nat>, level: nat, start: nat, ts: seq<Tree>)
    returns (i: nat)
    requires Fsck(v) && AllWords(ps) && ts == TreesOf(v.disk, v.geo.a, level, ps) && iblocks >= 0
    requires Ready(ts, v.geo.a, level, Used(v)) && CutTable(v, iblocks, ps, level, start).ret != Ok
    ensures i < |ps| && Dangles(CutTable(v, iblocks, ps, level, start).vol, level, ps[i])
    decreases level, 2
  {
    hide *;
    CutTableOf(v, iblocks, ps, level, start);
    var o := After(v, iblocks, ps, level, start, |ps|);
    if o.ret != Ok {
      i := AfterDangles(v, iblocks, ps, level, start, |ps|, ts);
    } else {
      ReadyHas(ts, v.geo.a, level, Used(v));
      assert ts[..|ps|] == ts;
      var below, top := BelowAll(ts, v.geo.a, level, start), TopAll(ts, v.geo.a, level, start);
      AfterCharges(v, iblocks, ps, level, start, |ps|, ts, below, top);
      LastCharge(v, iblocks, ps, level, start, o, below, top);
      i := ChargeDangles(v, iblocks, ps, level, start, ts, o);
    }
  }

  lemma LastCharge(v: Vol, iblocks: int, ps: seq<nat>, level: nat, start: nat, o: Out, below: nat, top: nat)
    requires o == After(v, iblocks, ps, level, start, |ps|) && o.ret == Ok
    requires Charged(Out(v, iblocks, ps, 0, Ok), o, below, top) && CutTable(v, iblocks, ps, level, start).ret != Ok
    ensures top > 0
  {
    hide After, Offset;
    if top == 0 {
      NoSectors(o.vol.geo);
    }
  }

  /** Everything that level i of the inode owns is in use. */
  predicate Clean(c: Cut, i: nat)
    requires |c.slots| == NSLOTS && i < 4
  {
    OwnAll(Level(c.vol, c.slots, i)) <= Used(c.vol)
  }

  predicate CleanFrom(c: Cut, j: nat)
    requires |c.slots| == NSLOTS
  {
    forall i :: j <= i < 4 ==> Clean(c, i)
  }

  /**
   i_blocks runs out below a slot of the inode: for some level it covers all
   that the levels before it give back, but not what lies below the slots.
   */
  predicate StopsInside(v: Vol, iblocks: int, slots: seq<nat>, start: nat, j: nat)
    requires |slots| == NSLOTS && j <= 4 && LevelsShaped(v, slots, j)
    decreases 4 - j
  {
    && j < 4
    && var a, ts := v.geo.a, Level(v, slots, j);
       || Sectors(v.geo, BelowAll(ts, a, j, start)) > iblocks
       || (&& Sectors(v.geo, CutSize(ts, a, j, start)) <= iblocks
           && StopsInside(v, iblocks - Sectors(v.geo, CutSize(ts, a, j, start)), slots,
                          Minus(start, LevelSpan(a, j)), j + 1))
  }

  lemma StopsStep(v: Vol, iblocks: int, slots: seq<nat>, start: nat, j: nat, below: nat, size: nat)
    requires |slots| == NSLOTS && j < 4 && LevelsShaped(v, slots, j) && LevelsShaped(v, slots, j + 1)
    requires ShapeAll(Level(v, slots, j), v.geo.a, j) && below == BelowAll(Level(v, slots, j), v.geo.a, j, start)
    requires size == CutSize(Level(v, slots, j), v.geo.a, j, start)
    ensures StopsInside(v, iblocks, slots, start, j) <==>
            || Sectors(v.geo, below) > iblocks
            || (&& Sectors(v.geo, size) <= iblocks
                && StopsInside(v, iblocks - Sectors(v.geo, size), slots, Minus(start, LevelSpan(v.geo.a, j)), j + 1))
  {
    hide ShapeAll, Level, Sectors, BelowAll, CutSize, LevelSpan;
  }

  lemma {:induction false} StopsSame(v: Vol, slots: seq<nat>, v': Vol, slots': seq<nat>, iblocks: int, start: nat,
                                     j: nat)
    requires |slots| == |slots'| == NSLOTS && j <= 4 && v'.geo == v.geo
    requires LevelsShaped(v, slots, j) && LevelsShaped(v', slots', j)
    requires forall i :: j <= i < 4 ==> Level(v', slots', i) == Level(v, slots, i)
    ensures StopsInside(v', iblocks, slots', start, j) <==> StopsInside(v, iblocks, slots, start, j)
    decreases 4 - j
  {
    hide ShapeAll, TreesOf, Sectors, BelowAll, CutSize, LevelSpan;
    if j < 4 {
      StopsSame(v, slots, v', slots', iblocks - Sectors(v.geo, CutSize(Level(v, slots, j), v.geo.a, j, start)),
                Minus(start, LevelSpan(v.geo.a, j)), j + 1);
    }
  }

  lemma CleanUp(c: Cut, j: nat)
    requires |c.slots| == NSLOTS && j < 4
    ensures CleanFrom(c, j) <==> Clean(c, j) && CleanFrom(c, j + 1)
  {
    hide Clean;
  }

  /** A level cut to the end, or left alone, is clean. */
  lemma SameClean(v: Vol, slots: seq<nat>, c: Cut, i: nat)
    requires |slots| == |c.slots| == NSLOTS && i < 4 && LevelSame(v, slots, c, i)
    ensures Clean(c, i)
  {
    hide Level, OwnAll, Used;
  }

  lemma PartSame(v: Vol, slots: seq<nat>, c: Cut, start: nat, j: nat, i: nat)
    requires |slots| == |c.slots| == NSLOTS && i < j <= 4 && PartFrom(v, slots, c, start, j)
    ensures LevelSame(v, slots, c, i)
  {
    hide LevelSame, LevelPart, Fsck, Used, Left;
  }

  /** The run stops in level j: below a slot, or with the charge for the slots themselves. */
  lemma LevelDangles(v: Vol, iblocks: int, slots: seq<nat>, start: nat, j: nat, r: Out, c: Cut, below: nat)
    requires |slots| == NSLOTS && j < 4 && iblocks >= 0 && ShapeAll(Level(v, slots, j), v.geo.a, j)
    requires below == BelowAll(Level(v, slots, j), v.geo.a, j, start)
    requires r == CutTable(v, iblocks, LevelSlots(slots, j), j, start) && r.ret != Ok
    requires c == Cut(r.vol, r.iblocks, PutLevel(slots, j, r.ps), r.ret)
    requires InodeCheck(v, slots)
    ensures Sectors(v.geo, below) > iblocks <==> !Clean(c, j)
    ensures CleanFrom(c, j + 1)
  {
    hide *;
    var a, ts, ps := v.geo.a, Level(v, slots, j), LevelSlots(slots, j);
    LevelTable(v, slots, j);
    CutTableOf(v, iblocks, ps, j, start);
    var o := After(v, iblocks, ps, j, start, |ps|);
    assert ts[..|ps|] == ts;
    AfterCharges(v, iblocks, ps, j, start, |ps|, ts, below, TopAll(ts, a, j, start));
    ChargedWhen(Out(v, iblocks, ps, 0, Ok), o, below, TopAll(ts, a, j, start));
    if o.ret != Ok {
      var i := AfterDangles(v, iblocks, ps, j, start, |ps|, ts);
      DirtyLevel(v, slots, c, j, r.ps, i);
    } else {
      AfterCuts(v, iblocks, ps, j, start, |ps|, ts);
      CutUsed(v, o, j, start, ts, ps);
      PrunedLevel(v, slots, c, start, j, r.ps);
    }
    OthersClean(v, iblocks, slots, start, j, r, c);
  }

  lemma ChargedWhen(o: Out, r: Out, n: nat, top: nat)
    requires Charged(o, r, n, top)
    ensures r.ret == Ok <==> Sectors(o.vol.geo, n) <= o.iblocks
  {
    hide Sectors;
  }

  lemma DirtyLevel(v: Vol, slots: seq<nat>, c: Cut, j: nat, ps: seq<nat>, i: nat)
    requires |slots| == NSLOTS && j < 4 && |ps| == |LevelSlots(slots, j)| && c.slots == PutLevel(slots, j, ps)
    requires i < |ps| && Dangles(c.vol, j, ps[i])
    ensures |c.slots| == NSLOTS && !Clean(c, j)
  {
    hide TreesOf, TreeOf, OwnAll, Own, Used, PutLevel, LevelSlots;
    TreesAt(c.vol.disk, c.vol.geo.a, j, ps, i);
    OwnAt(TreesOf(c.vol.disk, c.vol.geo.a, j, ps), i);
  }

  lemma PrunedLevel(v: Vol, slots: seq<nat>, c: Cut, start: nat, j: nat, ps: seq<nat>)
    requires |slots| == NSLOTS && j < 4 && |ps| == |LevelSlots(slots, j)| && c.slots == PutLevel(slots, j, ps)
    requires ShapeAll(Level(v, slots, j), v.geo.a, j) && Ready(Level(v, slots, j), v.geo.a, j, Used(v))
    requires c.vol.geo == v.geo
    requires Used(c.vol) == Used(v) - Freed(Level(v, slots, j), PruneAll(Level(v, slots, j), v.geo.a, j, start))
    requires TreesOf(c.vol.disk, v.geo.a, j, ps) == PruneAll(Level(v, slots, j), v.geo.a, j, start)
    ensures |c.slots| == NSLOTS && Clean(c, j)
  {
    hide TreesOf, OwnAll, Used, PutLevel, LevelSlots, ShapeAll, PruneAll, Ready, Freed;
    FreedOwned(Level(v, slots, j), v.geo.a, j, start, Used(v), Used(c.vol));
  }

  lemma OthersClean(v: Vol, iblocks: int, slots: seq<nat>, start: nat, j: nat, r: Out, c: Cut)
    requires InodeCheck(v, slots) && |slots| == NSLOTS && j < 4
    requires r == CutTable(v, iblocks, LevelSlots(slots, j), j, start)
    requires c == Cut(r.vol, r.iblocks, PutLevel(slots, j, r.ps), r.ret)
    ensures CleanFrom(c, j + 1)
  {
    hide *;
    var a, ts, ps := v.geo.a, Level(v, slots, j), LevelSlots(slots, j);
    LevelTable(v, slots, j);
    TableParts(v, iblocks, ps, j, start, ts);
    var f := Freed(ts, PruneAll(ts, a, j, start));
    FreedOwned(ts, a, j, start, Used(v), Used(c.vol));
    PartOfTable(v, slots, r, c, start, j);
    forall i | j + 1 <= i < 4
      ensures Clean(c, i)
    {
      OtherLevel(v, slots, c, i, j, f);
      SameClean(v, slots, c, i);
    }
    CleanIntro(c, j + 1);
  }

  lemma CleanIntro(c: Cut, j: nat)
    requires |c.slots| == NSLOTS && forall i :: j <= i < 4 ==> Clean(c, i)
    ensures CleanFrom(c, j)
  {
    hide Clean;
  }

  lemma {:induction false} DeallocDangles(v: Vol, iblocks: int, slots: seq<nat>, start: nat, j: nat, c: Cut)
    requires |slots| == NSLOTS && j <= 4 && iblocks >= 0 && LevelsShaped(v, slots, j)
    requires c == DeallocFrom(v, iblocks, slots, start, j)
    requires InodeCheck(v, slots)
    ensures StopsInside(v, iblocks, slots, start, j) <==> !CleanFrom(c, j)
    decreases 4 - j, 1
  {
    hide *;
    if j == 4 {
      StopsNever(v, iblocks, slots, start, c);
    } else {
      InodeCutSizeStep(v, slots, start, j);
      var ts, a := Level(v, slots, j), v.geo.a;
      StopsStep(v, iblocks, slots, start, j, BelowAll(ts, a, j, start), CutSize(ts, a, j, start));
      CleanUp(c, j);
      MinusIs(start, LevelSpan(a, j));
      if start < LevelSpan(a, j) {
        DeallocDanglesLevel(v, iblocks, slots, start, j, c, BelowAll(ts, a, j, start), CutSize(ts, a, j, start));
      } else {
        LevelMissed(v, slots, start, j);
        BelowLess(ts, a, j, start);
        NoSectors(v.geo);
        DeallocSkip(v, iblocks, slots, start, j);
        DeallocDangles(v, iblocks, slots, start - LevelSpan(a, j), j + 1, c);
        DeallocParts(v, iblocks, slots, start - LevelSpan(a, j), j + 1);
        PartSame(v, slots, c, start - LevelSpan(a, j), j + 1, j);
        SameClean(v, slots, c, j);
      }
    }
  }

  lemma MinusIs(x: nat, y: nat)
    ensures Minus(x, y) == if x >= y then x - y else 0
  {
  }

  lemma BelowLess(ts: seq<Tree>, a: nat, level: nat, s: nat)
    requires ShapeAll(ts, a, level)
    ensures BelowAll(ts, a, level, s) <= CutSize(ts, a, level, s)
  {
    hide BelowAll, TopAll;
  }

  lemma StopsNever(v: Vol, iblocks: int, slots: seq<nat>, start: nat, c: Cut)
    requires |slots| == NSLOTS && LevelsShaped(v, slots, 4) && c == DeallocFrom(v, iblocks, slots, start, 4)
    ensures !StopsInside(v, iblocks, slots, start, 4) && CleanFrom(c, 4)
  {
  }

  lemma {:induction false} DeallocDanglesLevel(v: Vol, iblocks: int, slots: seq<nat>, start: nat, j: nat, c: Cut,
                                               below: nat, size: nat)
    requires |slots| == NSLOTS && j < 4 && iblocks >= 0 && start < LevelSpan(v.geo.a, j)
    requires c == DeallocFrom(v, iblocks, slots, start, j) && LevelsShaped(v, slots, j + 1)
    requires ShapeAll(Level(v, slots, j), v.geo.a, j) && below == BelowAll(Level(v, slots, j), v.geo.a, j, start)
    requires size == CutSize(Level(v, slots, j), v.geo.a, j, start)
    requires InodeCheck(v, slots)
    ensures (Clean(c, j) && CleanFrom(c, j + 1)) <==>
            !(|| Sectors(v.geo, below) > iblocks
              || (&& Sectors(v.geo, size) <= iblocks
                  && StopsInside(v, iblocks - Sectors(v.geo, size), slots, 0, j + 1)))
    decreases 4 - j, 0
  {
    hide *;
    var ts, a, ps := Level(v, slots, j), v.geo.a, LevelSlots(slots, j);
    LevelTable(v, slots, j);
    var r := CutTable(v, iblocks, ps, j, start);
    TableCharges(v, iblocks, ps, j, start, ts, size);
    ChargedFacts(v, iblocks, ps, r, size);
    BelowLess(ts, a, j, start);
    SectorsGrow(v.geo, below, size);
    DeallocUnfold(v, iblocks, slots, start, j, r);
    if r.ret == Ok {
      var slots1 := PutLevel(slots, j, r.ps);
      LevelCut(v, iblocks, slots, j, start, r);
      LevelsShapedOk(r.vol, slots1, j + 1);
      StopsSame(v, slots, r.vol, slots1, r.iblocks, 0, j + 1);
      DeallocDangles(r.vol, r.iblocks, slots1, 0, j + 1, c);
      DeallocParts(r.vol, r.iblocks, slots1, 0, j + 1);
      PartSame(r.vol, slots1, c, 0, j + 1, j);
      SameClean(r.vol, slots1, c, j);
    } else {
      LevelDangles(v, iblocks, slots, start, j, r, c, below);
    }
  }

  lemma ChargedFacts(v: Vol, iblocks: int, ps: seq<nat>, r: Out, size: nat)
    requires Charged(Out(v, iblocks, ps, 0, Ok), r.(freed := 0), size, 0)
    ensures r.ret == Ok <==> Sectors(v.geo, size) <= iblocks
    ensures r.ret == Ok ==> r.iblocks == iblocks - Sectors(v.geo, size) >= 0
  {
    hide Sectors;
  }

  lemma SectorsGrow(g: Geometry, m: nat, n: nat)
    requires m <= n
    ensures Sectors(g, m) <= Sectors(g, n)
  {
    SectorsAdd(g, m, n - m);
  }

  /**
   After a truncation every block of the inode is in use exactly unless i_blocks
   ran out below one of its slots. Nothing is free and still pointed to if it
   covers everything, or fails only for the slots themselves.
   */
  lemma TruncateDangles(v: Vol, iblocks: int, slots: seq<nat>, start: nat, c: Cut)
    requires iblocks >= 0 && |slots| == NSLOTS && LevelsShaped(v, slots, 0)
    requires c == DeallocFrom(v, iblocks, slots, start, 0)
    requires InodeCheck(v, slots)
    ensures LevelsOwn(c.vol, c.slots, 0) <= Used(c.vol) <==> !StopsInside(v, iblocks, slots, start, 0)
  {
    hide *;
    DeallocDangles(v, iblocks, slots, start, 0, c);
    CleanOwns(c, 0);
  }

  lemma {:induction false} CleanOwns(c: Cut, j: nat)
    requires |c.slots| == NSLOTS && j <= 4
    ensures LevelsOwn(c.vol, c.slots, j) <= Used(c.vol) <==> CleanFrom(c, j)
    decreases 4 - j
  {
    hide Level, OwnAll, Used, CleanFrom;
    if j < 4 {
      CleanOwns(c, j + 1);
      CleanUp(c, j);
    } else {
      CleanIntro(c, 4);
    }
  }

  // ----- Freed and still mapped -----

  /** The blocks mapped from start to the end of the single indirect range. */
  function Tail(v: Vol, slots: seq<nat>, start: nat): set<nat>
    requires Shaped(v, slots)
  {
    LevelBases(v.geo.a);
    set k | start <= k < NDIR + v.geo.a && Map(v, slots, k) != 0 :: Map(v, slots, k)
  }

  /** Clearing data pointers writes no block. */
  lemma {:induction false} DataAfter(v: Vol, iblocks: int, ps: seq<nat>, start: nat, n: nat)
    requires n <= |ps|
    ensures After(v, iblocks, ps, 0, start, n).ret == Ok && After(v, iblocks, ps, 0, start, n).vol.disk == v.disk
  {
    if n > 0 {
      DataAfter(v, iblocks, ps, start, n - 1);
    }
  }

  /** The blocks that cutting a table of data pointers gives back. */
  lemma DataCut(v: Vol, iblocks: int, ps: seq<nat>, start: nat, kids: seq<Tree>, r: Out)
    requires Fsck(v) && AllWords(ps) && kids == TreesOf(v.disk, v.geo.a, 0, ps) && iblocks >= 0
    requires Ready(kids, v.geo.a, 0, Used(v)) && ShapeAll(kids, v.geo.a, 0)
    requires r == CutTable(v, iblocks, ps, 0, start)
    ensures r.vol.disk == v.disk && r.vol.geo == v.geo
    ensures Used(r.vol) == Used(v) - Freed(kids, PruneAll(kids, v.geo.a, 0, start))
    ensures r.ret ==
      if Sectors(v.geo, |Freed(kids, PruneAll(kids, v.geo.a, 0, start))|) <= iblocks then Ok else EOVERFLOW
  {
    hide *;
    ReadyHas(kids, v.geo.a, 0, Used(v));
    DataAfter(v, iblocks, ps, start, |ps|);
    CutTableOf(v, iblocks, ps, 0, start);
    AfterCuts(v, iblocks, ps, 0, start, |ps|, kids);
    assert kids[..|ps|] == kids;
    DataUsed(v, After(v, iblocks, ps, 0, start, |ps|), start, kids, ps);
    var m := CutSize(kids, v.geo.a, 0, start);
    TableCharges(v, iblocks, ps, 0, start, kids, m);
    CutSizeIsFreed(kids, v.geo.a, 0, start);
    ChargedMeans(Out(v, iblocks, ps, 0, Ok), r.(freed := 0), m);
  }

  lemma DataUsed(v: Vol, o: Out, start: nat, kids: seq<Tree>, ps: seq<nat>)
    requires |kids| == |ps| && kids[..|ps|] == kids && ShapeAll(kids, v.geo.a, 0)
    requires CutTo(v, o, 0, start, |ps|, kids, ps)
    ensures o.vol.geo == v.geo && Used(o.vol) == Used(v) - Freed(kids, PruneAll(kids, v.geo.a, 0, start))
  {
    hide TreesOf, PruneAll, Freed, Used, ShapeAll, Fsck, MetaAll;
  }

  lemma ChargedMeans(o: Out, r: Out, n: nat)
    requires Charged(o, r, n, 0)
    ensures r.ret == if Sectors(o.vol.geo, n) <= o.iblocks then Ok else EOVERFLOW
  {
    hide Sectors;
  }

  lemma {:induction false} DataHas(kids: seq<Tree>, a: nat, x: nat)
    requires ShapeAll(kids, a, 0)
    ensures x in OwnAll(kids) <==> exists i :: 0 <= i < |kids| && kids[i] == Data(x)
  {
    if kids != [] {
      var n := |kids| - 1;
      DataHas(kids[..n], a, x);
      if i :| 0 <= i < |kids| && kids[i] == Data(x) {
        if i < n {
          assert kids[..n][i] == Data(x);
        }
      }
    }
  }

  lemma FreedData(kids: seq<Tree>, a: nat, s: nat, x: nat)
    requires ShapeAll(kids, a, 0) && SeparateAll(kids)
    ensures x in Freed(kids, PruneAll(kids, a, 0, s)) <==> exists i :: s <= i < |kids| && kids[i] == Data(x)
  {
    hide OwnAll, PruneAll, ShapeAll, SeparateAll;
    var cut := PruneAll(kids, a, 0, s);
    PruneAllShape(kids, a, 0, s);
    DataHas(kids, a, x);
    DataHas(cut, a, x);
    forall i | 0 <= i < |kids|
      ensures cut[i] == if i < s then kids[i] else Hole
    {
      PruneAt(kids, a, 0, s, i);
      IsProduct(i, 1);
    }
    if i, j :| s <= i < |kids| && kids[i] == Data(x) && 0 <= j < |cut| && cut[j] == Data(x) {
      DisjointAt(kids, j, i);
    }
  }

  /** Block NDIR + i is entry i of the single indirect table. */
  lemma IndirectMap(v: Vol, slots: seq<nat>, kids: seq<Tree>, i: nat)
    requires InodeCheck(v, slots) && i < v.geo.a && Opened(v, 0, slots[NDIR], kids)
    ensures NDIR + i < LevelBase(v.geo.a, 4) && kids[i].Hole? == (Map(v, slots, NDIR + i) == 0)
    ensures !kids[i].Hole? ==> kids[i] == Data(Map(v, slots, NDIR + i))
  {
    hide TreesOf, Decode, Offset, Pow, Used, Ready, AllWords, Fsck, OwnAll, ShapeAll;
    LevelBases(v.geo.a);
    var j, s, q, t := BmapTree(v, slots, NDIR + i);
    assert j == 1 && s == NDIR && q == i by { SecondRange(v.geo.a, i); }
    IndirectKid(v, slots[NDIR], kids, i, t);
  }

  lemma SecondRange(a: nat, i: nat)
    requires i < a
    ensures NDIR + i < LevelBase(a, 4) && LevelOf(a, NDIR + i) == 1 && SlotOf(a, NDIR + i) == NDIR
    ensures OffsetOf(a, NDIR + i) == i
  {
    hide LevelBase;
    LevelBases(a);
  }

  lemma IndirectKid(v: Vol, p: nat, kids: seq<Tree>, i: nat, t: Tree)
    requires Opened(v, 0, p, kids) && i < v.geo.a && t == TreeOf(v.disk, v.geo.a, 1, p) && Shape(t, v.geo.a, 1)
    requires i < Pow(v.geo.a, 1)
    ensures kids[i] == (if Lookup(t, v.geo.a, 1, i) == 0 then Hole else Data(Lookup(t, v.geo.a, 1, i)))
  {
    hide TreesOf, Decode, Offset, Used, Ready, AllWords, OwnAll, ShapeAll;
    LookupKid(t, v.geo.a, 1, i);
    OneDigit(i);
    TreesAt(v.disk, v.geo.a, 0, Decode(v.disk[p]), i);
  }

  lemma TailFreed(v: Vol, slots: seq<nat>, start: nat, kids: seq<Tree>, x: nat)
    requires InodeCheck(v, slots) && NDIR <= start && Opened(v, 0, slots[NDIR], kids) && |kids| == v.geo.a
    requires ShapeAll(kids, v.geo.a, 0) && SeparateAll(kids) && Shaped(v, slots) && x in Tail(v, slots, start)
    ensures x in Freed(kids, PruneAll(kids, v.geo.a, 0, start - NDIR))
  {
    hide InodeCheck, Shaped, Map, Freed, PruneAll, ShapeAll, SeparateAll, Opened;
    LevelBases(v.geo.a);
    var k :| start <= k < NDIR + v.geo.a && Map(v, slots, k) != 0 && x == Map(v, slots, k);
    IndirectMap(v, slots, kids, k - NDIR);
    FreedData(kids, v.geo.a, start - NDIR, x);
  }

  lemma FreedTail(v: Vol, slots: seq<nat>, start: nat, kids: seq<Tree>, x: nat)
    requires InodeCheck(v, slots) && NDIR <= start && Opened(v, 0, slots[NDIR], kids) && |kids| == v.geo.a
    requires ShapeAll(kids, v.geo.a, 0) && SeparateAll(kids) && Shaped(v, slots)
    requires x in Freed(kids, PruneAll(kids, v.geo.a, 0, start - NDIR))
    ensures x in Tail(v, slots, start)
  {
    hide InodeCheck, Shaped, Map, Freed, PruneAll, ShapeAll, SeparateAll, Opened;
    FreedData(kids, v.geo.a, start - NDIR, x);
    var i :| start - NDIR <= i < |kids| && kids[i] == Data(x);
    IndirectMap(v, slots, kids, i);
    assert Map(v, slots, NDIR + i) == x;
  }

  lemma TailIs(v: Vol, slots: seq<nat>, start: nat, kids: seq<Tree>)
    requires InodeCheck(v, slots) && NDIR <= start && Opened(v, 0, slots[NDIR], kids)
    requires ShapeAll(kids, v.geo.a, 0) && SeparateAll(kids)
    ensures Tail(v, slots, start) == Freed(kids, PruneAll(kids, v.geo.a, 0, start - NDIR))
  {
    hide InodeCheck, Shaped, Tail, Freed, PruneAll, ShapeAll, SeparateAll, Opened;
    InodeShaped(v, slots);
    OpenedSize(v, 0, slots[NDIR], kids);
    forall x
      ensures x in Tail(v, slots, start) <==> x in Freed(kids, PruneAll(kids, v.geo.a, 0, start - NDIR))
    {
      if x in Tail(v, slots, start) {
        TailFreed(v, slots, start, kids, x);
      }
      if x in Freed(kids, PruneAll(kids, v.geo.a, 0, start - NDIR)) {
        FreedTail(v, slots, start, kids, x);
      }
    }
  }

  lemma InodeShaped(v: Vol, slots: seq<nat>)
    requires InodeCheck(v, slots)
    ensures Shaped(v, slots) && Fsck(v) && |slots| == NSLOTS
  {
    hide TreesOf, Fsck, AllWords, OwnAll, Ready;
  }

  lemma OpenedSize(v: Vol, level: nat, b: nat, kids: seq<Tree>)
    requires Opened(v, level, b, kids)
    ensures |kids| == v.geo.a && b != 0 && b < |v.disk| && kids == TreesOf(v.disk, v.geo.a, level, Decode(v.disk[b]))
  {
    hide Ready, TreesOf, Decode, Used, OwnAll, AllWords;
  }

  /** A run over one pointer whose table fails leaves pointer and table in place. */
  lemma OneEntryStops(v: Vol, iblocks: int, p: nat, s: nat, kids: seq<Tree>, r: Out)
    requires Opened(v, 0, p, kids) && s < v.geo.a
    requires r == CutTable(v, iblocks, Decode(v.disk[p]), 0, s) && r.ret != Ok
    ensures CutTable(v, iblocks, [p], 1, s) == Out(r.vol, r.iblocks, [p], 0, r.ret)
  {
    hide *;
    var o := Out(v, iblocks, [p], 0, Ok);
    AfterFirst(v, iblocks, [p], 1, s);
    AfterStep(v, iblocks, [p], 1, s, 0, o);
    FirstEntry(v.geo.a, s);
    OpenedSize(v, 0, p, kids);
    EntryOf(o, 0, s, 0, kids, r);
    CutTableFails(v, iblocks, [p], 1, s);
  }

  lemma FirstEntry(a: nat, s: nat)
    requires s < a
    ensures Within(s, 0, a, 0) == s && Reached(s, 0, a, 0)
  {
    IsPower(a);
    assert Pow(a, 1) == a;
  }

  lemma CutTableFails(v: Vol, iblocks: int, ps: seq<nat>, level: nat, start: nat)
    ensures var o := After(v, iblocks, ps, level, start, |ps|);
      o.ret != Ok ==> CutTable(v, iblocks, ps, level, start) == o
  {
    hide After;
  }

  lemma PutBack(slots: seq<nat>)
    requires |slots| == NSLOTS
    ensures PutLevel(slots, 1, [slots[NDIR]]) == slots && LevelSlots(slots, 1) == [slots[NDIR]]
  {
  }

  lemma NothingMapped(v: Vol, slots: seq<nat>, start: nat)
    requires InodeCheck(v, slots) && NDIR <= start && slots[NDIR] == 0
    ensures Tail(v, slots, start) == {}
  {
    hide TreesOf, Decode, Offset, Pow, Used, Ready, AllWords, Fsck, OwnAll, ShapeAll;
    LevelBases(v.geo.a);
    forall k | start <= k < NDIR + v.geo.a
      ensures Map(v, slots, k) == 0
    {
      SecondRange(v.geo.a, k - NDIR);
      var j, s, q, t := BmapTree(v, slots, k);
    }
  }

  /**
   A truncation inside the single indirect range whose i_blocks does not cover
   the mapped blocks from start to the end of that range: those blocks, and no
   others, are given back, and all of them are still mapped.
   */
  lemma IndirectDangles(v: Vol, iblocks: int, slots: seq<nat>, start: nat, c: Cut)
    requires InodeCheck(v, slots) && NDIR <= start < NDIR + v.geo.a && iblocks >= 0
    requires Sectors(v.geo, |Tail(v, slots, start)|) > iblocks && c == DeallocFrom(v, iblocks, slots, start, 0)
    ensures c.ret == EOVERFLOW && c.vol.geo == v.geo && c.vol.disk == v.disk && c.slots == slots
    ensures Used(c.vol) == Used(v) - Tail(v, slots, start)
  {
    hide InodeCheck, Shaped, Fsck, DeallocFrom, CutTable, Tail, Used, TreesOf, Decode, Freed, PruneAll, Opened, Ready;
    hide Sectors, Level, LevelSlots, PutLevel, LevelSpan, ShapeAll, SeparateAll, OwnAll, AllWords;
    LevelTable(v, slots, 1);
    InodeShaped(v, slots);
    Spans(v.geo.a);
    PutBack(slots);
    var a, p, s := v.geo.a, slots[NDIR], start - NDIR;
    if p == 0 {
      NothingMapped(v, slots, start);
      NoSectors(v.geo);
    } else {
      var kids := TableOf(v, slots);
      var ps := Decode(v.disk[p]);
      var r := CutTable(v, iblocks, ps, 0, s);
      OpenedHas(v, 0, p, kids);
      ReadyHas(kids, a, 0, Used(v));
      DataCut(v, iblocks, ps, s, kids, r);
      TailIs(v, slots, start, kids);
      OneEntryStops(v, iblocks, p, s, kids, r);
      DeallocSkip(v, iblocks, slots, start, 0);
      DeallocUnfold(v, iblocks, slots, s, 1, CutTable(v, iblocks, [p], 1, s));
    }
  }

  /** The entries of the single indirect table. */
  lemma TableOf(v: Vol, slots: seq<nat>) returns (kids: seq<Tree>)
    requires InodeCheck(v, slots) && slots[NDIR] != 0
    ensures Opened(v, 0, slots[NDIR], kids)
    ensures slots[NDIR] < |v.disk| && kids == TreesOf(v.disk, v.geo.a, 0, Decode(v.disk[slots[NDIR]]))
  {
    hide TreesOf, Decode, Opened, ReadyOne, Used, AllWords, Ready, CountsOk, OwnAll, ShapeAll;
    LevelBases(v.geo.a);
    SecondRange(v.geo.a, 0);
    var j, s, q, t := BmapTree(v, slots, NDIR);
    Open(v, 0, slots[NDIR]);
    kids := TreesOf(v.disk, v.geo.a, 0, Decode(v.disk[slots[NDIR]]));
  }

  lemma Spans(a: nat)
    ensures LevelSpan(a, 0) == NDIR && LevelSpan(a, 1) == a
  {
    LevelBases(a);
  }

  lemma NoSectors(g: Geometry)
    ensures Sectors(g, 0) == 0
  {
    IsProduct(0, 4 * g.a / 512);
  }

  /** A block allocated next to a mapped one, in the same single indirect table. */
  lemma SecondEntry(v: Vol, iblocks: int, slots: seq<nat>, goal: nat)
    requires InodeCheck(v, slots) && v.geo.first == 0 && v.geo.a >= 2 && v.totalFree > 0
    requires NDIR + 1 < LevelBase(v.geo.a, 4) && slots[NDIR] != 0
    requires Map(v, slots, NDIR) != 0 && Map(v, slots, NDIR + 1) == 0
    ensures Bmap(v, iblocks, slots, false, true, NDIR + 1, 0, goal).ret == Ok
  {
    hide TreesOf, Decode, Opened, Map, Ready, CountsOk, OwnAll, ShapeAll, Bmap, Offset, Pow, Served, AllWords;
    var a, p := v.geo.a, slots[NDIR];
    LevelBases(a);
    var kids := TableOf(v, slots);
    OpenedSize(v, 0, p, kids);
    OpenedHas(v, 0, p, kids);
    IndirectMap(v, slots, kids, 0);
    IndirectMap(v, slots, kids, 1);
    var ws := Decode(v.disk[p]);
    TreesAt(v.disk, a, 0, ws, 0);
    TreesAt(v.disk, a, 0, ws, 1);
    ReadyHas(kids, a, 0, Used(v));
    OwnAt(kids, 0);
    IsPower(a);
    OneDigit(1);
    SecondRange(a, 1);
    ServedStep(v, p, 0, 1, 1, 0);
    BmapSucceeds(v, iblocks, slots, NDIR + 1, goal);
  }

  lemma FirstCall(v: Vol, goal: nat, x: SlotStep, m: Mapped)
    requires Fsck(v) && m == Bmap(v, 0, NoSlots(), false, true, NDIR, 0, goal) && 0 < Pow(v.geo.a, 1)
    requires x == SlotBmap(v, false, true, 0, 1, 0, 0, 0)
    ensures m.vol == x.vol && m.ret == x.ret && m.phys == x.phys && m.slots[NDIR] == x.slot
    ensures NDIR < LevelBase(v.geo.a, 4) && !TooBig(v.geo.a, NDIR) && SlotOf(v.geo.a, NDIR) == NDIR
  {
    hide Fsck, SlotBmap, Pow, AddBlocks, LevelBase;
    FsckPositive(v);
    SecondRange(v.geo.a, 0);
  }

  lemma FirstTaken(v: Vol, goal: nat, m: Mapped)
    requires Fsck(v) && v.geo.first == 0 && v.totalFree >= 2
    requires m == Bmap(v, 0, NoSlots(), false, true, NDIR, 0, goal)
    ensures m.ret == Ok && m.vol.totalFree == v.totalFree - 2 && |m.slots| == NSLOTS && m.slots[NDIR] != 0
    ensures NDIR + 1 < LevelBase(v.geo.a, 4) && !TooBig(v.geo.a, NDIR) && SlotOf(v.geo.a, NDIR) == NDIR
  {
    hide Fsck, SlotBmap, Bmap, Pow, LevelBase, TooBig, LevelOf, SlotOf, OffsetOf;
    FsckPositive(v);
    PowPositive(v.geo.a, 1);
    var x := SlotBmap(v, false, true, 0, 1, 0, 0, 0);
    FirstCall(v, goal, x, m);
    MoreThanTwelve(v.geo.a);
    EmptySlot(v, 1, 0, 0);
    ZeroNotTaken(v, x);
  }

  lemma MoreThanTwelve(a: nat)
    requires a > 0
    ensures NDIR + 1 < LevelBase(a, 4)
  {
    LevelBases(a);
    assert a * a > 0 && a * a * a > 0;
  }

  lemma NothingYet(v: Vol, k: nat)
    requires Fsck(v) && k < LevelBase(v.geo.a, 4)
    ensures InodeCheck(v, NoSlots()) && Map(v, NoSlots(), k) == 0
  {
    hide Fsck, InodeCheck, Map;
    EmptyInode(v);
  }

  /** Block 12 of an empty inode: two blocks taken, one of them counted. */
  lemma FirstIndirect(v: Vol, goal: nat, m: Mapped)
    requires Fsck(v) && v.geo.first == 0 && 128 <= v.geo.a <= MAX_TABLE && v.totalFree >= 2
    requires m == Bmap(v, 0, NoSlots(), false, true, NDIR, 0, goal)
    ensures m.ret == Ok && InodeCheck(m.vol, m.slots) && m.vol.geo == v.geo
    ensures m.slots[NDIR] != 0 && m.iblocks == Sectors(v.geo, 1) && m.vol.totalFree == v.totalFree - 2
    ensures NDIR + 1 < LevelBase(v.geo.a, 4) && m.phys != 0 && m.phys in Used(m.vol)
    ensures Map(m.vol, m.slots, NDIR) == m.phys && Map(m.vol, m.slots, NDIR + 1) == 0
  {
    hide Fsck, InodeCheck, Bmap, Map, TooBig, SlotOf, LevelBase, Sectors, Used, FreshBlock, TookIn, Shaped;
    var a, slots := v.geo.a, NoSlots();
    FirstTaken(v, goal, m);
    NothingYet(v, NDIR);
    NothingYet(v, NDIR + 1);
    BmapAllocates(v, 0, slots, NDIR, goal, m);
    FreshHas(v, m.vol, m.phys);
    FirstCounted(v, goal, m);
    BmapMaps(v, 0, slots, false, true, NDIR, 0, goal, NDIR, m);
    BmapMaps(v, 0, slots, false, true, NDIR, 0, goal, NDIR + 1, m);
    var f := BmapKeeps(v, 0, slots, true, NDIR, goal, m);
  }

  lemma FreshHas(v: Vol, v': Vol, b: nat)
    requires FreshBlock(v, v', b)
    ensures b != 0 && b in Used(v') && b !in Used(v)
  {
    hide Used;
  }

  lemma FirstCounted(v: Vol, goal: nat, m: Mapped)
    requires InodeCheck(v, NoSlots()) && Fsck(v) && 128 <= v.geo.a <= MAX_TABLE
    requires m == Bmap(v, 0, NoSlots(), false, true, NDIR, 0, goal) && m.ret == Ok
    requires NDIR < LevelBase(v.geo.a, 4) && !TooBig(v.geo.a, NDIR) && SlotOf(v.geo.a, NDIR) == NDIR
    requires Map(v, NoSlots(), NDIR) == 0
    ensures m.iblocks == Sectors(v.geo, 1)
  {
    hide Fsck, InodeCheck, Bmap, Map, TooBig, SlotOf, LevelBase, Offset, Used;
    assert Sectors(v.geo, 1) <= 0xffff_ffff by { IsProduct(1, 4 * v.geo.a / 512); }
    BmapCounts(v, 0, NoSlots(), NDIR, goal, m);
  }

  lemma ZeroNotTaken(v: Vol, x: SlotStep)
    requires Fsck(v) && 0 < Pow(v.geo.a, 1) && x == SlotBmap(v, false, true, 0, 1, 0, 0, 0) && x.ret == Ok
    ensures x.slot != 0
  {
    hide Fsck, Walk, Alloc;
    AllocOk(v, 0);
  }

  /**
   It happens: an empty inode allocates blocks 12 and 13 and is truncated at
   12. Both blocks are then free, and both are still mapped.
   */
  lemma DanglingHappens(a: nat, n: nat, goal: nat) returns (m1: Mapped, m2: Mapped, c: Cut)
    requires 128 <= a <= MAX_TABLE && 3 <= n < WORD_LIMIT
    ensures Fsck(Blank(0, a, n)) && m1 == Bmap(Blank(0, a, n), 0, NoSlots(), false, true, 12, 0, goal)
    ensures Fsck(m1.vol) && m2 == Bmap(m1.vol, m1.iblocks, m1.slots, false, true, 13, 0, goal)
    ensures m1.ret == Ok && m2.ret == Ok
    ensures c == DeallocFrom(m2.vol, m2.iblocks, m2.slots, 12, 0) && c.ret == EOVERFLOW
    ensures Shaped(c.vol, c.slots) && c.vol.geo.a == a && 13 < LevelBase(a, 4)
    ensures Map(c.vol, c.slots, 12) == m1.phys && m1.phys != 0 && m1.phys !in Used(c.vol)
    ensures Map(c.vol, c.slots, 13) == m2.phys && m2.phys != 0 && m2.phys !in Used(c.vol)
  {
    hide Fsck, InodeCheck, Bmap, Map, LevelBase, Sectors, Used, Shaped, DeallocFrom, Tail, FreshBlock, TookIn, SlotOf;
    var v := Blank(0, a, n);
    BlankClean(0, a, n);
    m1 := Bmap(v, 0, NoSlots(), false, true, 12, 0, goal);
    FirstIndirect(v, goal, m1);
    InodeShaped(m1.vol, m1.slots);
    SecondEntry(m1.vol, m1.iblocks, m1.slots, goal);
    m2 := Bmap(m1.vol, m1.iblocks, m1.slots, false, true, 13, 0, goal);
    SecondTaken(m1.vol, m1.slots, goal, m1.phys, m2);
    c := DeallocFrom(m2.vol, m2.iblocks, m2.slots, 12, 0);
    InodeShaped(m2.vol, m2.slots);
    TwoMapped(m2.vol, m2.slots, m1.phys, m2.phys);
    IndirectDangles(m2.vol, m2.iblocks, m2.slots, 12, c);
    SameTrees(m2.vol, c.vol, m2.slots);
  }

  lemma SecondTaken(v: Vol, slots: seq<nat>, goal: nat, b: nat, m: Mapped)
    requires InodeCheck(v, slots) && NDIR + 1 < LevelBase(v.geo.a, 4) && v.geo.a >= 128 && slots[NDIR] != 0
    requires Map(v, slots, NDIR) == b && b in Used(v) && Map(v, slots, NDIR + 1) == 0
    requires m == Bmap(v, Sectors(v.geo, 1), slots, false, true, NDIR + 1, 0, goal) && m.ret == Ok
    ensures InodeCheck(m.vol, m.slots) && m.vol.geo == v.geo && m.iblocks == Sectors(v.geo, 1)
    ensures Map(m.vol, m.slots, NDIR) == b && Map(m.vol, m.slots, NDIR + 1) == m.phys && m.phys != 0 && m.phys != b
  {
    hide Fsck, InodeCheck, Bmap, Map, LevelBase, Sectors, Used, FreshBlock, TookIn, Shaped, SlotOf;
    SecondRange(v.geo.a, 1);
    BmapAllocates(v, Sectors(v.geo, 1), slots, NDIR + 1, goal, m);
    FreshHas(v, m.vol, m.phys);
    BmapCounts(v, Sectors(v.geo, 1), slots, NDIR + 1, goal, m);
    BmapMaps(v, Sectors(v.geo, 1), slots, false, true, NDIR + 1, 0, goal, NDIR, m);
    BmapMaps(v, Sectors(v.geo, 1), slots, false, true, NDIR + 1, 0, goal, NDIR + 1, m);
    var f := BmapKeeps(v, Sectors(v.geo, 1), slots, true, NDIR + 1, goal, m);
  }

  lemma TwoMapped(v: Vol, slots: seq<nat>, b: nat, b': nat)
    requires InodeCheck(v, slots) && Shaped(v, slots) && NDIR + 1 < LevelBase(v.geo.a, 4) && v.geo.a >= 128
    requires Map(v, slots, NDIR) == b && Map(v, slots, NDIR + 1) == b' && b != 0 && b' != 0 && b != b'
    ensures b in Tail(v, slots, NDIR) && b' in Tail(v, slots, NDIR)
    ensures Sectors(v.geo, |Tail(v, slots, NDIR)|) > Sectors(v.geo, 1)
  {
    hide Fsck, InodeCheck, Map, LevelBase, Shaped, Offset;
    var s := Tail(v, slots, NDIR);
    assert Map(v, slots, NDIR) in s;
    assert Map(v, slots, NDIR + 1) in s;
    TwoAtLeast(s, b, b');
    OffsetGrows(1, |s|, 4 * v.geo.a / 512);
  }

  /** The map depends on the disk and the slots only. */
  lemma SameTrees(v: Vol, w: Vol, slots: seq<nat>)
    requires InodeCheck(v, slots) && w.geo == v.geo && w.disk == v.disk
    ensures Shaped(v, slots) && Shaped(w, slots)
    ensures forall k :: 0 <= k < LevelBase(v.geo.a, 4) ==> Map(w, slots, k) == Map(v, slots, k)
  {
    hide Fsck, TreesOf, OwnAll, ShapeAll, Ready, AllWords, LevelBase;
    assert forall j :: 0 <= j < 4 ==> Level(w, slots, j) == Level(v, slots, j);
  }
}
