/**
 The pointer tree behind one slot of an inode's block array: a hole, a data
 block, or an indirect block with its entries in order.
 */
module Ext2Tree {
  import opened Radix

  datatype Tree = Hole | Data(block: nat) | Ind(block: nat, kids: seq<Tree>)

  /** A tree of the given height whose indirect blocks hold a entries each. */
  predicate Shape(t: Tree, a: nat, level: nat)
    decreases t, 1
  {
    match t
    case Hole => true
    case Data(_) => level == 0
    case Ind(_, kids) => level > 0 && |kids| == a && ShapeAll(kids, a, level - 1)
  }

  predicate ShapeAll(ts: seq<Tree>, a: nat, level: nat)
    decreases ts, 0
  {
    ts == [] || (ShapeAll(ts[..|ts| - 1], a, level) && Shape(ts[|ts| - 1], a, level))
  }

  lemma {:induction false} ShapeAt(ts: seq<Tree>, a: nat, level: nat, i: nat)
    requires ShapeAll(ts, a, level) && i < |ts|
    ensures Shape(ts[i], a, level)
  {
    if i < |ts| - 1 {
      ShapeAt(ts[..|ts| - 1], a, level, i);
    }
  }

  /** The physical block of logical offset off, 0 for a hole. */
  function Lookup(t: Tree, a: nat, level: nat, off: nat): nat
    requires a > 0 && Shape(t, a, level) && off < Pow(a, level)
  {
    match t
    case Hole => 0
    case Data(b) => b
    case Ind(_, kids) =>
      var inc := Pow(a, level - 1);
      PowPositive(a, level - 1);
      Split(off, a, inc);
      ShapeAt(kids, a, level - 1, Digit(off, inc));
      Lookup(kids[Digit(off, inc)], a, level - 1, Rest(off, inc))
  }

  // ----- Ownership -----

  /** All blocks of the tree. */
  function Own(t: Tree): set<nat>
    decreases t, 1
  {
    match t
    case Hole => {}
    case Data(b) => {b}
    case Ind(b, kids) => {b} + OwnAll(kids)
  }

  function OwnAll(ts: seq<Tree>): set<nat>
    decreases ts, 0
  {
    if ts == [] then {} else OwnAll(ts[..|ts| - 1]) + Own(ts[|ts| - 1])
  }

  /** The indirect blocks of the tree. */
  function Meta(t: Tree): set<nat>
    decreases t, 1
  {
    match t
    case Hole => {}
    case Data(_) => {}
    case Ind(b, kids) => {b} + MetaAll(kids)
  }

  function MetaAll(ts: seq<Tree>): set<nat>
    decreases ts, 0
  {
    if ts == [] then {} else MetaAll(ts[..|ts| - 1]) + Meta(ts[|ts| - 1])
  }

  /** No block of the tree is pointed to twice. */
  predicate Separate(t: Tree)
    decreases t, 1
  {
    t.Ind? ==> t.block !in OwnAll(t.kids) && SeparateAll(t.kids)
  }

  /** No block of the trees is pointed to twice, within a tree or across them. */
  predicate SeparateAll(ts: seq<Tree>)
    decreases ts, 0
  {
    ts == [] ||
    (SeparateAll(ts[..|ts| - 1]) && Separate(ts[|ts| - 1]) && OwnAll(ts[..|ts| - 1]) !! Own(ts[|ts| - 1]))
  }

  lemma {:induction false} MetaOwned(t: Tree)
    ensures Meta(t) <= Own(t)
    decreases t, 1
  {
    if t.Ind? {
      MetaAllOwned(t.kids);
    }
  }

  lemma {:induction false} MetaAllOwned(ts: seq<Tree>)
    ensures MetaAll(ts) <= OwnAll(ts)
    decreases ts, 0
  {
    if ts != [] {
      MetaAllOwned(ts[..|ts| - 1]);
      MetaOwned(ts[|ts| - 1]);
    }
  }

  lemma {:induction false} OwnAt(ts: seq<Tree>, i: nat)
    requires i < |ts|
    ensures Own(ts[i]) <= OwnAll(ts) && Meta(ts[i]) <= MetaAll(ts)
  {
    if i < |ts| - 1 {
      OwnAt(ts[..|ts| - 1], i);
    }
  }

  lemma {:induction false} SeparateAt(ts: seq<Tree>, i: nat)
    requires SeparateAll(ts) && i < |ts|
    ensures Separate(ts[i])
  {
    if i < |ts| - 1 {
      SeparateAt(ts[..|ts| - 1], i);
    }
  }

  lemma {:induction false} DisjointAt(ts: seq<Tree>, i: nat, j: nat)
    requires SeparateAll(ts) && i < j < |ts|
    ensures Own(ts[i]) !! Own(ts[j])
  {
    if j < |ts| - 1 {
      DisjointAt(ts[..|ts| - 1], i, j);
    } else {
      OwnAt(ts[..|ts| - 1], i);
    }
  }

  lemma LookupKid(t: Tree, a: nat, level: nat, off: nat)
    requires a > 0 && Shape(t, a, level) && t.Ind? && off < Pow(a, level)
    ensures Pow(a, level - 1) > 0
    ensures Digit(off, Pow(a, level - 1)) < a && Rest(off, Pow(a, level - 1)) < Pow(a, level - 1)
    ensures off == Offset(Digit(off, Pow(a, level - 1)), Pow(a, level - 1)) + Rest(off, Pow(a, level - 1))
    ensures Shape(t.kids[Digit(off, Pow(a, level - 1))], a, level - 1)
    ensures Lookup(t, a, level, off) ==
            Lookup(t.kids[Digit(off, Pow(a, level - 1))], a, level - 1, Rest(off, Pow(a, level - 1)))
  {
    PowPositive(a, level - 1);
    Split(off, a, Pow(a, level - 1));
    ShapeAt(t.kids, a, level - 1, Digit(off, Pow(a, level - 1)));
  }

  /** A mapped block belongs to the tree. */
  lemma {:induction false} LookupOwned(t: Tree, a: nat, level: nat, off: nat)
    requires a > 0 && Shape(t, a, level) && off < Pow(a, level)
    requires Lookup(t, a, level, off) != 0
    ensures Lookup(t, a, level, off) in Own(t)
  {
    if t.Ind? {
      LookupKid(t, a, level, off);
      var inc := Pow(a, level - 1);
      var i, r := Digit(off, inc), Rest(off, inc);
      LookupOwned(t.kids[i], a, level - 1, r);
      OwnAt(t.kids, i);
    }
  }

  // ----- Cutting a tree -----

  function Minus(x: nat, y: nat): nat
  {
    if x > y then x - y else 0
  }

  predicate AllHoles(ts: seq<Tree>)
  {
    ts == [] || (AllHoles(ts[..|ts| - 1]) && ts[|ts| - 1].Hole?)
  }

  lemma {:induction false} AllHolesMeans(ts: seq<Tree>)
    ensures AllHoles(ts) <==> forall i :: 0 <= i < |ts| ==> ts[i].Hole?
  {
    if ts != [] {
      AllHolesMeans(ts[..|ts| - 1]);
      assert forall i :: 0 <= i < |ts| - 1 ==> ts[..|ts| - 1][i] == ts[i];
    }
  }

  /**
   The tree left when every logical block at or after s is cut: indirect blocks
   that the cut reaches and that end up without entries go too.
   */
  function Prune(t: Tree, a: nat, level: nat, s: nat): Tree
    requires Shape(t, a, level)
    decreases t, 1
  {
    if s >= Pow(a, level) then t
    else
      match t
      case Hole => Hole
      case Data(_) => Hole
      case Ind(b, kids) =>
        var cut := PruneAll(kids, a, level - 1, s);
        if AllHoles(cut) then Hole else Ind(b, cut)
  }

  /** Prune applied to consecutive trees that share one range of offsets. */
  function PruneAll(ts: seq<Tree>, a: nat, level: nat, s: nat): (r: seq<Tree>)
    requires ShapeAll(ts, a, level)
    ensures |r| == |ts|
    decreases ts, 0
  {
    if ts == [] then []
    else
      var n := |ts| - 1;
      PruneAll(ts[..n], a, level, s) + [Prune(ts[n], a, level, Minus(s, Offset(n, Pow(a, level))))]
  }

  lemma {:induction false} PruneAt(ts: seq<Tree>, a: nat, level: nat, s: nat, i: nat)
    requires ShapeAll(ts, a, level) && i < |ts|
    ensures Shape(ts[i], a, level)
    ensures PruneAll(ts, a, level, s)[i] == Prune(ts[i], a, level, Minus(s, Offset(i, Pow(a, level))))
  {
    if i < |ts| - 1 {
      PruneAt(ts[..|ts| - 1], a, level, s, i);
    }
  }

  lemma {:induction false} PruneShape(t: Tree, a: nat, level: nat, s: nat)
    requires Shape(t, a, level)
    ensures Shape(Prune(t, a, level, s), a, level)
    decreases t, 1
  {
    if t.Ind? {
      PruneAllShape(t.kids, a, level - 1, s);
    }
  }

  lemma {:induction false} PruneAllShape(ts: seq<Tree>, a: nat, level: nat, s: nat)
    requires ShapeAll(ts, a, level)
    ensures ShapeAll(PruneAll(ts, a, level, s), a, level)
    decreases ts, 0
  {
    if ts != [] {
      var n := |ts| - 1;
      PruneAllShape(ts[..n], a, level, s);
      PruneShape(ts[n], a, level, Minus(s, Offset(n, Pow(a, level))));
      assert PruneAll(ts, a, level, s)[..n] == PruneAll(ts[..n], a, level, s);
    }
  }

  lemma {:induction false} PruneOwn(t: Tree, a: nat, level: nat, s: nat)
    requires Shape(t, a, level)
    ensures Own(Prune(t, a, level, s)) <= Own(t)
    ensures Meta(Prune(t, a, level, s)) <= Meta(t)
    decreases t, 1
  {
    if t.Ind? {
      PruneAllOwn(t.kids, a, level - 1, s);
    }
  }

  lemma {:induction false} PruneAllOwn(ts: seq<Tree>, a: nat, level: nat, s: nat)
    requires ShapeAll(ts, a, level)
    ensures OwnAll(PruneAll(ts, a, level, s)) <= OwnAll(ts)
    ensures MetaAll(PruneAll(ts, a, level, s)) <= MetaAll(ts)
    decreases ts, 0
  {
    if ts != [] {
      var n := |ts| - 1;
      PruneAllOwn(ts[..n], a, level, s);
      PruneOwn(ts[n], a, level, Minus(s, Offset(n, Pow(a, level))));
      assert PruneAll(ts, a, level, s)[..n] == PruneAll(ts[..n], a, level, s);
    }
  }

  lemma {:induction false} PruneSeparate(t: Tree, a: nat, level: nat, s: nat)
    requires Shape(t, a, level) && Separate(t)
    ensures Separate(Prune(t, a, level, s))
    decreases t, 1
  {
    if t.Ind? {
      PruneAllSeparate(t.kids, a, level - 1, s);
      PruneAllOwn(t.kids, a, level - 1, s);
    }
  }

  lemma {:induction false} PruneAllSeparate(ts: seq<Tree>, a: nat, level: nat, s: nat)
    requires ShapeAll(ts, a, level) && SeparateAll(ts)
    ensures SeparateAll(PruneAll(ts, a, level, s))
    decreases ts, 0
  {
    if ts != [] {
      var n := |ts| - 1;
      PruneAllSeparate(ts[..n], a, level, s);
      PruneSeparate(ts[n], a, level, Minus(s, Offset(n, Pow(a, level))));
      PruneAllOwn(ts[..n], a, level, s);
      PruneOwn(ts[n], a, level, Minus(s, Offset(n, Pow(a, level))));
      assert PruneAll(ts, a, level, s)[..n] == PruneAll(ts[..n], a, level, s);
    }
  }

  /** Truncation keeps every mapping below the cut and makes the rest holes. */
  lemma {:induction false} PruneLookup(t: Tree, a: nat, level: nat, s: nat, off: nat)
    requires a > 0 && Shape(t, a, level) && off < Pow(a, level)
    ensures Shape(Prune(t, a, level, s), a, level)
    ensures Lookup(Prune(t, a, level, s), a, level, off) == if off < s then Lookup(t, a, level, off) else 0
  {
    PruneShape(t, a, level, s);
    var t' := Prune(t, a, level, s);
    if t.Ind? && s < Pow(a, level) {
      LookupKid(t, a, level, off);
      var inc := Pow(a, level - 1);
      var i, r := Digit(off, inc), Rest(off, inc);
      PruneAt(t.kids, a, level - 1, s, i);
      PruneLookup(t.kids[i], a, level - 1, Minus(s, Offset(i, inc)), r);
      if t'.Ind? {
        LookupKid(t', a, level, off);
      } else {
        AllHolesMeans(PruneAll(t.kids, a, level - 1, s));
      }
    }
  }

  /** What tree i no longer owns after the cut, none of the trees owns. */
  lemma {:induction false} PruneDrops(ts: seq<Tree>, a: nat, level: nat, s: nat, i: nat, x: nat)
    requires ShapeAll(ts, a, level) && SeparateAll(ts) && i < |ts|
    requires x in Own(ts[i]) && x !in Own(PruneAll(ts, a, level, s)[i])
    ensures x !in OwnAll(PruneAll(ts, a, level, s))
  {
    var n := |ts| - 1;
    var cut := PruneAll(ts, a, level, s);
    assert cut[..n] == PruneAll(ts[..n], a, level, s);
    if i < n {
      PruneDrops(ts[..n], a, level, s, i, x);
      PruneOwn(ts[n], a, level, Minus(s, Offset(n, Pow(a, level))));
      OwnAt(ts[..n], i);
    } else {
      PruneAllOwn(ts[..n], a, level, s);
    }
  }

  /** A mapped data block stays in the tree exactly when its offset is below the cut. */
  lemma {:induction false} PruneFreesData(t: Tree, a: nat, level: nat, s: nat, off: nat)
    requires a > 0 && Shape(t, a, level) && Separate(t) && off < Pow(a, level)
    requires Lookup(t, a, level, off) != 0
    ensures Lookup(t, a, level, off) in Own(Prune(t, a, level, s)) <==> off < s
  {
    var b := Lookup(t, a, level, off);
    if off < s {
      PruneLookup(t, a, level, s, off);
      LookupOwned(Prune(t, a, level, s), a, level, off);
    } else if t.Ind? {
      LookupKid(t, a, level, off);
      var inc := Pow(a, level - 1);
      var i, r := Digit(off, inc), Rest(off, inc);
      SeparateAt(t.kids, i);
      PruneFreesData(t.kids[i], a, level - 1, Minus(s, Offset(i, inc)), r);
      LookupOwned(t.kids[i], a, level - 1, r);
      PruneAt(t.kids, a, level - 1, s, i);
      PruneDrops(t.kids, a, level - 1, s, i, b);
      OwnAt(t.kids, i);
    }
  }

  /** Every indirect block whose range reaches past s still has an entry. */
  predicate NoneIdle(t: Tree, a: nat, level: nat, s: nat)
    decreases t, 1
  {
    t.Ind? && level > 0 && s < Pow(a, level) ==>
      !AllHoles(t.kids) && NoneIdleAll(t.kids, a, level - 1, s)
  }

  predicate NoneIdleAll(ts: seq<Tree>, a: nat, level: nat, s: nat)
    decreases ts, 0
  {
    if ts == [] then true
    else
      var n := |ts| - 1;
      NoneIdleAll(ts[..n], a, level, s) && NoneIdle(ts[n], a, level, Minus(s, Offset(n, Pow(a, level))))
  }

  /** No indirect block that the cut visits survives without entries. */
  lemma {:induction false} PruneLeavesNoneIdle(t: Tree, a: nat, level: nat, s: nat)
    requires Shape(t, a, level)
    ensures NoneIdle(Prune(t, a, level, s), a, level, s)
    decreases t, 1
  {
    if t.Ind? {
      PruneAllLeavesNoneIdle(t.kids, a, level - 1, s);
    }
  }

  lemma {:induction false} PruneAllLeavesNoneIdle(ts: seq<Tree>, a: nat, level: nat, s: nat)
    requires ShapeAll(ts, a, level)
    ensures NoneIdleAll(PruneAll(ts, a, level, s), a, level, s)
    decreases ts, 0
  {
    if ts != [] {
      var n := |ts| - 1;
      PruneAllLeavesNoneIdle(ts[..n], a, level, s);
      PruneLeavesNoneIdle(ts[n], a, level, Minus(s, Offset(n, Pow(a, level))));
      assert PruneAll(ts, a, level, s)[..n] == PruneAll(ts[..n], a, level, s);
    }
  }
}
