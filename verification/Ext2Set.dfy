/** When ext2_bmap stores a given block number with BMAP_SET and BMAP_ALLOC together. */
module Ext2Set {
  import opened Bytes
  import opened Errors
  import opened Radix
  import opened Ext2Tree
  import opened Ext2Disk
  import opened Ext2Alloc
  import opened Ext2Truncate
  import opened Ext2Inode
  import opened Ext2Bmap
  import opened Ext2Space

  lemma {:induction false} PowAtLeast(a: nat, n: nat)
    requires a > 0 && n > 0
    ensures Pow(a, n) >= a
  {
    if n == 1 {
      IsPower(a);
    } else {
      PowAtLeast(a, n - 1);
      OffsetGrows(0, a, Pow(a, n - 1));
    }
  }

  /** All digits of q but the last are 0. */
  lemma LeadingZeros(q: nat, a: nat, n: nat)
    requires a > 0 && n > 0 && q < Offset(a, Pow(a, n)) && Pow(a, n) > 0
    ensures Digit(q, Pow(a, n)) == 0 && Rest(q, Pow(a, n)) < a <==> q < a
  {
    hide Pow;
    PowAtLeast(a, n);
    Split(q, a, Pow(a, n));
  }

  lemma SetsEntry(v: Vol, p: nat, i: nat, val: nat)
    requires Fsck(v) && i < v.geo.a && val < WORD_LIMIT && 0 != p < |v.disk|
    ensures IndBmap(v, true, true, p, i, val).ret == Ok
  {
    hide Decode, Encode, CountsOk;
  }

  /** Below a new table every further table needs a block, and goal 0 to be a block unless it is a first entry. */
  lemma {:induction false} NewTableSet(v: Vol, p: nat, k: nat, q: nat, val: nat)
    requires Fsck(v) && NewTable(v, p) && k > 0 && q < Pow(v.geo.a, k) && val < WORD_LIMIT
    ensures Walk(v, true, true, p, k, q, val).ret == Ok <==> (v.geo.first == 0 || q < v.geo.a) && v.totalFree >= k - 1
    decreases k
  {
    hide Decode, Encode, IndBmap, CountsOk, Fsck;
    if k == 1 {
      IsPower(v.geo.a);
      SetsEntry(v, p, q, val);
      TotalIsClear(v);
    } else {
      hide NewTable;
      var inc := Pow(v.geo.a, k - 1);
      WalkUnfold(v, true, true, p, k - 1, q, val);
      LeadingZeros(q, v.geo.a, k - 1);
      var r := IndBmap(v, false, true, p, Digit(q, inc), 0);
      NewTableStep(v, p, Digit(q, inc), r);
      if r.ret == Ok {
        NewTableSet(r.vol, r.result, k - 1, Rest(q, inc), val);
      }
    }
  }

  /**
   The tables on the way to offset q below table p are all there, or stop at an
   empty entry whose left neighbour is inside the volume; each missing table
   takes a block.
   */
  predicate Reachable(v: Vol, p: nat, k: nat, q: nat)
    requires Fsck(v) && k > 0 && q < Pow(v.geo.a, k) && p < |v.disk|
    decreases k
  {
    k == 1 ||
    var inc := Pow(v.geo.a, k - 1);
    PowPositive(v.geo.a, k - 1);
    Split(q, v.geo.a, inc);
    var i, ws := Digit(q, inc), Decode(v.disk[p]);
    if ws[i] != 0 then ws[i] < |v.disk| && Reachable(v, ws[i], k - 1, Rest(q, inc))
    else
      && InVolume(v.geo, if i != 0 then ws[i - 1] else p)
      && v.totalFree >= k - 1 && (v.geo.first == 0 || Rest(q, inc) < v.geo.a)
  }

  lemma ReachableStep(v: Vol, p: nat, level: nat, q: nat, i: nat, rest: nat)
    requires Fsck(v) && level > 0 && q < Pow(v.geo.a, level + 1) && p < |v.disk| && |Decode(v.disk[p])| == v.geo.a
    requires Pow(v.geo.a, level) > 0 && i == Digit(q, Pow(v.geo.a, level)) && rest == Rest(q, Pow(v.geo.a, level))
    requires rest < Pow(v.geo.a, level) && i < v.geo.a
    ensures var ws := Decode(v.disk[p]);
            Reachable(v, p, level + 1, q) <==>
            if ws[i] != 0 then ws[i] < |v.disk| && Reachable(v, ws[i], level, rest)
            else InVolume(v.geo, if i != 0 then ws[i - 1] else p)
                 && v.totalFree >= level && (v.geo.first == 0 || rest < v.geo.a)
  {
    hide Decode, Fsck;
  }

  /** The chain of lookups below a table sets an entry exactly when its table can be reached. */
  lemma {:induction false} WalkReaches(v: Vol, p: nat, k: nat, q: nat, val: nat)
    requires Fsck(v) && k > 0 && q < Pow(v.geo.a, k) && p != 0 && val < WORD_LIMIT
    requires ReadyOne(TreeOf(v.disk, v.geo.a, k, p), v.geo.a, k, Used(v))
    ensures p < |v.disk| && (Walk(v, true, true, p, k, q, val).ret == Ok <==> Reachable(v, p, k, q))
    decreases k
  {
    hide TreesOf, Decode, Encode, Reachable, Fsck, NewTable;
    var level := k - 1;
    Open(v, level, p);
    var kids := TreesOf(v.disk, v.geo.a, level, Decode(v.disk[p]));
    LookupKid(Ind(p, kids), v.geo.a, k, q);
    if k == 1 {
      LastReached(v, p, q, val);
    } else {
      var i, rest := Digit(q, Pow(v.geo.a, level)), Rest(q, Pow(v.geo.a, level));
      var r := IndBmap(v, false, true, p, i, 0);
      WalkUnfold(v, true, true, p, level, q, val);
      ReachableStep(v, p, level, q, i, rest);
      TreesAt(v.disk, v.geo.a, level, Decode(v.disk[p]), i);
      TreeRoot(v.disk, v.geo.a, level, Decode(v.disk[p])[i]);
      if kids[i].Hole? {
        EmptyEntry(v, p, i, r);
        if r.ret == Ok {
          NewTableSet(r.vol, r.result, level, rest, val);
        }
      } else {
        IndReads(v, true, level, p, kids, i);
        WalkReaches(v, Decode(v.disk[p])[i], level, rest, val);
      }
    }
  }

  lemma LastReached(v: Vol, p: nat, q: nat, val: nat)
    requires Fsck(v) && q < Pow(v.geo.a, 1) && 0 != p < |v.disk| && val < WORD_LIMIT
    ensures Walk(v, true, true, p, 1, q, val).ret == Ok && Reachable(v, p, 1, q)
  {
    hide IndBmap, Decode, CountsOk;
    IsPower(v.geo.a);
    SetsEntry(v, p, q, val);
  }

  /** The entry of block k is there, or its tables can be allocated. */
  predicate Storable(v: Vol, slots: seq<nat>, k: nat, goal: nat)
    requires Fsck(v) && |slots| == NSLOTS && k < LevelBase(v.geo.a, 4)
  {
    var s, j, q := SlotOf(v.geo.a, k), LevelOf(v.geo.a, k), OffsetOf(v.geo.a, k);
    if j == 0 then true
    else if slots[s] == 0 then
      InVolume(v.geo, GoalOf(slots, s, goal)) && v.totalFree >= j && (v.geo.first == 0 || q < v.geo.a)
    else slots[s] < |v.disk| && Reachable(v, slots[s], j, q)
  }

  lemma EmptySlotSet(v: Vol, j: nat, goal: nat, q: nat, val: nat)
    requires Fsck(v) && j > 0 && q < Pow(v.geo.a, j) && val < WORD_LIMIT
    ensures SlotBmap(v, true, true, 0, j, goal, q, val).ret == Ok <==>
            InVolume(v.geo, goal) && v.totalFree >= j && (v.geo.first == 0 || q < v.geo.a)
  {
    hide Decode, Encode, Offset, CountsOk, Walk, Pow;
    AllocSucceeds(v, goal);
    AllocOk(v, goal);
    var r := Alloc(v, goal);
    if r.ret == Ok {
      NewTableSet(r.vol, r.result, j, q, val);
    }
  }

  /** ext2_bmap with BMAP_SET and BMAP_ALLOC succeeds exactly when the entry for block k is there or can be made. */
  lemma SetAllocSucceeds(v: Vol, iblocks: int, slots: seq<nat>, k: nat, val: nat, goal: nat)
    requires InodeCheck(v, slots) && !TooBig(v.geo.a, k) && val < WORD_LIMIT
    ensures Bmap(v, iblocks, slots, true, true, k, val, goal).ret == Ok <==> Storable(v, slots, k, goal)
  {
    hide TreesOf, Decode, Encode, Offset, Pow, Reachable, Walk;
    var j, s, q, t := BmapTree(v, slots, k);
    if j > 0 {
      if slots[s] == 0 {
        EmptySlotSet(v, j, GoalOf(slots, s, goal), q, val);
      } else {
        WalkReaches(v, slots[s], j, q, val);
      }
    }
  }
}
