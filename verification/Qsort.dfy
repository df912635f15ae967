/**
 The kernel's qsort: quicksort with median of three and an explicit stack down
 to small blocks, then one insertion pass over the whole array. Elements are
 abstract; cmp is any total preorder.
 */
module Qsort {
  import opened Bytes

  const MAX_THRESH: nat := 4
  const STACK_SIZE: nat := 32

  // ----- Order -----

  /** x may stand before y. */
  predicate Le<T>(cmp: (T, T) -> int, x: T, y: T)
  {
    !(cmp(y, x) < 0)
  }

  ghost predicate Preorder<T(!new)>(cmp: (T, T) -> int)
  {
    && (forall x, y :: Le(cmp, x, y) || Le(cmp, y, x))
    && (forall x, y, z :: Le(cmp, x, y) && Le(cmp, y, z) ==> Le(cmp, x, z))
  }

  lemma Total<T(!new)>(cmp: (T, T) -> int, x: T, y: T)
    requires Preorder(cmp)
    ensures Le(cmp, x, y) || Le(cmp, y, x)
  {
    hide Le;
  }

  lemma Transitive<T(!new)>(cmp: (T, T) -> int, x: T, y: T, z: T)
    requires Preorder(cmp) && Le(cmp, x, y) && Le(cmp, y, z)
    ensures Le(cmp, x, z)
  {
    hide Le;
  }

  /** All of s[lo..hi] may stand before x. */
  ghost predicate AllLe<T>(cmp: (T, T) -> int, s: seq<T>, lo: int, hi: int, x: T)
    requires 0 <= lo && hi <= |s|
  {
    forall i :: lo <= i < hi ==> Le(cmp, s[i], x)
  }

  /** x may stand before all of s[lo..hi]. */
  ghost predicate LeAll<T>(cmp: (T, T) -> int, x: T, s: seq<T>, lo: int, hi: int)
    requires 0 <= lo && hi <= |s|
  {
    forall i :: lo <= i < hi ==> Le(cmp, x, s[i])
  }

  ghost predicate Sorted<T>(cmp: (T, T) -> int, s: seq<T>)
  {
    forall i, j :: 0 <= i < j < |s| ==> Le(cmp, s[i], s[j])
  }

  // ----- Permutations of a segment -----

  function Swapped<T>(s: seq<T>, i: nat, j: nat): (r: seq<T>)
    requires i < |s| && j < |s|
    ensures |r| == |s|
  {
    s[i := s[j]][j := s[i]]
  }

  /** t is s with the elements of [lo, hi] rearranged. */
  ghost predicate Rearranged<T>(s: seq<T>, t: seq<T>, lo: int, hi: int)
  {
    && |s| == |t| && 0 <= lo && hi < |s|
    && (forall k :: 0 <= k < |s| && !(lo <= k <= hi) ==> t[k] == s[k])
    && multiset(t) == multiset(s)
  }

  lemma SwapRearranges<T>(s: seq<T>, i: nat, j: nat, lo: int, hi: int)
    requires 0 <= lo <= i <= hi < |s| && lo <= j <= hi
    ensures Rearranged(s, Swapped(s, i, j), lo, hi)
  {
  }

  lemma RearrangedTwice<T>(s: seq<T>, t: seq<T>, u: seq<T>, lo: int, hi: int)
    requires Rearranged(s, t, lo, hi) && Rearranged(t, u, lo, hi)
    ensures Rearranged(s, u, lo, hi)
  {
  }

  /** Rearranging less is rearranging. */
  lemma RearrangedWider<T>(s: seq<T>, t: seq<T>, lo: int, hi: int, lo': int, hi': int)
    requires Rearranged(s, t, lo, hi) && 0 <= lo' <= lo && hi <= hi' < |s|
    ensures Rearranged(s, t, lo', hi')
  {
  }

  lemma ThreeParts<T>(s: seq<T>, lo: int, hi: int)
    requires 0 <= lo <= hi <= |s|
    ensures multiset(s) == multiset(s[..lo]) + multiset(s[lo..hi]) + multiset(s[hi..])
  {
    assert s == s[..lo] + s[lo..hi] + s[hi..];
  }

  lemma Cancel<T>(x: multiset<T>, y: multiset<T>, u: multiset<T>, v: multiset<T>)
    requires u + x + v == u + y + v
    ensures x == y
  {
    assert forall e :: x[e] == (u + x + v)[e] - u[e] - v[e];
    assert forall e :: y[e] == (u + y + v)[e] - u[e] - v[e];
  }

  /** An element of the rearranged segment was in the segment before. */
  lemma CameFrom<T>(s: seq<T>, t: seq<T>, lo: int, hi: int, j: int) returns (k: int)
    requires Rearranged(s, t, lo, hi) && lo <= j <= hi
    ensures lo <= k <= hi && s[k] == t[j]
  {
    ThreeParts(s, lo, hi + 1);
    ThreeParts(t, lo, hi + 1);
    assert s[..lo] == t[..lo] && s[hi + 1..] == t[hi + 1..];
    Cancel(multiset(s[lo..hi + 1]), multiset(t[lo..hi + 1]), multiset(s[..lo]), multiset(s[hi + 1..]));
    k := Inside(s, t, lo, hi, j);
  }

  lemma Inside<T>(s: seq<T>, t: seq<T>, lo: int, hi: int, j: int) returns (k: int)
    requires |s| == |t| && 0 <= lo <= j <= hi < |s| && multiset(s[lo..hi + 1]) == multiset(t[lo..hi + 1])
    ensures lo <= k <= hi && s[k] == t[j]
  {
    var s1, t1 := s[lo..hi + 1], t[lo..hi + 1];
    assert t1[j - lo] == t[j];
    assert t[j] in multiset(t1);
    assert t[j] in s1;
    var m :| 0 <= m < |s1| && s1[m] == t[j];
    k := lo + m;
  }

  // ----- Partition -----

  method Swap<T>(a: array<T>, i: nat, j: nat)
    requires i < a.Length && j < a.Length
    modifies a
    ensures a[..] == Swapped(old(a[..]), i, j)
  {
    a[i], a[j] := a[j], a[i];
  }

  /**
   The pivot's place, and order around it: everything before left is no
   greater, everything after right no smaller.
   */
  ghost predicate Walls<T>(cmp: (T, T) -> int, s: seq<T>, lo: int, hi: int, left: int, right: int, mid: int)
  {
    && 0 <= lo < left <= hi < |s| && lo <= right < hi && lo <= mid <= hi && left <= right + 2
    && AllLe(cmp, s, lo, left, s[mid])
    && LeAll(cmp, s[mid], s, right + 1, hi + 1)
  }

  /** Two elements put in order. */
  method OrderPair<T(!new)>(a: array<T>, i: nat, j: nat, cmp: (T, T) -> int, ghost lo: nat, ghost hi: nat)
    returns (swapped: bool)
    requires Preorder(cmp) && lo <= i < j <= hi < a.Length
    modifies a
    ensures Rearranged(old(a[..]), a[..], lo, hi)
    ensures a[..] == if swapped then Swapped(old(a[..]), i, j) else old(a[..])
    ensures swapped <==> cmp(old(a[j]), old(a[i])) < 0
    ensures Le(cmp, a[i], a[j])
  {
    hide Rearranged;
    swapped := cmp(a[j], a[i]) < 0;
    SwapRearranges(a[..], i, j, lo, hi);
    NoneMoved(a[..], lo, hi);
    Total(cmp, a[i], a[j]);
    if swapped {
      Swap(a, i, j);
    }
  }

  lemma NoneMoved<T>(s: seq<T>, lo: int, hi: int)
    requires 0 <= lo && hi < |s|
    ensures Rearranged(s, s, lo, hi)
  {
  }

  /** Median of three: afterwards the middle element separates the ends. */
  method MedianOfThree<T(!new)>(a: array<T>, lo: nat, hi: nat, cmp: (T, T) -> int) returns (mid: nat)
    requires Preorder(cmp) && lo + MAX_THRESH <= hi < a.Length
    modifies a
    ensures lo < mid < hi && Rearranged(old(a[..]), a[..], lo, hi)
    ensures Le(cmp, a[lo], a[mid]) && Le(cmp, a[mid], a[hi])
  {
    hide Rearranged, Preorder, Le;
    ghost var s0 := a[..];
    mid := lo + (hi - lo) / 2;
    var swapped := OrderPair(a, lo, mid, cmp, lo, hi);
    ghost var s1 := a[..];
    swapped := OrderPair(a, mid, hi, cmp, lo, hi);
    ghost var s2 := a[..];
    RearrangedTwice(s0, s1, s2, lo, hi);
    if !swapped {
      return;
    }
    swapped := OrderPair(a, lo, mid, cmp, lo, hi);
    RearrangedTwice(s0, s2, a[..], lo, hi);
  }

  /** The left pointer moves over elements smaller than the pivot; the wall on the right stops it. */
  method ScanUp<T(!new)>(a: array<T>, from: nat, wall: nat, mid: nat, cmp: (T, T) -> int) returns (left: nat)
    requires Preorder(cmp) && from <= wall < a.Length && mid < a.Length && Le(cmp, a[mid], a[wall])
    ensures from <= left <= wall && Le(cmp, a[mid], a[left]) && AllLe(cmp, a[..], from, left, a[mid])
  {
    left := from;
    while cmp(a[left], a[mid]) < 0
      invariant from <= left <= wall && AllLe(cmp, a[..], from, left, a[mid])
      decreases wall - left
    {
      Total(cmp, a[left], a[mid]);
      left := left + 1;
    }
  }

  /** The right pointer moves over elements greater than the pivot; the wall on the left stops it. */
  method ScanDown<T(!new)>(a: array<T>, from: nat, wall: nat, mid: nat, cmp: (T, T) -> int) returns (right: nat)
    requires Preorder(cmp) && wall <= from < a.Length && mid < a.Length && Le(cmp, a[wall], a[mid])
    ensures wall <= right <= from && Le(cmp, a[right], a[mid]) && LeAll(cmp, a[mid], a[..], right + 1, from + 1)
  {
    right := from;
    while cmp(a[mid], a[right]) < 0
      invariant wall <= right <= from && LeAll(cmp, a[mid], a[..], right + 1, from + 1)
      decreases right - wall
    {
      Total(cmp, a[mid], a[right]);
      right := right - 1;
    }
  }

  lemma WallsFacts<T>(cmp: (T, T) -> int, s: seq<T>, lo: int, hi: int, left: int, right: int, mid: int)
    requires Walls(cmp, s, lo, hi, left, right, mid)
    ensures 0 <= lo < left <= hi < |s| && lo <= right < hi && lo <= mid <= hi && left <= right + 2
    ensures Le(cmp, s[mid], s[right + 1])
  {
    hide Le;
  }

  /** The element before the left pointer is no greater than the pivot. */
  lemma LowWall<T>(cmp: (T, T) -> int, s: seq<T>, lo: int, hi: int, left: int, right: int, left': int, mid: int)
    requires Walls(cmp, s, lo, hi, left, right, mid) && left <= left' <= hi && AllLe(cmp, s, left, left', s[mid])
    ensures Le(cmp, s[left' - 1], s[mid])
  {
    hide Le;
  }

  /** Both pointers have stopped: the walls have moved to them. */
  lemma WallsMoved<T>(cmp: (T, T) -> int, s: seq<T>, lo: int, hi: int, left: int, right: int, left': int, right': int,
                      mid: int)
    requires Walls(cmp, s, lo, hi, left, right, mid) && left <= right && left <= left' <= right + 1
    requires left' - 1 <= right' <= right
    requires AllLe(cmp, s, left, left', s[mid]) && LeAll(cmp, s[mid], s, right' + 1, right + 1)
    ensures Walls(cmp, s, lo, hi, left', right', mid)
  {
    hide Le;
  }

  /** The two elements that stopped the pointers change sides; the pivot is followed. */
  lemma WallsSwapped<T>(cmp: (T, T) -> int, s: seq<T>, t: seq<T>, lo: int, hi: int, left: int, right: int, mid: int,
                        mid': int)
    requires Walls(cmp, s, lo, hi, left, right, mid) && left < right
    requires Le(cmp, s[mid], s[left]) && Le(cmp, s[right], s[mid])
    requires t == Swapped(s, left, right) && mid' == if mid == left then right else if mid == right then left else mid
    ensures Walls(cmp, t, lo, hi, left + 1, right - 1, mid')
  {
    hide Le;
    assert t[mid'] == s[mid];
  }

  /** The pointers met on an element equivalent to the pivot. */
  lemma WallsMet<T>(cmp: (T, T) -> int, s: seq<T>, lo: int, hi: int, left: int, mid: int)
    requires Walls(cmp, s, lo, hi, left, left, mid) && Le(cmp, s[mid], s[left]) && Le(cmp, s[left], s[mid])
    ensures Walls(cmp, s, lo, hi, left + 1, left - 1, mid)
  {
    hide Le;
  }

  /** One pass of the inner loop. */
  method Collapse<T(!new)>(a: array<T>, lo: nat, hi: nat, left: nat, right: nat, mid: nat, cmp: (T, T) -> int)
    returns (left': nat, right': nat, mid': nat, met: bool)
    requires Preorder(cmp) && lo < hi < a.Length && left <= right && Walls(cmp, a[..], lo, hi, left, right, mid)
    modifies a
    ensures Walls(cmp, a[..], lo, hi, left', right', mid') && Rearranged(old(a[..]), a[..], lo, hi)
    ensures right' - left' < right - left && (met ==> left' > right')
  {
    hide *;
    WallsFacts(cmp, a[..], lo, hi, left, right, mid);
    left' := ScanUp(a, left, right + 1, mid, cmp);
    LowWall(cmp, a[..], lo, hi, left, right, left', mid);
    right' := ScanDown(a, right, left' - 1, mid, cmp);
    WallsMoved(cmp, a[..], lo, hi, left, right, left', right', mid);
    mid', met := mid, false;
    NoneMoved(a[..], lo, hi);
    if left' < right' {
      ghost var s := a[..];
      SwapRearranges(s, left', right', lo, hi);
      Swap(a, left', right');
      if mid == left' {
        mid' := right';
      } else if mid == right' {
        mid' := left';
      }
      WallsSwapped(cmp, s, a[..], lo, hi, left', right', mid, mid');
      left', right' := left' + 1, right' - 1;
    } else if left' == right' {
      WallsMet(cmp, a[..], lo, hi, left', mid);
      left', right', met := left' + 1, right' - 1, true;
    }
  }

  /**
   Median of three and the collapsing walls: afterwards every element up to
   right may stand before every element from left on, and the one element
   between them, if any, may stand between them.
   */
  method Partition<T(!new)>(a: array<T>, lo: nat, hi: nat, cmp: (T, T) -> int)
    returns (left: nat, right: nat, ghost mid: nat)
    requires Preorder(cmp) && lo + MAX_THRESH <= hi < a.Length
    modifies a
    ensures Rearranged(old(a[..]), a[..], lo, hi)
    ensures lo <= right < left <= hi && left <= right + 2
    ensures Walls(cmp, a[..], lo, hi, left, right, mid)
  {
    hide Rearranged, Preorder, Le;
    ghost var s := a[..];
    var m := MedianOfThree(a, lo, hi, cmp);
    left, right := lo + 1, hi - 1;
    var met := false;
    while left <= right && !met
      invariant Walls(cmp, a[..], lo, hi, left, right, m) && Rearranged(s, a[..], lo, hi) && (met ==> left > right)
      decreases right + 2 - left
    {
      ghost var t := a[..];
      left, right, m, met := Collapse(a, lo, hi, left, right, m, cmp);
      RearrangedTwice(s, t, a[..], lo, hi);
    }
    mid := m;
  }

  // ----- Blocks -----

  datatype Seg = Seg(lo: nat, hi: nat)

  /** Every index carries the first index of its block. */
  ghost predicate Roots(blk: seq<int>)
  {
    forall i :: 0 <= i < |blk| ==> 0 <= blk[i] <= i && blk[blk[i]] == blk[i]
  }

  /** Elements of different blocks are in order. */
  ghost predicate Blocks<T>(cmp: (T, T) -> int, s: seq<T>, blk: seq<int>)
  {
    && |blk| == |s| && Roots(blk)
    && forall i, j :: 0 <= i < j < |s| && blk[i] != blk[j] ==> Le(cmp, s[i], s[j])
  }

  /** The segment is exactly one block. */
  ghost predicate IsBlock(blk: seq<int>, g: Seg)
  {
    g.lo <= g.hi < |blk| && forall i :: 0 <= i < |blk| ==> (g.lo <= i <= g.hi <==> blk[i] == g.lo)
  }

  ghost predicate HasId(pend: seq<Seg>, b: int)
  {
    exists k :: 0 <= k < |pend| && pend[k].lo == b
  }

  /** The pending segments are distinct blocks; every other block is small. */
  ghost predicate Pending(blk: seq<int>, pend: seq<Seg>)
  {
    && (forall k :: 0 <= k < |pend| ==> IsBlock(blk, pend[k]))
    && (forall k, m :: 0 <= k < m < |pend| ==> pend[k].lo != pend[m].lo)
    && (forall i, j :: 0 <= i < j < |blk| && blk[i] == blk[j] ==> j - i <= MAX_THRESH || HasId(pend, blk[i]))
  }

  /** The blocks after the block [lo, hi] was split at right and left. */
  ghost function Split(blk: seq<int>, lo: int, hi: int, left: int, right: int): (r: seq<int>)
    ensures |r| == |blk|
    ensures forall i :: 0 <= i < |blk| ==>
      r[i] == (if lo <= i <= right then lo else if right < i < left then i
               else if left <= i <= hi then left else blk[i])
  {
    seq(|blk|, i requires 0 <= i < |blk| =>
      if lo <= i <= right then lo else if right < i < left then i else if left <= i <= hi then left else blk[i])
  }

  /** No other block has its first index inside [lo, hi]. */
  lemma RootsOutside(blk: seq<int>, g: Seg, i: int)
    requires Roots(blk) && IsBlock(blk, g) && 0 <= i < |blk| && !(g.lo <= i <= g.hi)
    ensures !(g.lo <= blk[i] <= g.hi)
  {
    var b := blk[i];
    assert 0 <= b < |blk| && blk[b] == b;
  }

  lemma SplitRoots(blk: seq<int>, lo: nat, hi: nat, left: nat, right: nat)
    requires Roots(blk) && IsBlock(blk, Seg(lo, hi)) && lo <= right < left <= hi
    ensures Roots(Split(blk, lo, hi, left, right))
  {
    var r := Split(blk, lo, hi, left, right);
    hide Split;
    forall i | 0 <= i < |blk|
      ensures 0 <= r[i] <= i && r[r[i]] == r[i]
    {
      if !(lo <= i <= hi) {
        RootsOutside(blk, Seg(lo, hi), i);
      }
    }
  }

  /** Order between a part of the segment and an element outside it. */
  lemma OutsideOrder<T>(cmp: (T, T) -> int, s: seq<T>, t: seq<T>, blk: seq<int>, lo: nat, hi: nat, i: int, j: int)
    requires Blocks(cmp, s, blk) && IsBlock(blk, Seg(lo, hi)) && Rearranged(s, t, lo, hi)
    requires 0 <= i < j < |s| && (lo <= i <= hi <==> !(lo <= j <= hi))
    ensures Le(cmp, t[i], t[j])
  {
    hide Le;
    if lo <= i <= hi {
      var k := CameFrom(s, t, lo, hi, i);
    } else {
      var k := CameFrom(s, t, lo, hi, j);
    }
  }

  /** Order across the walls. */
  lemma InsideOrder<T(!new)>(cmp: (T, T) -> int, t: seq<T>, lo: nat, hi: nat, left: nat, right: nat, mid: nat, i: int,
                             j: int)
    requires Preorder(cmp) && Walls(cmp, t, lo, hi, left, right, mid) && lo <= i < left && right < j <= hi
    ensures Le(cmp, t[i], t[j])
  {
    hide Le, Preorder;
    Transitive(cmp, t[i], t[mid], t[j]);
  }

  lemma SplitBlocks<T(!new)>(cmp: (T, T) -> int, s: seq<T>, t: seq<T>, blk: seq<int>, lo: nat, hi: nat, left: nat,
                             right: nat, mid: nat)
    requires Preorder(cmp) && Blocks(cmp, s, blk) && IsBlock(blk, Seg(lo, hi)) && Rearranged(s, t, lo, hi)
    requires lo <= right < left <= hi && Walls(cmp, t, lo, hi, left, right, mid)
    ensures Blocks(cmp, t, Split(blk, lo, hi, left, right))
  {
    hide Le, Preorder, Split, Walls, Roots;
    SplitRoots(blk, lo, hi, left, right);
    var r := Split(blk, lo, hi, left, right);
    forall i, j | 0 <= i < j < |s| && r[i] != r[j]
      ensures Le(cmp, t[i], t[j])
    {
      if lo <= i <= hi && lo <= j <= hi {
        InsideOrder(cmp, t, lo, hi, left, right, mid, i, j);
      } else if lo <= i <= hi || lo <= j <= hi {
        OutsideOrder(cmp, s, t, blk, lo, hi, i, j);
      }
    }
  }

  /** The parts of the split segment are blocks; other pending blocks are untouched. */
  lemma SplitParts(blk: seq<int>, lo: nat, hi: nat, left: nat, right: nat)
    requires Roots(blk) && IsBlock(blk, Seg(lo, hi)) && lo <= right < left <= hi
    ensures IsBlock(Split(blk, lo, hi, left, right), Seg(lo, right))
    ensures IsBlock(Split(blk, lo, hi, left, right), Seg(left, hi))
  {
    hide Split;
    forall i | 0 <= i < |blk| && !(lo <= i <= hi)
      ensures !(lo <= blk[i] <= hi)
    {
      RootsOutside(blk, Seg(lo, hi), i);
    }
  }

  lemma OtherBlock(blk: seq<int>, lo: nat, hi: nat, left: nat, right: nat, g: Seg)
    requires Roots(blk) && IsBlock(blk, Seg(lo, hi)) && lo <= right < left <= hi && IsBlock(blk, g) && g.lo != lo
    ensures IsBlock(Split(blk, lo, hi, left, right), g) && !(lo <= g.lo <= hi)
  {
    hide Split, Roots;
    assert blk[g.lo] == g.lo && blk[lo] == lo;
    var r := Split(blk, lo, hi, left, right);
    forall i | 0 <= i < |blk|
      ensures g.lo <= i <= g.hi <==> r[i] == g.lo
    {
      assert lo <= i <= hi <==> blk[i] == lo;
    }
  }

  // ----- Stack depth -----

  /** x doubled d times. */
  function Scale(x: nat, d: nat): nat
  {
    if d == 0 then x else Scale(x, d - 1) + Scale(x, d - 1)
  }

  lemma {:induction false} ScaleGrows(x: nat, y: nat, d: nat)
    requires x <= y
    ensures Scale(x, d) <= Scale(y, d)
  {
    if d > 0 {
      ScaleGrows(x, y, d - 1);
    }
  }

  lemma {:induction false} ScaleTwice(x: nat, d: nat)
    ensures Scale(x + x, d) == Scale(x, d) + Scale(x, d)
  {
    if d > 0 {
      ScaleTwice(x, d - 1);
    }
  }

  /** The smaller of two parts doubles once more within the same bound. */
  lemma ScaleHalf(x: nat, y: nat, d: nat)
    requires x + x <= y
    ensures Scale(x, d + 1) <= Scale(y, d)
  {
    ScaleTwice(x, d);
    ScaleGrows(x + x, y, d);
  }

  lemma {:induction false} ScaleDeeper(x: nat, d: nat, e: nat)
    requires d <= e
    ensures Scale(x, d) <= Scale(x, e)
  {
    if d < e {
      ScaleDeeper(x, d, e - 1);
    }
  }

  lemma ScaleTen(x: nat, d: nat)
    ensures Scale(x, d + 10) == 1024 * Scale(x, d)
  {
    assert Scale(x, d + 2) == 4 * Scale(x, d);
    assert Scale(x, d + 4) == 4 * Scale(x, d + 2);
    assert Scale(x, d + 6) == 4 * Scale(x, d + 4);
    assert Scale(x, d + 8) == 4 * Scale(x, d + 6);
    assert Scale(x, d + 10) == 4 * Scale(x, d + 8);
  }

  lemma FiveThirty()
    ensures Scale(5, 30) >= WORD_LIMIT
  {
    hide Scale;
    ScaleTen(5, 0);
    ScaleTen(5, 10);
    ScaleTen(5, 20);
    ScaleZero(5);
  }

  lemma ScaleZero(x: nat)
    ensures Scale(x, 0) == x
  {
  }

  /** A segment of five elements cannot lie thirty pushes deep. */
  lemma DepthBound(x: nat, d: nat, n: nat)
    requires 5 <= x && Scale(x, d) <= n < WORD_LIMIT
    ensures d < 30
  {
    hide Scale;
    FiveThirty();
    ScaleGrows(5, x, d);
    if d >= 30 {
      ScaleDeeper(5, 30, d);
    }
  }

  // ----- The state of the quicksort phase -----

  /** Pending segment k has been halved k times, and is worth splitting. */
  ghost predicate Sized(pend: seq<Seg>, n: nat)
  {
    forall k :: 0 <= k < |pend| ==> pend[k].lo + MAX_THRESH <= pend[k].hi && Scale(pend[k].hi - pend[k].lo + 1, k) <= n
  }

  /** The work left: it shrinks with every split. */
  ghost function Work(pend: seq<Seg>): nat
  {
    if pend == [] then 0 else Work(pend[..|pend| - 1]) + Steps(pend[|pend| - 1])
  }

  ghost function Steps(g: Seg): nat
  {
    if g.lo <= g.hi then g.hi - g.lo else 0
  }

  ghost predicate State<T>(cmp: (T, T) -> int, s: seq<T>, blk: seq<int>, pend: seq<Seg>)
  {
    Blocks(cmp, s, blk) && Pending(blk, pend) && Sized(pend, |s|)
  }

  /** The last pending segment g is replaced by parts of it, as the code chooses. */
  ghost function Replaced(pend: seq<Seg>, left: nat, right: nat): seq<Seg>
    requires pend != []
  {
    var d := |pend| - 1;
    var l, r := Seg(pend[d].lo, right), Seg(left, pend[d].hi);
    if right <= pend[d].lo + MAX_THRESH then
      if pend[d].hi <= left + MAX_THRESH then pend[..d] else pend[d := r]
    else if pend[d].hi <= left + MAX_THRESH then pend[d := l]
    else if right - pend[d].lo > pend[d].hi - left then pend[d := l] + [r]
    else pend[d := r] + [l]
  }

  lemma ReplacedIds(pend: seq<Seg>, left: nat, right: nat, b: int)
    requires pend != []
    ensures var g := pend[|pend| - 1];
      HasId(Replaced(pend, left, right), b) <==>
      || (exists k :: 0 <= k < |pend| - 1 && pend[k].lo == b)
      || (b == g.lo && right > g.lo + MAX_THRESH)
      || (b == left && g.hi > left + MAX_THRESH)
  {
    var d := |pend| - 1;
    var g := pend[d];
    var p := Replaced(pend, left, right);
    if HasId(p, b) {
      var k :| 0 <= k < |p| && p[k].lo == b;
      assert k < d ==> pend[k].lo == b;
    }
    if k :| 0 <= k < d && pend[k].lo == b {
      assert p[k].lo == b;
    }
    if b == g.lo && right > g.lo + MAX_THRESH {
      assert p[d].lo == b || p[d + 1].lo == b;
    }
    if b == left && g.hi > left + MAX_THRESH {
      assert p[d].lo == b || p[d + 1].lo == b;
    }
  }

  /** The new pending segments are distinct blocks. */
  lemma ReplacedBlocks(blk: seq<int>, pend: seq<Seg>, left: nat, right: nat)
    requires pend != [] && Roots(blk) && Pending(blk, pend)
    requires pend[|pend| - 1].lo <= right < left <= pend[|pend| - 1].hi
    ensures var g := pend[|pend| - 1]; var p := Replaced(pend, left, right);
      && (forall k :: 0 <= k < |p| ==> IsBlock(Split(blk, g.lo, g.hi, left, right), p[k]))
      && (forall k, m :: 0 <= k < m < |p| ==> p[k].lo != p[m].lo)
  {
    hide Split, Roots, IsBlock, HasId;
    var d := |pend| - 1;
    var g := pend[d];
    SplitParts(blk, g.lo, g.hi, left, right);
    forall k | 0 <= k < d
      ensures IsBlock(Split(blk, g.lo, g.hi, left, right), pend[k]) && !(g.lo <= pend[k].lo <= g.hi)
    {
      OtherBlock(blk, g.lo, g.hi, left, right, pend[k]);
    }
  }

  /** Every block that is no longer pending is small. */
  lemma ReplacedSmall(blk: seq<int>, pend: seq<Seg>, left: nat, right: nat, i: int, j: int)
    requires pend != [] && Roots(blk) && Pending(blk, pend)
    requires pend[|pend| - 1].lo <= right < left <= pend[|pend| - 1].hi && 0 <= i < j < |blk|
    ensures var g := pend[|pend| - 1]; var r := Split(blk, g.lo, g.hi, left, right);
      r[i] == r[j] ==> j - i <= MAX_THRESH || HasId(Replaced(pend, left, right), r[i])
  {
    hide Split, Roots, Replaced;
    var g := pend[|pend| - 1];
    var r := Split(blk, g.lo, g.hi, left, right);
    assert IsBlock(blk, g);
    ReplacedIds(pend, left, right, r[i]);
    if !(g.lo <= j <= g.hi) {
      RootsOutside(blk, g, j);
    }
    if !(g.lo <= i <= g.hi) {
      RootsOutside(blk, g, i);
      if !(g.lo <= j <= g.hi) && r[i] == r[j] && HasId(pend, blk[i]) {
        var k :| 0 <= k < |pend| && pend[k].lo == blk[i];
        assert k < |pend| - 1;
      }
    }
  }

  lemma ReplacedPending(blk: seq<int>, pend: seq<Seg>, left: nat, right: nat)
    requires pend != [] && Roots(blk) && Pending(blk, pend)
    requires pend[|pend| - 1].lo <= right < left <= pend[|pend| - 1].hi
    ensures Pending(Split(blk, pend[|pend| - 1].lo, pend[|pend| - 1].hi, left, right), Replaced(pend, left, right))
  {
    hide Split, Roots, Replaced, IsBlock, HasId;
    var g := pend[|pend| - 1];
    var r := Split(blk, g.lo, g.hi, left, right);
    ReplacedBlocks(blk, pend, left, right);
    forall i, j | 0 <= i < j < |blk| && r[i] == r[j]
      ensures j - i <= MAX_THRESH || HasId(Replaced(pend, left, right), r[i])
    {
      ReplacedSmall(blk, pend, left, right, i, j);
    }
  }

  lemma ReplacedSized(pend: seq<Seg>, left: nat, right: nat, n: nat)
    requires pend != [] && Sized(pend, n)
    requires pend[|pend| - 1].lo <= right < left <= pend[|pend| - 1].hi
    ensures Sized(Replaced(pend, left, right), n)
  {
    hide Scale;
    var d := |pend| - 1;
    var g := pend[d];
    var l, r, x := right - g.lo + 1, g.hi - left + 1, g.hi - g.lo + 1;
    ScaleGrows(l, x, d);
    ScaleGrows(r, x, d);
    if l > r {
      ScaleHalf(r, x, d);
    } else {
      ScaleHalf(l, x, d);
    }
  }

  lemma WorkLast(pend: seq<Seg>, g: Seg)
    ensures Work(pend + [g]) == Work(pend) + Steps(g)
  {
    assert (pend + [g])[..|pend|] == pend;
  }

  lemma WorkReplace(pend: seq<Seg>, g: Seg)
    requires pend != []
    ensures Work(pend[|pend| - 1 := g]) == Work(pend[..|pend| - 1]) + Steps(g)
    ensures Work(pend) == Work(pend[..|pend| - 1]) + Steps(pend[|pend| - 1])
  {
    var d := |pend| - 1;
    assert pend[d := g][..d] == pend[..d];
  }

  /** Every split leaves less work. */
  lemma ReplacedWork(pend: seq<Seg>, left: nat, right: nat, n: nat)
    requires pend != [] && Sized(pend, n)
    requires pend[|pend| - 1].lo <= right < left <= pend[|pend| - 1].hi
    ensures Work(Replaced(pend, left, right)) < Work(pend)
  {
    hide Work, Scale;
    var d := |pend| - 1;
    var l, r := Seg(pend[d].lo, right), Seg(left, pend[d].hi);
    WorkReplace(pend, l);
    WorkReplace(pend, r);
    WorkLast(pend[d := l], r);
    WorkLast(pend[d := r], l);
  }

  /** One split of the last pending segment. */
  lemma StateStep<T(!new)>(cmp: (T, T) -> int, s: seq<T>, t: seq<T>, blk: seq<int>, pend: seq<Seg>, left: nat,
                           right: nat, mid: nat)
    requires Preorder(cmp) && State(cmp, s, blk, pend) && pend != []
    requires var g := pend[|pend| - 1];
      Rearranged(s, t, g.lo, g.hi) && g.lo <= right < left <= g.hi && Walls(cmp, t, g.lo, g.hi, left, right, mid)
    ensures State(cmp, t, Split(blk, pend[|pend| - 1].lo, pend[|pend| - 1].hi, left, right),
                  Replaced(pend, left, right))
  {
    hide Preorder, Walls, Replaced, Split, Roots, IsBlock, Sized;
    var g := pend[|pend| - 1];
    SplitBlocks(cmp, s, t, blk, g.lo, g.hi, left, right, mid);
    ReplacedPending(blk, pend, left, right);
    ReplacedSized(pend, left, right, |s|);
  }

  /** The array is one pending block to begin with. */
  lemma StateBegins<T>(cmp: (T, T) -> int, s: seq<T>)
    requires |s| > MAX_THRESH
    ensures State(cmp, s, seq(|s|, i => 0), [Seg(0, |s| - 1)])
  {
    hide Le;
    var blk := seq(|s|, i => 0);
    forall i | 0 <= i < |s|
      ensures blk[i] == 0
    {
    }
    assert [Seg(0, |s| - 1)][0].lo == 0;
    ScaleZero(|s|);
  }

  /** Elements more than a threshold apart are in order. */
  ghost predicate NearlySorted<T>(cmp: (T, T) -> int, s: seq<T>)
  {
    forall i, j :: 0 <= i && i + MAX_THRESH < j < |s| ==> Le(cmp, s[i], s[j])
  }

  lemma StateEnds<T>(cmp: (T, T) -> int, s: seq<T>, blk: seq<int>)
    requires State(cmp, s, blk, [])
    ensures NearlySorted(cmp, s)
  {
    hide Le, Roots;
  }

  // ----- The quicksort phase -----

  /** The stack holds a sentinel and, above it, all pending segments but the current one. */
  ghost predicate Stacked(stack: seq<Seg>, top: nat, pend: seq<Seg>)
  {
    |stack| == STACK_SIZE && top == |pend| <= STACK_SIZE && forall k :: 0 <= k < |pend| - 1 ==> stack[k + 1] == pend[k]
  }

  lemma Shallow(pend: seq<Seg>, n: nat)
    requires Sized(pend, n) && n < WORD_LIMIT
    ensures |pend| <= 30
  {
    hide Scale;
    if pend != [] {
      var d := |pend| - 1;
      DepthBound(pend[d].hi - pend[d].lo + 1, d, n);
    }
  }

  /** The choice of the next segment: small parts are dropped, of two large ones the larger is pushed. */
  method Next(stack: array<Seg>, top: nat, lo: nat, hi: nat, left: nat, right: nat, ghost pend: seq<Seg>)
    returns (top': nat, lo': nat, hi': nat)
    requires stack.Length == STACK_SIZE && 0 < top <= 30 && Stacked(stack[..], top, pend)
    requires pend[top - 1] == Seg(lo, hi)
    requires lo <= right < left <= hi
    modifies stack
    ensures Stacked(stack[..], top', Replaced(pend, left, right))
    ensures top' > 0 ==> Replaced(pend, left, right)[top' - 1] == Seg(lo', hi')
  {
    top', lo', hi' := top, lo, hi;
    if right - lo <= MAX_THRESH {
      if hi - left <= MAX_THRESH {
        top' := top - 1;
        lo', hi' := stack[top'].lo, stack[top'].hi;
      } else {
        lo' := left;
      }
    } else if hi - left <= MAX_THRESH {
      hi' := right;
    } else if right - lo > hi - left {
      stack[top] := Seg(lo, right);
      top' := top + 1;
      lo' := left;
    } else {
      stack[top] := Seg(left, hi);
      top' := top + 1;
      hi' := right;
    }
  }

  lemma StateSized<T>(cmp: (T, T) -> int, s: seq<T>, blk: seq<int>, pend: seq<Seg>)
    requires State(cmp, s, blk, pend) && |s| < WORD_LIMIT
    ensures |pend| <= 30 && Sized(pend, |s|)
    ensures pend != [] ==> pend[|pend| - 1].lo + MAX_THRESH <= pend[|pend| - 1].hi < |s|
  {
    hide Scale, Le;
    Shallow(pend, |s|);
  }

  lemma SameElements<T>(s: seq<T>, t: seq<T>, lo: int, hi: int)
    requires Rearranged(s, t, lo, hi)
    ensures multiset(t) == multiset(s) && |t| == |s|
  {
  }

  /**
   The quicksort phase: it terminates, never overruns its stack, and leaves
   elements more than a threshold apart in order.
   */
  method QuickPhase<T(!new)>(a: array<T>, cmp: (T, T) -> int)
    requires Preorder(cmp) && MAX_THRESH < a.Length < WORD_LIMIT
    modifies a
    ensures multiset(a[..]) == multiset(old(a[..])) && NearlySorted(cmp, a[..])
  {
    hide *;
    ghost var s0 := a[..];
    var lo: nat, hi: nat := 0, a.Length - 1;
    var stack := new Seg[STACK_SIZE](i => Seg(0, 0));
    var top: nat := 1;
    ghost var blk, pend := seq(a.Length, i => 0), [Seg(lo, hi)];
    StateBegins(cmp, a[..]);
    StateSized(cmp, a[..], blk, pend);
    StackBegins(stack[..], pend);
    while top > 0
      invariant State(cmp, a[..], blk, pend) && multiset(a[..]) == multiset(s0)
      invariant Stacked(stack[..], top, pend) && |pend| == top && (top > 0 ==> pend[top - 1] == Seg(lo, hi))
      invariant Sized(pend, a.Length)
      decreases Work(pend)
    {
      ghost var s := a[..];
      StateSized(cmp, s, blk, pend);
      var left, right;
      ghost var mid;
      left, right, mid := Partition(a, lo, hi, cmp);
      StateStep(cmp, s, a[..], blk, pend, left, right, mid);
      SameElements(s, a[..], lo, hi);
      ghost var blk', pend' := Split(blk, lo, hi, left, right), Replaced(pend, left, right);
      StateSized(cmp, a[..], blk', pend');
      ReplacedWork(pend, left, right, a.Length);
      top, lo, hi := Next(stack, top, lo, hi, left, right, pend);
      StackTop(stack[..], top, pend');
      blk, pend := blk', pend';
    }
    StateEnds(cmp, a[..], blk);
  }

  lemma StackBegins(stack: seq<Seg>, pend: seq<Seg>)
    requires |stack| == STACK_SIZE && |pend| == 1
    ensures Stacked(stack, 1, pend)
  {
  }

  lemma StackTop(stack: seq<Seg>, top: nat, pend: seq<Seg>)
    requires Stacked(stack, top, pend)
    ensures top == |pend|
  {
  }

  // ----- The insertion pass -----

  ghost predicate SortedTo<T>(cmp: (T, T) -> int, s: seq<T>, n: int)
    requires n <= |s|
  {
    forall i, j :: 0 <= i < j < n ==> Le(cmp, s[i], s[j])
  }

  /** The element at r moved down to p, those between moved up by one. */
  function Rotated<T>(s: seq<T>, p: nat, r: nat): (t: seq<T>)
    requires p <= r < |s|
    ensures |t| == |s|
    ensures forall k :: 0 <= k < |s| ==> t[k] == (if k == p then s[r] else if p < k <= r then s[k - 1] else s[k])
  {
    seq(|s|, k requires 0 <= k < |s| => if k == p then s[r] else if p < k <= r then s[k - 1] else s[k])
  }

  lemma NotRotated<T>(s: seq<T>, r: nat)
    requires r < |s|
    ensures Rotated(s, r, r) == s
  {
  }

  /** A rotation is a swap of the last two elements followed by a shorter rotation. */
  lemma RotatedStep<T>(s: seq<T>, p: nat, r: nat)
    requires p < r < |s|
    ensures Rotated(Swapped(s, r - 1, r), p, r - 1) == Rotated(s, p, r)
  {
    var t := Swapped(s, r - 1, r);
    var x, y := Rotated(t, p, r - 1), Rotated(s, p, r);
    forall k | 0 <= k < |s|
      ensures x[k] == y[k]
    {
    }
  }

  lemma {:induction false} RotatedRearranges<T>(s: seq<T>, p: nat, r: nat)
    requires p <= r < |s|
    ensures Rearranged(s, Rotated(s, p, r), p, r)
    decreases r - p
  {
    hide Rearranged, Rotated;
    if p == r {
      NotRotated(s, r);
      NoneMoved(s, p, r);
    } else {
      var t := Swapped(s, r - 1, r);
      SwapRearranges(s, r - 1, r, p, r);
      RotatedRearranges(t, p, r - 1);
      RearrangedWider(t, Rotated(t, p, r - 1), p, r - 1, p, r);
      RotatedStep(s, p, r);
      RearrangedTwice(s, t, Rotated(s, p, r), p, r);
    }
  }

  /** Shifting by one place, as the pass does for every byte of the elements. */
  method Rotate<T>(a: array<T>, p: nat, r: nat)
    requires p <= r < a.Length
    modifies a
    ensures a[..] == Rotated(old(a[..]), p, r)
  {
    var x := a[r];
    var k := r;
    while k > p
      invariant p <= k <= r
      invariant forall i :: 0 <= i < a.Length ==> a[i] == (if k < i <= r then old(a[i - 1]) else old(a[i]))
    {
      a[k] := a[k - 1];
      k := k - 1;
    }
    a[p] := x;
  }

  /** The first index of [0, last] whose element may stand before all of them. */
  method SmallestFirst<T(!new)>(a: array<T>, last: nat, cmp: (T, T) -> int) returns (m: nat)
    requires Preorder(cmp) && last < a.Length
    ensures m <= last && LeAll(cmp, a[m], a[..], 0, last + 1)
  {
    hide Preorder, Le;
    m := 0;
    Total(cmp, a[0], a[0]);
    var run := 1;
    while run <= last
      invariant 1 <= run <= last + 1 && m <= last && LeAll(cmp, a[m], a[..], 0, run)
    {
      Total(cmp, a[m], a[run]);
      if Less(cmp, a[run], a[m]) {
        NewSmallest(cmp, a[..], m, run);
        m := run;
      }
      run := run + 1;
    }
  }

  /** The outcome of a comparison, as the pass tests it. */
  predicate Less<T>(cmp: (T, T) -> int, x: T, y: T)
    ensures Less(cmp, x, y) <==> !Le(cmp, y, x)
  {
    cmp(x, y) < 0
  }

  lemma NewSmallest<T(!new)>(cmp: (T, T) -> int, s: seq<T>, m: nat, run: nat)
    requires Preorder(cmp) && m < |s| && run < |s| && LeAll(cmp, s[m], s, 0, run) && Less(cmp, s[run], s[m])
    ensures LeAll(cmp, s[run], s, 0, run) && Le(cmp, s[run], s[run])
  {
    hide Preorder, Le, Less;
    Total(cmp, s[run], s[m]);
    Total(cmp, s[run], s[run]);
    forall i | 0 <= i < run
      ensures Le(cmp, s[run], s[i])
    {
      Transitive(cmp, s[run], s[m], s[i]);
    }
  }

  /** The smallest of the first elements is the smallest of all. */
  lemma SmallestOfAll<T(!new)>(cmp: (T, T) -> int, s: seq<T>, m: nat, last: nat)
    requires Preorder(cmp) && NearlySorted(cmp, s) && m <= last < |s| && LeAll(cmp, s[m], s, 0, last + 1)
    requires last == |s| - 1 || last == MAX_THRESH
    ensures LeAll(cmp, s[m], s, 0, |s|)
  {
    hide Preorder, Le;
    forall j | last < j < |s|
      ensures Le(cmp, s[m], s[j])
    {
      Transitive(cmp, s[m], s[0], s[j]);
    }
  }

  /** The place of element run among the sorted elements before it; the smallest element stops the scan. */
  method FindPlace<T(!new)>(a: array<T>, run: nat, cmp: (T, T) -> int) returns (p: nat)
    requires Preorder(cmp) && 0 < run < a.Length && Le(cmp, a[0], a[run]) && SortedTo(cmp, a[..], run)
    ensures 0 < p <= run && Le(cmp, a[p - 1], a[run]) && LeAll(cmp, a[run], a[..], p, run)
  {
    hide Preorder, Le;
    var tmp := run - 1;
    while Less(cmp, a[run], a[tmp])
      invariant 0 <= tmp < run && LeAll(cmp, a[run], a[..], tmp + 1, run)
      decreases tmp
    {
      Total(cmp, a[run], a[tmp]);
      tmp := tmp - 1;
    }
    p := tmp + 1;
  }

  /** Moving an element to its place keeps the prefix sorted. */
  lemma Inserted<T(!new)>(cmp: (T, T) -> int, s: seq<T>, p: nat, run: nat)
    requires Preorder(cmp) && 0 < p <= run < |s| && SortedTo(cmp, s, run)
    requires Le(cmp, s[p - 1], s[run]) && LeAll(cmp, s[run], s, p, run)
    ensures SortedTo(cmp, Rotated(s, p, run), run + 1) && Rotated(s, p, run)[0] == s[0]
  {
    hide Preorder, Le;
    var t := Rotated(s, p, run);
    forall i | 0 <= i < p
      ensures Le(cmp, s[i], s[run])
    {
      if i < p - 1 {
        Transitive(cmp, s[i], s[p - 1], s[run]);
      }
    }
  }

  lemma SmallestStays<T>(cmp: (T, T) -> int, s: seq<T>, t: seq<T>, lo: int, hi: int)
    requires Rearranged(s, t, lo, hi) && 0 < |s| && LeAll(cmp, s[0], s, 0, |s|)
    ensures LeAll(cmp, s[0], t, 0, |t|)
  {
    hide Le;
    forall j | 0 <= j < |t|
      ensures Le(cmp, s[0], t[j])
    {
      if lo <= j <= hi {
        var k := CameFrom(s, t, lo, hi, j);
      }
    }
  }

  /** One step of the insertion pass. */
  method Insert<T(!new)>(a: array<T>, run: nat, cmp: (T, T) -> int)
    requires Preorder(cmp) && 0 < run < a.Length && LeAll(cmp, a[0], a[..], 0, a.Length) && SortedTo(cmp, a[..], run)
    modifies a
    ensures multiset(a[..]) == multiset(old(a[..]))
    ensures LeAll(cmp, a[0], a[..], 0, a.Length) && SortedTo(cmp, a[..], run + 1)
  {
    hide *;
    ghost var s := a[..];
    SmallestAt(cmp, s, run);
    var p := FindPlace(a, run, cmp);
    Inserted(cmp, s, p, run);
    RotatedRearranges(s, p, run);
    SmallestStays(cmp, s, Rotated(s, p, run), p, run);
    SameElements(s, Rotated(s, p, run), p, run);
    if p != run {
      Rotate(a, p, run);
    } else {
      NotRotated(s, run);
    }
  }

  method InsertPhase<T(!new)>(a: array<T>, cmp: (T, T) -> int)
    requires Preorder(cmp) && 0 < a.Length && NearlySorted(cmp, a[..])
    modifies a
    ensures multiset(a[..]) == multiset(old(a[..])) && Sorted(cmp, a[..])
  {
    hide Preorder, Le, LeAll, SortedTo, NearlySorted, Sorted, Swapped;
    ghost var s0 := a[..];
    var last := if a.Length - 1 < MAX_THRESH then a.Length - 1 else MAX_THRESH;
    var m := SmallestFirst(a, last, cmp);
    SmallestOfAll(cmp, s0, m, last);
    if m != 0 {
      Swap(a, m, 0);
    }
    AfterSwap(cmp, s0, m, a[..]);
    var run := 2;
    while run < a.Length
      invariant 2 <= run && multiset(a[..]) == multiset(s0) && LeAll(cmp, a[0], a[..], 0, a.Length)
      invariant SortedTo(cmp, a[..], if run < a.Length then run else a.Length)
    {
      Insert(a, run, cmp);
      run := run + 1;
    }
    SortedAll(cmp, a[..]);
  }

  lemma AfterSwap<T(!new)>(cmp: (T, T) -> int, s: seq<T>, m: nat, t: seq<T>)
    requires 0 < |s| && m < |s| && LeAll(cmp, s[m], s, 0, |s|) && t == (if m != 0 then Swapped(s, m, 0) else s)
    ensures multiset(t) == multiset(s) && LeAll(cmp, t[0], t, 0, |t|) && SortedTo(cmp, t, if 2 < |t| then 2 else |t|)
  {
    hide Le;
  }

  lemma SmallestAt<T>(cmp: (T, T) -> int, s: seq<T>, i: nat)
    requires i < |s| && LeAll(cmp, s[0], s, 0, |s|)
    ensures Le(cmp, s[0], s[i])
  {
    hide Le;
  }

  lemma SortedAll<T>(cmp: (T, T) -> int, s: seq<T>)
    requires SortedTo(cmp, s, |s|)
    ensures Sorted(cmp, s)
  {
    hide Le;
  }

  /** qsort: for every length that fits in size_t and every total preorder, a sorted permutation. */
  method Sort<T(!new)>(a: array<T>, cmp: (T, T) -> int)
    requires Preorder(cmp) && a.Length < WORD_LIMIT
    modifies a
    ensures Sorted(cmp, a[..]) && multiset(a[..]) == multiset(old(a[..]))
  {
    hide Preorder, Le;
    if a.Length == 0 {
      return;
    }
    if a.Length > MAX_THRESH {
      QuickPhase(a, cmp);
    }
    InsertPhase(a, cmp);
  }
}
