/** The fixed-size array behind the heap's index of headers. */
module SortedArray {

  function InsertAt(s: seq<nat>, pos: nat, x: nat): (r: seq<nat>)
    requires pos <= |s|
    ensures |r| == |s| + 1
    ensures forall k :: 0 <= k < |r| ==> r[k] == (if k < pos then s[k] else if k == pos then x else s[k - 1])
  {
    seq(|s| + 1, k requires 0 <= k < |s| + 1 => if k < pos then s[k] else if k == pos then x else s[k - 1])
  }

  function RemoveAt(s: seq<nat>, i: nat): (r: seq<nat>)
    requires i < |s|
    ensures |r| == |s| - 1
    ensures forall k :: 0 <= k < |r| ==> r[k] == (if k < i then s[k] else s[k + 1])
  {
    seq(|s| - 1, k requires 0 <= k < |s| - 1 => if k < i then s[k] else s[k + 1])
  }

  /** No element twice. */
  ghost predicate Distinct(s: seq<nat>)
  {
    forall i, j :: 0 <= i < j < |s| ==> s[i] != s[j]
  }

  /** Inserting a new element adds it and nothing else; no element appears twice. */
  lemma Inserted(s: seq<nat>, pos: nat, x: nat)
    requires pos <= |s| && Distinct(s) && x !in s
    ensures Distinct(InsertAt(s, pos, x))
    ensures forall y :: y in InsertAt(s, pos, x) <==> y in s || y == x
  {
    var r := InsertAt(s, pos, x);
    assert r[pos] == x;
    forall y | y in s
      ensures y in r
    {
      var k :| 0 <= k < |s| && s[k] == y;
      assert r[if k < pos then k else k + 1] == y;
    }
  }

  /** Removing position i removes its element and nothing else. */
  lemma Removed(s: seq<nat>, i: nat)
    requires i < |s| && Distinct(s)
    ensures Distinct(RemoveAt(s, i))
    ensures forall y :: y in RemoveAt(s, i) <==> y in s && y != s[i]
  {
    var r := RemoveAt(s, i);
    forall y | y in s && y != s[i]
      ensures y in r
    {
      var k :| 0 <= k < |s| && s[k] == y;
      assert r[if k < i then k else k - 1] == y;
    }
  }

  class Index {
    const elems: array<nat>
    var size: nat

    constructor (max: nat)
      ensures fresh(elems) && elems.Length == max && size == 0
    {
      elems := new nat[max](i => 0);
      size := 0;
    }

    ghost predicate Valid()
      reads this
    {
      size <= elems.Length
    }

    function Contents(): seq<nat>
      requires Valid()
      reads this, elems
    {
      elems[..size]
    }

    /** sorted_array_insert; before tells which elements the new one goes after. A spare slot is needed. */
    method Insert(item: nat, before: nat -> bool) returns (ghost pos: nat)
      requires Valid() && size < elems.Length
      modifies this, elems
      ensures Valid() && pos <= old(size) && Contents() == InsertAt(old(Contents()), pos, item)
      ensures pos < old(size) ==> !before(old(elems[pos]))
      ensures forall k :: 0 <= k < pos ==> before(old(elems[k]))
    {
      var i := 0;
      while i < size && before(elems[i])
        invariant i <= size
        invariant forall k :: 0 <= k < i ==> before(elems[k])
      {
        i := i + 1;
      }
      pos := i;
      if i == size {
        elems[size] := item;
        size := size + 1;
      } else {
        var temp := elems[i];
        elems[i] := item;
        while i < size
          invariant pos <= i <= size == old(size) && temp == old(elems[i])
          invariant forall k :: 0 <= k < elems.Length ==>
            elems[k] == (if k == pos then item else if pos < k <= i then old(elems[k - 1]) else old(elems[k]))
        {
          i := i + 1;
          var elem := elems[i];
          elems[i] := temp;
          temp := elem;
        }
        size := size + 1;
      }
    }

    /** sorted_array_remove: it reads one slot past the last element. */
    method Remove(index: nat)
      requires Valid() && index < size < elems.Length
      modifies this, elems
      ensures Valid() && Contents() == RemoveAt(old(Contents()), index)
    {
      var i := index;
      while i < size
        invariant index <= i <= size == old(size)
        invariant forall k :: 0 <= k < elems.Length ==>
          elems[k] == (if index <= k < i then old(elems[k + 1]) else old(elems[k]))
      {
        elems[i] := elems[i + 1];
        i := i + 1;
      }
      size := size - 1;
    }

    /** The position of an element, or the size of the array. */
    method Find(x: nat) returns (i: nat)
      requires Valid()
      ensures i <= size && (i < size ==> elems[i] == x) && (i == size ==> x !in Contents())
    {
      i := 0;
      while i < size
        invariant i <= size && forall k :: 0 <= k < i ==> elems[k] != x
      {
        if elems[i] == x {
          return;
        }
        i := i + 1;
      }
    }
  }
}
