/**
 Disk blocks as bytes, their view as little-endian 32-bit words, and the
 pointer tree that a word denotes on a given disk.
 */
module Ext2Disk {
  import opened Bytes
  import opened Radix
  import opened Ext2Tree

  type Block = seq<byte>
  type Disk = seq<Block>

  // ----- Words of a block -----

  function Decode(b: Block): (ws: seq<nat>)
    ensures |ws| == |b| / 4
  {
    if |b| < 4 then [] else Decode(b[..|b| - 4]) + [WordAt(b, |b| - 4)]
  }

  predicate AllWords(ws: seq<nat>)
  {
    forall i :: 0 <= i < |ws| ==> ws[i] < WORD_LIMIT
  }

  function Encode(ws: seq<nat>): (b: Block)
    ensures |b| == 4 * |ws|
  {
    if ws == [] then [] else Encode(ws[..|ws| - 1]) + WordBytes(ws[|ws| - 1])
  }

  lemma {:induction false} DecodeBounded(b: Block)
    ensures AllWords(Decode(b))
  {
    if |b| >= 4 {
      DecodeBounded(b[..|b| - 4]);
    }
  }

  lemma DecodeAppend(b: Block, w: Block)
    requires |w| == 4
    ensures Decode(b + w) == Decode(b) + [WordAt(w, 0)]
  {
    assert (b + w)[..|b + w| - 4] == b;
    WordAppend(b, w);
  }

  lemma WordAppend(b: Block, w: Block)
    requires |w| == 4
    ensures WordAt(b + w, |b|) == WordAt(w, 0)
  {
  }

  lemma {:induction false} DecodeEncode(ws: seq<nat>)
    requires AllWords(ws)
    ensures Decode(Encode(ws)) == ws
  {
    if ws != [] {
      var n := |ws| - 1;
      DecodeEncode(ws[..n]);
      WordRoundTrip(ws[n]);
      DecodeAppend(Encode(ws[..n]), WordBytes(ws[n]));
    }
  }

  predicate AllZero(s: seq<nat>)
  {
    s == [] || (AllZero(s[..|s| - 1]) && s[|s| - 1] == 0)
  }

  lemma {:induction false} AllZeroMeans(s: seq<nat>)
    ensures AllZero(s) <==> forall i :: 0 <= i < |s| ==> s[i] == 0
  {
    if s != [] {
      AllZeroMeans(s[..|s| - 1]);
    }
  }

  /** A block is all zero bytes exactly when all its words are 0. */
  lemma {:induction false} ZeroBlock(b: Block)
    requires |b| % 4 == 0
    ensures AllZero(b) <==> AllZero(Decode(b))
  {
    if b != [] {
      var n := |b| - 4;
      ZeroBlock(b[..n]);
      FourBytes(b, n);
      assert Decode(b)[..|Decode(b)| - 1] == Decode(b[..n]);
    }
  }

  lemma FourBytes(b: Block, n: nat)
    requires |b| == n + 4
    ensures AllZero(b) <==> AllZero(b[..n]) && WordAt(b, n) == 0
  {
    assert b[..n + 3][..n + 2] == b[..n + 2];
    assert b[..n + 2][..n + 1] == b[..n + 1];
    assert b[..n + 1][..n] == b[..n];
    assert AllZero(b) <==> AllZero(b[..n + 3]) && b[n + 3] == 0;
    assert AllZero(b[..n + 3]) <==> AllZero(b[..n + 2]) && b[n + 2] == 0;
    assert AllZero(b[..n + 2]) <==> AllZero(b[..n + 1]) && b[n + 1] == 0;
  }

  // ----- Trees on disk -----

  /** The tree that pointer p denotes at the given level. */
  function TreeOf(d: Disk, a: nat, level: nat, p: nat): Tree
    decreases level, 0
  {
    if p == 0 then Hole
    else if level == 0 then Data(p)
    else if p < |d| && |d[p]| == 4 * a then Ind(p, TreesOf(d, a, level - 1, Decode(d[p])))
    else Ind(p, [])
  }

  function TreesOf(d: Disk, a: nat, level: nat, ps: seq<nat>): (ts: seq<Tree>)
    ensures |ts| == |ps|
    decreases level, 1 + |ps|
  {
    if ps == [] then []
    else TreesOf(d, a, level, ps[..|ps| - 1]) + [TreeOf(d, a, level, ps[|ps| - 1])]
  }

  lemma {:induction false} TreesAt(d: Disk, a: nat, level: nat, ps: seq<nat>, i: nat)
    requires i < |ps|
    ensures TreesOf(d, a, level, ps)[i] == TreeOf(d, a, level, ps[i])
  {
    if i < |ps| - 1 {
      TreesAt(d, a, level, ps[..|ps| - 1], i);
    }
  }

  /** Both disks hold the same block b. */
  predicate SameAt(d: Disk, d': Disk, b: nat)
  {
    b < |d| && b < |d'| && d[b] == d'[b]
  }

  predicate SameOn(d: Disk, d': Disk, s: set<nat>)
  {
    forall b :: b in s ==> SameAt(d, d', b)
  }

  /** A tree depends only on its indirect blocks. */
  lemma {:induction false} TreeFrame(d: Disk, d': Disk, a: nat, level: nat, p: nat)
    requires SameOn(d, d', Meta(TreeOf(d, a, level, p)))
    ensures TreeOf(d', a, level, p) == TreeOf(d, a, level, p)
    decreases level, 0
  {
    hide TreesOf, Decode;
    if p != 0 && level > 0 {
      assert SameAt(d, d', p);
      if |d[p]| == 4 * a {
        TreesFrame(d, d', a, level - 1, Decode(d[p]));
      }
    }
  }

  lemma {:induction false} TreesFrame(d: Disk, d': Disk, a: nat, level: nat, ps: seq<nat>)
    requires SameOn(d, d', MetaAll(TreesOf(d, a, level, ps)))
    ensures TreesOf(d', a, level, ps) == TreesOf(d, a, level, ps)
    decreases level, 1 + |ps|
  {
    if ps != [] {
      var n := |ps| - 1;
      var ts := TreesOf(d, a, level, ps);
      assert ts[..n] == TreesOf(d, a, level, ps[..n]);
      TreesFrame(d, d', a, level, ps[..n]);
      TreeFrame(d, d', a, level, ps[n]);
    }
  }

  /** The root block of a tree is the pointer that denotes it. */
  lemma TreeRoot(d: Disk, a: nat, level: nat, p: nat)
    ensures TreeOf(d, a, level, p).Hole? <==> p == 0
    ensures p != 0 ==> p in Own(TreeOf(d, a, level, p))
    ensures p != 0 && level > 0 ==> p in Meta(TreeOf(d, a, level, p))
  {
  }
}
