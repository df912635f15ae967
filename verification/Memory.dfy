/** Stretches of bytes: writing a part, and what stays the same. */
module Memory {
  import opened Bytes

  /** A stretch of memory from address 0. */
  type Mem = seq<byte>

  function Put(m: Mem, a: nat, bs: seq<byte>): (r: Mem)
    requires a + |bs| <= |m|
    ensures |r| == |m|
    ensures forall i :: 0 <= i < |m| ==> r[i] == (if a <= i < a + |bs| then bs[i - a] else m[i])
  {
    seq(|m|, i requires 0 <= i < |m| => if a <= i < a + |bs| then bs[i - a] else m[i])
  }

  /** The n bytes from at on. */
  function Part(b: Mem, at: nat, n: nat): (r: seq<byte>)
    requires at + n <= |b|
    ensures |r| == n && forall i :: 0 <= i < n ==> r[i] == b[at + i]
  {
    seq(n, i requires 0 <= i < n => b[at + i])
  }

  /** The bytes of [lo, hi) are the same. */
  predicate Same(m: Mem, m': Mem, lo: nat, hi: nat)
  {
    |m'| == |m| && forall i :: lo <= i < hi && i < |m| ==> m'[i] == m[i]
  }

  /** Only bytes of [lo, hi) have changed. */
  predicate Only(m: Mem, m': Mem, lo: nat, hi: nat)
  {
    |m'| == |m| && forall i :: 0 <= i < |m| && !(lo <= i < hi) ==> m'[i] == m[i]
  }

  lemma OnlyThen(m: Mem, m1: Mem, m2: Mem, lo: nat, hi: nat)
    requires Only(m, m1, lo, hi) && Only(m1, m2, lo, hi)
    ensures Only(m, m2, lo, hi)
  {
  }

  lemma OnlyWider(m: Mem, m': Mem, lo: nat, hi: nat, lo': nat, hi': nat)
    requires Only(m, m', lo, hi) && lo' <= lo && hi <= hi'
    ensures Only(m, m', lo', hi')
  {
  }

  lemma OnlySame(m: Mem, m': Mem, lo: nat, hi: nat, a: nat, b: nat)
    requires Only(m, m', lo, hi) && (b <= lo || hi <= a)
    ensures Same(m, m', a, b)
  {
  }

  lemma SameLess(m: Mem, m': Mem, lo: nat, hi: nat, a: nat, b: nat)
    requires Same(m, m', lo, hi) && lo <= a && b <= hi
    ensures Same(m, m', a, b)
  {
  }

  lemma SameWordAt(m: Mem, m': Mem, p: nat)
    requires Same(m, m', p, p + 4) && p + 4 <= |m|
    ensures WordAt(m', p) == WordAt(m, p)
  {
    hide WordAt;
    SameWord(m, p, m', p);
  }

  lemma PutWord(m: Mem, a: nat, w: nat)
    requires a + 4 <= |m| && w < WORD_LIMIT
    ensures WordAt(Put(m, a, WordBytes(w)), a) == w
    ensures Only(m, Put(m, a, WordBytes(w)), a, a + 4)
  {
    hide WordAt;
    WordRoundTrip(w);
    SameWord(Put(m, a, WordBytes(w)), a, WordBytes(w), 0);
  }

  method PutBytes(buf: array<byte>, at: nat, bs: seq<byte>)
    requires at + |bs| <= buf.Length
    modifies buf
    ensures buf[..] == Put(old(buf[..]), at, bs)
  {
    for i := 0 to |bs|
      invariant forall j :: 0 <= j < buf.Length ==> buf[j] == if at <= j < at + i then bs[j - at] else old(buf[j])
    {
      buf[at + i] := bs[i];
    }
    assert buf[..] == Put(old(buf[..]), at, bs);
  }
}
