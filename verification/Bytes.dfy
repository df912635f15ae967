/** Bytes, and 32-bit words in little-endian order. */
module Bytes {

  type byte = x: nat | x < 256

  const WORD_LIMIT: nat := 0x1_0000_0000

  function Zeros(n: nat): (b: seq<byte>)
    ensures |b| == n
  {
    seq(n, i => 0)
  }

  function WordBytes(v: nat): (b: seq<byte>)
    ensures |b| == 4
  {
    [v % 256, v / 256 % 256, v / 256 / 256 % 256, v / 256 / 256 / 256 % 256]
  }

  /** The word at byte n. */
  function WordAt(b: seq<byte>, n: nat): nat
    requires n + 4 <= |b|
  {
    b[n] as nat + 256 * (b[n + 1] as nat + 256 * (b[n + 2] as nat + 256 * (b[n + 3] as nat)))
  }

  /** Byte i of a word counts 256 to the power i. */
  lemma WordOrder(b: seq<byte>, n: nat)
    requires n + 4 <= |b|
    ensures WordAt(b, n) ==
            b[n] as nat + 0x100 * b[n + 1] as nat + 0x1_0000 * b[n + 2] as nat + 0x100_0000 * b[n + 3] as nat
  {
  }

  lemma WordRoundTrip(v: nat)
    requires v < WORD_LIMIT
    ensures WordAt(WordBytes(v), 0) == v
  {
  }

  /** A word depends on its four bytes only. */
  lemma SameWord(b: seq<byte>, n: nat, c: seq<byte>, m: nat)
    requires n + 4 <= |b| && m + 4 <= |c|
    requires b[n] == c[m] && b[n + 1] == c[m + 1] && b[n + 2] == c[m + 2] && b[n + 3] == c[m + 3]
    ensures WordAt(b, n) == WordAt(c, m)
  {
  }
}
