/** SHA-256 as a stream of writes, against FIPS 180-4. */
module Sha256 {
  import opened Radix

  type Octet = bv8
  type Word = bv32

  const CHUNK: nat := 64

  // ----- Functions and constants of the standard, sections 4.1.2 and 4.2.2 -----

  function Ch(x: Word, y: Word, z: Word): Word
  {
    (x & y) ^ (!x & z)
  }

  function Maj(x: Word, y: Word, z: Word): Word
  {
    (x & y) ^ (x & z) ^ (y & z)
  }

  /** The mixing functions; a rotation to the right by n is (x >> n) | (x << 32 - n). */
  function BigSigma0(x: Word): Word
  {
    ((x >> 2) | (x << 30)) ^ ((x >> 13) | (x << 19)) ^ ((x >> 22) | (x << 10))
  }

  function BigSigma1(x: Word): Word
  {
    ((x >> 6) | (x << 26)) ^ ((x >> 11) | (x << 21)) ^ ((x >> 25) | (x << 7))
  }

  function Sigma0(x: Word): Word
  {
    ((x >> 7) | (x << 25)) ^ ((x >> 18) | (x << 14)) ^ (x >> 3)
  }

  function Sigma1(x: Word): Word
  {
    ((x >> 17) | (x << 15)) ^ ((x >> 19) | (x << 13)) ^ (x >> 10)
  }

  function Constants(): (k: seq<Word>)
    ensures |k| == 64
  {
    [0x428a2f98, 0x71374491, 0xb5c0fbcf, 0xe9b5dba5, 0x3956c25b, 0x59f111f1, 0x923f82a4, 0xab1c5ed5] +
    [0xd807aa98, 0x12835b01, 0x243185be, 0x550c7dc3, 0x72be5d74, 0x80deb1fe, 0x9bdc06a7, 0xc19bf174] +
    [0xe49b69c1, 0xefbe4786, 0x0fc19dc6, 0x240ca1cc, 0x2de92c6f, 0x4a7484aa, 0x5cb0a9dc, 0x76f988da] +
    [0x983e5152, 0xa831c66d, 0xb00327c8, 0xbf597fc7, 0xc6e00bf3, 0xd5a79147, 0x06ca6351, 0x14292967] +
    [0x27b70a85, 0x2e1b2138, 0x4d2c6dfc, 0x53380d13, 0x650a7354, 0x766a0abb, 0x81c2c92e, 0x92722c85] +
    [0xa2bfe8a1, 0xa81a664b, 0xc24b8b70, 0xc76c51a3, 0xd192e819, 0xd6990624, 0xf40e3585, 0x106aa070] +
    [0x19a4c116, 0x1e376c08, 0x2748774c, 0x34b0bcb5, 0x391c0cb3, 0x4ed8aa4a, 0x5b9cca4f, 0x682e6ff3] +
    [0x748f82ee, 0x78a5636f, 0x84c87814, 0x8cc70208, 0x90befffa, 0xa4506ceb, 0xbef9a3f7, 0xc67178f2]
  }

  // ----- The compression function, section 6.2.2 -----

  datatype Regs = Regs(a: Word, b: Word, c: Word, d: Word, e: Word, f: Word, g: Word, h: Word)

  function Initial(): Regs
  {
    Regs(0x6a09e667, 0xbb67ae85, 0x3c6ef372, 0xa54ff53a, 0x510e527f, 0x9b05688c, 0x1f83d9ab, 0x5be0cd19)
  }

  /** Word i of a block, most significant byte first. */
  function BlockWord(b: seq<Octet>, i: nat): Word
    requires 4 * i + 4 <= |b|
  {
    (b[4 * i] as Word << 24) | (b[4 * i + 1] as Word << 16) | (b[4 * i + 2] as Word << 8) | (b[4 * i + 3] as Word)
  }

  /** Addition modulo 2^32. */
  function Sum(p: Word, q: Word, r: Word, s: Word): Word
  {
    p + q + r + s
  }

  /** The message schedule. */
  function W(b: seq<Octet>, t: nat): Word
    requires |b| == CHUNK
  {
    if t < 16 then BlockWord(b, t)
    else Sum(Sigma1(W(b, t - 2)), W(b, t - 7), Sigma0(W(b, t - 15)), W(b, t - 16))
  }

  function Add(x: Word, y: Word): Word
  {
    x + y
  }

  function T1(e: Word, f: Word, g: Word, h: Word, k: Word, w: Word): Word
  {
    h + BigSigma1(e) + Ch(e, f, g) + k + w
  }

  function T2(a: Word, b: Word, c: Word): Word
  {
    BigSigma0(a) + Maj(a, b, c)
  }

  function Round(r: Regs, k: Word, w: Word): Regs
  {
    var t1, t2 := T1(r.e, r.f, r.g, r.h, k, w), T2(r.a, r.b, r.c);
    Regs(Add(t1, t2), r.a, r.b, r.c, Add(r.d, t1), r.e, r.f, r.g)
  }

  function Rounds(r: Regs, b: seq<Octet>, t: nat): Regs
    requires |b| == CHUNK && t <= 64
  {
    if t == 0 then r else Round(Rounds(r, b, t - 1), Constants()[t - 1], W(b, t - 1))
  }

  function Plus(r: Regs, s: Regs): Regs
  {
    Regs(Add(r.a, s.a), Add(r.b, s.b), Add(r.c, s.c), Add(r.d, s.d),
         Add(r.e, s.e), Add(r.f, s.f), Add(r.g, s.g), Add(r.h, s.h))
  }

  function Compress(r: Regs, b: seq<Octet>): Regs
    requires |b| == CHUNK
  {
    Plus(r, Rounds(r, b, 64))
  }

  // ----- sha256_consume_chunk -----

  function RegsOf(s: seq<Word>): Regs
    requires |s| == 8
  {
    Regs(s[0], s[1], s[2], s[3], s[4], s[5], s[6], s[7])
  }

  /** The sixteen words of the rolling schedule before step 16 * i + j: word k is the latest of its residue. */
  ghost predicate Rolled(w: seq<Word>, b: seq<Octet>, i: nat, j: nat)
    requires |b| == CHUNK
  {
    && |w| == 16
    && (forall k :: 0 <= k < j && k < 16 ==> w[k] == W(b, 16 * i + k))
    && (i > 0 ==> forall k :: j <= k < 16 ==> w[k] == W(b, 16 * (i - 1) + k))
  }

  /** The update of a schedule word in place. */
  function Update(p: Word, q: Word, r: Word, s: Word): Word
  {
    p + (q + r + s)
  }

  lemma Reorder(p: Word, q: Word, r: Word, s: Word)
    ensures Update(p, q, r, s) == Sum(s, r, q, p)
  {
  }

  lemma Unfolded(b: seq<Octet>, t: nat)
    requires |b| == CHUNK && t >= 16
    ensures W(b, t) == Sum(Sigma1(W(b, t - 2)), W(b, t - 7), Sigma0(W(b, t - 15)), W(b, t - 16))
  {
    hide Sigma0, Sigma1, BlockWord, Sum;
  }

  /** The rolling update computes the standard's next schedule word. */
  lemma NextWord(w: seq<Word>, b: seq<Octet>, i: nat, j: nat)
    requires |b| == CHUNK && 0 < i && j < 16 && Rolled(w, b, i, j)
    ensures Update(w[j], Sigma0(w[(j + 1) % 16]), w[(j + 9) % 16], Sigma1(w[(j + 14) % 16])) == W(b, 16 * i + j)
  {
    hide Sigma0, Sigma1, W, Sum, Update;
    var t := 16 * i + j;
    assert w[j] == W(b, t - 16) && w[(j + 1) % 16] == W(b, t - 15);
    assert w[(j + 9) % 16] == W(b, t - 7) && w[(j + 14) % 16] == W(b, t - 2);
    Unfolded(b, t);
    Reorder(w[j], Sigma0(w[(j + 1) % 16]), w[(j + 9) % 16], Sigma1(w[(j + 14) % 16]));
  }

  lemma Rolls(w: seq<Word>, b: seq<Octet>, i: nat, j: nat)
    requires |b| == CHUNK && j < 16 && Rolled(w, b, i, j)
    ensures Rolled(w[j := W(b, 16 * i + j)], b, i, j + 1)
  {
    hide W;
  }

  lemma NextRow(w: seq<Word>, b: seq<Octet>, i: nat)
    requires |b| == CHUNK && Rolled(w, b, i, 16)
    ensures Rolled(w, b, i + 1, 0)
  {
    hide W;
  }

  /** Word j of the schedule array in row i. */
  method ScheduleWord(w: array<Word>, b: seq<Octet>, i: nat, j: nat)
    requires |b| == CHUNK && w.Length == 16 && i < 4 && j < 16 && Rolled(w[..], b, i, j)
    modifies w
    ensures w[..] == old(w[..])[j := W(b, 16 * i + j)]
  {
    hide Rolled, BlockWord, Update, Sum, Sigma0, Sigma1;
    if i == 0 {
      w[j] := BlockWord(b, j);
    } else {
      NextWord(w[..], b, i, j);
      w[j] := Update(w[j], Sigma0(w[(j + 1) % 16]), w[(j + 9) % 16], Sigma1(w[(j + 14) % 16]));
    }
  }

  /** One step of the working variables. */
  method RoundStep(ah: array<Word>, k: Word, w: Word)
    requires ah.Length == 8
    modifies ah
    ensures RegsOf(ah[..]) == Round(RegsOf(old(ah[..])), k, w)
  {
    hide Add, T1, T2, Round, RegsOf;
    ghost var o := ah[..];
    var t1 := T1(ah[4], ah[5], ah[6], ah[7], k, w);
    var t2 := T2(ah[0], ah[1], ah[2]);
    ah[7] := ah[6];
    ah[6] := ah[5];
    ah[5] := ah[4];
    ah[4] := Add(ah[3], t1);
    ah[3] := ah[2];
    ah[2] := ah[1];
    ah[1] := ah[0];
    ah[0] := Add(t1, t2);
    RegsMoved(o, ah[..], k, w, t1, t2);
  }

  lemma RegsMoved(o: seq<Word>, n: seq<Word>, k: Word, w: Word, t1: Word, t2: Word)
    requires |o| == |n| == 8 && t1 == T1(o[4], o[5], o[6], o[7], k, w) && t2 == T2(o[0], o[1], o[2])
    requires n[0] == Add(t1, t2) && n[1] == o[0] && n[2] == o[1] && n[3] == o[2]
    requires n[4] == Add(o[3], t1) && n[5] == o[4] && n[6] == o[5] && n[7] == o[6]
    ensures RegsOf(n) == Round(RegsOf(o), k, w)
  {
    hide Add, T1, T2;
  }

  lemma RoundsStep(r: Regs, b: seq<Octet>, t: nat)
    requires |b| == CHUNK && t < 64
    ensures Rounds(r, b, t + 1) == Round(Rounds(r, b, t), Constants()[t], W(b, t))
  {
    hide Round, Constants, W;
  }

  /** Sixteen steps of one row. */
  method Row(ah: array<Word>, w: array<Word>, b: seq<Octet>, i: nat, ghost r: Regs)
    requires |b| == CHUNK && ah.Length == 8 && w.Length == 16 && ah != w && i < 4
    requires Rolled(w[..], b, i, 0) && RegsOf(ah[..]) == Rounds(r, b, 16 * i)
    modifies ah, w
    ensures Rolled(w[..], b, i + 1, 0) && RegsOf(ah[..]) == Rounds(r, b, 16 * (i + 1))
  {
    hide *;
    var j := 0;
    while j < 16
      invariant j <= 16 && Rolled(w[..], b, i, j) && RegsOf(ah[..]) == Rounds(r, b, 16 * i + j)
    {
      Rolls(w[..], b, i, j);
      RoundsStep(r, b, 16 * i + j);
      ScheduleWord(w, b, i, j);
      RoundStep(ah, Constants()[16 * i + j], w[j]);
      j := j + 1;
    }
    NextRow(w[..], b, i);
  }

  /** sha256_consume_chunk */
  method ConsumeChunk(h: array<Word>, b: seq<Octet>)
    requires |b| == CHUNK && h.Length == 8
    modifies h
    ensures RegsOf(h[..]) == Compress(RegsOf(old(h[..])), b)
  {
    hide Rounds, Round, W, Rolled;
    var ah := new Word[8](i requires 0 <= i < 8 reads h => h[i]);
    var w := new Word[16](i => 0);
    ghost var r := RegsOf(h[..]);
    Begins(w[..], b, r);
    assert ah[..] == h[..];
    var i := 0;
    while i < 4
      invariant i <= 4 && h[..] == old(h[..])
      invariant Rolled(w[..], b, i, 0) && RegsOf(ah[..]) == Rounds(r, b, 16 * i)
    {
      Row(ah, w, b, i, r);
      i := i + 1;
    }
    AddTo(h, ah);
  }

  lemma Begins(w: seq<Word>, b: seq<Octet>, r: Regs)
    requires |w| == 16 && |b| == CHUNK
    ensures Rolled(w, b, 0, 0) && Rounds(r, b, 0) == r
  {
  }

  method AddTo(h: array<Word>, ah: array<Word>)
    requires h.Length == 8 && ah.Length == 8 && h != ah
    modifies h
    ensures RegsOf(h[..]) == Plus(RegsOf(old(h[..])), RegsOf(ah[..]))
  {
    hide Add;
    var i := 0;
    while i < 8
      invariant i <= 8
      invariant forall k :: 0 <= k < 8 ==> h[k] == if k < i then Add(old(h[k]), ah[k]) else old(h[k])
    {
      h[i] := Add(h[i], ah[i]);
      i := i + 1;
    }
  }

  // ----- Hashing a padded message, sections 5.1.1, 5.2.1 and 6.2.2 -----

  /** Block i of a message. */
  function Block(msg: seq<Octet>, i: nat): (b: seq<Octet>)
    requires CHUNK * i + CHUNK <= |msg|
    ensures |b| == CHUNK && forall k :: 0 <= k < CHUNK ==> b[k] == msg[CHUNK * i + k]
  {
    seq(CHUNK, k requires 0 <= k < CHUNK => msg[CHUNK * i + k])
  }

  /** The hash value after n blocks. */
  function Hash(msg: seq<Octet>, n: nat): Regs
    requires CHUNK * n <= |msg|
  {
    if n == 0 then Initial() else Compress(Hash(msg, n - 1), Block(msg, n - 1))
  }

  /** The length of the padded message: the least multiple of a block with room for the mark and the length. */
  function PaddedLength(n: nat): (t: nat)
    ensures t % CHUNK == 0 && n + 9 <= t < n + 9 + CHUNK
  {
    (n + 9 + (CHUNK - 1)) / CHUNK * CHUNK
  }

  function Power(n: nat): (r: nat)
    ensures r > 0
  {
    if n == 0 then 1 else 256 * Power(n - 1)
  }

  /** Byte k of the 64-bit big-endian length in bits. */
  function LengthByte(n: nat, k: nat): Octet
    requires k < 8
  {
    (8 * n / Power(7 - k) % 256) as Octet
  }

  function Pad(msg: seq<Octet>): (p: seq<Octet>)
    ensures |p| == PaddedLength(|msg|)
    ensures forall i :: 0 <= i < |p| ==>
      p[i] == (if i < |msg| then msg[i] else if i == |msg| then 0x80 else if i < |p| - 8 then 0
               else LengthByte(|msg|, i - (|p| - 8)))
  {
    var t := PaddedLength(|msg|);
    seq(t, i requires 0 <= i < t =>
      if i < |msg| then msg[i] else if i == |msg| then 0x80
      else if i < t - 8 then 0 else LengthByte(|msg|, i - (t - 8)))
  }

  function Octets(x: Word): (b: seq<Octet>)
    ensures |b| == 4
  {
    [((x >> 24) & 0xff) as Octet, ((x >> 16) & 0xff) as Octet, ((x >> 8) & 0xff) as Octet, (x & 0xff) as Octet]
  }

  function Words(r: Regs): (s: seq<Word>)
    ensures |s| == 8
  {
    [r.a, r.b, r.c, r.d, r.e, r.f, r.g, r.h]
  }

  /** The words of the hash value, most significant byte first. */
  function Digest(s: seq<Word>): (d: seq<Octet>)
    requires |s| == 8
    ensures |d| == 32 && forall i :: 0 <= i < 32 ==> d[i] == Octets(s[i / 4])[i % 4]
  {
    seq(32, i requires 0 <= i < 32 => Octets(s[i / 4])[i % 4])
  }

  /** SHA-256 of a message. */
  function Sha(msg: seq<Octet>): seq<Octet>
  {
    Digest(Words(Hash(Pad(msg), PaddedLength(|msg|) / CHUNK)))
  }

  /** Both messages agree on their first c bytes. */
  ghost predicate Agree(m: seq<Octet>, m': seq<Octet>, c: nat)
  {
    c <= |m| && c <= |m'| && forall i :: 0 <= i < c ==> m'[i] == m[i]
  }

  lemma {:induction false} HashPrefix(m: seq<Octet>, m': seq<Octet>, n: nat)
    requires Agree(m, m', CHUNK * n)
    ensures Hash(m', n) == Hash(m, n)
  {
    hide Compress, Block;
    if n > 0 {
      HashPrefix(m, m', n - 1);
      SameBlock(m, m', n - 1);
    }
  }

  lemma SameBlock(m: seq<Octet>, m': seq<Octet>, i: nat)
    requires Agree(m, m', CHUNK * i + CHUNK)
    ensures Block(m, i) == Block(m', i)
  {
  }

  // ----- The stream -----

  /** The first c bytes of a message: whole blocks are hashed, the rest waits in the chunk. */
  ghost predicate Absorbed(h: seq<Word>, chunk: seq<Octet>, rem: nat, msg: seq<Octet>, c: nat)
  {
    && |h| == 8 && |chunk| == CHUNK && c <= |msg| && rem == CHUNK - c % CHUNK
    && CHUNK * (c / CHUNK) <= |msg| && RegsOf(h) == Hash(msg, c / CHUNK)
    && forall k :: 0 <= k < c % CHUNK ==> chunk[k] == msg[CHUNK * (c / CHUNK) + k]
  }

  /** A longer message whose first bytes are the same is as well absorbed. */
  lemma AbsorbedMore(h: seq<Word>, chunk: seq<Octet>, rem: nat, m: seq<Octet>, m': seq<Octet>, c: nat)
    requires Absorbed(h, chunk, rem, m, c) && Agree(m, m', c)
    ensures Absorbed(h, chunk, rem, m', c)
  {
    hide Hash, RegsOf;
    HashPrefix(m, m', c / CHUNK);
  }

  /** A whole block more. */
  lemma AbsorbedBlock(h: seq<Word>, h': seq<Word>, chunk: seq<Octet>, msg: seq<Octet>, c: nat, b: seq<Octet>)
    requires Absorbed(h, chunk, CHUNK, msg, c) && c % CHUNK == 0 && c + CHUNK <= |msg| && |h'| == 8
    requires b == Block(msg, c / CHUNK) && RegsOf(h') == Compress(RegsOf(h), b)
    ensures Absorbed(h', chunk, CHUNK, msg, c + CHUNK)
  {
    hide Compress, RegsOf, Block;
    assert (c + CHUNK) / CHUNK == c / CHUNK + 1 && (c + CHUNK) % CHUNK == 0;
    HashStep(msg, c / CHUNK);
  }

  lemma HashStep(msg: seq<Octet>, n: nat)
    requires CHUNK * n + CHUNK <= |msg|
    ensures Hash(msg, n + 1) == Compress(Hash(msg, n), Block(msg, n))
  {
    hide Compress, Block;
  }

  /** Bytes that do not fill the chunk. */
  lemma AbsorbedPart(h: seq<Word>, chunk: seq<Octet>, chunk': seq<Octet>, rem: nat, msg: seq<Octet>, c: nat, n: nat)
    requires Absorbed(h, chunk, rem, msg, c) && n < rem && c + n <= |msg| && |chunk'| == CHUNK
    requires forall k :: 0 <= k < CHUNK ==>
      chunk'[k] == if CHUNK - rem <= k < CHUNK - rem + n then msg[c + k - (CHUNK - rem)] else chunk[k]
    ensures Absorbed(h, chunk', rem - n, msg, c + n)
  {
    hide Hash, RegsOf;
    Within(c, n);
  }

  lemma Within(c: nat, n: nat)
    requires c % CHUNK + n < CHUNK
    ensures (c + n) / CHUNK == c / CHUNK && (c + n) % CHUNK == c % CHUNK + n
  {
  }

  /** Bytes that fill the chunk, which is then hashed. */
  lemma AbsorbedFull(h: seq<Word>, h': seq<Word>, chunk: seq<Octet>, chunk': seq<Octet>, rem: nat, msg: seq<Octet>,
                     c: nat)
    requires Absorbed(h, chunk, rem, msg, c) && c + rem <= |msg| && |chunk'| == CHUNK && |h'| == 8 && 0 < rem
    requires forall k :: 0 <= k < CHUNK ==>
      chunk'[k] == if CHUNK - rem <= k then msg[c + k - (CHUNK - rem)] else chunk[k]
    requires RegsOf(h') == Compress(RegsOf(h), chunk')
    ensures Absorbed(h', chunk', CHUNK, msg, c + rem)
  {
    hide Compress, RegsOf, Hash;
    var n := c / CHUNK;
    assert c == CHUNK * n + (CHUNK - rem);
    assert (c + rem) / CHUNK == n + 1 && (c + rem) % CHUNK == 0;
    assert chunk' == Block(msg, n);
    HashStep(msg, n);
  }

  class Context {
    const h: array<Word>
    const chunk: array<Octet>
    var rem: nat
    var len: nat

    /** sha256_init */
    constructor ()
      ensures fresh(h) && fresh(chunk) && Holds([])
    {
      h := new Word[8] [0x6a09e667, 0xbb67ae85, 0x3c6ef372, 0xa54ff53a, 0x510e527f, 0x9b05688c, 0x1f83d9ab, 0x5be0cd19];
      chunk := new Octet[CHUNK](i => 0);
      rem, len := CHUNK, 0;
    }

    /** The context has taken in exactly msg. */
    ghost predicate Holds(msg: seq<Octet>)
      reads this, h, chunk
    {
      h.Length == 8 && chunk.Length == CHUNK && len == |msg| && Absorbed(h[..], chunk[..], rem, msg, |msg|)
    }

    /** memcpy into the chunk. */
    method Copy(data: seq<Octet>, i: nat, n: nat)
      requires chunk.Length == CHUNK && 0 < rem <= CHUNK && n <= rem && i + n <= |data|
      modifies chunk
      ensures forall k :: 0 <= k < CHUNK ==>
        chunk[k] == if CHUNK - rem <= k < CHUNK - rem + n then data[i + k - (CHUNK - rem)] else old(chunk[k])
    {
      var j := 0;
      while j < n
        invariant j <= n
        invariant forall k :: 0 <= k < CHUNK ==>
          chunk[k] == if CHUNK - rem <= k < CHUNK - rem + j then data[i + k - (CHUNK - rem)] else old(chunk[k])
      {
        chunk[CHUNK - rem + j] := data[i + j];
        j := j + 1;
      }
    }

    /** One pass of the loop of sha256_write: byte i of data is byte org + i of the message. */
    method Absorb(data: seq<Octet>, i: nat, ghost msg: seq<Octet>, ghost org: nat) returns (i': nat)
      requires h.Length == 8 && chunk.Length == CHUNK && i < |data| && Part(data, msg, org)
      requires Absorbed(h[..], chunk[..], rem, msg, org + i)
      modifies this`rem, h, chunk
      ensures i < i' <= |data| && Absorbed(h[..], chunk[..], rem, msg, org + i')
    {
      hide Compress, Hash, RegsOf, Block, Absorbed;
      ghost var h0, chunk0, rem0 := h[..], chunk[..], rem;
      Waiting(h0, chunk0, rem, msg, org + i);
      if rem == CHUNK && |data| - i >= CHUNK {
        var b := Piece(data, i);
        PieceIs(data, i, msg, org, b);
        ConsumeChunk(h, b);
        AbsorbedBlock(h0, h[..], chunk[..], msg, org + i, b);
        i' := i + CHUNK;
      } else {
        var consumed := if |data| - i < rem then |data| - i else rem;
        Copy(data, i, consumed);
        i' := i + consumed;
        if consumed == rem {
          ConsumeChunk(h, chunk[..]);
          AbsorbedFull(h0, h[..], chunk0, chunk[..], rem, msg, org + i);
          rem := CHUNK;
        } else {
          AbsorbedPart(h0, chunk0, chunk[..], rem, msg, org + i, consumed);
          rem := rem - consumed;
        }
      }
    }

    /** sha256_write, for messages whose length fits in size_t. */
    method Write(data: seq<Octet>, ghost msg: seq<Octet>)
      requires Holds(msg) && |msg| + |data| < 0x1_0000_0000
      modifies this, h, chunk
      ensures Holds(msg + data)
    {
      hide Absorbed;
      len := len + |data|;
      ghost var full := msg + data;
      AbsorbedMore(h[..], chunk[..], rem, msg, full, |msg|);
      var i := 0;
      while i < |data|
        invariant i <= |data| && len == |full| && Absorbed(h[..], chunk[..], rem, full, |msg| + i)
      {
        i := Absorb(data, i, full, |msg|);
      }
    }

    /** The length in bits, most significant byte last to first. */
    method PutLength()
      requires chunk.Length == CHUNK
      modifies chunk
      ensures forall k :: 0 <= k < CHUNK ==> chunk[k] == if k < 56 then old(chunk[k]) else LengthByte(len, k - 56)
    {
      hide LengthByte, LengthPart;
      LastLengthByte(len);
      chunk[63] := (8 * len % 256) as Octet;
      var rest := len / 32;
      var i := 7;
      while i > 0
        invariant 0 <= i <= 7 && (i > 0 ==> rest == LengthPart(len, i - 1))
        invariant forall k :: 0 <= k < CHUNK ==>
          chunk[k] == if k < 56 + i then old(chunk[k]) else LengthByte(len, k - 56)
      {
        i := i - 1;
        NextLengthByte(len, i);
        chunk[56 + i] := (rest % 256) as Octet;
        rest := rest / 256;
      }
    }

    /** memset of chunk[from..to]. */
    method Clear(from: nat, to: nat)
      requires chunk.Length == CHUNK && from <= to <= CHUNK
      modifies chunk
      ensures forall k :: 0 <= k < CHUNK ==> chunk[k] == if from <= k < to then 0 else old(chunk[k])
    {
      var j := from;
      while j < to
        invariant from <= j <= to
        invariant forall k :: 0 <= k < CHUNK ==> chunk[k] == if from <= k < j then 0 else old(chunk[k])
      {
        chunk[j] := 0;
        j := j + 1;
      }
    }

    /** The padding of sha256_close: afterwards the whole padded message is hashed. */
    method Finish(ghost msg: seq<Octet>)
      requires Holds(msg)
      modifies h, chunk
      ensures RegsOf(h[..]) == Hash(Pad(msg), PaddedLength(|msg|) / CHUNK)
    {
      hide Compress, Hash, RegsOf, Block, Absorbed, Pad, LengthByte, PaddedLength, Tail;
      ghost var h0, chunk0, p := h[..], chunk[..], Pad(msg);
      Waiting(h0, chunk0, rem, msg, |msg|);
      PadBegins(h0, chunk0, rem, msg, p);
      var pos, left := CHUNK - rem, rem;
      chunk[pos] := 0x80;
      pos, left := pos + 1, left - 1;
      if left < 8 {
        Clear(pos, CHUNK);
        PadFirst(chunk0, rem, msg, p, chunk[..]);
        ConsumeChunk(h, chunk[..]);
        pos, left := 0, CHUNK;
      }
      left := left - 8;
      Clear(pos, pos + left);
      PutLength();
      PadLast(chunk0, rem, msg, p, chunk[..]);
      ConsumeChunk(h, chunk[..]);
    }

    /** sha256_close: the digest of the message taken in. */
    method Close(digest: array<Octet>, ghost msg: seq<Octet>)
      requires Holds(msg) && digest.Length == 32 && digest != chunk
      modifies h, chunk, digest
      ensures digest[..] == Sha(msg)
    {
      hide Hash, Pad, Absorbed, PaddedLength, Digest, Words, RegsOf;
      Finish(msg);
      WordsRegs(h[..]);
      PutDigest(h[..], digest);
    }
  }

  /** The last loop of sha256_close. */
  method PutDigest(s: seq<Word>, digest: array<Octet>)
    requires |s| == 8 && digest.Length == 32
    modifies digest
    ensures digest[..] == Digest(s)
  {
    hide Octets;
    var i := 0;
    while i < 8
      invariant i <= 8
      invariant forall k :: 0 <= k < 4 * i ==> digest[k] == Octets(s[k / 4])[k % 4]
    {
      var o := Octets(s[i]);
      digest[4 * i] := o[0];
      digest[4 * i + 1] := o[1];
      digest[4 * i + 2] := o[2];
      digest[4 * i + 3] := o[3];
      i := i + 1;
    }
  }

  lemma WordsRegs(s: seq<Word>)
    requires |s| == 8
    ensures Words(RegsOf(s)) == s
  {
  }

  /** The length in bits without its last 7 - i bytes. */
  function LengthPart(n: nat, i: nat): int
    requires i <= 7
  {
    8 * n / Power(7 - i)
  }

  lemma LastLengthByte(n: nat)
    ensures LengthByte(n, 7) == (8 * n % 256) as Octet && n / 32 == LengthPart(n, 6)
  {
    assert Power(0) == 1 && Power(1) == 256;
  }

  lemma NextLengthByte(n: nat, i: nat)
    requires i < 7
    ensures LengthByte(n, i) == (LengthPart(n, i) % 256) as Octet
    ensures i > 0 ==> LengthPart(n, i) / 256 == LengthPart(n, i - 1)
  {
    if i > 0 {
      LastDigit(8 * n, Power(7 - i), 256);
    }
  }

  /** The bytes of the message after its last whole block wait in the chunk. */
  ghost predicate Tail(chunk: seq<Octet>, msg: seq<Octet>)
  {
    |chunk| == CHUNK && forall k :: 0 <= k < |msg| % CHUNK ==> chunk[k] == msg[CHUNK * (|msg| / CHUNK) + k]
  }

  /** How many blocks the padding takes. */
  lemma PadBlocks(n: nat)
    ensures n % CHUNK <= 55 ==> PaddedLength(n) == CHUNK * (n / CHUNK + 1)
    ensures n % CHUNK > 55 ==> PaddedLength(n) == CHUNK * (n / CHUNK + 2)
    ensures PaddedLength(n) / CHUNK == n / CHUNK + if n % CHUNK <= 55 then 1 else 2
  {
  }

  /** The whole blocks of the message are whole blocks of the padded message. */
  lemma PadBegins(h: seq<Word>, chunk: seq<Octet>, rem: nat, msg: seq<Octet>, p: seq<Octet>)
    requires Absorbed(h, chunk, rem, msg, |msg|) && p == Pad(msg)
    ensures CHUNK * (|msg| / CHUNK) <= |p| && RegsOf(h) == Hash(p, |msg| / CHUNK)
    ensures |p| == PaddedLength(|msg|) && rem == CHUNK - |msg| % CHUNK && Tail(chunk, msg)
    ensures PaddedLength(|msg|) / CHUNK == |msg| / CHUNK + if rem > 8 then 1 else 2
  {
    hide Hash, RegsOf;
    PadBlocks(|msg|);
    HashPrefix(msg, p, |msg| / CHUNK);
  }

  /** A first padding block without room for the length. */
  lemma PadFirst(chunk: seq<Octet>, rem: nat, msg: seq<Octet>, p: seq<Octet>, b: seq<Octet>)
    requires |chunk| == |b| == CHUNK && rem == CHUNK - |msg| % CHUNK && rem <= 8 && p == Pad(msg)
    requires Tail(chunk, msg)
    requires forall k :: 0 <= k < CHUNK ==>
      b[k] == if k < CHUNK - rem then chunk[k] else if k == CHUNK - rem then 0x80 else 0
    ensures CHUNK * (|msg| / CHUNK) + CHUNK <= |p|
    ensures Hash(p, |msg| / CHUNK + 1) == Compress(Hash(p, |msg| / CHUNK), b)
  {
    hide Hash, Compress, LengthByte, Pad;
    PadBlocks(|msg|);
    var q := |msg| / CHUNK;
    assert b == Block(p, q);
    HashStep(p, q);
  }

  /** The block that ends with the length. */
  lemma PadLast(chunk: seq<Octet>, rem: nat, msg: seq<Octet>, p: seq<Octet>, b: seq<Octet>)
    requires |chunk| == |b| == CHUNK && rem == CHUNK - |msg| % CHUNK && p == Pad(msg)
    requires Tail(chunk, msg)
    requires forall k :: 0 <= k < CHUNK ==>
      b[k] == if k >= 56 then LengthByte(|msg|, k - 56)
              else if rem <= 8 then 0
              else if k < CHUNK - rem then chunk[k] else if k == CHUNK - rem then 0x80 else 0
    ensures var t := |p| / CHUNK;
      t > 0 && CHUNK * t <= |p| && CHUNK * (t - 1) <= |p| && Hash(p, t) == Compress(Hash(p, t - 1), b)
  {
    hide Hash, Compress, LengthByte, Pad;
    PadBlocks(|msg|);
    var t := |p| / CHUNK;
    assert b == Block(p, t - 1);
    HashStep(p, t - 1);
  }

  /** data stands in msg from position org on. */
  ghost predicate Part(data: seq<Octet>, msg: seq<Octet>, org: nat)
  {
    org + |data| <= |msg| && forall k :: 0 <= k < |data| ==> data[k] == msg[org + k]
  }

  lemma Waiting(h: seq<Word>, chunk: seq<Octet>, rem: nat, msg: seq<Octet>, c: nat)
    requires Absorbed(h, chunk, rem, msg, c)
    ensures 0 < rem <= CHUNK && (rem == CHUNK <==> c % CHUNK == 0) && c <= |msg| && |h| == 8 && |chunk| == CHUNK
  {
    hide Hash, RegsOf;
  }

  lemma PieceIs(data: seq<Octet>, i: nat, msg: seq<Octet>, org: nat, b: seq<Octet>)
    requires Part(data, msg, org) && i + CHUNK <= |data| && (org + i) % CHUNK == 0 && b == Piece(data, i)
    ensures CHUNK * ((org + i) / CHUNK) + CHUNK <= |msg| && b == Block(msg, (org + i) / CHUNK)
  {
    var n := (org + i) / CHUNK;
    assert CHUNK * n == org + i;
  }

  function Piece(data: seq<Octet>, i: nat): (b: seq<Octet>)
    requires i + CHUNK <= |data|
    ensures |b| == CHUNK && forall k :: 0 <= k < CHUNK ==> b[k] == data[i + k]
  {
    seq(CHUNK, k requires 0 <= k < CHUNK => data[i + k])
  }

  // ----- Any way of splitting a message -----

  function Flatten(pieces: seq<seq<Octet>>, n: nat): seq<Octet>
    requires n <= |pieces|
  {
    if n == 0 then [] else Flatten(pieces, n - 1) + pieces[n - 1]
  }

  /** However the message is split into writes, the digest is that of the whole message. */
  method HashPieces(pieces: seq<seq<Octet>>, digest: array<Octet>)
    requires digest.Length == 32 && forall n :: 0 <= n <= |pieces| ==> |Flatten(pieces, n)| < 0x1_0000_0000
    modifies digest
    ensures digest[..] == Sha(Flatten(pieces, |pieces|))
  {
    hide Sha, Absorbed;
    var ctx := new Context();
    var n := 0;
    while n < |pieces|
      invariant n <= |pieces| && ctx.Holds(Flatten(pieces, n)) && fresh(ctx) && fresh(ctx.h) && fresh(ctx.chunk)
    {
      assert |Flatten(pieces, n + 1)| < 0x1_0000_0000;
      ctx.Write(pieces[n], Flatten(pieces, n));
      n := n + 1;
    }
    ctx.Close(digest, Flatten(pieces, n));
  }
}
