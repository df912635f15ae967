/** The one-block example published with FIPS 180-4: the digest of "abc", worked out in the model. */
module Sha256Example {
  import opened Sha256

  const ABC: seq<Octet> := [0x61, 0x62, 0x63]

  /** The padded message: the three bytes, the mark, zeros, and the length of 24 bits. */
  const PADDED: seq<Octet> :=
    [0x61, 0x62, 0x63, 0x80, 0, 0, 0, 0] + [0, 0, 0, 0, 0, 0, 0, 0] +
    [0, 0, 0, 0, 0, 0, 0, 0] + [0, 0, 0, 0, 0, 0, 0, 0] +
    [0, 0, 0, 0, 0, 0, 0, 0] + [0, 0, 0, 0, 0, 0, 0, 0] +
    [0, 0, 0, 0, 0, 0, 0, 0] + [0, 0, 0, 0, 0, 0, 0, 0x18]

  const W0: seq<Word> :=
    [0x61626380, 0x00000000, 0x00000000, 0x00000000, 0x00000000, 0x00000000, 0x00000000, 0x00000000]

  const W8: seq<Word> :=
    [0x00000000, 0x00000000, 0x00000000, 0x00000000, 0x00000000, 0x00000000, 0x00000000, 0x00000018]

  const W16: seq<Word> :=
    [0x61626380, 0x000f0000, 0x7da86405, 0x600003c6, 0x3e9d7b78, 0x0183fc00, 0x12dcbfdb, 0xe2e2c38e]

  const W24: seq<Word> :=
    [0xc8215c1a, 0xb73679a2, 0xe5bc3909, 0x32663c5b, 0x9d209d67, 0xec8726cb, 0x702138a4, 0xd3b7973b]

  const W32: seq<Word> :=
    [0x93f5997f, 0x3b68ba73, 0xaff4ffc1, 0xf10a5c62, 0x0a8b3996, 0x72af830a, 0x9409e33e, 0x24641522]

  const W40: seq<Word> :=
    [0x9f47bf94, 0xf0a64f5a, 0x3e246a79, 0x27333ba3, 0x0c4763f2, 0x840abf27, 0x7a290d5d, 0x065c43da]

  const W48: seq<Word> :=
    [0xfb3e89cb, 0xcc7617db, 0xb9e66c34, 0xa9993667, 0x84badedd, 0xc21462bc, 0x1487472c, 0xb20f7a99]

  const W56: seq<Word> :=
    [0xef57b9cd, 0xebe6b238, 0x9fe3095e, 0x78bc8d4b, 0xa43fcf15, 0x668b2ff8, 0xeeaba2cc, 0x12b1edeb]

  /** Eight words of the schedule of the padded message. */
  predicate WordsAt(t: nat, w: seq<Word>)
  {
    && |w| == 8
    && W(PADDED, t) == w[0] && W(PADDED, t + 1) == w[1] && W(PADDED, t + 2) == w[2] && W(PADDED, t + 3) == w[3]
    && W(PADDED, t + 4) == w[4] && W(PADDED, t + 5) == w[5] && W(PADDED, t + 6) == w[6] && W(PADDED, t + 7) == w[7]
  }

  /** One step of the schedule. */
  function Next(p: Word, q: Word, r: Word, s: Word): Word
  {
    Sum(Sigma1(s), r, Sigma0(q), p)
  }

  /** Eight words of the schedule out of the sixteen before them. */
  function NextWords(p: seq<Word>, q: seq<Word>): seq<Word>
    requires |p| == |q| == 8
  {
    var n0, n1 := Next(p[0], p[1], q[1], q[6]), Next(p[1], p[2], q[2], q[7]);
    var n2, n3 := Next(p[2], p[3], q[3], n0), Next(p[3], p[4], q[4], n1);
    var n4, n5 := Next(p[4], p[5], q[5], n2), Next(p[5], p[6], q[6], n3);
    var n6, n7 := Next(p[6], p[7], q[7], n4), Next(p[7], q[0], n0, n5);
    [n0, n1, n2, n3, n4, n5, n6, n7]
  }

  lemma ScheduleStep(t: nat)
    requires t >= 16
    ensures W(PADDED, t) == Next(W(PADDED, t - 16), W(PADDED, t - 15), W(PADDED, t - 7), W(PADDED, t - 2))
  {
    hide W, Sum, Sigma0, Sigma1;
    Unfolded(PADDED, t);
  }

  lemma ScheduleRow(t: nat, p: seq<Word>, q: seq<Word>)
    requires WordsAt(t, p) && WordsAt(t + 8, q)
    ensures WordsAt(t + 16, NextWords(p, q))
  {
    hide W, Next;
    ScheduleStep(t + 16);
    ScheduleStep(t + 17);
    ScheduleStep(t + 18);
    ScheduleStep(t + 19);
    ScheduleStep(t + 20);
    ScheduleStep(t + 21);
    ScheduleStep(t + 22);
    ScheduleStep(t + 23);
  }

  lemma BlockWords(b: seq<Octet>, i: nat)
    requires |b| == CHUNK && i < 16
    requires b[4 * i] == 0 && b[4 * i + 1] == 0 && b[4 * i + 2] == 0
    ensures W(b, i) == b[4 * i + 3] as Word
  {
  }

  lemma PaddedZeros()
    ensures forall i :: 4 <= i < 63 ==> PADDED[i] == 0
    ensures PADDED[0] == 0x61 && PADDED[1] == 0x62 && PADDED[2] == 0x63 && PADDED[3] == 0x80 && PADDED[63] == 0x18
  {
  }

  lemma WordZero(b: seq<Octet>)
    requires |b| == CHUNK && b[0] == 0x61 && b[1] == 0x62 && b[2] == 0x63 && b[3] == 0x80
    ensures W(b, 0) == 0x61626380
  {
    assert BlockWord(b, 0) == (0x61 << 24) | (0x62 << 16) | (0x63 << 8) | 0x80;
  }

  lemma FirstWords()
    ensures WordsAt(0, W0) && WordsAt(8, W8)
  {
    hide W;
    PaddedZeros();
    WordZero(PADDED);
    forall i | 1 <= i < 16
      ensures W(PADDED, i) == if i == 15 then 0x18 else 0
    {
      BlockWords(PADDED, i);
    }
  }

  lemma WordsFollow()
    ensures NextWords(W0, W8) == W16 && NextWords(W8, W16) == W24 && NextWords(W16, W24) == W32
    ensures NextWords(W24, W32) == W40 && NextWords(W32, W40) == W48 && NextWords(W40, W48) == W56
  {
  }

  /** The schedule of the padded message. */
  lemma Schedule()
    ensures WordsAt(0, W0) && WordsAt(8, W8) && WordsAt(16, W16) && WordsAt(24, W24)
    ensures WordsAt(32, W32) && WordsAt(40, W40) && WordsAt(48, W48) && WordsAt(56, W56)
  {
    FirstWords();
    WordsFollow();
    hide *;
    ScheduleRow(0, W0, W8);
    ScheduleRow(8, W8, W16);
    ScheduleRow(16, W16, W24);
    ScheduleRow(24, W24, W32);
    ScheduleRow(32, W32, W40);
    ScheduleRow(40, W40, W48);
  }

  // ----- The registers after every eighth round -----

  const R0 := Regs(0x6a09e667, 0xbb67ae85, 0x3c6ef372, 0xa54ff53a, 0x510e527f, 0x9b05688c, 0x1f83d9ab, 0x5be0cd19)
  const R8 := Regs(0x85a07b5f, 0xe5030380, 0x2b4209f5, 0x04409a6a, 0x0c657a79, 0x9b27a401, 0x714260ad, 0x43ada245)
  const R16 := Regs(0xb0fa238e, 0xc0645fde, 0xd932eb16, 0x87912990, 0x07590dcd, 0x0b92f20c, 0x745a48de, 0x1e578218)
  const R24 := Regs(0xc5d53d8d, 0xa7a3623f, 0xc2606d6d, 0x9dc68b63, 0xaa47c347, 0x49f5114a, 0xe1257970, 0x8ada8930)
  const R32 := Regs(0x73b33bf5, 0xea992a22, 0xa0060b30, 0x363482c9, 0xba591112, 0x0109ab3a, 0xade79437, 0x6112a3b7)
  const R40 := Regs(0x79ea687a, 0x6dc57a8a, 0x34df1604, 0x41a65cb1, 0x1efbc0a0, 0xf0781bc8, 0xa507a53d, 0x0772a26b)
  const R48 := Regs(0x4172328d, 0xa14c14b0, 0x72ab4b91, 0x26628815, 0xfecf0bc6, 0xd57b94a9, 0xb7755da1, 0xa80f11f0)
  const R56 := Regs(0x38cc9913, 0x3ec45cdb, 0xf5702fdb, 0x101fd28f, 0x54cb266b, 0xe50e1b4f, 0x9f4787c3, 0x529e7d00)
  const R64 := Regs(0x506e3058, 0xd39a2165, 0x04d24d6c, 0xb85e2ce9, 0x5ef50f24, 0xfb121210, 0x948d25b6, 0x961f4894)

  const K0: seq<Word> :=
    [0x428a2f98, 0x71374491, 0xb5c0fbcf, 0xe9b5dba5, 0x3956c25b, 0x59f111f1, 0x923f82a4, 0xab1c5ed5]

  const K8: seq<Word> :=
    [0xd807aa98, 0x12835b01, 0x243185be, 0x550c7dc3, 0x72be5d74, 0x80deb1fe, 0x9bdc06a7, 0xc19bf174]

  const K16: seq<Word> :=
    [0xe49b69c1, 0xefbe4786, 0x0fc19dc6, 0x240ca1cc, 0x2de92c6f, 0x4a7484aa, 0x5cb0a9dc, 0x76f988da]

  const K24: seq<Word> :=
    [0x983e5152, 0xa831c66d, 0xb00327c8, 0xbf597fc7, 0xc6e00bf3, 0xd5a79147, 0x06ca6351, 0x14292967]

  const K32: seq<Word> :=
    [0x27b70a85, 0x2e1b2138, 0x4d2c6dfc, 0x53380d13, 0x650a7354, 0x766a0abb, 0x81c2c92e, 0x92722c85]

  const K40: seq<Word> :=
    [0xa2bfe8a1, 0xa81a664b, 0xc24b8b70, 0xc76c51a3, 0xd192e819, 0xd6990624, 0xf40e3585, 0x106aa070]

  const K48: seq<Word> :=
    [0x19a4c116, 0x1e376c08, 0x2748774c, 0x34b0bcb5, 0x391c0cb3, 0x4ed8aa4a, 0x5b9cca4f, 0x682e6ff3]

  const K56: seq<Word> :=
    [0x748f82ee, 0x78a5636f, 0x84c87814, 0x8cc70208, 0x90befffa, 0xa4506ceb, 0xbef9a3f7, 0xc67178f2]

  const FINAL := Regs(0xba7816bf, 0x8f01cfea, 0x414140de, 0x5dae2223, 0xb00361a3, 0x96177a9c, 0xb410ff61, 0xf20015ad)

  /** Eight of the constants. */
  predicate ConstantsAt(t: nat, k: seq<Word>)
    requires t + 8 <= 64
  {
    var c := Constants();
    && |k| == 8 && c[t] == k[0] && c[t + 1] == k[1] && c[t + 2] == k[2] && c[t + 3] == k[3]
    && c[t + 4] == k[4] && c[t + 5] == k[5] && c[t + 6] == k[6] && c[t + 7] == k[7]
  }

  lemma Constants0()
    ensures ConstantsAt(0, K0) && ConstantsAt(8, K8)
  {
  }

  lemma Constants16()
    ensures ConstantsAt(16, K16) && ConstantsAt(24, K24)
  {
  }

  lemma Constants32()
    ensures ConstantsAt(32, K32) && ConstantsAt(40, K40)
  {
  }

  lemma Constants48()
    ensures ConstantsAt(48, K48) && ConstantsAt(56, K56)
  {
  }

  /** Eight rounds. */
  function Eight(r: Regs, k: seq<Word>, w: seq<Word>): Regs
    requires |k| == |w| == 8
  {
    var s := Round(Round(Round(Round(r, k[0], w[0]), k[1], w[1]), k[2], w[2]), k[3], w[3]);
    Round(Round(Round(Round(s, k[4], w[4]), k[5], w[5]), k[6], w[6]), k[7], w[7])
  }

  lemma EightRounds(t: nat, k: seq<Word>, w: seq<Word>)
    requires t + 8 <= 64 && ConstantsAt(t, k) && WordsAt(t, w)
    ensures Rounds(R0, PADDED, t + 8) == Eight(Rounds(R0, PADDED, t), k, w)
  {
    hide W, Round, Rounds, Constants;
    RoundsStep(R0, PADDED, t);
    RoundsStep(R0, PADDED, t + 1);
    RoundsStep(R0, PADDED, t + 2);
    RoundsStep(R0, PADDED, t + 3);
    RoundsStep(R0, PADDED, t + 4);
    RoundsStep(R0, PADDED, t + 5);
    RoundsStep(R0, PADDED, t + 6);
    RoundsStep(R0, PADDED, t + 7);
  }

  lemma RegsFollow()
    ensures Eight(R0, K0, W0) == R8 && Eight(R8, K8, W8) == R16
    ensures Eight(R16, K16, W16) == R24 && Eight(R24, K24, W24) == R32
  {
  }

  lemma RegsFollowOn()
    ensures Eight(R32, K32, W32) == R40 && Eight(R40, K40, W40) == R48
    ensures Eight(R48, K48, W48) == R56 && Eight(R56, K56, W56) == R64
  {
  }

  lemma NoRounds()
    ensures Rounds(R0, PADDED, 0) == R0
  {
  }

  lemma AllRounds()
    ensures Rounds(R0, PADDED, 64) == R64
  {
    hide *;
    NoRounds();
    Schedule();
    Constants0();
    Constants16();
    Constants32();
    Constants48();
    RegsFollow();
    RegsFollowOn();
    EightRounds(0, K0, W0);
    EightRounds(8, K8, W8);
    EightRounds(16, K16, W16);
    EightRounds(24, K24, W24);
    EightRounds(32, K32, W32);
    EightRounds(40, K40, W40);
    EightRounds(48, K48, W48);
    EightRounds(56, K56, W56);
  }

  lemma PaddedIs()
    ensures Pad(ABC) == PADDED
  {
    hide LengthByte;
    LengthBytes();
    var p := Pad(ABC);
    assert |p| == 64;
    assert forall i :: 4 <= i < 56 ==> p[i] == 0;
    PaddedZeros();
    assert forall i :: 0 <= i < 64 ==> p[i] == PADDED[i];
  }

  lemma LengthBytes()
    ensures forall k :: 0 <= k < 7 ==> LengthByte(3, k) == 0
    ensures LengthByte(3, 7) == 0x18
  {
    assert Power(0) == 1 && Power(1) == 0x100 && Power(2) == 0x1_0000 && Power(3) == 0x100_0000;
    assert Power(4) == 0x1_0000_0000 && Power(5) == 0x100_0000_0000 && Power(6) == 0x1_0000_0000_0000;
    assert Power(7) == 0x100_0000_0000_0000;
  }

  lemma OneBlock(msg: seq<Octet>)
    requires |Pad(msg)| == CHUNK
    ensures Sha(msg) == Digest(Words(Plus(Initial(), Rounds(Initial(), Pad(msg), 64))))
  {
    hide Digest, Words, Plus, Rounds, Pad, Initial;
    var p := Pad(msg);
    assert Block(p, 0) == p;
    assert Hash(p, 0) == Initial();
    assert Hash(p, 1) == Compress(Hash(p, 0), Block(p, 0));
  }

  const DIGEST: seq<Octet> :=
    [0xba, 0x78, 0x16, 0xbf, 0x8f, 0x01, 0xcf, 0xea] + [0x41, 0x41, 0x40, 0xde, 0x5d, 0xae, 0x22, 0x23] +
    [0xb0, 0x03, 0x61, 0xa3, 0x96, 0x17, 0x7a, 0x9c] + [0xb4, 0x10, 0xff, 0x61, 0xf2, 0x00, 0x15, 0xad]

  lemma Added()
    ensures Plus(R0, R64) == FINAL
  {
  }

  lemma DigestIs()
    ensures Digest(Words(FINAL)) == DIGEST
  {
  }

  /** SHA-256 of "abc" is the digest the standard's example gives. */
  lemma Example()
    ensures Sha(ABC) == DIGEST
  {
    assert Initial() == R0;
    hide *;
    PaddedIs();
    OneBlock(ABC);
    AllRounds();
    Added();
    DigestIs();
  }
}
