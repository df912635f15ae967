/** Where the constants of SHA-256 come from: sections 4.2.2 and 5.3.3 of FIPS 180-4. */
module Sha256Roots {
  import opened Sha256

  /** The first 64 primes. */
  const PRIMES: seq<nat> :=
    [2, 3, 5, 7, 11, 13, 17, 19] +
    [23, 29, 31, 37, 41, 43, 47, 53] +
    [59, 61, 67, 71, 73, 79, 83, 89] +
    [97, 101, 103, 107, 109, 113, 127, 131] +
    [137, 139, 149, 151, 157, 163, 167, 173] +
    [179, 181, 191, 193, 197, 199, 211, 223] +
    [227, 229, 233, 239, 241, 251, 257, 263] +
    [269, 271, 277, 281, 283, 293, 307, 311]

  function Square(x: nat): nat
  {
    x * x
  }

  function Cube(x: nat): nat
  {
    x * x * x
  }

  /** The integer part of the square root of a prime up to 19. */
  function Root2(p: nat): nat
  {
    if p < 4 then 1 else if p < 9 then 2 else if p < 16 then 3 else 4
  }

  /** The integer part of the cube root of a prime up to 311. */
  function Root3(p: nat): nat
  {
    if p < 8 then 1 else if p < 27 then 2 else if p < 64 then 3 else if p < 125 then 4 else if p < 216 then 5 else 6
  }

  /** The first 32 bits of the fractional part of the square root of p are k. */
  predicate SquareFraction(p: nat, k: nat)
  {
    var x := Root2(p) * 0x1_0000_0000 + k;
    Square(x) <= p * 0x1_0000_0000_0000_0000 < Square(x + 1)
  }

  /** The first 32 bits of the fractional part of the cube root of p are k. */
  predicate CubeFraction(p: nat, k: nat)
  {
    var x := Root3(p) * 0x1_0000_0000 + k;
    Cube(x) <= p * 0x1_0000_0000_0000_0000_0000_0000 < Cube(x + 1)
  }

  /** Constant t is the fraction of the cube root of prime t. */
  predicate ConstantIsRoot(t: nat)
    requires t < 64
  {
    CubeFraction(PRIMES[t], Constants()[t] as nat)
  }

  lemma ConstantAt(t: nat, p: nat, k: nat)
    requires t < 64 && PRIMES[t] == p && Constants()[t] as nat == k && CubeFraction(p, k)
    ensures ConstantIsRoot(t)
  {
    hide CubeFraction, Constants;
  }

  lemma Constants0(t: nat)
    requires 0 <= t < 8
    ensures ConstantIsRoot(t)
  {
    hide ConstantIsRoot;
    ConstantAt(0, 2, 0x428a2f98);
    ConstantAt(1, 3, 0x71374491);
    ConstantAt(2, 5, 0xb5c0fbcf);
    ConstantAt(3, 7, 0xe9b5dba5);
    ConstantAt(4, 11, 0x3956c25b);
    ConstantAt(5, 13, 0x59f111f1);
    ConstantAt(6, 17, 0x923f82a4);
    ConstantAt(7, 19, 0xab1c5ed5);
  }

  lemma Constants8(t: nat)
    requires 8 <= t < 16
    ensures ConstantIsRoot(t)
  {
    hide ConstantIsRoot;
    ConstantAt(8, 23, 0xd807aa98);
    ConstantAt(9, 29, 0x12835b01);
    ConstantAt(10, 31, 0x243185be);
    ConstantAt(11, 37, 0x550c7dc3);
    ConstantAt(12, 41, 0x72be5d74);
    ConstantAt(13, 43, 0x80deb1fe);
    ConstantAt(14, 47, 0x9bdc06a7);
    ConstantAt(15, 53, 0xc19bf174);
  }

  lemma Constants16(t: nat)
    requires 16 <= t < 24
    ensures ConstantIsRoot(t)
  {
    hide ConstantIsRoot;
    ConstantAt(16, 59, 0xe49b69c1);
    ConstantAt(17, 61, 0xefbe4786);
    ConstantAt(18, 67, 0x0fc19dc6);
    ConstantAt(19, 71, 0x240ca1cc);
    ConstantAt(20, 73, 0x2de92c6f);
    ConstantAt(21, 79, 0x4a7484aa);
    ConstantAt(22, 83, 0x5cb0a9dc);
    ConstantAt(23, 89, 0x76f988da);
  }

  lemma Constants24(t: nat)
    requires 24 <= t < 32
    ensures ConstantIsRoot(t)
  {
    hide ConstantIsRoot;
    ConstantAt(24, 97, 0x983e5152);
    ConstantAt(25, 101, 0xa831c66d);
    ConstantAt(26, 103, 0xb00327c8);
    ConstantAt(27, 107, 0xbf597fc7);
    ConstantAt(28, 109, 0xc6e00bf3);
    ConstantAt(29, 113, 0xd5a79147);
    ConstantAt(30, 127, 0x06ca6351);
    ConstantAt(31, 131, 0x14292967);
  }

  lemma Constants32(t: nat)
    requires 32 <= t < 40
    ensures ConstantIsRoot(t)
  {
    hide ConstantIsRoot;
    ConstantAt(32, 137, 0x27b70a85);
    ConstantAt(33, 139, 0x2e1b2138);
    ConstantAt(34, 149, 0x4d2c6dfc);
    ConstantAt(35, 151, 0x53380d13);
    ConstantAt(36, 157, 0x650a7354);
    ConstantAt(37, 163, 0x766a0abb);
    ConstantAt(38, 167, 0x81c2c92e);
    ConstantAt(39, 173, 0x92722c85);
  }

  lemma Constants40(t: nat)
    requires 40 <= t < 48
    ensures ConstantIsRoot(t)
  {
    hide ConstantIsRoot;
    ConstantAt(40, 179, 0xa2bfe8a1);
    ConstantAt(41, 181, 0xa81a664b);
    ConstantAt(42, 191, 0xc24b8b70);
    ConstantAt(43, 193, 0xc76c51a3);
    ConstantAt(44, 197, 0xd192e819);
    ConstantAt(45, 199, 0xd6990624);
    ConstantAt(46, 211, 0xf40e3585);
    ConstantAt(47, 223, 0x106aa070);
  }

  lemma Constants48(t: nat)
    requires 48 <= t < 56
    ensures ConstantIsRoot(t)
  {
    hide ConstantIsRoot;
    ConstantAt(48, 227, 0x19a4c116);
    ConstantAt(49, 229, 0x1e376c08);
    ConstantAt(50, 233, 0x2748774c);
    ConstantAt(51, 239, 0x34b0bcb5);
    ConstantAt(52, 241, 0x391c0cb3);
    ConstantAt(53, 251, 0x4ed8aa4a);
    ConstantAt(54, 257, 0x5b9cca4f);
    ConstantAt(55, 263, 0x682e6ff3);
  }

  lemma Constants56(t: nat)
    requires 56 <= t < 64
    ensures ConstantIsRoot(t)
  {
    hide ConstantIsRoot;
    ConstantAt(56, 269, 0x748f82ee);
    ConstantAt(57, 271, 0x78a5636f);
    ConstantAt(58, 277, 0x84c87814);
    ConstantAt(59, 281, 0x8cc70208);
    ConstantAt(60, 283, 0x90befffa);
    ConstantAt(61, 293, 0xa4506ceb);
    ConstantAt(62, 307, 0xbef9a3f7);
    ConstantAt(63, 311, 0xc67178f2);
  }

  /** Every constant of the compression function is the one the standard derives. */
  lemma ConstantsAreRoots(t: nat)
    requires t < 64
    ensures ConstantIsRoot(t)
  {
    hide ConstantIsRoot;
    match t / 8
    case 0 => Constants0(t);
    case 1 => Constants8(t);
    case 2 => Constants16(t);
    case 3 => Constants24(t);
    case 4 => Constants32(t);
    case 5 => Constants40(t);
    case 6 => Constants48(t);
    case _ => Constants56(t);
  }

  /** Every word of the initial state is the fraction of the square root of a prime. */
  lemma InitialIsRoots()
    ensures var r := Initial();
      && SquareFraction(PRIMES[0], r.a as nat) && SquareFraction(PRIMES[1], r.b as nat)
      && SquareFraction(PRIMES[2], r.c as nat) && SquareFraction(PRIMES[3], r.d as nat)
      && SquareFraction(PRIMES[4], r.e as nat) && SquareFraction(PRIMES[5], r.f as nat)
      && SquareFraction(PRIMES[6], r.g as nat) && SquareFraction(PRIMES[7], r.h as nat)
  {
    InitialWords();
    assert SquareFraction(2, 0x6a09e667);
    assert SquareFraction(3, 0xbb67ae85);
    assert SquareFraction(5, 0x3c6ef372);
    assert SquareFraction(7, 0xa54ff53a);
    assert SquareFraction(11, 0x510e527f);
    assert SquareFraction(13, 0x9b05688c);
    assert SquareFraction(17, 0x1f83d9ab);
    assert SquareFraction(19, 0x5be0cd19);
    hide SquareFraction, Initial;
  }

  lemma InitialWords()
    ensures var r := Initial();
      && r.a as nat == 0x6a09e667 && r.b as nat == 0xbb67ae85
      && r.c as nat == 0x3c6ef372 && r.d as nat == 0xa54ff53a
      && r.e as nat == 0x510e527f && r.f as nat == 0x9b05688c
      && r.g as nat == 0x1f83d9ab && r.h as nat == 0x5be0cd19
  {
  }

  /**
   The mixing functions are made of rotations, shifts and exclusive or, so
   single bits tell them apart: where the lowest bit goes, and where the
   highest one goes under the shifts.
   */
  lemma MixedBits()
    ensures BigSigma0(1) == 0x40080400 && BigSigma1(1) == 0x04200080
    ensures Sigma0(1) == 0x02004000 && Sigma0(0x80000000) == 0x11002000
    ensures Sigma1(1) == 0x0000a000 && Sigma1(0x80000000) == 0x00205000
  {
  }
}
