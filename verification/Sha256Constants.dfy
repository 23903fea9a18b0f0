/**
 The round constants of SHA-256 from their definition in section 4.2.2 of FIPS 180-4: the first 32 bits of the
 fractional parts of the cube roots of the first 64 primes.
 */
module Sha256Constants {
  import opened Common

  function Cube(n: nat): nat {
    n * n * n
  }

  /** The cube root of `p` is `whole`, and `fraction` the first 32 bits after the point. */
  predicate CubeRoot(p: nat, whole: nat, fraction: uint32) {
    var n := whole * 0x1_0000_0000 + fraction;
    Cube(n) <= p * 0x1_0000_0000_0000_0000_0000_0000 < Cube(n + 1)
  }

  ghost predicate IsFraction(p: nat, fraction: uint32) {
    exists whole: nat :: CubeRoot(p, whole, fraction)
  }

  ghost predicate AreFractions(primes: seq<nat>, constants: seq<uint32>) {
    |primes| == |constants| && forall i :: 0 <= i < |primes| ==> IsFraction(primes[i], constants[i])
  }

  const PRIMES_0: seq<nat> := [2, 3, 5, 7, 11, 13, 17, 19]
  const ROW_0: seq<uint32> :=
    [0x428a2f98, 0x71374491, 0xb5c0fbcf, 0xe9b5dba5, 0x3956c25b, 0x59f111f1, 0x923f82a4, 0xab1c5ed5]

  const PRIMES_1: seq<nat> := [23, 29, 31, 37, 41, 43, 47, 53]
  const ROW_1: seq<uint32> :=
    [0xd807aa98, 0x12835b01, 0x243185be, 0x550c7dc3, 0x72be5d74, 0x80deb1fe, 0x9bdc06a7, 0xc19bf174]

  const PRIMES_2: seq<nat> := [59, 61, 67, 71, 73, 79, 83, 89]
  const ROW_2: seq<uint32> :=
    [0xe49b69c1, 0xefbe4786, 0x0fc19dc6, 0x240ca1cc, 0x2de92c6f, 0x4a7484aa, 0x5cb0a9dc, 0x76f988da]

  const PRIMES_3: seq<nat> := [97, 101, 103, 107, 109, 113, 127, 131]
  const ROW_3: seq<uint32> :=
    [0x983e5152, 0xa831c66d, 0xb00327c8, 0xbf597fc7, 0xc6e00bf3, 0xd5a79147, 0x06ca6351, 0x14292967]

  const PRIMES_4: seq<nat> := [137, 139, 149, 151, 157, 163, 167, 173]
  const ROW_4: seq<uint32> :=
    [0x27b70a85, 0x2e1b2138, 0x4d2c6dfc, 0x53380d13, 0x650a7354, 0x766a0abb, 0x81c2c92e, 0x92722c85]

  const PRIMES_5: seq<nat> := [179, 181, 191, 193, 197, 199, 211, 223]
  const ROW_5: seq<uint32> :=
    [0xa2bfe8a1, 0xa81a664b, 0xc24b8b70, 0xc76c51a3, 0xd192e819, 0xd6990624, 0xf40e3585, 0x106aa070]

  const PRIMES_6: seq<nat> := [227, 229, 233, 239, 241, 251, 257, 263]
  const ROW_6: seq<uint32> :=
    [0x19a4c116, 0x1e376c08, 0x2748774c, 0x34b0bcb5, 0x391c0cb3, 0x4ed8aa4a, 0x5b9cca4f, 0x682e6ff3]

  const PRIMES_7: seq<nat> := [269, 271, 277, 281, 283, 293, 307, 311]
  const ROW_7: seq<uint32> :=
    [0x748f82ee, 0x78a5636f, 0x84c87814, 0x8cc70208, 0x90befffa, 0xa4506ceb, 0xbef9a3f7, 0xc67178f2]

  const PRIMES: seq<nat> := PRIMES_0 + PRIMES_1 + PRIMES_2 + PRIMES_3 + PRIMES_4 + PRIMES_5 + PRIMES_6 + PRIMES_7

  /** The table of the firmware. */
  const ROUND_CONSTANTS: seq<uint32> := ROW_0 + ROW_1 + ROW_2 + ROW_3 + ROW_4 + ROW_5 + ROW_6 + ROW_7

  lemma Row0()
    ensures AreFractions(PRIMES_0, ROW_0)
  {
    assert CubeRoot(2, 1, 0x428a2f98);
    assert CubeRoot(3, 1, 0x71374491);
    assert CubeRoot(5, 1, 0xb5c0fbcf);
    assert CubeRoot(7, 1, 0xe9b5dba5);
    assert CubeRoot(11, 2, 0x3956c25b);
    assert CubeRoot(13, 2, 0x59f111f1);
    assert CubeRoot(17, 2, 0x923f82a4);
    assert CubeRoot(19, 2, 0xab1c5ed5);
  }

  lemma Row1()
    ensures AreFractions(PRIMES_1, ROW_1)
  {
    assert CubeRoot(23, 2, 0xd807aa98);
    assert CubeRoot(29, 3, 0x12835b01);
    assert CubeRoot(31, 3, 0x243185be);
    assert CubeRoot(37, 3, 0x550c7dc3);
    assert CubeRoot(41, 3, 0x72be5d74);
    assert CubeRoot(43, 3, 0x80deb1fe);
    assert CubeRoot(47, 3, 0x9bdc06a7);
    assert CubeRoot(53, 3, 0xc19bf174);
  }

  lemma Row2()
    ensures AreFractions(PRIMES_2, ROW_2)
  {
    assert CubeRoot(59, 3, 0xe49b69c1);
    assert CubeRoot(61, 3, 0xefbe4786);
    assert CubeRoot(67, 4, 0x0fc19dc6);
    assert CubeRoot(71, 4, 0x240ca1cc);
    assert CubeRoot(73, 4, 0x2de92c6f);
    assert CubeRoot(79, 4, 0x4a7484aa);
    assert CubeRoot(83, 4, 0x5cb0a9dc);
    assert CubeRoot(89, 4, 0x76f988da);
  }

  lemma Row3()
    ensures AreFractions(PRIMES_3, ROW_3)
  {
    assert CubeRoot(97, 4, 0x983e5152);
    assert CubeRoot(101, 4, 0xa831c66d);
    assert CubeRoot(103, 4, 0xb00327c8);
    assert CubeRoot(107, 4, 0xbf597fc7);
    assert CubeRoot(109, 4, 0xc6e00bf3);
    assert CubeRoot(113, 4, 0xd5a79147);
    assert CubeRoot(127, 5, 0x06ca6351);
    assert CubeRoot(131, 5, 0x14292967);
  }

  lemma Row4()
    ensures AreFractions(PRIMES_4, ROW_4)
  {
    assert CubeRoot(137, 5, 0x27b70a85);
    assert CubeRoot(139, 5, 0x2e1b2138);
    assert CubeRoot(149, 5, 0x4d2c6dfc);
    assert CubeRoot(151, 5, 0x53380d13);
    assert CubeRoot(157, 5, 0x650a7354);
    assert CubeRoot(163, 5, 0x766a0abb);
    assert CubeRoot(167, 5, 0x81c2c92e);
    assert CubeRoot(173, 5, 0x92722c85);
  }

  lemma Row5()
    ensures AreFractions(PRIMES_5, ROW_5)
  {
    assert CubeRoot(179, 5, 0xa2bfe8a1);
    assert CubeRoot(181, 5, 0xa81a664b);
    assert CubeRoot(191, 5, 0xc24b8b70);
    assert CubeRoot(193, 5, 0xc76c51a3);
    assert CubeRoot(197, 5, 0xd192e819);
    assert CubeRoot(199, 5, 0xd6990624);
    assert CubeRoot(211, 5, 0xf40e3585);
    assert CubeRoot(223, 6, 0x106aa070);
  }

  lemma Row6()
    ensures AreFractions(PRIMES_6, ROW_6)
  {
    assert CubeRoot(227, 6, 0x19a4c116);
    assert CubeRoot(229, 6, 0x1e376c08);
    assert CubeRoot(233, 6, 0x2748774c);
    assert CubeRoot(239, 6, 0x34b0bcb5);
    assert CubeRoot(241, 6, 0x391c0cb3);
    assert CubeRoot(251, 6, 0x4ed8aa4a);
    assert CubeRoot(257, 6, 0x5b9cca4f);
    assert CubeRoot(263, 6, 0x682e6ff3);
  }

  lemma Row7()
    ensures AreFractions(PRIMES_7, ROW_7)
  {
    assert CubeRoot(269, 6, 0x748f82ee);
    assert CubeRoot(271, 6, 0x78a5636f);
    assert CubeRoot(277, 6, 0x84c87814);
    assert CubeRoot(281, 6, 0x8cc70208);
    assert CubeRoot(283, 6, 0x90befffa);
    assert CubeRoot(293, 6, 0xa4506ceb);
    assert CubeRoot(307, 6, 0xbef9a3f7);
    assert CubeRoot(311, 6, 0xc67178f2);
  }

  lemma Joined(p: seq<nat>, k: seq<uint32>, q: seq<nat>, l: seq<uint32>)
    requires AreFractions(p, k) && AreFractions(q, l)
    ensures AreFractions(p + q, k + l)
  {
  }

  /** The table holds the fractions that the standard defines. */
  lemma ConstantsAreFractions()
    ensures AreFractions(PRIMES, ROUND_CONSTANTS)
  {
    var p, k := PRIMES_0, ROW_0;
    Row0();
    Row1();
    Joined(p, k, PRIMES_1, ROW_1);
    p, k := p + PRIMES_1, k + ROW_1;
    Row2();
    Joined(p, k, PRIMES_2, ROW_2);
    p, k := p + PRIMES_2, k + ROW_2;
    Row3();
    Joined(p, k, PRIMES_3, ROW_3);
    p, k := p + PRIMES_3, k + ROW_3;
    Row4();
    Joined(p, k, PRIMES_4, ROW_4);
    p, k := p + PRIMES_4, k + ROW_4;
    Row5();
    Joined(p, k, PRIMES_5, ROW_5);
    p, k := p + PRIMES_5, k + ROW_5;
    Row6();
    Joined(p, k, PRIMES_6, ROW_6);
    p, k := p + PRIMES_6, k + ROW_6;
    Row7();
    Joined(p, k, PRIMES_7, ROW_7);
    p, k := p + PRIMES_7, k + ROW_7;
  }

  lemma CubeGrows(m: nat, n: nat)
    requires m <= n
    ensures Cube(m) <= Cube(n)
  {
    assert m * m <= n * n by {
      assert m * m <= m * n <= n * n;
    }
    assert m * m * m <= n * n * m <= n * n * n;
  }

  /** A number has one such fraction only. */
  lemma FractionUnique(p: nat, j: uint32, k: uint32)
    requires IsFraction(p, j) && IsFraction(p, k)
    ensures j == k
  {
    var v: nat :| CubeRoot(p, v, j);
    var w: nat :| CubeRoot(p, w, k);
    var m, n := v * 0x1_0000_0000 + j, w * 0x1_0000_0000 + k;
    if m < n {
      CubeGrows(m + 1, n);
    } else if n < m {
      CubeGrows(n + 1, m);
    }
  }

  // ---------- the initial hash value ----------

  function Square(n: nat): nat {
    n * n
  }

  /** The square root of `p` is `whole`, and `fraction` the first 32 bits after the point. */
  predicate SquareRoot(p: nat, whole: nat, fraction: uint32) {
    var n := whole * 0x1_0000_0000 + fraction;
    Square(n) <= p * 0x1_0000_0000_0000_0000 < Square(n + 1)
  }

  ghost predicate IsRootFraction(p: nat, fraction: uint32) {
    exists whole: nat :: SquareRoot(p, whole, fraction)
  }

  /** The words with which the firmware starts. */
  const INITIAL_WORDS: seq<uint32> :=
    [0x6a09e667, 0xbb67ae85, 0x3c6ef372, 0xa54ff53a, 0x510e527f, 0x9b05688c, 0x1f83d9ab, 0x5be0cd19]

  /** They are the fractions of the square roots of the first eight primes (section 5.3.3 of FIPS 180-4). */
  lemma InitialWordsAreFractions()
    ensures |INITIAL_WORDS| == 8
    ensures forall i :: 0 <= i < 8 ==> IsRootFraction(PRIMES_0[i], INITIAL_WORDS[i])
  {
    assert SquareRoot(2, 1, 0x6a09e667);
    assert SquareRoot(3, 1, 0xbb67ae85);
    assert SquareRoot(5, 2, 0x3c6ef372);
    assert SquareRoot(7, 2, 0xa54ff53a);
    assert SquareRoot(11, 3, 0x510e527f);
    assert SquareRoot(13, 3, 0x9b05688c);
    assert SquareRoot(17, 4, 0x1f83d9ab);
    assert SquareRoot(19, 4, 0x5be0cd19);
  }
}
