/** The functions on 32-bit words in SHA-256, as FIPS 180-4 defines them and as the firmware's macros compute them. */
module Sha256Words {

  // ---------- section 4.1.2 of FIPS 180-4 ----------

  /** Where `x` has a one, the bit of `y`, else the bit of `z`. */
  function Choose(x: bv32, y: bv32, z: bv32): bv32 {
    (x & y) | (!x & z)
  }

  /** The bits that at least two have. */
  function Majority(x: bv32, y: bv32, z: bv32): bv32 {
    (x & y) | (x & z) | (y & z)
  }

  function BigSigma0(x: bv32): bv32 {
    x.RotateRight(2) ^ x.RotateRight(13) ^ x.RotateRight(22)
  }

  function BigSigma1(x: bv32): bv32 {
    x.RotateRight(6) ^ x.RotateRight(11) ^ x.RotateRight(25)
  }

  function SmallSigma0(x: bv32): bv32 {
    x.RotateRight(7) ^ x.RotateRight(18) ^ (x >> 3)
  }

  function SmallSigma1(x: bv32): bv32 {
    x.RotateRight(17) ^ x.RotateRight(19) ^ (x >> 10)
  }

  // ---------- the same functions bit by bit ----------

  /** Where `x` has ones it is `y` ... */
  lemma ChooseWhereSet(x: bv32, y: bv32, z: bv32)
    ensures Choose(x, y, z) & x == y & x
  {
    assert ((x & y) | (!x & z)) & x == y & x;
  }

  /** ... and elsewhere `z`. */
  lemma ChooseWhereClear(x: bv32, y: bv32, z: bv32)
    ensures Choose(x, y, z) & !x == z & !x
  {
    assert ((x & y) | (!x & z)) & !x == z & !x;
  }

  /** Where `x` and `y` agree it is their bit ... */
  lemma MajorityWhereEqual(x: bv32, y: bv32, z: bv32)
    ensures Majority(x, y, z) & !(x ^ y) == x & !(x ^ y)
  {
    assert ((x & y) | (x & z) | (y & z)) & !(x ^ y) == x & !(x ^ y);
  }

  /** ... and elsewhere the bit of `z`. */
  lemma MajorityWhereDifferent(x: bv32, y: bv32, z: bv32)
    ensures Majority(x, y, z) & (x ^ y) == z & (x ^ y)
  {
    assert ((x & y) | (x & z) | (y & z)) & (x ^ y) == z & (x ^ y);
  }

  // Bit `n` of each sigma in terms of three bits of `x`; positions of type `bv5` wrap around modulo 32.

  lemma BigSigma0Bit(x: bv32, n: bv5)
    ensures (BigSigma0(x) >> n) & 1 == ((x >> (n + 2)) ^ (x >> (n + 13)) ^ (x >> (n + 22))) & 1
  {
    assert ((x.RotateRight(2) ^ x.RotateRight(13) ^ x.RotateRight(22)) >> n) & 1
        == ((x >> (n + 2)) ^ (x >> (n + 13)) ^ (x >> (n + 22))) & 1;
  }

  lemma BigSigma1Bit(x: bv32, n: bv5)
    ensures (BigSigma1(x) >> n) & 1 == ((x >> (n + 6)) ^ (x >> (n + 11)) ^ (x >> (n + 25))) & 1
  {
    assert ((x.RotateRight(6) ^ x.RotateRight(11) ^ x.RotateRight(25)) >> n) & 1
        == ((x >> (n + 6)) ^ (x >> (n + 11)) ^ (x >> (n + 25))) & 1;
  }

  lemma SmallSigma0Bit(x: bv32, n: bv5)
    ensures (SmallSigma0(x) >> n) & 1 == ((x >> (n + 7)) ^ (x >> (n + 18)) ^ (if n < 29 then x >> (n + 3) else 0)) & 1
  {
    assert ((x.RotateRight(7) ^ x.RotateRight(18) ^ (x >> 3)) >> n) & 1
        == ((x >> (n + 7)) ^ (x >> (n + 18)) ^ (if n < 29 then x >> (n + 3) else 0)) & 1;
  }

  lemma SmallSigma1Bit(x: bv32, n: bv5)
    ensures (SmallSigma1(x) >> n) & 1 == ((x >> (n + 17)) ^ (x >> (n + 19)) ^ (if n < 22 then x >> (n + 10) else 0)) & 1
  {
    assert ((x.RotateRight(17) ^ x.RotateRight(19) ^ (x >> 10)) >> n) & 1
        == ((x >> (n + 17)) ^ (x >> (n + 19)) ^ (if n < 22 then x >> (n + 10) else 0)) & 1;
  }

  // ---------- the firmware's macros, with ROTRIGHT expanded ----------

  function CH(x: bv32, y: bv32, z: bv32): bv32 {
    (x & y) ^ (!x & z)
  }

  function MAJ(x: bv32, y: bv32, z: bv32): bv32 {
    (x & y) ^ (x & z) ^ (y & z)
  }

  function EP0(x: bv32): bv32 {
    ((x >> 2) | (x << 30)) ^ ((x >> 13) | (x << 19)) ^ ((x >> 22) | (x << 10))
  }

  function EP1(x: bv32): bv32 {
    ((x >> 6) | (x << 26)) ^ ((x >> 11) | (x << 21)) ^ ((x >> 25) | (x << 7))
  }

  function SIG0(x: bv32): bv32 {
    ((x >> 7) | (x << 25)) ^ ((x >> 18) | (x << 14)) ^ (x >> 3)
  }

  function SIG1(x: bv32): bv32 {
    ((x >> 17) | (x << 15)) ^ ((x >> 19) | (x << 13)) ^ (x >> 10)
  }

  // ---------- they agree ----------

  lemma ChIsChoose(x: bv32, y: bv32, z: bv32)
    ensures CH(x, y, z) == Choose(x, y, z)
  {
    assert (x & y) ^ (!x & z) == (x & y) | (!x & z);
  }

  lemma MajIsMajority(x: bv32, y: bv32, z: bv32)
    ensures MAJ(x, y, z) == Majority(x, y, z)
  {
    assert (x & y) ^ (x & z) ^ (y & z) == (x & y) | (x & z) | (y & z);
  }

  lemma Ep0IsBigSigma0(x: bv32)
    ensures EP0(x) == BigSigma0(x)
  {
    assert ((x >> 2) | (x << 30)) ^ ((x >> 13) | (x << 19)) ^ ((x >> 22) | (x << 10))
        == x.RotateRight(2) ^ x.RotateRight(13) ^ x.RotateRight(22);
  }

  lemma Ep1IsBigSigma1(x: bv32)
    ensures EP1(x) == BigSigma1(x)
  {
    assert ((x >> 6) | (x << 26)) ^ ((x >> 11) | (x << 21)) ^ ((x >> 25) | (x << 7))
        == x.RotateRight(6) ^ x.RotateRight(11) ^ x.RotateRight(25);
  }

  lemma Sig0IsSmallSigma0(x: bv32)
    ensures SIG0(x) == SmallSigma0(x)
  {
    assert ((x >> 7) | (x << 25)) ^ ((x >> 18) | (x << 14)) ^ (x >> 3)
        == x.RotateRight(7) ^ x.RotateRight(18) ^ (x >> 3);
  }

  lemma Sig1IsSmallSigma1(x: bv32)
    ensures SIG1(x) == SmallSigma1(x)
  {
    assert ((x >> 17) | (x << 15)) ^ ((x >> 19) | (x << 13)) ^ (x >> 10)
        == x.RotateRight(17) ^ x.RotateRight(19) ^ (x >> 10);
  }

  /** Each macro is the function of the standard. */
  lemma MacrosAreFips(x: bv32, y: bv32, z: bv32)
    ensures CH(x, y, z) == Choose(x, y, z) && MAJ(x, y, z) == Majority(x, y, z)
    ensures EP0(x) == BigSigma0(x) && EP1(x) == BigSigma1(x)
    ensures SIG0(x) == SmallSigma0(x) && SIG1(x) == SmallSigma1(x)
  {
    ChIsChoose(x, y, z);
    MajIsMajority(x, y, z);
    Ep0IsBigSigma0(x);
    Ep1IsBigSigma1(x);
    Sig0IsSmallSigma0(x);
    Sig1IsSmallSigma1(x);
  }
}
