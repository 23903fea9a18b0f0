/**
 The compression of one block: the message schedule and the rounds of section 6.2.2 of FIPS 180-4 as recursive
 definitions over the operations on words, and the operations themselves, as the standard defines them and as the
 firmware's macros compute them.
 */
module Sha256Rounds {
  import opened Common
  import opened Sha256Constants
  import opened Sha256Words

  type Hash = s: seq<uint32> | |s| == 8 witness [0, 0, 0, 0, 0, 0, 0, 0]

  const BLOCK_LENGTH := 64

  // ---------- schedule and rounds ----------

  /** The operations on words and the round constants; there are as many rounds as constants. */
  datatype WordOps = WordOps(
    add: (uint32, uint32) -> uint32,
    ch: (uint32, uint32, uint32) -> uint32,
    maj: (uint32, uint32, uint32) -> uint32,
    ep0: uint32 -> uint32,
    ep1: uint32 -> uint32,
    sig0: uint32 -> uint32,
    sig1: uint32 -> uint32,
    k: seq<uint32>)

  /** Four bytes as a word, most significant first. */
  function Word(b0: byte, b1: byte, b2: byte, b3: byte): uint32 {
    b0 * 0x100_0000 + b1 * 0x1_0000 + b2 * 0x100 + b3
  }

  function Schedule(ops: WordOps, block: seq<byte>, t: nat): uint32
    requires |block| == BLOCK_LENGTH
  {
    if t < 16 then Word(block[4 * t], block[4 * t + 1], block[4 * t + 2], block[4 * t + 3])
    else
      ops.add(ops.add(ops.add(ops.sig1(Schedule(ops, block, t - 2)), Schedule(ops, block, t - 7)),
                      ops.sig0(Schedule(ops, block, t - 15))),
              Schedule(ops, block, t - 16))
  }

  /** The eight working variables. */
  datatype Work = Work(a: uint32, b: uint32, c: uint32, d: uint32, e: uint32, f: uint32, g: uint32, h: uint32)

  function Round(ops: WordOps, v: Work, k: uint32, w: uint32): Work {
    var t1 := ops.add(ops.add(ops.add(ops.add(v.h, ops.ep1(v.e)), ops.ch(v.e, v.f, v.g)), k), w);
    var t2 := ops.add(ops.ep0(v.a), ops.maj(v.a, v.b, v.c));
    Work(ops.add(t1, t2), v.a, v.b, v.c, ops.add(v.d, t1), v.e, v.f, v.g)
  }

  function Rounds(ops: WordOps, h: Hash, w: seq<uint32>, t: nat): Work
    requires t <= |ops.k| == |w|
  {
    if t == 0 then Work(h[0], h[1], h[2], h[3], h[4], h[5], h[6], h[7])
    else Round(ops, Rounds(ops, h, w, t - 1), ops.k[t - 1], w[t - 1])
  }

  /** The words of the schedule, one for each round. */
  function Words(ops: WordOps, block: seq<byte>): (w: seq<uint32>)
    requires |block| == BLOCK_LENGTH
    ensures |w| == |ops.k| && forall t: nat :: t < |w| ==> w[t] == Schedule(ops, block, t)
  {
    seq(|ops.k|, (t: nat) => Schedule(ops, block, t))
  }

  /** The next chaining value. */
  function Compress(ops: WordOps, h: Hash, block: seq<byte>): Hash
    requires |block| == BLOCK_LENGTH
  {
    AddAll(ops, h, Rounds(ops, h, Words(ops, block), |ops.k|))
  }

  function AddAll(ops: WordOps, h: Hash, v: Work): Hash {
    [ops.add(h[0], v.a), ops.add(h[1], v.b), ops.add(h[2], v.c), ops.add(h[3], v.d),
     ops.add(h[4], v.e), ops.add(h[5], v.f), ops.add(h[6], v.g), ops.add(h[7], v.h)]
  }

  // ---------- the operations of FIPS 180-4 ----------

  /** Addition modulo 2^32. */
  function Add(x: uint32, y: uint32): uint32 {
    (x + y) % 0x1_0000_0000
  }

  // ---------- both sets of operations ----------

  function OnWord(f: bv32 -> bv32, x: uint32): uint32 {
    f(x as bv32) as int
  }

  function OnWords(f: (bv32, bv32, bv32) -> bv32, x: uint32, y: uint32, z: uint32): uint32 {
    f(x as bv32, y as bv32, z as bv32) as int
  }

  /** The operations of sections 4.1.2 and 4.2.2 of FIPS 180-4. */
  function FipsOps(): (ops: WordOps)
    ensures |ops.k| == 64
  {
    WordOps(Add,
            (x, y, z) => OnWords(Choose, x, y, z), (x, y, z) => OnWords(Majority, x, y, z),
            x => OnWord(BigSigma0, x), x => OnWord(BigSigma1, x),
            x => OnWord(SmallSigma0, x), x => OnWord(SmallSigma1, x), ROUND_CONSTANTS)
  }

  /** The operations of the firmware. */
  function FirmwareOps(): (ops: WordOps)
    ensures |ops.k| == 64
  {
    WordOps(Add,
            (x, y, z) => OnWords(CH, x, y, z), (x, y, z) => OnWords(MAJ, x, y, z),
            x => OnWord(EP0, x), x => OnWord(EP1, x),
            x => OnWord(SIG0, x), x => OnWord(SIG1, x), ROUND_CONSTANTS)
  }

  /** Which function of the standard stands in which place, and that addition is modulo 2^32. */
  lemma FipsOperations(x: uint32, y: uint32, z: uint32)
    ensures FipsOps().add(x, y) == (x + y) % 0x1_0000_0000
    ensures FipsOps().ch(x, y, z) == OnWords(Choose, x, y, z) && FipsOps().maj(x, y, z) == OnWords(Majority, x, y, z)
    ensures FipsOps().ep0(x) == OnWord(BigSigma0, x) && FipsOps().ep1(x) == OnWord(BigSigma1, x)
    ensures FipsOps().sig0(x) == OnWord(SmallSigma0, x) && FipsOps().sig1(x) == OnWord(SmallSigma1, x)
    ensures FipsOps().k == ROUND_CONSTANTS && |FipsOps().k| == 64
  {
  }

  ghost predicate AddsModulo(ops: WordOps) {
    forall x, y {:trigger Add(x, y)} :: ops.add(x, y) == Add(x, y)
  }

  /** Word `t` of the schedule as one sum modulo 2^32. */
  lemma ScheduleSum(ops: WordOps, block: seq<byte>, t: nat)
    requires AddsModulo(ops) && |block| == 64 && t >= 16
    ensures Schedule(ops, block, t)
         == (ops.sig1(Schedule(ops, block, t - 2)) + Schedule(ops, block, t - 7)
             + ops.sig0(Schedule(ops, block, t - 15)) + Schedule(ops, block, t - 16)) % 0x1_0000_0000
  {
    FourSummands(ops, ops.sig1(Schedule(ops, block, t - 2)), Schedule(ops, block, t - 7),
                 ops.sig0(Schedule(ops, block, t - 15)), Schedule(ops, block, t - 16));
  }

  lemma FourSummands(ops: WordOps, w: uint32, x: uint32, y: uint32, z: uint32)
    requires AddsModulo(ops)
    ensures ops.add(ops.add(ops.add(w, x), y), z) == (w + x + y + z) % 0x1_0000_0000
  {
    assert ops.add(ops.add(ops.add(w, x), y), z) == Add(Add(Add(w, x), y), z);
    AddReduced(w + x, y);
    AddReduced(w + x + y, z);
  }

  lemma AddReduced(a: nat, y: nat)
    ensures (a % 0x1_0000_0000 + y) % 0x1_0000_0000 == (a + y) % 0x1_0000_0000
  {
  }

  lemma BothReduced(a: nat, b: nat)
    ensures (a % 0x1_0000_0000 + b % 0x1_0000_0000) % 0x1_0000_0000 == (a + b) % 0x1_0000_0000
  {
    AddReduced(a, b % 0x1_0000_0000);
    AddReduced(b, a);
  }

  /** One round: six variables move on, and the two new ones are sums modulo 2^32. */
  lemma RoundSum(ops: WordOps, v: Work, k: uint32, w: uint32)
    requires AddsModulo(ops)
    ensures var r := Round(ops, v, k, w);
            var t1 := v.h + ops.ep1(v.e) + ops.ch(v.e, v.f, v.g) + k + w;
            && r.b == v.a && r.c == v.b && r.d == v.c && r.f == v.e && r.g == v.f && r.h == v.g
            && r.e == (v.d + t1) % 0x1_0000_0000
            && r.a == (t1 + ops.ep0(v.a) + ops.maj(v.a, v.b, v.c)) % 0x1_0000_0000
  {
    NewWords(ops, v.d, v.h, ops.ep1(v.e), ops.ch(v.e, v.f, v.g), k, w, ops.ep0(v.a), ops.maj(v.a, v.b, v.c));
  }

  lemma NewWords(ops: WordOps, d: uint32, h: uint32, s1: uint32, c: uint32, k: uint32, w: uint32, s0: uint32, m: uint32)
    requires AddsModulo(ops)
    ensures var t1 := ops.add(ops.add(ops.add(ops.add(h, s1), c), k), w);
            && ops.add(d, t1) == (d + (h + s1 + c + k + w)) % 0x1_0000_0000
            && ops.add(t1, ops.add(s0, m)) == (h + s1 + c + k + w + s0 + m) % 0x1_0000_0000
  {
    var t0 := ops.add(ops.add(ops.add(h, s1), c), k);
    FourSummands(ops, h, s1, c, k);
    OneMore(ops, t0, w, h + s1 + c + k);
    OntoSum(ops, d, ops.add(t0, w), h + s1 + c + k + w);
    TwoMore(ops, ops.add(t0, w), s0, m, h + s1 + c + k + w);
  }

  lemma OneMore(ops: WordOps, x: uint32, y: uint32, sum: nat)
    requires AddsModulo(ops) && x == sum % 0x1_0000_0000
    ensures ops.add(x, y) == (sum + y) % 0x1_0000_0000
  {
    assert ops.add(x, y) == Add(x, y);
    AddReduced(sum, y);
  }

  lemma OntoSum(ops: WordOps, d: uint32, x: uint32, sum: nat)
    requires AddsModulo(ops) && x == sum % 0x1_0000_0000
    ensures ops.add(d, x) == (d + sum) % 0x1_0000_0000
  {
    assert ops.add(d, x) == Add(d, x);
    AddReduced(sum, d);
  }

  lemma TwoMore(ops: WordOps, x: uint32, y: uint32, z: uint32, sum: nat)
    requires AddsModulo(ops) && x == sum % 0x1_0000_0000
    ensures ops.add(x, ops.add(y, z)) == (sum + y + z) % 0x1_0000_0000
  {
    assert ops.add(x, ops.add(y, z)) == Add(x, Add(y, z));
    BothReduced(sum, y + z);
  }

  /** The rounds start from the eight words in order and take constant and schedule word `t` in round `t`. */
  lemma RoundsInOrder(ops: WordOps, h: Hash, w: seq<uint32>, t: nat)
    requires t < |ops.k| == |w|
    ensures var v := Rounds(ops, h, w, 0); [v.a, v.b, v.c, v.d, v.e, v.f, v.g, v.h] == h
    ensures Rounds(ops, h, w, t + 1) == Round(ops, Rounds(ops, h, w, t), ops.k[t], w[t])
  {
  }

  /** After the last round each word of the result is a sum modulo 2^32. */
  lemma CompressSum(ops: WordOps, h: Hash, block: seq<byte>)
    requires AddsModulo(ops) && |block| == 64
    ensures var v := Rounds(ops, h, Words(ops, block), |ops.k|); var r := Compress(ops, h, block);
            && r[0] == Add(h[0], v.a) && r[1] == Add(h[1], v.b)
            && r[2] == Add(h[2], v.c) && r[3] == Add(h[3], v.d)
            && r[4] == Add(h[4], v.e) && r[5] == Add(h[5], v.f)
            && r[6] == Add(h[6], v.g) && r[7] == Add(h[7], v.h)
  {
    AddAllSum(ops, h, Rounds(ops, h, Words(ops, block), |ops.k|));
  }

  lemma AddAllSum(ops: WordOps, h: Hash, v: Work)
    requires AddsModulo(ops)
    ensures AddAll(ops, h, v) == [Add(h[0], v.a), Add(h[1], v.b), Add(h[2], v.c), Add(h[3], v.d),
                                  Add(h[4], v.e), Add(h[5], v.f), Add(h[6], v.g), Add(h[7], v.h)]
  {
  }

  /** Two sets of operations with the same values. */
  ghost predicate SameOps(o: WordOps, p: WordOps) {
    && o.k == p.k
    && (forall x, y :: o.add(x, y) == p.add(x, y))
    && (forall x, y, z :: o.ch(x, y, z) == p.ch(x, y, z))
    && (forall x, y, z :: o.maj(x, y, z) == p.maj(x, y, z))
    && (forall x :: o.ep0(x) == p.ep0(x))
    && (forall x :: o.ep1(x) == p.ep1(x))
    && (forall x :: o.sig0(x) == p.sig0(x))
    && (forall x :: o.sig1(x) == p.sig1(x))
  }

  lemma FirmwareOpsAreFips()
    ensures SameOps(FirmwareOps(), FipsOps())
  {
    forall x: uint32, y: uint32, z: uint32
      ensures OnWords(CH, x, y, z) == OnWords(Choose, x, y, z) && OnWords(MAJ, x, y, z) == OnWords(Majority, x, y, z)
    {
      MacrosAreFips(x as bv32, y as bv32, z as bv32);
    }
    forall x: uint32
      ensures OnWord(EP0, x) == OnWord(BigSigma0, x) && OnWord(EP1, x) == OnWord(BigSigma1, x)
      ensures OnWord(SIG0, x) == OnWord(SmallSigma0, x) && OnWord(SIG1, x) == OnWord(SmallSigma1, x)
    {
      MacrosAreFips(x as bv32, 0, 0);
    }
  }

  lemma {:induction false} SameSchedule(o: WordOps, p: WordOps, block: seq<byte>, t: nat)
    requires SameOps(o, p) && |block| == BLOCK_LENGTH
    ensures Schedule(o, block, t) == Schedule(p, block, t)
  {
    if t < 16 {
    } else {
      SameSchedule(o, p, block, t - 2);
      SameSchedule(o, p, block, t - 7);
      SameSchedule(o, p, block, t - 15);
      SameSchedule(o, p, block, t - 16);
    }
  }

  lemma SameRound(o: WordOps, p: WordOps, v: Work, k: uint32, w: uint32)
    requires SameOps(o, p)
    ensures Round(o, v, k, w) == Round(p, v, k, w)
  {
  }

  lemma {:induction false} SameRounds(o: WordOps, p: WordOps, h: Hash, w: seq<uint32>, t: nat)
    requires o.k == p.k && t <= |o.k| == |w|
    requires forall v, k, x :: Round(o, v, k, x) == Round(p, v, k, x)
    ensures Rounds(o, h, w, t) == Rounds(p, h, w, t)
  {
    if t == 0 {
    } else {
      SameRounds(o, p, h, w, t - 1);
    }
  }

  /** The compression depends on the values of the operations only. */
  lemma SameCompress(o: WordOps, p: WordOps, h: Hash, block: seq<byte>)
    requires SameOps(o, p) && |block| == BLOCK_LENGTH
    ensures Compress(o, h, block) == Compress(p, h, block)
  {
    forall t: nat | t < |o.k| ensures Words(o, block)[t] == Words(p, block)[t] {
      SameSchedule(o, p, block, t);
    }
    assert Words(o, block) == Words(p, block);
    forall v, k, x ensures Round(o, v, k, x) == Round(p, v, k, x) {
      SameRound(o, p, v, k, x);
    }
    SameRounds(o, p, h, Words(o, block), |o.k|);
  }
}
