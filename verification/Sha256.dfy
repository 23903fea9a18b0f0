/**
 SHA-256: the padding and chaining of FIPS 180-4 (sections 5.1.1, 5.3.3 and 6.2) as a definition on byte sequences, and
 the incremental implementation of the firmware, which fills a 64-byte buffer in place.  The implementation is proved
 for any operations on words; with those of the firmware its digests are those of FIPS 180-4 (`FirmwareDigest`).
 */
module Sha256 {
  import opened Common
  import opened Bytes
  import opened Sha256Constants
  import opened Sha256Rounds

  /** Mixes one 64-byte block into the chaining value. */
  type BlockFunction = (Hash, seq<byte>) -> Hash

  const TWO_64 := 0x1_0000_0000_0000_0000

  const INITIAL_HASH: Hash := INITIAL_WORDS

  // ---------- definition ----------

  /** The chaining value after all blocks of `data`, which is meant to be a number of whole blocks. */
  function HashBlocks(f: BlockFunction, data: seq<byte>): Hash {
    if |data| < BLOCK_LENGTH then INITIAL_HASH
    else f(HashBlocks(f, data[..|data| - BLOCK_LENGTH]), data[|data| - BLOCK_LENGTH..])
  }

  function Zeros(n: nat): (z: seq<byte>)
    ensures |z| == n && forall i :: 0 <= i < n ==> z[i] == 0
  {
    seq(n, _ => 0)
  }

  const LENGTH_WIDTH := 8

  /** The length of `n` bytes in bits, modulo 2^64: eight more for each byte. */
  function BitLength(n: nat): nat {
    if n == 0 then 0 else (BitLength(n - 1) + 8) % TWO_64
  }

  function LengthBytes(n: nat): (b: seq<byte>)
    ensures |b| == 8
  {
    BigEndian(BitLength(n), LENGTH_WIDTH)
  }

  /** The number of zero bytes in the padding of `n` bytes. */
  function PadZeros(n: nat): (k: nat)
    ensures k < BLOCK_LENGTH && (n + 1 + k + 8) % BLOCK_LENGTH == 0
  {
    (55 - n) % BLOCK_LENGTH
  }

  /** A one bit, the fewest zeros that leave room for the length in the last block, and the length in bits. */
  function Padding(n: nat): (p: seq<byte>)
    ensures (n + |p|) % BLOCK_LENGTH == 0
  {
    [0x80] + Zeros(PadZeros(n)) + LengthBytes(n)
  }

  function WordBytes(w: uint32): (b: seq<byte>)
    ensures |b| == 4
  {
    [w / 0x100_0000, w / 0x1_0000 % 256, w / 0x100 % 256, w % 256]
  }

  function HashBytes(h: seq<uint32>): (b: seq<byte>)
    ensures |b| == 4 * |h|
  {
    if h == [] then [] else HashBytes(h[..|h| - 1]) + WordBytes(h[|h| - 1])
  }

  /** The chaining value after the padded message. */
  function FinalHash(f: BlockFunction, msg: seq<byte>): Hash {
    HashBlocks(f, msg + Padding(|msg|))
  }

  function Digest(f: BlockFunction, msg: seq<byte>): (d: seq<byte>)
    ensures |d| == 32
  {
    HashBytes(FinalHash(f, msg))
  }

  // ---------- the block function ----------

  /** One block with these operations on words; other lengths do not occur. */
  function BlockOf(ops: WordOps): BlockFunction {
    (h: Hash, block: seq<byte>) => if |block| == BLOCK_LENGTH then Compress(ops, h, block) else h
  }

  ghost predicate Implements(f: BlockFunction, ops: WordOps) {
    forall h: Hash, block: seq<byte> {:trigger Compress(ops, h, block)} ::
      |block| == BLOCK_LENGTH ==> f(h, block) == Compress(ops, h, block)
  }

  lemma BlockOfImplements(ops: WordOps)
    ensures Implements(BlockOf(ops), ops)
  {
  }

  /** SHA-256 as FIPS 180-4 defines it. */
  function FipsDigest(msg: seq<byte>): seq<byte> {
    Digest(BlockOf(FipsOps()), msg)
  }

  ghost predicate SameFunction(f: BlockFunction, g: BlockFunction) {
    forall h, block :: f(h, block) == g(h, block)
  }

  lemma {:induction false} SameHashBlocks(f: BlockFunction, g: BlockFunction, data: seq<byte>)
    requires SameFunction(f, g)
    ensures HashBlocks(f, data) == HashBlocks(g, data)
  {
    if |data| < BLOCK_LENGTH {
    } else {
      SameHashBlocks(f, g, data[..|data| - BLOCK_LENGTH]);
    }
  }

  lemma FirmwareBlocks()
    ensures SameFunction(BlockOf(FirmwareOps()), BlockOf(FipsOps()))
  {
    FirmwareOpsAreFips();
    forall h: Hash, block: seq<byte> | |block| == BLOCK_LENGTH
      ensures Compress(FirmwareOps(), h, block) == Compress(FipsOps(), h, block)
    {
      SameCompress(FirmwareOps(), FipsOps(), h, block);
    }
  }

  lemma SameDigest(f: BlockFunction, g: BlockFunction, msg: seq<byte>)
    requires SameFunction(f, g)
    ensures Digest(f, msg) == Digest(g, msg)
  {
    SameHashBlocks(f, g, msg + Padding(|msg|));
  }

  /** With the firmware's operations the digest of every message is the one of FIPS 180-4. */
  lemma FirmwareDigest(msg: seq<byte>)
    ensures Digest(BlockOf(FirmwareOps()), msg) == FipsDigest(msg)
  {
    FirmwareBlocks();
    SameDigest(BlockOf(FirmwareOps()), BlockOf(FipsOps()), msg);
  }

  // ---------- splitting and padding ----------

  lemma HashBlocksAppend(f: BlockFunction, data: seq<byte>, block: seq<byte>)
    requires |block| == BLOCK_LENGTH
    ensures HashBlocks(f, data + block) == f(HashBlocks(f, data), block)
  {
    assert (data + block)[..|data + block| - BLOCK_LENGTH] == data;
    assert (data + block)[|data + block| - BLOCK_LENGTH..] == block;
  }

  lemma PadZerosIs(blocks: nat, rest: nat)
    requires blocks % BLOCK_LENGTH == 0 && rest < BLOCK_LENGTH
    ensures PadZeros(blocks + rest) == if rest < 56 then 55 - rest else 119 - rest
  {
  }

  lemma OneMoreBlock(n: nat)
    requires n % BLOCK_LENGTH == 0
    ensures (n + BLOCK_LENGTH) % BLOCK_LENGTH == 0
  {
  }

  lemma AddModulo(x: nat, y: nat)
    ensures (x % TWO_64 + y) % TWO_64 == (x + y) % TWO_64
  {
  }

  lemma {:induction false} BitLengthAdd(m: nat, n: nat)
    ensures BitLength(m + n) == (BitLength(m) + 8 * n) % TWO_64
    decreases n
  {
    if n == 0 {
      BitLengthSmall(m);
    } else {
      BitLengthAdd(m, n - 1);
      AddModulo(BitLength(m) + 8 * (n - 1), 8);
    }
  }

  lemma BitLengthSmall(m: nat)
    ensures BitLength(m) % TWO_64 == BitLength(m)
  {
    if m > 0 {
      AddModulo(BitLength(m - 1) + 8, 0);
    }
  }

  lemma BitLengthIs(n: nat)
    ensures BitLength(n) == 8 * n % TWO_64
  {
    BitLengthAdd(0, n);
  }

  lemma PaddedRest(front: seq<byte>, rest: seq<byte>)
    requires |front| % BLOCK_LENGTH == 0 && |rest| < BLOCK_LENGTH
    ensures var k := if |rest| < 56 then 55 - |rest| else 119 - |rest|;
            front + rest + Padding(|front + rest|)
            == front + (rest + [0x80] + Zeros(k) + LengthBytes(|front + rest|))
  {
    PadZerosIs(|front|, |rest|);
    Reassociate(front, rest, [0x80], Zeros(PadZeros(|front + rest|)), LengthBytes(|front + rest|));
  }

  lemma Reassociate(a: seq<byte>, b: seq<byte>, c: seq<byte>, d: seq<byte>, e: seq<byte>)
    ensures a + b + (c + d + e) == a + (b + c + d + e)
  {
  }

  /** How the padded message splits when the length fits into the last partial block. */
  lemma OneFinalBlock(f: BlockFunction, front: seq<byte>, rest: seq<byte>, block: seq<byte>)
    requires |front| % BLOCK_LENGTH == 0 && |rest| < 56
    requires block == rest + [0x80] + Zeros(55 - |rest|) + LengthBytes(|front + rest|)
    ensures FinalHash(f, front + rest) == f(HashBlocks(f, front), block)
  {
    PaddedRest(front, rest);
    HashBlocksAppend(f, front, block);
  }

  /** How the padded message splits when the length needs a block of its own. */
  lemma TwoFinalBlocks(f: BlockFunction, front: seq<byte>, rest: seq<byte>, first: seq<byte>, second: seq<byte>)
    requires |front| % BLOCK_LENGTH == 0 && 56 <= |rest| < BLOCK_LENGTH
    requires first == rest + [0x80] + Zeros(63 - |rest|)
    requires second == Zeros(56) + LengthBytes(|front + rest|)
    ensures FinalHash(f, front + rest) == f(f(HashBlocks(f, front), first), second)
  {
    PaddedRest(front, rest);
    SplitZeros(rest, LengthBytes(|front + rest|));
    assert front + (first + second) == (front + first) + second;
    HashTwoBlocks(f, front, first, second);
  }

  lemma HashTwoBlocks(f: BlockFunction, front: seq<byte>, first: seq<byte>, second: seq<byte>)
    requires |first| == |second| == BLOCK_LENGTH
    ensures HashBlocks(f, (front + first) + second) == f(f(HashBlocks(f, front), first), second)
  {
    HashBlocksAppend(f, front, first);
    var d := front + first;
    HashBlocksAppend(f, d, second);
  }

  lemma SplitZeros(rest: seq<byte>, length: seq<byte>)
    requires |rest| <= 63
    ensures rest + [0x80] + Zeros(119 - |rest|) + length == (rest + [0x80] + Zeros(63 - |rest|)) + (Zeros(56) + length)
  {
    assert Zeros(119 - |rest|) == Zeros(63 - |rest|) + Zeros(56);
  }

  /** Words are written most significant byte first ... */
  lemma WordBytesAreBigEndian(w: uint32)
    ensures WordBytes(w) == BigEndian(w, 4)
  {
    WordInNetworkOrder(w);
  }

  /** ... and read so: the word loaded from four bytes is the one that is written as these bytes. */
  lemma WordIsBigEndian(b0: byte, b1: byte, b2: byte, b3: byte)
    ensures WordBytes(Word(b0, b1, b2, b3)) == [b0, b1, b2, b3]
    ensures BigEndian(Word(b0, b1, b2, b3), 4) == [b0, b1, b2, b3]
  {
    LoadedWord(b0, b1, b2, b3, Word(b0, b1, b2, b3));
    WordBytesAreBigEndian(Word(b0, b1, b2, b3));
  }

  /** The first sixteen words of the schedule are the bytes of the block, four by four. */
  lemma FirstWords(ops: WordOps, block: seq<byte>, t: nat)
    requires |block| == 64 && t < 16
    ensures BigEndian(Schedule(ops, block, t), 4) == block[4 * t..4 * t + 4]
  {
    WordIsBigEndian(block[4 * t], block[4 * t + 1], block[4 * t + 2], block[4 * t + 3]);
  }

  lemma LoadedWord(b0: byte, b1: byte, b2: byte, b3: byte, w: uint32)
    requires w == Word(b0, b1, b2, b3)
    ensures w / 0x100_0000 == b0 && w / 0x1_0000 % 256 == b1 && w / 0x100 % 256 == b2 && w % 256 == b3
  {
    assert w == 256 * (0x1_0000 * b0 + 0x100 * b1 + b2) + b3;
    assert w / 0x100 == 256 * (0x100 * b0 + b1) + b2;
    assert w / 0x1_0000 == 256 * b0 + b1;
  }

  /**
   The padding byte by byte: 0x80, zeros, and the number of bits modulo 2^64 as eight bytes, most significant first;
   it fills up the last block and is less than a block longer than those nine bytes.
   */
  lemma PaddingLayout(n: nat)
    ensures var p := Padding(n); var bits := 8 * n % 0x1_0000_0000_0000_0000;
            && 9 <= |p| < 9 + 64 && (n + |p|) % 64 == 0 && p[0] == 0x80
            && (forall i :: 1 <= i < |p| - 8 ==> p[i] == 0)
            && p[|p| - 8..] == [bits / 0x100_0000_0000_0000 % 256, bits / 0x1_0000_0000_0000 % 256,
                                bits / 0x100_0000_0000 % 256, bits / 0x1_0000_0000 % 256, bits / 0x100_0000 % 256,
                                bits / 0x1_0000 % 256, bits / 0x100 % 256, bits % 256]
  {
    BitLengthIs(n);
    EightBytes(BitLength(n));
    assert Padding(n)[|Padding(n)| - 8..] == LengthBytes(n);
  }

  lemma EightBytes(x: nat)
    ensures BigEndian(x, LENGTH_WIDTH)
         == [x / 0x100_0000_0000_0000 % 256, x / 0x1_0000_0000_0000 % 256, x / 0x100_0000_0000 % 256,
             x / 0x1_0000_0000 % 256, x / 0x100_0000 % 256, x / 0x1_0000 % 256, x / 0x100 % 256, x % 256]
  {
    var high := x / 0x1_0000_0000;
    FourBytes(x, LENGTH_WIDTH);
    FourBytes(high, LENGTH_WIDTH - 4);
    HighByteShifts(x);
  }

  lemma HighByteShifts(x: nat)
    ensures x / 0x1_0000_0000 / 0x100 == x / 0x100_0000_0000
    ensures x / 0x1_0000_0000 / 0x1_0000 == x / 0x1_0000_0000_0000
    ensures x / 0x1_0000_0000 / 0x100_0000 == x / 0x100_0000_0000_0000
  {
  }

  lemma {:induction false} HashBytesIs(h: seq<uint32>, b: seq<byte>)
    requires |b| == 4 * |h|
    requires forall n :: 0 <= n < |b| ==> b[n] == WordBytes(h[n / 4])[n % 4]
    ensures b == HashBytes(h)
  {
    if h == [] {
    } else {
      var m := |h| - 1;
      var front, last := b[..4 * m], b[4 * m..];
      HashBytesIs(h[..m], front);
      assert last == WordBytes(h[m]);
      assert b == front + last;
    }
  }

  // ---------- the firmware's implementation ----------

  class Context {
    const ops: WordOps
    ghost const f: BlockFunction
    const data: array<byte>
    var datalen: nat
    var bitlen: nat
    const state: array<uint32>

    /** The part of the message that is compressed already. */
    ghost var compressed: seq<byte>

    ghost predicate Shaped()
      reads this
    {
      && data.Length == BLOCK_LENGTH && state.Length == 8 && data as object != state as object
      && |ops.k| == 64 && Implements(f, ops)
    }

    /** Whole blocks are compressed and their bits counted; less than a block is buffered. */
    ghost predicate Valid()
      reads this, data, state
    {
      && Shaped()
      && datalen < BLOCK_LENGTH
      && |compressed| % BLOCK_LENGTH == 0
      && state[..] == HashBlocks(f, compressed)
      && bitlen == BitLength(|compressed|)
    }

    /** Everything absorbed since the last initialisation. */
    ghost function Message(): seq<byte>
      requires Shaped() && datalen < BLOCK_LENGTH
      reads this, data
    {
      compressed + data[..datalen]
    }

    constructor (ops: WordOps)
      requires |ops.k| == 64
      ensures Shaped() && fresh(data) && fresh(state) && this.ops == ops && f == BlockOf(ops)
    {
      this.ops, f := ops, BlockOf(ops);
      BlockOfImplements(ops);
      data := new byte[BLOCK_LENGTH](_ => 0);
      state := new uint32[8](_ => 0);
      datalen, bitlen, compressed := 0, 0, [];
    }

    method Init()
      requires Shaped()
      modifies this, state
      ensures Valid() && Message() == []
    {
      datalen, bitlen := 0, 0;
      state[0], state[1], state[2], state[3] := 0x6a09e667, 0xbb67ae85, 0x3c6ef372, 0xa54ff53a;
      state[4], state[5], state[6], state[7] := 0x510e527f, 0x9b05688c, 0x1f83d9ab, 0x5be0cd19;
      compressed := [];
      assert state[..] == INITIAL_HASH;
    }

    /** The message schedule of the buffered block. */
    method ExpandBlock() returns (m: array<uint32>)
      requires Shaped()
      ensures fresh(m) && m[..] == Words(ops, data[..])
    {
      m := new uint32[64](_ => 0);
      LoadWords(m);
      ExtendWords(m, data[..]);
    }

    /** The first loop: sixteen words from the bytes of the block. */
    method LoadWords(m: array<uint32>)
      requires Shaped() && m.Length == 64 && m != state
      modifies m
      ensures forall t: nat :: t < 16 ==> m[t] == Schedule(ops, data[..], t)
    {
      var j := 0;
      for i := 0 to 16
        invariant j == 4 * i
        invariant forall t: nat :: t < i ==>
                    m[t] == Word(data[4 * t], data[4 * t + 1], data[4 * t + 2], data[4 * t + 3])
      {
        m[i] := Word(data[j], data[j + 1], data[j + 2], data[j + 3]);
        j := j + 4;
      }
    }

    /** The second loop: the recurrence. */
    method ExtendWords(m: array<uint32>, ghost block: seq<byte>)
      requires |block| == BLOCK_LENGTH && |ops.k| == m.Length == 64
      requires forall t: nat :: t < 16 ==> m[t] == Schedule(ops, block, t)
      modifies m
      ensures m[..] == Words(ops, block)
    {
      for i := 16 to 64
        invariant forall t: nat :: t < i ==> m[t] == Schedule(ops, block, t)
      {
        m[i] := ops.add(ops.add(ops.add(ops.sig1(m[i - 2]), m[i - 7]), ops.sig0(m[i - 15])), m[i - 16]);
      }
    }

    /** The rounds on the eight working variables. */
    method Mix(m: array<uint32>) returns (v: Work)
      requires Shaped() && m.Length == 64
      ensures v == Rounds(ops, state[..], m[..], |ops.k|)
    {
      var a, b, c, d := state[0], state[1], state[2], state[3];
      var e, f, g, h := state[4], state[5], state[6], state[7];
      for i := 0 to |ops.k|
        invariant Work(a, b, c, d, e, f, g, h) == Rounds(ops, state[..], m[..], i)
      {
        var t1 := ops.add(ops.add(ops.add(ops.add(h, ops.ep1(e)), ops.ch(e, f, g)), ops.k[i]), m[i]);
        var t2 := ops.add(ops.ep0(a), ops.maj(a, b, c));
        h := g;
        g := f;
        f := e;
        e := ops.add(d, t1);
        d := c;
        c := b;
        b := a;
        a := ops.add(t1, t2);
      }
      v := Work(a, b, c, d, e, f, g, h);
    }

    /** Adds the working variables to the chaining value. */
    method AddToState(v: Work)
      requires Shaped()
      modifies state
      ensures state[..] == AddAll(ops, old(state[..]), v)
    {
      state[0], state[1] := ops.add(state[0], v.a), ops.add(state[1], v.b);
      state[2], state[3] := ops.add(state[2], v.c), ops.add(state[3], v.d);
      state[4], state[5] := ops.add(state[4], v.e), ops.add(state[5], v.f);
      state[6], state[7] := ops.add(state[6], v.g), ops.add(state[7], v.h);
    }

    /** Compresses the buffered block into the chaining value. */
    method Transform()
      requires Shaped()
      modifies state
      ensures state[..] == f(old(state[..]), data[..])
    {
      var m := ExpandBlock();
      var v := Mix(m);
      AddToState(v);
      assert state[..] == Compress(ops, old(state[..]), data[..]);
    }

    /** Absorbs `bytes`, whatever its length and whatever was absorbed before. */
    method Update(bytes: seq<byte>)
      requires Valid()
      modifies this, data, state
      ensures Valid() && Message() == old(Message()) + bytes
    {
      for i := 0 to |bytes|
        invariant Valid() && Message() == old(Message()) + bytes[..i]
      {
        Absorb(bytes[i]);
        assert bytes[..i] + [bytes[i]] == bytes[..i + 1];
      }
      assert bytes[..|bytes|] == bytes;
    }

    /** The body of the loop of `Update`. */
    method Absorb(x: byte)
      requires Valid()
      modifies this, data, state
      ensures Valid() && Message() == old(Message()) + [x]
    {
      data[datalen] := x;
      datalen := datalen + 1;
      assert data[..datalen] == old(data[..datalen]) + [x];
      if datalen == BLOCK_LENGTH {
        Flush();
      }
    }

    /** Compresses the full buffer. */
    method Flush()
      requires Shaped() && datalen == BLOCK_LENGTH && |compressed| % BLOCK_LENGTH == 0
      requires state[..] == HashBlocks(f, compressed) && bitlen == BitLength(|compressed|)
      modifies this, state
      ensures Valid() && Message() == old(compressed + data[..datalen])
    {
      ghost var block, longer := data[..], compressed + data[..];
      HashBlocksAppend(f, compressed, block);
      OneMoreBlock(|compressed|);
      Transform();
      CountBlock();
      datalen := 0;
      compressed := longer;
    }

    /** Counts the bits of one more block. */
    method CountBlock()
      requires bitlen == BitLength(|compressed|)
      modifies this`bitlen
      ensures bitlen == BitLength(|compressed| + BLOCK_LENGTH)
    {
      BitLengthAdd(|compressed|, BLOCK_LENGTH);
      bitlen := (bitlen + 512) % TWO_64;
    }

    /** `memset` of part of the buffer. */
    method ZeroFill(from: nat, to: nat)
      requires Shaped() && from <= to <= BLOCK_LENGTH
      modifies data
      ensures data[..] == old(data[..from]) + Zeros(to - from) + old(data[to..])
    {
      for i := from to to
        invariant forall k :: from <= k < i ==> data[k] == 0
        invariant forall k :: 0 <= k < from || i <= k < BLOCK_LENGTH ==> data[k] == old(data[k])
      {
        data[i] := 0;
      }
    }

    /** Pads the buffered bytes, compressing once more if the length does not fit; only the length is then missing. */
    method PadBuffer()
      requires Shaped() && datalen < BLOCK_LENGTH
      requires |compressed| % BLOCK_LENGTH == 0 && state[..] == HashBlocks(f, compressed)
      modifies data, state
      ensures FinalHash(f, old(Message())) == f(state[..], data[..56] + LengthBytes(|old(Message())|))
    {
      ghost var rest, length := data[..datalen], LengthBytes(|Message()|);
      data[datalen] := 0x80;
      assert data[..datalen + 1] == rest + [0x80];
      if datalen < 56 {
        ZeroFill(datalen + 1, 56);
        assert data[..56] == rest + [0x80] + Zeros(55 - datalen);
        OneFinalBlock(f, compressed, rest, data[..56] + length);
      } else {
        ZeroFill(datalen + 1, 64);
        ghost var first := data[..];
        assert first == rest + [0x80] + Zeros(63 - datalen);
        Transform();
        ZeroFill(0, 56);
        assert data[..56] == Zeros(56);
        TwoFinalBlocks(f, compressed, rest, first, data[..56] + length);
      }
    }

    /** The bit count, most significant byte first, in the last eight bytes of the buffer. */
    method PutLength()
      requires Shaped()
      modifies data
      ensures data[..] == old(data[..56]) + BigEndian(bitlen, LENGTH_WIDTH)
    {
      data[63] := bitlen % 256;
      data[62] := bitlen / 0x100 % 256;
      data[61] := bitlen / 0x1_0000 % 256;
      data[60] := bitlen / 0x100_0000 % 256;
      data[59] := bitlen / 0x1_0000_0000 % 256;
      data[58] := bitlen / 0x100_0000_0000 % 256;
      data[57] := bitlen / 0x1_0000_0000_0000 % 256;
      data[56] := bitlen / 0x100_0000_0000_0000 % 256;
      EightBytes(bitlen);
      assert data[..] == data[..56] + data[56..];
    }

    /** The chaining value, byte position by byte position as in the source. */
    method PutHash(out: array<byte>, at: nat)
      requires Shaped() && at + 32 <= out.Length && out as object != state as object
      modifies out
      ensures out[..] == old(out[..at]) + HashBytes(state[..]) + old(out[at + 32..])
    {
      for i := 0 to 4
        invariant out[..at] == old(out[..at]) && out[at + 32..] == old(out[at + 32..])
        invariant forall m :: at <= m < at + 32 && (m - at) % 4 < i ==>
                    out[m] == WordBytes(state[(m - at) / 4])[(m - at) % 4]
      {
        PutByteOfWords(out, at, i);
      }
      HashBytesIs(state[..], out[at..at + 32]);
      assert out[..] == out[..at] + out[at..at + 32] + out[at + 32..];
    }

    /** Byte `i` of each of the eight words. */
    method PutByteOfWords(out: array<byte>, at: nat, i: nat)
      requires Shaped() && at + 32 <= out.Length && out as object != state as object && i < 4
      modifies out
      ensures out[..at] == old(out[..at]) && out[at + 32..] == old(out[at + 32..])
      ensures forall m :: at <= m < at + 32 ==>
                out[m] == if (m - at) % 4 == i then WordBytes(state[(m - at) / 4])[i] else old(out[m])
    {
      for w := 0 to 8
        invariant out[..at] == old(out[..at]) && out[at + 32..] == old(out[at + 32..])
        invariant forall m :: at <= m < at + 32 ==>
                    out[m] == if (m - at) % 4 == i && m < at + 4 * w then WordBytes(state[(m - at) / 4])[i]
                              else old(out[m])
      {
        out[at + 4 * w + i] := WordBytes(state[w])[i];
      }
    }

    /** Counts the buffered bits too. */
    method CountRest()
      requires Shaped() && bitlen == BitLength(|compressed|) && datalen < BLOCK_LENGTH
      modifies this`bitlen
      ensures bitlen == BitLength(|Message()|)
    {
      BitLengthAdd(|compressed|, datalen);
      bitlen := (bitlen + 8 * datalen) % TWO_64;
    }

    /** Appends the length and compresses for the last time. */
    method AppendLength()
      requires Shaped()
      modifies data, state
      ensures state[..] == f(old(state[..]), old(data[..56]) + BigEndian(bitlen, LENGTH_WIDTH))
    {
      PutLength();
      Transform();
    }

    method Close()
      requires Valid()
      modifies this, data, state
      ensures Shaped() && state[..] == FinalHash(f, old(Message()))
    {
      CountRest();
      PadBuffer();
      AppendLength();
    }

    /** Writes the digest of the whole message to `out[at..at + 32]`. */
    method Final(out: array<byte>, at: nat)
      requires Valid() && at + 32 <= out.Length && out != data && out as object != state as object
      modifies this, data, state, out
      ensures Shaped()
      ensures out[..] == old(out[..at]) + Digest(f, old(Message())) + old(out[at + 32..])
    {
      Close();
      PutHash(out, at);
    }
  }
}
