/** Big-endian numbers as byte sequences. */
module Bytes {
  import opened Common

  function Pow256(n: nat): (p: nat)
    ensures p > 0
  {
    if n == 0 then 1 else 256 * Pow256(n - 1)
  }

  /** The `width` low bytes of `x`, most significant first. */
  function BigEndian(x: nat, width: nat): (b: seq<byte>)
    ensures |b| == width
    decreases width
  {
    if width == 0 then [] else BigEndian(x / 256, width - 1) + [x % 256]
  }

  function FromBigEndian(b: seq<byte>): nat {
    if b == [] then 0 else 256 * FromBigEndian(b[..|b| - 1]) + b[|b| - 1]
  }

  /** Packing and unpacking are inverse for every number that fits. */
  lemma {:induction false} UnpackPack(x: nat, width: nat)
    requires x < Pow256(width)
    ensures FromBigEndian(BigEndian(x, width)) == x
    decreases width
  {
    if width == 0 {
    } else {
      UnpackPack(x / 256, width - 1);
      var b := BigEndian(x, width);
      assert b[..|b| - 1] == BigEndian(x / 256, width - 1);
    }
  }

  /** And for every byte sequence, which is the packing of a number that fits. */
  lemma {:induction false} PackUnpack(b: seq<byte>)
    ensures FromBigEndian(b) < Pow256(|b|)
    ensures BigEndian(FromBigEndian(b), |b|) == b
    decreases |b|
  {
    if b == [] {
    } else {
      var front, last := b[..|b| - 1], b[|b| - 1];
      PackUnpack(front);
      assert FromBigEndian(b) / 256 == FromBigEndian(front) && FromBigEndian(b) % 256 == last;
      assert b == front + [last];
    }
  }

  lemma Pow256Of4()
    ensures Pow256(4) == 0x1_0000_0000
  {
    assert Pow256(2) == 65536;
  }

  lemma LowByteShifts(x: nat)
    ensures x / 0x100 / 256 == x / 0x1_0000
    ensures x / 0x1_0000 / 256 == x / 0x100_0000
    ensures x / 0x100_0000 / 256 == x / 0x1_0000_0000
  {
  }

  lemma FourSteps(x0: nat, x1: nat, x2: nat, x3: nat, x4: nat, width: nat)
    requires width >= 4 && x1 == x0 / 256 && x2 == x1 / 256 && x3 == x2 / 256 && x4 == x3 / 256
    ensures BigEndian(x0, width) == BigEndian(x4, width - 4) + [x3 % 256, x2 % 256, x1 % 256, x0 % 256]
  {
    assert BigEndian(x1, width - 1) == BigEndian(x2, width - 2) + [x1 % 256];
    assert BigEndian(x2, width - 2) == BigEndian(x3, width - 3) + [x2 % 256];
    assert BigEndian(x3, width - 3) == BigEndian(x4, width - 4) + [x3 % 256];
  }

  /** The four low bytes, written out. */
  lemma FourBytes(x: nat, width: nat)
    requires width >= 4
    ensures BigEndian(x, width) == BigEndian(x / 0x1_0000_0000, width - 4)
                                   + [x / 0x100_0000 % 256, x / 0x1_0000 % 256, x / 0x100 % 256, x % 256]
  {
    LowByteShifts(x);
    FourSteps(x, x / 0x100, x / 0x1_0000, x / 0x100_0000, x / 0x1_0000_0000, width);
  }

  /** A number of 32 bits in network order. */
  lemma WordInNetworkOrder(x: uint32)
    ensures BigEndian(x, 4) == [x / 0x100_0000, x / 0x1_0000 % 256, x / 0x100 % 256, x % 256]
  {
    FourBytes(x, 4);
    assert BigEndian(x / 0x1_0000_0000, 0) == [];
    assert x / 0x100_0000 % 256 == x / 0x100_0000;
  }
}
