/**
 HMAC-SHA-256: the definition of section 2 of RFC 2104, and the firmware's computation of it on the incremental hash,
 up to the response a tracker gives to a setup challenge.
 */
module Hmac {
  import opened Common
  import opened Messages
  import opened Sha256
  import opened Sha256Rounds

  const IPAD: byte := 0x36
  const OPAD: byte := 0x5c

  // ---------- definition ----------

  function XorByte(x: byte, y: byte): byte {
    (x as bv8 ^ y as bv8) as int
  }

  function XorAll(b: seq<byte>, y: byte): (r: seq<byte>)
    ensures |r| == |b|
  {
    seq(|b|, i requires 0 <= i < |b| => XorByte(b[i], y))
  }

  /** The key as one block: hashed if it is longer than a block, then filled up with zeros. */
  function KeyBlock(f: BlockFunction, key: seq<byte>): (k: seq<byte>)
    ensures |k| == BLOCK_LENGTH
  {
    var k := if |key| > BLOCK_LENGTH then Digest(f, key) else key;
    k + Zeros(BLOCK_LENGTH - |k|)
  }

  function Mac(f: BlockFunction, key: seq<byte>, text: seq<byte>): (m: seq<byte>)
    ensures |m| == 32
  {
    Digest(f, XorAll(KeyBlock(f, key), OPAD) + Digest(f, XorAll(KeyBlock(f, key), IPAD) + text))
  }

  /** Exclusive or in terms of the other operators: the bits of either that are not bits of both. */
  lemma XorByteBits(x: byte, y: byte)
    ensures XorByte(x, y) as bv8 == (x as bv8 | y as bv8) & !(x as bv8 & y as bv8)
  {
    BackFromInt(x as bv8 ^ y as bv8);
    XorForm(x as bv8, y as bv8);
  }

  lemma BackFromInt(v: bv8)
    ensures (v as int) as bv8 == v
  {
  }

  lemma XorForm(a: bv8, b: bv8)
    ensures a ^ b == (a | b) & !(a & b)
  {
  }

  /**
   HMAC as section 2 of RFC 2104 writes it, for keys of at most a block: the outer hash is over the key block combined
   with bytes 0x5c, followed by the inner hash over the key block combined with bytes 0x36 and the text.
   */
  lemma MacLayout(f: BlockFunction, key: seq<byte>, text: seq<byte>, outer: seq<byte>, inner: seq<byte>)
    requires |key| <= 64 && |outer| == |inner| == 64
    requires forall i :: 0 <= i < 64 ==> outer[i] == XorByte(if i < |key| then key[i] else 0, 0x5c)
    requires forall i :: 0 <= i < 64 ==> inner[i] == XorByte(if i < |key| then key[i] else 0, 0x36)
    ensures Mac(f, key, text) == Digest(f, outer + Digest(f, inner + text))
  {
    assert XorAll(KeyBlock(f, key), 0x5c) == outer;
    assert XorAll(KeyBlock(f, key), 0x36) == inner;
  }

  /** A key longer than a block counts as its digest. */
  lemma LongKey(f: BlockFunction, key: seq<byte>, text: seq<byte>)
    requires |key| > 64
    ensures Mac(f, key, text) == Mac(f, Digest(f, key), text)
  {
    assert KeyBlock(f, key) == KeyBlock(f, Digest(f, key));
  }

  /** HMAC-SHA-256 over the hash of FIPS 180-4. */
  function FipsMac(key: seq<byte>, text: seq<byte>): (m: seq<byte>)
    ensures |m| == 32
  {
    Mac(BlockOf(FipsOps()), key, text)
  }

  lemma SameMac(f: BlockFunction, g: BlockFunction, key: seq<byte>, text: seq<byte>)
    requires SameFunction(f, g)
    ensures Mac(f, key, text) == Mac(g, key, text)
  {
    SameDigest(f, g, key);
    var k := KeyBlock(f, key);
    assert k == KeyBlock(g, key);
    SameDigest(f, g, XorAll(k, IPAD) + text);
    SameDigest(f, g, XorAll(k, OPAD) + Digest(f, XorAll(k, IPAD) + text));
  }

  /** With the firmware's operations on words it is the same. */
  lemma FirmwareMac(key: seq<byte>, text: seq<byte>)
    ensures Mac(BlockOf(FirmwareOps()), key, text) == FipsMac(key, text)
  {
    FirmwareBlocks();
    SameMac(BlockOf(FirmwareOps()), BlockOf(FipsOps()), key, text);
  }

  // ---------- the firmware's implementation ----------

  /** Fills the first block of `pad` with the key, zero-extended and combined with `value`. */
  method FillPad(ghost f: BlockFunction, pad: array<byte>, key: seq<byte>, value: byte)
    requires |key| <= BLOCK_LENGTH <= pad.Length
    modifies pad
    ensures pad[..BLOCK_LENGTH] == XorAll(KeyBlock(f, key), value)
    ensures pad[BLOCK_LENGTH..] == old(pad[BLOCK_LENGTH..])
  {
    for i := 0 to BLOCK_LENGTH
      invariant forall j :: 0 <= j < i ==> pad[j] == 0
      invariant pad[BLOCK_LENGTH..] == old(pad[BLOCK_LENGTH..])
    {
      pad[i] := 0;
    }
    for i := 0 to |key|
      invariant pad[..BLOCK_LENGTH] == key[..i] + Zeros(BLOCK_LENGTH - i)
      invariant pad[BLOCK_LENGTH..] == old(pad[BLOCK_LENGTH..])
    {
      pad[i] := key[i];
    }
    ghost var k := KeyBlock(f, key);
    assert pad[..BLOCK_LENGTH] == k;
    for i := 0 to BLOCK_LENGTH
      invariant forall j :: 0 <= j < i ==> pad[j] == XorByte(k[j], value)
      invariant forall j :: i <= j < BLOCK_LENGTH ==> pad[j] == k[j]
      invariant pad[BLOCK_LENGTH..] == old(pad[BLOCK_LENGTH..])
    {
      pad[i] := XorByte(pad[i], value);
    }
  }

  method MacInit(context: Context, key: seq<byte>)
    requires context.Shaped() && |key| <= BLOCK_LENGTH
    modifies context, context.data, context.state
    ensures context.Valid() && context.Message() == XorAll(KeyBlock(context.f, key), IPAD)
  {
    var ipad := new byte[BLOCK_LENGTH](_ => 0);
    FillPad(context.f, ipad, key, IPAD);
    context.Init();
    context.Update(ipad[..BLOCK_LENGTH]);
  }

  method MacFinal(context: Context, key: seq<byte>, ghost text: seq<byte>) returns (digest: array<byte>)
    requires context.Valid() && |key| <= BLOCK_LENGTH
    requires context.Message() == XorAll(KeyBlock(context.f, key), IPAD) + text
    modifies context, context.data, context.state
    ensures fresh(digest) && digest.Length == 32
    ensures digest[..] == Mac(context.f, key, text)
  {
    var opad := new byte[BLOCK_LENGTH + 32](_ => 0);
    FillPad(context.f, opad, key, OPAD);
    context.Final(opad, BLOCK_LENGTH);
    ghost var inner := Digest(context.f, XorAll(KeyBlock(context.f, key), IPAD) + text);
    assert opad[..] == XorAll(KeyBlock(context.f, key), OPAD) + inner;
    digest := HashOf(context, opad[..]);
  }

  /** The hash of `bytes` on a context that is started afresh. */
  method HashOf(context: Context, bytes: seq<byte>) returns (digest: array<byte>)
    requires context.Shaped()
    modifies context, context.data, context.state
    ensures fresh(digest) && digest.Length == 32
    ensures digest[..] == Digest(context.f, bytes)
  {
    context.Init();
    context.Update(bytes);
    assert [] + bytes == bytes;
    digest := new byte[32](_ => 0);
    context.Final(digest, 0);
  }

  // ---------- the tracker's answer to a setup challenge ----------

  method GenerateSetupResponse(ops: WordOps, key: seq<byte>, mac: seq<byte>, challenge: seq<byte>)
    returns (response: array<byte>)
    requires |ops.k| == 64 && |key| == 16 && |mac| == 6 && |challenge| == 16
    ensures fresh(response) && response.Length == 32
    ensures response[..] == Mac(BlockOf(ops), key, RegistrationText(mac, challenge))
  {
    var context := new Context(ops);
    MacInit(context, key);
    AbsorbRegistration(context, mac, challenge);
    response := MacFinal(context, key, RegistrationText(mac, challenge));
  }

  /** The three updates of the setup response. */
  method AbsorbRegistration(context: Context, mac: seq<byte>, challenge: seq<byte>)
    requires context.Valid()
    modifies context, context.data, context.state
    ensures context.Valid() && context.Message() == old(context.Message()) + RegistrationText(mac, challenge)
  {
    ghost var before := context.Message();
    context.Update(REG_PREFIX);
    context.Update(mac);
    context.Update(challenge);
    Regroup(before, REG_PREFIX, mac, challenge);
  }

  lemma Regroup(a: seq<byte>, b: seq<byte>, c: seq<byte>, d: seq<byte>)
    ensures a + b + c + d == a + (b + c + d)
  {
  }

  /** The device address is kept least significant byte first. */
  function BluetoothMac(deviceAddress: seq<byte>): (mac: seq<byte>)
    requires |deviceAddress| == 8
    ensures |mac| == 6
  {
    seq(6, i requires 0 <= i < 6 => deviceAddress[5 - i])
  }

  /** The printing order is the reverse of the first six bytes. */
  lemma AddressReversed(a: seq<byte>)
    requires |a| == 8
    ensures BluetoothMac(a) == [a[5], a[4], a[3], a[2], a[1], a[0]]
  {
  }

  method OnSetupChallenge(ops: WordOps, mfgKey: seq<byte>, deviceAddress: seq<byte>, challenge: seq<byte>)
    returns (notification: seq<byte>)
    requires |ops.k| == 64 && |mfgKey| == 16 && |deviceAddress| == 8 && |challenge| == 16
    ensures notification == Mac(BlockOf(ops), mfgKey, RegistrationText(BluetoothMac(deviceAddress), challenge))[..16]
  {
    var mac := [deviceAddress[5], deviceAddress[4], deviceAddress[3],
                deviceAddress[2], deviceAddress[1], deviceAddress[0]];
    assert mac == BluetoothMac(deviceAddress);
    var response := GenerateSetupResponse(ops, mfgKey, mac, challenge);
    notification := response[..16];
    assert response[..16] == response[..][..16];
  }
}
