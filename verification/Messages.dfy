/** The texts that trackers and server authenticate, and the 96-byte report. */
module Messages {
  import opened Common
  import opened Bytes

  const REG_PREFIX: seq<byte> := [0x52, 0x45, 0x47, 0x00]
  const FIN_PREFIX: seq<byte> := [0x46, 0x49, 0x4e, 0x00]
  const COUNTER_WIDTH := 4
  const MESSAGE_LENGTH := 96

  function RegistrationText(mac: seq<byte>, challenge: seq<byte>): seq<byte> {
    REG_PREFIX + mac + challenge
  }

  function ReportText(mac: seq<byte>, counter: nat, e2e: seq<byte>): seq<byte> {
    FIN_PREFIX + mac + BigEndian(counter, COUNTER_WIDTH) + e2e
  }

  function CounterOf(message: seq<byte>): nat
    requires |message| == MESSAGE_LENGTH
  {
    FromBigEndian(message[0..4])
  }

  function PayloadOf(message: seq<byte>): seq<byte>
    requires |message| == MESSAGE_LENGTH
  {
    message[4..84]
  }

  function TagOf(message: seq<byte>): seq<byte>
    requires |message| == MESSAGE_LENGTH
  {
    message[84..96]
  }

  /** A registration text byte by byte: "REG" and a zero byte, the address, the challenge. */
  lemma RegistrationLayout(mac: seq<byte>, challenge: seq<byte>)
    ensures var t, n := RegistrationText(mac, challenge), |mac|;
            && |t| == 4 + n + |challenge|
            && t[..4] == [0x52, 0x45, 0x47, 0x00] && t[4..4 + n] == mac && t[4 + n..] == challenge
  {
  }

  /** A report text byte by byte: "FIN" and a zero byte, the address, the counter in network order, the payload. */
  lemma ReportLayout(mac: seq<byte>, counter: uint32, e2e: seq<byte>)
    ensures var t, n := ReportText(mac, counter, e2e), |mac|;
            && |t| == 8 + n + |e2e|
            && t[..4] == [0x46, 0x49, 0x4e, 0x00] && t[4..4 + n] == mac && t[8 + n..] == e2e
            && t[4 + n..8 + n] == [counter / 0x100_0000, counter / 0x1_0000 % 256, counter / 0x100 % 256, counter % 256]
  {
    WordInNetworkOrder(counter);
    FourParts(FIN_PREFIX, mac, BigEndian(counter, COUNTER_WIDTH), e2e);
  }

  lemma FourParts(a: seq<byte>, b: seq<byte>, c: seq<byte>, d: seq<byte>)
    ensures var t, n, m := a + b + c + d, |a| + |b|, |a| + |b| + |c|;
            t[..|a|] == a && t[|a|..n] == b && t[n..m] == c && t[m..] == d
  {
  }

  /** The number that four bytes in network order stand for. */
  function NetworkOrder(b0: nat, b1: nat, b2: nat, b3: nat): nat {
    b0 * 0x100_0000 + b1 * 0x1_0000 + b2 * 0x100 + b3
  }

  /** The parts of a report are its bytes 0 to 3 in network order, 4 to 83 and 84 to 95. */
  lemma ReportParts(message: seq<byte>)
    requires |message| == 96
    ensures CounterOf(message) == NetworkOrder(message[0], message[1], message[2], message[3])
    ensures |PayloadOf(message)| == 80 && forall i :: 0 <= i < 80 ==> PayloadOf(message)[i] == message[4 + i]
    ensures |TagOf(message)| == 12 && forall i :: 0 <= i < 12 ==> TagOf(message)[i] == message[84 + i]
  {
    var c := message[0..4];
    assert c[..3] == message[0..3] && c[..3][..2] == message[0..2] && c[..3][..2][..1] == message[0..1];
    assert FromBigEndian(message[0..1]) == message[0];
    assert FromBigEndian(message[0..2]) == 256 * FromBigEndian(message[0..1]) + message[1];
    assert FromBigEndian(message[0..3]) == 256 * FromBigEndian(message[0..2]) + message[2];
  }

  /** Splitting a report loses nothing: counter, payload and tag rejoin to it, and the counter has 32 bits. */
  lemma ReportRejoins(message: seq<byte>)
    requires |message| == MESSAGE_LENGTH
    ensures CounterOf(message) < 0x1_0000_0000
    ensures BigEndian(CounterOf(message), COUNTER_WIDTH) + PayloadOf(message) + TagOf(message) == message
  {
    PackUnpack(message[0..4]);
    Pow256Of4();
    assert message == message[0..4] + message[4..84] + message[84..96];
  }

  /** A report built from a counter, a payload and a tag is split back into them. */
  lemma ReportSplits(counter: uint32, payload: seq<byte>, tag: seq<byte>)
    requires |payload| == 80 && |tag| == 12
    ensures var m := BigEndian(counter, COUNTER_WIDTH) + payload + tag;
            |m| == MESSAGE_LENGTH && CounterOf(m) == counter && PayloadOf(m) == payload && TagOf(m) == tag
  {
    var m := BigEndian(counter, COUNTER_WIDTH) + payload + tag;
    Pow256Of4();
    UnpackPack(counter, COUNTER_WIDTH);
    assert m[0..4] == BigEndian(counter, COUNTER_WIDTH);
  }

  /** The authenticated text of a report determines address, counter and payload. */
  lemma ReportTextInjective(mac1: seq<byte>, c1: uint32, e1: seq<byte>, mac2: seq<byte>, c2: uint32, e2: seq<byte>)
    requires |mac1| == |mac2| && ReportText(mac1, c1, e1) == ReportText(mac2, c2, e2)
    ensures mac1 == mac2 && c1 == c2 && e1 == e2
  {
    var n, t1, t2 := |mac1|, ReportText(mac1, c1, e1), ReportText(mac2, c2, e2);
    assert t1[4..4 + n] == mac1 && t2[4..4 + n] == mac2;
    assert t1[4 + n..8 + n] == BigEndian(c1, COUNTER_WIDTH) && t2[4 + n..8 + n] == BigEndian(c2, COUNTER_WIDTH);
    assert t1[8 + n..] == e1 && t2[8 + n..] == e2;
    Pow256Of4();
    UnpackPack(c1, COUNTER_WIDTH);
    UnpackPack(c2, COUNTER_WIDTH);
  }

  /** No report text is a registration text. */
  lemma TextsDiffer(mac1: seq<byte>, counter: nat, e2e: seq<byte>, mac2: seq<byte>, challenge: seq<byte>)
    ensures ReportText(mac1, counter, e2e) != RegistrationText(mac2, challenge)
  {
    assert ReportText(mac1, counter, e2e)[0] == 0x46;
    assert RegistrationText(mac2, challenge)[0] == 0x52;
  }
}
