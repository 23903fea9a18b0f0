/** Base 16 and base 64 of bytes (sections 8 and 4 of RFC 4648) as the server uses them, with their round trips. */
module Encodings {
  import opened Common

  // ---------- base 16 ----------

  function HexDigit(v: nat): char
    requires v < 16
  {
    (if v < 10 then '0' as int + v else 'a' as int + v - 10) as char
  }

  function UpperHexDigit(v: nat): char
    requires v < 16
  {
    (if v < 10 then '0' as int + v else 'A' as int + v - 10) as char
  }

  /** The value of a hexadecimal digit of either case; -1 for any other character. */
  function HexValue(c: char): (v: int)
    ensures -1 <= v < 16
  {
    var n := c as int;
    if '0' as int <= n <= '9' as int then n - '0' as int
    else if 'a' as int <= n <= 'f' as int then n - 'a' as int + 10
    else if 'A' as int <= n <= 'F' as int then n - 'A' as int + 10
    else -1
  }

  predicate IsLowerHexDigit(c: char) {
    '0' as int <= c as int <= '9' as int || 'a' as int <= c as int <= 'f' as int
  }

  /** The digits of section 8 of RFC 4648, in lower and in upper case. */
  lemma HexAlphabet(v: nat)
    requires v < 16
    ensures HexDigit(v) == "0123456789abcdef"[v] && UpperHexDigit(v) == "0123456789ABCDEF"[v]
    ensures HexValue("0123456789abcdef"[v]) == v && HexValue("0123456789ABCDEF"[v]) == v
  {
  }

  lemma LowerDigits(c: char)
    ensures c in "0123456789abcdef" <==> IsLowerHexDigit(c)
  {
    if IsLowerHexDigit(c) {
      HexValueRoundTrip(c);
      HexAlphabet(HexValue(c));
    }
  }

  lemma HexDigitRoundTrip(v: nat)
    requires v < 16
    ensures HexValue(HexDigit(v)) == v && IsLowerHexDigit(HexDigit(v))
  {
  }

  lemma HexValueRoundTrip(c: char)
    requires IsLowerHexDigit(c)
    ensures HexValue(c) >= 0 && HexDigit(HexValue(c)) == c
  {
  }

  /** The low-case form of a character. */
  function LowerChar(c: char): char {
    if 'A' as int <= c as int <= 'Z' as int then (c as int - 'A' as int + 'a' as int) as char else c
  }

  lemma UpperHexDigitLowered(v: nat)
    requires v < 16
    ensures UpperHexDigit(v) != '-' && LowerChar(UpperHexDigit(v)) == HexDigit(v)
  {
  }

  function Hexlify(b: seq<byte>): (s: string)
    ensures |s| == 2 * |b|
  {
    if b == [] then "" else [HexDigit(b[0] / 16), HexDigit(b[0] % 16)] + Hexlify(b[1..])
  }

  function Unhexlify(s: string): Option<seq<byte>> {
    if s == "" then Some([])
    else if |s| == 1 || HexValue(s[0]) < 0 || HexValue(s[1]) < 0 then None
    else match Unhexlify(s[2..])
      case None => None
      case Some(rest) => Some([16 * HexValue(s[0]) + HexValue(s[1])] + rest)
  }

  predicate IsLowerHex(s: string) {
    forall i :: 0 <= i < |s| ==> IsLowerHexDigit(s[i])
  }

  lemma {:induction false} UnhexlifyHexlify(b: seq<byte>)
    ensures Unhexlify(Hexlify(b)) == Some(b) && IsLowerHex(Hexlify(b))
  {
    if b == [] {
    } else {
      UnhexlifyHexlify(b[1..]);
      ByteRoundTrip(b[0]);
      HexlifyFirst(b[0], b[1..]);
      assert b == [b[0]] + b[1..];
    }
  }

  lemma ByteRoundTrip(x: byte)
    ensures var high, low := HexDigit(x / 16), HexDigit(x % 16);
            && IsLowerHexDigit(high) && IsLowerHexDigit(low)
            && HexValue(high) >= 0 && HexValue(low) >= 0 && 16 * HexValue(high) + HexValue(low) == x
  {
    HexDigitRoundTrip(x / 16);
    HexDigitRoundTrip(x % 16);
  }

  lemma HexlifyFirst(x: byte, rest: seq<byte>)
    ensures var s := Hexlify([x] + rest);
            |s| >= 2 && s[0] == HexDigit(x / 16) && s[1] == HexDigit(x % 16) && s[2..] == Hexlify(rest)
  {
    assert ([x] + rest)[1..] == rest;
  }

  lemma {:induction false} HexlifyUnhexlify(s: string)
    requires |s| % 2 == 0 && IsLowerHex(s)
    ensures Unhexlify(s).Some? && Hexlify(Unhexlify(s).value) == s
    ensures 2 * |Unhexlify(s).value| == |s|
  {
    if s == "" {
    } else {
      HexlifyUnhexlify(s[2..]);
      HexValueRoundTrip(s[0]);
      HexValueRoundTrip(s[1]);
      var b := 16 * HexValue(s[0]) + HexValue(s[1]);
      assert b / 16 == HexValue(s[0]) && b % 16 == HexValue(s[1]);
      assert Unhexlify(s).value[1..] == Unhexlify(s[2..]).value;
      assert s == [s[0], s[1]] + s[2..];
    }
  }

  // ---------- how a tracker prints its address ----------

  /** Upper-case pairs separated by dashes. */
  function DashedHex(b: seq<byte>): string {
    if b == [] then ""
    else
      var pair := [UpperHexDigit(b[0] / 16), UpperHexDigit(b[0] % 16)];
      if |b| == 1 then pair else pair + "-" + DashedHex(b[1..])
  }

  function WithoutDashes(s: string): string {
    if s == "" then "" else (if s[0] == '-' then "" else [s[0]]) + WithoutDashes(s[1..])
  }

  function LowerCase(s: string): string {
    if s == "" then ""
    else [LowerChar(s[0])] + LowerCase(s[1..])
  }

  lemma WithoutDashesCons(c: char, t: string)
    ensures WithoutDashes([c] + t) == (if c == '-' then "" else [c]) + WithoutDashes(t)
  {
    assert ([c] + t)[1..] == t;
  }

  lemma LowerCaseCons(c: char, t: string)
    ensures LowerCase([c] + t) == [LowerChar(c)] + LowerCase(t)
  {
    assert ([c] + t)[1..] == t;
  }

  lemma PrintedByte(b: byte, rest: string)
    ensures var x, y := UpperHexDigit(b / 16), UpperHexDigit(b % 16);
            LowerCase(WithoutDashes([x] + ([y] + rest)))
            == [HexDigit(b / 16)] + ([HexDigit(b % 16)] + LowerCase(WithoutDashes(rest)))
  {
    var x, y := UpperHexDigit(b / 16), UpperHexDigit(b % 16);
    UpperHexDigitLowered(b / 16);
    UpperHexDigitLowered(b % 16);
    WithoutDashesCons(x, [y] + rest);
    WithoutDashesCons(y, rest);
    LowerCaseCons(x, [y] + WithoutDashes(rest));
    LowerCaseCons(y, WithoutDashes(rest));
  }

  lemma DashDropped(t: string)
    ensures WithoutDashes("-" + t) == WithoutDashes(t)
  {
    WithoutDashesCons('-', t);
    assert "" + WithoutDashes(t) == WithoutDashes(t);
  }

  /** The separator and the rest of a printed address. */
  function PrintedRest(b: seq<byte>): string {
    if b == [] then "" else "-" + DashedHex(b)
  }

  lemma DashedHexCons(b: seq<byte>)
    requires b != []
    ensures DashedHex(b) == [UpperHexDigit(b[0] / 16)] + ([UpperHexDigit(b[0] % 16)] + PrintedRest(b[1..]))
  {
  }

  /** A printed address: two upper-case digits for each byte, high digit first, and dashes between. */
  lemma {:induction false} DashedHexLayout(b: seq<byte>, i: nat)
    requires i < |b|
    ensures |DashedHex(b)| == 3 * |b| - 1
    ensures DashedHex(b)[3 * i] == "0123456789ABCDEF"[b[i] / 16]
    ensures DashedHex(b)[3 * i + 1] == "0123456789ABCDEF"[b[i] % 16]
    ensures i < |b| - 1 ==> DashedHex(b)[3 * i + 2] == '-'
  {
    FirstPair(b);
    if |b| == 1 {
    } else {
      DashedHexLayout(b[1..], if i == 0 then 0 else i - 1);
    }
  }

  /** The first byte of a printed address, and where the rest begins. */
  lemma FirstPair(b: seq<byte>)
    requires b != []
    ensures |DashedHex(b)| == if |b| == 1 then 2 else 3 + |DashedHex(b[1..])|
    ensures DashedHex(b)[0] == "0123456789ABCDEF"[b[0] / 16] && DashedHex(b)[1] == "0123456789ABCDEF"[b[0] % 16]
    ensures |b| > 1 ==> DashedHex(b)[2] == '-' && DashedHex(b)[3..] == DashedHex(b[1..])
  {
    HexAlphabet(b[0] / 16);
    HexAlphabet(b[0] % 16);
  }

  /** And the stored form: two lower-case digits for each byte. */
  lemma {:induction false} HexlifyLayout(b: seq<byte>, i: nat)
    requires i < |b|
    ensures Hexlify(b)[2 * i] == "0123456789abcdef"[b[i] / 16] && Hexlify(b)[2 * i + 1] == "0123456789abcdef"[b[i] % 16]
  {
    HexAlphabet(b[0] / 16);
    HexAlphabet(b[0] % 16);
    if i == 0 {
    } else {
      HexlifyLayout(b[1..], i - 1);
    }
  }

  /** Taking the dashes out of the printed form and lowering its case gives the address back. */
  lemma {:induction false} PrintedAddress(b: seq<byte>)
    ensures LowerCase(WithoutDashes(DashedHex(b))) == Hexlify(b)
  {
    if b == [] {
    } else {
      var t := b[1..];
      PrintedAddress(t);
      DashDropped(DashedHex(t));
      assert LowerCase(WithoutDashes(PrintedRest(t))) == Hexlify(t);
      DashedHexCons(b);
      PrintedByte(b[0], PrintedRest(t));
    }
  }

  /** Addresses of 12 lower-case digits have 6 bytes, and different ones have different bytes and print differently. */
  lemma AddressesDiffer(m1: string, m2: string)
    requires |m1| == |m2| == 12 && IsLowerHex(m1) && IsLowerHex(m2)
    ensures Unhexlify(m1).Some? && |Unhexlify(m1).value| == 6 && Unhexlify(m2).Some?
    ensures m1 != m2 ==> Unhexlify(m1).value != Unhexlify(m2).value
    ensures m1 != m2 ==> DashedHex(Unhexlify(m1).value) != DashedHex(Unhexlify(m2).value)
  {
    HexlifyUnhexlify(m1);
    HexlifyUnhexlify(m2);
    PrintedAddress(Unhexlify(m1).value);
    PrintedAddress(Unhexlify(m2).value);
  }

  // ---------- base 64 ----------

  function SixBits(v: nat): char
    requires v < 64
  {
    (if v < 26 then 'A' as int + v
     else if v < 52 then 'a' as int + v - 26
     else if v < 62 then '0' as int + v - 52
     else if v == 62 then '+' as int else '/' as int) as char
  }

  function SixBitsValue(c: char): (v: int)
    ensures -1 <= v < 64
  {
    var n := c as int;
    if 'A' as int <= n <= 'Z' as int then n - 'A' as int
    else if 'a' as int <= n <= 'z' as int then n - 'a' as int + 26
    else if '0' as int <= n <= '9' as int then n - '0' as int + 52
    else if c == '+' then 62 else if c == '/' then 63 else -1
  }

  const UPPER_LETTERS := "ABCDEFGHIJKLMNOPQRSTUVWXYZ"
  const LOWER_LETTERS := "abcdefghijklmnopqrstuvwxyz"
  const DIGITS := "0123456789"

  /** The alphabet of section 4 of RFC 4648. */
  const ALPHABET := UPPER_LETTERS + LOWER_LETTERS + DIGITS + "+/"

  lemma UpperLetter(v: nat)
    requires v < 26
    ensures UPPER_LETTERS[v] as int == 'A' as int + v
  {
  }

  lemma LowerLetter(v: nat)
    requires v < 26
    ensures LOWER_LETTERS[v] as int == 'a' as int + v
  {
  }

  lemma Digit(v: nat)
    requires v < 10
    ensures DIGITS[v] as int == '0' as int + v
  {
  }

  lemma Base64Alphabet(v: nat)
    requires v < 64
    ensures SixBits(v) == ALPHABET[v] && SixBitsValue(ALPHABET[v]) == v
  {
    SixBitsRoundTrip(v);
    if v < 26 {
      UpperLetter(v);
      assert ALPHABET[v] == UPPER_LETTERS[v];
    } else if v < 52 {
      LowerLetter(v - 26);
      assert ALPHABET[v] == LOWER_LETTERS[v - 26];
    } else if v < 62 {
      Digit(v - 52);
      assert ALPHABET[v] == DIGITS[v - 52];
    }
  }

  function Group(b0: byte, b1: byte, b2: byte): string {
    [SixBits(b0 / 4), SixBits(b0 % 4 * 16 + b1 / 16), SixBits(b1 % 16 * 4 + b2 / 64), SixBits(b2 % 64)]
  }

  function Base64(b: seq<byte>): string {
    if b == [] then ""
    else if |b| == 1 then Group(b[0], 0, 0)[..2] + "=="
    else if |b| == 2 then Group(b[0], b[1], 0)[..3] + "="
    else Group(b[0], b[1], b[2]) + Base64(b[3..])
  }

  /** The bytes of a group of four characters, as many as its padding leaves. */
  function GroupBytes(c0: char, c1: char, c2: char, c3: char): Option<seq<byte>> {
    var v0, v1, v2, v3 := SixBitsValue(c0), SixBitsValue(c1), SixBitsValue(c2), SixBitsValue(c3);
    if v0 < 0 || v1 < 0 then None
    else if c2 == '=' && c3 == '=' then Some([v0 * 4 + v1 / 16])
    else if v2 < 0 then None
    else if c3 == '=' then Some([v0 * 4 + v1 / 16, v1 % 16 * 16 + v2 / 4])
    else if v3 < 0 then None
    else Some([v0 * 4 + v1 / 16, v1 % 16 * 16 + v2 / 4, v2 % 4 * 64 + v3])
  }

  /** Padding is allowed in the last group only. */
  function Unbase64(s: string): Option<seq<byte>> {
    if s == "" then Some([])
    else if |s| < 4 then None
    else
      var first, rest := GroupBytes(s[0], s[1], s[2], s[3]), Unbase64(s[4..]);
      if first.None? || rest.None? || (|first.value| < 3 && s[4..] != "") then None
      else Some(first.value + rest.value)
  }

  /** The 24 bits of a group, six at a time and most significant first, each as a letter of the alphabet. */
  function Letters(n: nat): string
    requires n < 0x100_0000
  {
    [ALPHABET[n / 0x4_0000], ALPHABET[n / 0x1000 % 64], ALPHABET[n / 64 % 64], ALPHABET[n % 64]]
  }

  /** Three bytes as one number of 24 bits. */
  function ThreeBytes(b0: nat, b1: nat, b2: nat): nat {
    b0 * 0x1_0000 + b1 * 0x100 + b2
  }

  /** Base 64 as section 4 of RFC 4648 describes it: three bytes are one number of 24 bits, and a rest is padded. */
  lemma Base64Layout(b: seq<byte>)
    ensures |b| == 0 ==> Base64(b) == ""
    ensures |b| == 1 ==> Base64(b) == Letters(ThreeBytes(b[0], 0, 0))[..2] + "=="
    ensures |b| == 2 ==> Base64(b) == Letters(ThreeBytes(b[0], b[1], 0))[..3] + "="
    ensures |b| >= 3 ==> Base64(b) == Letters(ThreeBytes(b[0], b[1], b[2])) + Base64(b[3..])
  {
    if |b| == 0 {
    } else {
      var b1, b2: byte := if |b| > 1 then b[1] else 0, if |b| > 2 then b[2] else 0;
      GroupLetters(b[0], b1, b2);
    }
  }

  lemma GroupLetters(b0: byte, b1: byte, b2: byte)
    ensures Group(b0, b1, b2) == Letters(ThreeBytes(b0, b1, b2))
  {
    var n := ThreeBytes(b0, b1, b2);
    SixBitParts(b0 / 4, b0 % 4, b1 / 16, b1 % 16, b2 / 64, b2 % 64, n);
    LettersOf(b0 / 4, b0 % 4 * 16 + b1 / 16, b1 % 16 * 4 + b2 / 64, b2 % 64, n);
  }

  lemma LettersOf(v0: nat, v1: nat, v2: nat, v3: nat, n: nat)
    requires n < 0x100_0000 && v0 == n / 0x4_0000 && v1 == n / 0x1000 % 64 && v2 == n / 64 % 64 && v3 == n % 64
    ensures [SixBits(v0), SixBits(v1), SixBits(v2), SixBits(v3)] == Letters(n)
  {
    Base64Alphabet(v0);
    Base64Alphabet(v1);
    Base64Alphabet(v2);
    Base64Alphabet(v3);
  }

  /** The four parts of a number whose bytes are `4 * a + b`, `16 * c + d` and `64 * e + f`. */
  lemma SixBitParts(a: nat, b: nat, c: nat, d: nat, e: nat, f: nat, n: nat)
    requires a < 64 && b < 4 && c < 16 && d < 16 && e < 4 && f < 64
    requires n == (4 * a + b) * 0x1_0000 + (16 * c + d) * 0x100 + (64 * e + f)
    ensures n / 0x4_0000 == a && n / 0x1000 % 64 == b * 16 + c
    ensures n / 64 % 64 == d * 4 + e && n % 64 == f
  {
    var q := 64 * a + (16 * b + c);
    Sixty4(a, 16 * b + c);
    Sixty4(q, 4 * d + e);
    Sixty4(64 * q + (4 * d + e), f);
    SixBitShifts(n);
  }

  lemma Sixty4(q: nat, r: nat)
    requires r < 64
    ensures (64 * q + r) / 64 == q && (64 * q + r) % 64 == r
  {
  }

  lemma SixBitShifts(n: nat)
    ensures n / 64 / 64 == n / 0x1000 && n / 64 / 64 / 64 == n / 0x4_0000
  {
  }

  lemma SixBitsRoundTrip(v: nat)
    requires v < 64
    ensures SixBitsValue(SixBits(v)) == v && SixBits(v) != '='
  {
  }

  lemma GroupBytesOf(v0: nat, v1: nat, v2: nat, v3: nat)
    requires v0 < 64 && v1 < 64 && v2 < 64 && v3 < 64
    ensures var c0, c1, c2, c3 := SixBits(v0), SixBits(v1), SixBits(v2), SixBits(v3);
            && GroupBytes(c0, c1, c2, c3) == Some([v0 * 4 + v1 / 16, v1 % 16 * 16 + v2 / 4, v2 % 4 * 64 + v3])
            && GroupBytes(c0, c1, c2, '=') == Some([v0 * 4 + v1 / 16, v1 % 16 * 16 + v2 / 4])
            && GroupBytes(c0, c1, '=', '=') == Some([v0 * 4 + v1 / 16])
  {
    SixBitsRoundTrip(v0);
    SixBitsRoundTrip(v1);
    SixBitsRoundTrip(v2);
    SixBitsRoundTrip(v3);
  }

  lemma GroupRoundTrip(b0: byte, b1: byte, b2: byte)
    ensures var g := Group(b0, b1, b2);
            && GroupBytes(g[0], g[1], g[2], g[3]) == Some([b0, b1, b2])
            && (b2 == 0 ==> GroupBytes(g[0], g[1], g[2], '=') == Some([b0, b1]))
            && (b1 == 0 ==> GroupBytes(g[0], g[1], '=', '=') == Some([b0]))
  {
    var v0, v1, v2, v3 := b0 / 4, b0 % 4 * 16 + b1 / 16, b1 % 16 * 4 + b2 / 64, b2 % 64;
    GroupBytesOf(v0, v1, v2, v3);
    GroupArithmetic(b0, b1, b2, v0, v1, v2, v3);
  }

  lemma GroupArithmetic(b0: byte, b1: byte, b2: byte, v0: nat, v1: nat, v2: nat, v3: nat)
    requires v0 == b0 / 4 && v1 == b0 % 4 * 16 + b1 / 16 && v2 == b1 % 16 * 4 + b2 / 64 && v3 == b2 % 64
    ensures v0 * 4 + v1 / 16 == b0 && v1 % 16 * 16 + v2 / 4 == b1 && v2 % 4 * 64 + v3 == b2
  {
  }

  lemma {:induction false} Unbase64Base64(b: seq<byte>)
    ensures Unbase64(Base64(b)) == Some(b)
  {
    if b == [] {
    } else if |b| == 1 {
      LastOne(b);
    } else if |b| == 2 {
      LastTwo(b);
    } else {
      Unbase64Base64(b[3..]);
      GroupRoundTrip(b[0], b[1], b[2]);
      FirstGroup(Group(b[0], b[1], b[2]), Base64(b[3..]), b);
    }
  }

  lemma FirstGroup(g: string, rest: string, b: seq<byte>)
    requires |g| == 4 && |b| >= 3 && GroupBytes(g[0], g[1], g[2], g[3]) == Some([b[0], b[1], b[2]])
    requires Unbase64(rest) == Some(b[3..])
    ensures Unbase64(g + rest) == Some(b)
  {
    assert (g + rest)[4..] == rest;
    assert b == [b[0], b[1], b[2]] + b[3..];
  }

  lemma LastOne(b: seq<byte>)
    requires |b| == 1
    ensures Unbase64(Base64(b)) == Some(b)
  {
    var zero: byte := 0;
    GroupRoundTrip(b[0], zero, zero);
    OneLeft(Group(b[0], zero, zero), b[0]);
    assert b == [b[0]];
  }

  lemma LastTwo(b: seq<byte>)
    requires |b| == 2
    ensures Unbase64(Base64(b)) == Some(b)
  {
    var zero: byte := 0;
    GroupRoundTrip(b[0], b[1], zero);
    TwoLeft(Group(b[0], b[1], zero), b[0], b[1]);
    assert b == [b[0], b[1]];
  }

  lemma OneLeft(g: string, x: byte)
    requires |g| == 4 && GroupBytes(g[0], g[1], '=', '=') == Some([x])
    ensures Unbase64(g[..2] + "==") == Some([x])
  {
    assert g[..2] + "==" == [g[0], g[1], '=', '='];
    SingleGroup(g[0], g[1], '=', '=');
  }

  lemma TwoLeft(g: string, x: byte, y: byte)
    requires |g| == 4 && GroupBytes(g[0], g[1], g[2], '=') == Some([x, y])
    ensures Unbase64(g[..3] + "=") == Some([x, y])
  {
    assert g[..3] + "=" == [g[0], g[1], g[2], '='];
    SingleGroup(g[0], g[1], g[2], '=');
  }

  lemma SingleGroup(c0: char, c1: char, c2: char, c3: char)
    ensures Unbase64([c0, c1, c2, c3]) == GroupBytes(c0, c1, c2, c3)
  {
    var s := [c0, c1, c2, c3];
    assert s[4..] == "";
    assert GroupBytes(c0, c1, c2, c3).Some? ==>
        GroupBytes(c0, c1, c2, c3).value + [] == GroupBytes(c0, c1, c2, c3).value;
  }

  lemma Base64Injective(b: seq<byte>, c: seq<byte>)
    requires Base64(b) == Base64(c)
    ensures b == c
  {
    Unbase64Base64(b);
    Unbase64Base64(c);
  }
}
