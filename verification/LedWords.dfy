/**
 Ports and masks as 32-bit words: the bitwise operators of the LED macros are the set operations of `Leds`.  The
 argument about sets uses only how an operator acts on each bit (`Lawful`); that the machine's operators act so is
 proved on `bv32`.
 */
module LedWords {
  import opened Leds

  /** Words of some type, with the operators of the macros and the test of one bit. */
  datatype Words<!T> = Words(and: (T, T) -> T, or: (T, T) -> T, xor: (T, T) -> T, not: T -> T, one: Pin -> T, zero: T,
                             bit: (T, Pin) -> bool)

  ghost predicate SameBits<T(!new)>(o: Words<T>, x: T, y: T) {
    forall p :: o.bit(x, p) <==> o.bit(y, p)
  }

  ghost predicate AndLaw<T(!new)>(o: Words<T>) {
    forall x, y, p :: o.bit(o.and(x, y), p) <==> o.bit(x, p) && o.bit(y, p)
  }

  ghost predicate OrLaw<T(!new)>(o: Words<T>) {
    forall x, y, p :: o.bit(o.or(x, y), p) <==> o.bit(x, p) || o.bit(y, p)
  }

  ghost predicate XorLaw<T(!new)>(o: Words<T>) {
    forall x, y, p :: o.bit(o.xor(x, y), p) <==> o.bit(x, p) != o.bit(y, p)
  }

  ghost predicate NotLaw<T(!new)>(o: Words<T>) {
    forall x, p :: o.bit(o.not(x), p) <==> !o.bit(x, p)
  }

  ghost predicate ConstantLaws<T(!new)>(o: Words<T>) {
    && (forall p, q :: o.bit(o.one(p), q) <==> p == q)
    && (forall p :: !o.bit(o.zero, p))
  }

  ghost predicate Extensional<T(!new)>(o: Words<T>) {
    forall x, y :: SameBits(o, x, y) ==> x == y
  }

  ghost predicate Lawful<T(!new)>(o: Words<T>) {
    AndLaw(o) && OrLaw(o) && XorLaw(o) && NotLaw(o) && ConstantLaws(o) && Extensional(o)
  }

  /** The one bits of a word. */
  function Bits<T>(o: Words<T>, x: T): Word {
    set p: Pin | 0 <= p < 32 && o.bit(x, p)
  }

  // ---------- operators and sets ----------

  /** Each operator is its operation on sets; a word is determined by its bits, and every set has one. */
  lemma OperatorsAreSetOperations<T(!new)>(o: Words<T>, x: T, y: T, p: Pin)
    requires Lawful(o)
    ensures Bits(o, o.and(x, y)) == Bits(o, x) * Bits(o, y)
    ensures Bits(o, o.or(x, y)) == Bits(o, x) + Bits(o, y)
    ensures Bits(o, o.xor(x, y)) == Xor(Bits(o, x), Bits(o, y))
    ensures Bits(o, o.and(x, o.not(y))) == Bits(o, x) - Bits(o, y)
    ensures Bits(o, o.one(p)) == {p} && Bits(o, o.zero) == {}
    ensures Bits(o, x) == Bits(o, y) <==> x == y
  {
    if Bits(o, x) == Bits(o, y) {
      forall q ensures o.bit(x, q) <==> o.bit(y, q) {
        assert o.bit(x, q) <==> q in Bits(o, x);
        assert o.bit(y, q) <==> q in Bits(o, y);
      }
      assert SameBits(o, x, y);
    }
  }

  lemma {:induction false} WordFor<T(!new)>(o: Words<T>, w: Word) returns (x: T)
    requires Lawful(o)
    ensures Bits(o, x) == w
  {
    if w == {} {
      x := o.zero;
    } else {
      var p :| p in w;
      var rest := WordFor(o, w - {p});
      OperatorsAreSetOperations(o, rest, o.one(p), p);
      x := o.or(rest, o.one(p));
    }
  }

  // ---------- the macros on words ----------

  /** `LEDS_ON`: what OUTCLR and then OUTSET make of the port. */
  function OnWord<T>(o: Words<T>, leds: T, inv: T, port: T, mask: T): T {
    o.or(o.and(port, o.not(o.and(mask, o.and(leds, inv)))), o.and(mask, o.and(leds, o.not(inv))))
  }

  function OffWord<T>(o: Words<T>, leds: T, inv: T, port: T, mask: T): T {
    o.and(o.or(port, o.and(mask, o.and(leds, inv))), o.not(o.and(mask, o.and(leds, o.not(inv)))))
  }

  function InvertWord<T>(o: Words<T>, port: T, mask: T): T {
    o.and(o.or(port, o.and(mask, o.not(port))), o.not(o.and(mask, port)))
  }

  /** `LED_IS_ON`, which is tested against zero. */
  function IsOnWord<T>(o: Words<T>, inv: T, port: T, mask: T): T {
    o.and(mask, o.xor(port, inv))
  }

  /** What the macros write and test on words is what `Leds` says on sets. */
  lemma MacrosAgree<T(!new)>(o: Words<T>, b: Board, leds: T, inv: T, port: T, mask: T)
    requires Lawful(o) && Bits(o, leds) == MaskOf(b.pins) && Bits(o, inv) == b.invMask
    ensures Bits(o, OnWord(o, leds, inv, port, mask)) == OnMask(b, Bits(o, port), Bits(o, mask))
    ensures Bits(o, OffWord(o, leds, inv, port, mask)) == OffMask(b, Bits(o, port), Bits(o, mask))
    ensures Bits(o, InvertWord(o, port, mask)) == InvertMask(Bits(o, port), Bits(o, mask))
    ensures IsOnWord(o, inv, port, mask) != o.zero <==> IsOnMask(b, Bits(o, port), Bits(o, mask))
  {
    forall x, y
      ensures Bits(o, o.and(x, y)) == Bits(o, x) * Bits(o, y) && Bits(o, o.or(x, y)) == Bits(o, x) + Bits(o, y)
      ensures Bits(o, o.xor(x, y)) == Xor(Bits(o, x), Bits(o, y))
      ensures Bits(o, o.and(x, o.not(y))) == Bits(o, x) - Bits(o, y)
    {
      OperatorsAreSetOperations(o, x, y, 0);
    }
    OperatorsAreSetOperations(o, IsOnWord(o, inv, port, mask), o.zero, 0);
  }

  // ---------- the machine's words ----------

  predicate BitAt(x: bv32, n: bv5) {
    (x >> n) & 1 == 1
  }

  predicate Bit(x: bv32, p: Pin) {
    BitAt(x, p as bv5)
  }

  function One(p: Pin): bv32 {
    1 << (p as bv5)
  }

  function MachineWords(): Words<bv32> {
    Words((x, y) => x & y, (x, y) => x | y, (x, y) => x ^ y, x => !x, One, 0, Bit)
  }

  lemma OrBit(x: bv32, y: bv32, n: bv5)
    ensures BitAt(x | y, n) <==> BitAt(x, n) || BitAt(y, n)
  {
  }

  lemma XorBit(x: bv32, y: bv32, n: bv5)
    ensures BitAt(x ^ y, n) <==> BitAt(x, n) != BitAt(y, n)
  {
  }

  lemma NotBit(x: bv32, n: bv5)
    ensures BitAt(!x, n) <==> !BitAt(x, n)
  {
  }

  lemma OneBit(n: bv5, m: bv5)
    ensures BitAt(1 << n, m) <==> n == m
  {
  }

  lemma ZeroBit(n: bv5)
    ensures !BitAt(0, n)
  {
  }

  lemma SomeBit(x: bv32)
    requires x != 0
    ensures BitAt(x, 0) || BitAt(x, 1) || BitAt(x, 2) || BitAt(x, 3)
         || BitAt(x, 4) || BitAt(x, 5) || BitAt(x, 6) || BitAt(x, 7)
         || BitAt(x, 8) || BitAt(x, 9) || BitAt(x, 10) || BitAt(x, 11)
         || BitAt(x, 12) || BitAt(x, 13) || BitAt(x, 14) || BitAt(x, 15)
         || BitAt(x, 16) || BitAt(x, 17) || BitAt(x, 18) || BitAt(x, 19)
         || BitAt(x, 20) || BitAt(x, 21) || BitAt(x, 22) || BitAt(x, 23)
         || BitAt(x, 24) || BitAt(x, 25) || BitAt(x, 26) || BitAt(x, 27)
         || BitAt(x, 28) || BitAt(x, 29) || BitAt(x, 30) || BitAt(x, 31)
  {
  }

  lemma XorZero(x: bv32, y: bv32)
    requires x ^ y == 0
    ensures x == y
  {
  }

  lemma PlaceOfPin(p: Pin)
    ensures (p as bv5) as int == p
  {
  }

  lemma PinOfPlace(n: bv5) returns (p: Pin)
    ensures p as bv5 == n
  {
    p := n as int;
  }

  lemma DifferingBit(x: bv32, y: bv32) returns (p: Pin)
    requires x != y
    ensures Bit(x, p) != Bit(y, p)
  {
    if x ^ y == 0 {
      XorZero(x, y);
    }
    SomeBit(x ^ y);
    var n :| BitAt(x ^ y, n);
    XorBit(x, y, n);
    p := PinOfPlace(n);
  }

  lemma MachineOr()
    ensures OrLaw(MachineWords())
  {
    forall x, y, p ensures Bit(x | y, p) <==> Bit(x, p) || Bit(y, p) {
      OrBit(x, y, p as bv5);
    }
  }

  lemma MachineXor()
    ensures XorLaw(MachineWords())
  {
    forall x, y, p ensures Bit(x ^ y, p) <==> Bit(x, p) != Bit(y, p) {
      XorBit(x, y, p as bv5);
    }
  }

  lemma MachineNot()
    ensures NotLaw(MachineWords())
  {
    forall x, p ensures Bit(!x, p) <==> !Bit(x, p) {
      NotBit(x, p as bv5);
    }
  }

  lemma DeMorgan(x: bv32, y: bv32)
    ensures x & y == !(!x | !y)
  {
  }

  lemma AndFromOr<T(!new)>(o: Words<T>)
    requires OrLaw(o) && NotLaw(o) && forall x, y :: o.and(x, y) == o.not(o.or(o.not(x), o.not(y)))
    ensures AndLaw(o)
  {
  }

  lemma MachineAnd()
    ensures AndLaw(MachineWords())
  {
    MachineOr();
    MachineNot();
    var o := MachineWords();
    forall x, y ensures o.and(x, y) == o.not(o.or(o.not(x), o.not(y))) {
      DeMorgan(x, y);
    }
    AndFromOr(o);
  }

  lemma MachineConstants()
    ensures ConstantLaws(MachineWords())
  {
    forall p, q ensures Bit(One(p), q) <==> p == q {
      OneBit(p as bv5, q as bv5);
      PlaceOfPin(p);
      PlaceOfPin(q);
    }
    forall p ensures !Bit(0, p) {
      ZeroBit(p as bv5);
    }
  }

  lemma MachineExtensional()
    ensures Extensional(MachineWords())
  {
    forall x: bv32, y: bv32 | x != y ensures !SameBits(MachineWords(), x, y) {
      var p := DifferingBit(x, y);
      assert MachineWords().bit(x, p) != MachineWords().bit(y, p);
    }
  }

  /** The operators of `bv32` act bit by bit. */
  lemma MachineWordsLawful()
    ensures Lawful(MachineWords())
  {
    MachineAnd();
    MachineOr();
    MachineXor();
    MachineNot();
    MachineConstants();
    MachineExtensional();
  }

  // ---------- macros against indexed functions, on words ----------

  /** The board's masks as words. */
  ghost predicate BoardWords<T(!new)>(o: Words<T>, b: Board, leds: T, inv: T) {
    Lawful(o) && Bits(o, leds) == MaskOf(b.pins) && Bits(o, inv) == b.invMask
  }

  ghost predicate OnAgrees<T(!new)>(o: Words<T>, b: Board, leds: T, inv: T) {
    forall port, mask :: Bits(o, OnWord(o, leds, inv, port, mask)) == OnIndexed(b, Bits(o, port), Bits(o, mask))
  }

  ghost predicate OffAgrees<T(!new)>(o: Words<T>, b: Board, leds: T, inv: T) {
    forall port, mask :: Bits(o, OffWord(o, leds, inv, port, mask)) == OffIndexed(b, Bits(o, port), Bits(o, mask))
  }

  ghost predicate IsOnAgrees<T(!new)>(o: Words<T>, b: Board, inv: T) {
    forall port, i: nat :: i < |b.pins| ==>
      (IsOnWord(o, inv, port, o.one(b.pins[i])) != o.zero <==> StateGet(b, Bits(o, port), i))
  }

  /** The agreement theorems of `Leds` for ports and masks that are words. */
  lemma WordsAgreeIff<T(!new)>(o: Words<T>, b: Board, leds: T, inv: T)
    requires BoardWords(o, b, leds, inv)
    ensures OnAgrees(o, b, leds, inv) <==> PolarityMatches(b)
    ensures OffAgrees(o, b, leds, inv) <==> PolarityMatches(b)
    ensures IsOnAgrees(o, b, inv) <==> PolarityMatches(b)
  {
    OnWordsAgreeIff(o, b, leds, inv);
    OffWordsAgreeIff(o, b, leds, inv);
    IsOnWordsAgreeIff(o, b, leds, inv);
  }

  lemma OnWordsAgreeIff<T(!new)>(o: Words<T>, b: Board, leds: T, inv: T)
    requires BoardWords(o, b, leds, inv)
    ensures OnAgrees(o, b, leds, inv) <==> PolarityMatches(b)
  {
    OnAgreesIff(b);
    forall port, mask ensures Bits(o, OnWord(o, leds, inv, port, mask)) == OnMask(b, Bits(o, port), Bits(o, mask)) {
      MacrosAgree(o, b, leds, inv, port, mask);
    }
    if OnAgrees(o, b, leds, inv) {
      forall port, mask ensures OnMask(b, port, mask) == OnIndexed(b, port, mask) {
        var x := WordFor(o, port);
        var y := WordFor(o, mask);
        assert Bits(o, OnWord(o, leds, inv, x, y)) == OnIndexed(b, port, mask);
      }
    }
  }

  lemma OffWordsAgreeIff<T(!new)>(o: Words<T>, b: Board, leds: T, inv: T)
    requires BoardWords(o, b, leds, inv)
    ensures OffAgrees(o, b, leds, inv) <==> PolarityMatches(b)
  {
    OffAgreesIff(b);
    forall port, mask ensures Bits(o, OffWord(o, leds, inv, port, mask)) == OffMask(b, Bits(o, port), Bits(o, mask)) {
      MacrosAgree(o, b, leds, inv, port, mask);
    }
    if OffAgrees(o, b, leds, inv) {
      forall port, mask ensures OffMask(b, port, mask) == OffIndexed(b, port, mask) {
        var x := WordFor(o, port);
        var y := WordFor(o, mask);
        assert Bits(o, OffWord(o, leds, inv, x, y)) == OffIndexed(b, port, mask);
      }
    }
  }

  lemma IsOnWordsAgreeIff<T(!new)>(o: Words<T>, b: Board, leds: T, inv: T)
    requires BoardWords(o, b, leds, inv)
    ensures IsOnAgrees(o, b, inv) <==> PolarityMatches(b)
  {
    IsOnAgreesIff(b);
    forall port, i: nat | i < |b.pins|
      ensures IsOnWord(o, inv, port, o.one(b.pins[i])) != o.zero <==> IsOnMask(b, Bits(o, port), {b.pins[i]})
    {
      MacrosAgree(o, b, leds, inv, port, o.one(b.pins[i]));
      OperatorsAreSetOperations(o, port, port, b.pins[i]);
    }
    if IsOnAgrees(o, b, inv) {
      forall port, i: nat | i < |b.pins| ensures IsOnMask(b, port, {b.pins[i]}) <==> StateGet(b, port, i) {
        var x := WordFor(o, port);
        assert IsOnWord(o, inv, x, o.one(b.pins[i])) != o.zero <==> StateGet(b, port, i);
      }
    }
  }

  /** In particular on the words of the machine. */
  lemma MachineAgreesIff(b: Board, leds: bv32, inv: bv32)
    requires Bits(MachineWords(), leds) == MaskOf(b.pins) && Bits(MachineWords(), inv) == b.invMask
    ensures OnAgrees(MachineWords(), b, leds, inv) <==> PolarityMatches(b)
    ensures OffAgrees(MachineWords(), b, leds, inv) <==> PolarityMatches(b)
    ensures IsOnAgrees(MachineWords(), b, inv) <==> PolarityMatches(b)
  {
    MachineWordsLawful();
    WordsAgreeIff(MachineWords(), b, leds, inv);
  }
}
