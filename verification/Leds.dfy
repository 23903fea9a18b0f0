/**
 The LEDs of a board: the mask macros, which write a whole 32-bit port at once, against the indexed functions, which
 write one pin at a time.

 A 32-bit word is the set of its one bits.  The code uses bitwise operators only; `LedWords` proves that they are the
 operations on sets used here.
 */
module Leds {

  type Pin = p: nat | p < 32

  type Word = set<Pin>

  /** The LED pins in index order, whether an LED is on at level 1, and the mask of pins the macros take as inverted. */
  datatype Board = Board(pins: seq<Pin>, activeHigh: bool, invMask: Word)

  predicate DistinctPins(pins: seq<Pin>) {
    forall i, j :: 0 <= i < j < |pins| ==> pins[i] != pins[j]
  }

  /** All LED bits: `LEDS_MASK`. */
  function MaskOf(pins: seq<Pin>): Word {
    set i | 0 <= i < |pins| :: pins[i]
  }

  function Xor(x: Word, y: Word): Word {
    (x - y) + (y - x)
  }

  // ---------- one pin ----------

  function PinWrite(port: Word, p: Pin, high: bool): Word {
    if high then port + {p} else port - {p}
  }

  /** Sets the bit if it was clear and clears it if it was set. */
  function PinToggle(port: Word, p: Pin): Word {
    (port + ({p} - port)) - ({p} * port)
  }

  /** `bsp_board_led_state_get` */
  predicate StateGet(b: Board, port: Word, i: nat)
    requires i < |b.pins|
  {
    (b.pins[i] in port) == b.activeHigh
  }

  // ---------- the indexed functions, applied in index order to the LEDs in a mask ----------

  function WriteIndexed(port: Word, pins: seq<Pin>, mask: Word, high: bool): Word {
    if pins == [] then port
    else
      var before, p := WriteIndexed(port, pins[..|pins| - 1], mask, high), pins[|pins| - 1];
      if p in mask then PinWrite(before, p, high) else before
  }

  function InvertIndexed(port: Word, pins: seq<Pin>, mask: Word): Word {
    if pins == [] then port
    else
      var before, p := InvertIndexed(port, pins[..|pins| - 1], mask), pins[|pins| - 1];
      if p in mask then PinToggle(before, p) else before
  }

  function OnIndexed(b: Board, port: Word, mask: Word): Word {
    WriteIndexed(port, b.pins, mask, b.activeHigh)
  }

  function OffIndexed(b: Board, port: Word, mask: Word): Word {
    WriteIndexed(port, b.pins, mask, !b.activeHigh)
  }

  // ---------- the mask macros ----------

  function OnMask(b: Board, port: Word, mask: Word): Word {
    (port - (mask * (MaskOf(b.pins) * b.invMask))) + (mask * (MaskOf(b.pins) - b.invMask))
  }

  function OffMask(b: Board, port: Word, mask: Word): Word {
    (port + (mask * (MaskOf(b.pins) * b.invMask))) - (mask * (MaskOf(b.pins) - b.invMask))
  }

  function InvertMask(port: Word, mask: Word): Word {
    (port + (mask - port)) - (mask * port)
  }

  predicate IsOnMask(b: Board, port: Word, mask: Word) {
    mask * Xor(port, b.invMask) != {}
  }

  /** The macros' inverted pins are none of the LEDs if they are active high, and all of them if active low. */
  predicate PolarityMatches(b: Board) {
    MaskOf(b.pins) * b.invMask == if b.activeHigh then {} else MaskOf(b.pins)
  }

  // ---------- the indexed functions in closed form ----------

  lemma MaskOfAppend(pins: seq<Pin>)
    requires pins != []
    ensures MaskOf(pins) == MaskOf(pins[..|pins| - 1]) + {pins[|pins| - 1]}
  {
    forall p | p in MaskOf(pins) ensures p in MaskOf(pins[..|pins| - 1]) + {pins[|pins| - 1]} {
      var i :| 0 <= i < |pins| && pins[i] == p;
      assert i < |pins| - 1 ==> pins[..|pins| - 1][i] == p;
    }
    forall p | p in MaskOf(pins[..|pins| - 1]) ensures p in MaskOf(pins) {
      var i :| 0 <= i < |pins| - 1 && pins[..|pins| - 1][i] == p;
      assert pins[i] == p;
    }
  }

  lemma {:induction false} WriteIndexedIs(port: Word, pins: seq<Pin>, mask: Word)
    ensures WriteIndexed(port, pins, mask, true) == port + mask * MaskOf(pins)
    ensures WriteIndexed(port, pins, mask, false) == port - mask * MaskOf(pins)
  {
    if pins == [] {
    } else {
      WriteIndexedIs(port, pins[..|pins| - 1], mask);
      MaskOfAppend(pins);
    }
  }

  /** Toggling is order-free only because the pins are distinct. */
  lemma {:induction false} InvertIndexedIs(port: Word, pins: seq<Pin>, mask: Word)
    requires DistinctPins(pins)
    ensures InvertIndexed(port, pins, mask) == Xor(port, mask * MaskOf(pins))
  {
    if pins == [] {
    } else {
      InvertIndexedIs(port, pins[..|pins| - 1], mask);
      MaskOfAppend(pins);
      assert pins[|pins| - 1] !in MaskOf(pins[..|pins| - 1]);
    }
  }

  // ---------- macros against indexed functions ----------

  lemma SplitByMask(leds: Word, inv: Word)
    ensures leds * inv == {} <==> leds - inv == leds
    ensures leds * inv == leds <==> leds - inv == {}
  {
    assert leds == leds * inv + (leds - inv);
    assert (leds - inv) * inv == {};
    assert leds * inv - inv == {};
  }

  /** `LEDS_ON` agrees with the indexed functions on every port and mask exactly when the polarity matches. */
  lemma OnAgreesIff(b: Board)
    ensures (forall port, mask :: OnMask(b, port, mask) == OnIndexed(b, port, mask)) <==> PolarityMatches(b)
  {
    var leds := MaskOf(b.pins);
    if PolarityMatches(b) {
      forall port, mask ensures OnMask(b, port, mask) == OnIndexed(b, port, mask) {
        WriteIndexedIs(port, b.pins, mask);
        SplitByMask(leds, b.invMask);
      }
    } else {
      WriteIndexedIs({}, b.pins, leds);
      SplitByMask(leds, b.invMask);
      assert OnMask(b, {}, leds) == leds - b.invMask;
      assert OnMask(b, {}, leds) != OnIndexed(b, {}, leds);
    }
  }

  /** `LEDS_OFF` likewise. */
  lemma OffAgreesIff(b: Board)
    ensures (forall port, mask :: OffMask(b, port, mask) == OffIndexed(b, port, mask)) <==> PolarityMatches(b)
  {
    var leds := MaskOf(b.pins);
    if PolarityMatches(b) {
      forall port, mask ensures OffMask(b, port, mask) == OffIndexed(b, port, mask) {
        WriteIndexedIs(port, b.pins, mask);
        SplitByMask(leds, b.invMask);
      }
    } else {
      WriteIndexedIs({}, b.pins, leds);
      assert OffMask(b, {}, leds) == leds * b.invMask;
      assert OffMask(b, {}, leds) != OffIndexed(b, {}, leds);
    }
  }

  /** `LEDS_INVERT` is exclusive-or with the mask, hence its own inverse. */
  lemma InvertMaskIs(port: Word, mask: Word)
    ensures InvertMask(port, mask) == Xor(port, mask)
    ensures InvertMask(InvertMask(port, mask), mask) == port
  {
  }

  /** `LEDS_INVERT` agrees with the indexed toggles on a mask exactly when the mask holds LED bits only. */
  lemma InvertAgreesIff(b: Board, port: Word, mask: Word)
    requires DistinctPins(b.pins)
    ensures InvertMask(port, mask) == InvertIndexed(port, b.pins, mask) <==> mask <= MaskOf(b.pins)
  {
    InvertIndexedIs(port, b.pins, mask);
    if mask <= MaskOf(b.pins) {
      assert mask * MaskOf(b.pins) == mask;
    } else {
      var p :| p in mask && p !in MaskOf(b.pins);
      assert p in InvertMask(port, mask) <==> p !in InvertIndexed(port, b.pins, mask);
    }
  }

  /** `LED_IS_ON` on one LED's bit agrees with the indexed read everywhere exactly when the polarity matches. */
  lemma IsOnAgreesIff(b: Board)
    ensures (forall port, i: nat :: i < |b.pins| ==> (IsOnMask(b, port, {b.pins[i]}) <==> StateGet(b, port, i)))
       <==> PolarityMatches(b)
  {
    forall port, i: nat | i < |b.pins|
      ensures (IsOnMask(b, port, {b.pins[i]}) <==> StateGet(b, port, i))
          <==> (b.pins[i] in b.invMask <==> !b.activeHigh)
    {
      IsOnMaskOne(b, port, b.pins[i]);
    }
    if PolarityMatches(b) {
      forall i: nat | i < |b.pins| ensures b.pins[i] in b.invMask <==> !b.activeHigh {
        assert b.pins[i] in MaskOf(b.pins);
        assert b.pins[i] in b.invMask <==> b.pins[i] in MaskOf(b.pins) * b.invMask;
      }
    }
    if forall port, i: nat :: i < |b.pins| ==> (IsOnMask(b, port, {b.pins[i]}) <==> StateGet(b, port, i)) {
      forall p | p in MaskOf(b.pins) ensures p in b.invMask <==> !b.activeHigh {
        var i: nat :| i < |b.pins| && b.pins[i] == p;
        assert IsOnMask(b, {}, {b.pins[i]}) <==> StateGet(b, {}, i);
      }
    }
  }

  lemma IsOnMaskOne(b: Board, port: Word, p: Pin)
    ensures IsOnMask(b, port, {p}) <==> (p in port) != (p in b.invMask)
  {
    assert p in {p} * Xor(port, b.invMask) <==> p in Xor(port, b.invMask);
  }

  /** Under a matching polarity the inverted LEDs are all of them or none. */
  lemma MaskedPins(b: Board)
    ensures forall i :: 0 <= i < |b.pins| ==> b.pins[i] in MaskOf(b.pins)
    ensures PolarityMatches(b) ==> forall p :: p in MaskOf(b.pins) ==> (p in b.invMask <==> !b.activeHigh)
  {
    if PolarityMatches(b) {
      forall p | p in MaskOf(b.pins) ensures p in b.invMask <==> !b.activeHigh {
        assert p in b.invMask <==> p in MaskOf(b.pins) * b.invMask;
      }
    }
  }

  // ---------- boards ----------

  const ARDUINO_PRIMO := Board([25], false, {})
  const PCA10031 := Board([21, 22, 23], true, {21, 22, 23})
  const PCA10028 := Board([21, 22, 23, 24], false, {21, 22, 23, 24})
  const NRF6310 := Board([8, 9, 10, 11, 12, 13, 14, 15], true, {})

  /** Two of these boards break the condition, so on them the macros and the functions disagree. */
  lemma BoardPolarity()
    ensures !PolarityMatches(ARDUINO_PRIMO) && !PolarityMatches(PCA10031)
    ensures PolarityMatches(PCA10028) && PolarityMatches(NRF6310)
  {
    assert ARDUINO_PRIMO.pins[0] in MaskOf(ARDUINO_PRIMO.pins);
    assert PCA10031.pins[0] in MaskOf(PCA10031.pins) * PCA10031.invMask;
    assert MaskOf(PCA10028.pins) <= PCA10028.invMask;
  }

  // ---------- the port registers ----------

  /** The output port; writing a register sets, clears or leaves each bit. */
  class Gpio {
    var out: Word

    constructor (value: Word)
      ensures out == value
    {
      out := value;
    }

    method OutSet(value: Word)
      modifies this
      ensures out == old(out) + value
    {
      out := out + value;
    }

    method OutClear(value: Word)
      modifies this
      ensures out == old(out) - value
    {
      out := out - value;
    }

    method WritePin(p: Pin, high: bool)
      modifies this
      ensures out == PinWrite(old(out), p, high)
    {
      if high { OutSet({p}); } else { OutClear({p}); }
    }

    method TogglePin(p: Pin)
      modifies this
      ensures out == PinToggle(old(out), p)
    {
      var pinsState := out;
      OutSet({p} - pinsState);
      OutClear({p} * pinsState);
    }

    method LedsOn(b: Board, mask: Word)
      modifies this
      ensures out == OnMask(b, old(out), mask)
      ensures PolarityMatches(b) ==> forall i :: 0 <= i < |b.pins| && b.pins[i] in mask ==> StateGet(b, out, i)
      ensures forall p :: p !in mask || p !in MaskOf(b.pins) ==> (p in out <==> p in old(out))
    {
      MaskedPins(b);
      OutClear(mask * (MaskOf(b.pins) * b.invMask));
      OutSet(mask * (MaskOf(b.pins) - b.invMask));
    }

    method LedsOff(b: Board, mask: Word)
      modifies this
      ensures out == OffMask(b, old(out), mask)
      ensures PolarityMatches(b) ==> forall i :: 0 <= i < |b.pins| && b.pins[i] in mask ==> !StateGet(b, out, i)
      ensures forall p :: p !in mask || p !in MaskOf(b.pins) ==> (p in out <==> p in old(out))
    {
      MaskedPins(b);
      OutSet(mask * (MaskOf(b.pins) * b.invMask));
      OutClear(mask * (MaskOf(b.pins) - b.invMask));
    }

    method LedsInvert(mask: Word)
      modifies this
      ensures out == InvertMask(old(out), mask)
      ensures forall p :: (p in out) == if p in mask then p !in old(out) else p in old(out)
      ensures forall b: Board, i :: 0 <= i < |b.pins| ==>
                StateGet(b, out, i) == if b.pins[i] in mask then !old(StateGet(b, out, i)) else old(StateGet(b, out, i))
    {
      var gpioState := out;
      OutSet(mask - gpioState);
      OutClear(mask * gpioState);
    }

    method BoardLedOn(b: Board, i: nat)
      requires i < |b.pins|
      modifies this
      ensures out == PinWrite(old(out), b.pins[i], b.activeHigh) && StateGet(b, out, i)
    {
      WritePin(b.pins[i], b.activeHigh);
    }

    method BoardLedOff(b: Board, i: nat)
      requires i < |b.pins|
      modifies this
      ensures out == PinWrite(old(out), b.pins[i], !b.activeHigh) && !StateGet(b, out, i)
    {
      WritePin(b.pins[i], !b.activeHigh);
    }

    method BoardLedInvert(b: Board, i: nat)
      requires i < |b.pins|
      modifies this
      ensures out == PinToggle(old(out), b.pins[i]) && StateGet(b, out, i) == !old(StateGet(b, out, i))
    {
      TogglePin(b.pins[i]);
    }

    method BoardLedsOn(b: Board)
      modifies this
      ensures out == OnIndexed(b, old(out), MaskOf(b.pins))
      ensures forall i :: 0 <= i < |b.pins| ==> StateGet(b, out, i)
    {
      for i := 0 to |b.pins|
        invariant out == WriteIndexed(old(out), b.pins[..i], MaskOf(b.pins), b.activeHigh)
      {
        BoardLedOn(b, i);
        assert b.pins[..i + 1][..i] == b.pins[..i];
      }
      assert b.pins[..|b.pins|] == b.pins;
      WriteIndexedIs(old(out), b.pins, MaskOf(b.pins));
    }

    method BoardLedsOff(b: Board)
      modifies this
      ensures out == OffIndexed(b, old(out), MaskOf(b.pins))
      ensures forall i :: 0 <= i < |b.pins| ==> !StateGet(b, out, i)
    {
      for i := 0 to |b.pins|
        invariant out == WriteIndexed(old(out), b.pins[..i], MaskOf(b.pins), !b.activeHigh)
      {
        BoardLedOff(b, i);
        assert b.pins[..i + 1][..i] == b.pins[..i];
      }
      assert b.pins[..|b.pins|] == b.pins;
      WriteIndexedIs(old(out), b.pins, MaskOf(b.pins));
    }
  }
}
