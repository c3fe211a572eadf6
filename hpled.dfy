/**
 * The shared definitions of hpled.h: the per-drive slot record, the colour,
 * chassis-state and on/off enumerations, and the bay count.
 */
module HpLed {
  import opened Common

  /** Four bays in the EX48x/EX49x chassis. */
  const MAX_HDD_LEDS: nat := 4

  /** Size of the `path` character array, terminator included. */
  const PATH_SIZE: nat := 12

  // enum ledcolor
  const LED_BLUE: bv32 := 1
  const LED_RED: bv32 := 2

  // enum ledstate
  const LED_OFF: bv32 := 1
  const LED_ON: bv32 := 2
  const LED_BLINK: bv32 := 4

  // enum bstate
  const OFF: int := 0
  const ON: int := 1

  /** struct hpled: one monitored drive. */
  datatype Led = Led(
    bRead: u64, bWrite: u64,     // baseline counters
    nRead: u64, nWrite: u64,     // latest sample
    targetId: nat, pathId: nat,
    blue: nat, red: nat,         // LED bit codes assigned by the variant's init
    devIndex: nat,
    hdd: int,                    // slot number 1..4
    path: string)

  /** A zero-initialised struct (static storage). */
  const ZeroLed := Led(0, 0, 0, 0, 0, 0, 0, 0, 0, 0, [])

  predicate SingleBit(x: bv32) {
    x != 0 && x & (x - 1) == 0
  }

  /** `led_type & LED_BLUE` and `led_type & LED_RED` test disjoint single bits. */
  lemma ColoursIndependent()
    ensures SingleBit(LED_BLUE) && SingleBit(LED_RED)
    ensures LED_BLUE & LED_RED == 0
    ensures (LED_BLUE | LED_RED) & LED_BLUE != 0 && (LED_BLUE | LED_RED) & LED_RED != 0
    ensures LED_BLUE & LED_RED == 0 && LED_RED & LED_BLUE == 0
  {
  }

  /** The three chassis states are distinct single bits, so "on" and "blink" exclude each other. */
  lemma StatesExclusive(state: bv32)
    ensures SingleBit(LED_OFF) && SingleBit(LED_ON) && SingleBit(LED_BLINK)
    ensures LED_OFF & LED_ON == 0 && LED_OFF & LED_BLINK == 0 && LED_ON & LED_BLINK == 0
    ensures !(state == LED_ON && state == LED_BLINK)
  {
  }

  /** Logical negation of a bstate: `!ON` is level 0 and `!OFF` is level 1. */
  function Not(state: int): (level: int)
    ensures level == 0 || level == 1
    ensures level == 1 <==> state == 0
  {
    if state == 0 then 1 else 0
  }

  lemma OnDrivesLow()
    ensures Not(ON) == 0 && Not(OFF) == 1
  {
  }
}
