/**
 * hpex49x_led.h: register offsets of the SCH5127 runtime block and of the
 * ICH9 GPIO block, and the LED bit maps of the four supported chassis.
 */
module LedMap {

  // SCH5127 runtime registers (offsets from the runtime base)
  const REG_GP1: nat := 0x4B
  const REG_GP2: nat := 0x4C
  const REG_GP3: nat := 0x4D
  const REG_GP4: nat := 0x4E
  const REG_GP5: nat := 0x4F
  const REG_GP6: nat := 0x50
  const REG_WDT_TIME_OUT: nat := 0x65
  const REG_WDT_VAL: nat := 0x66
  const REG_WDT_CFG: nat := 0x67
  const REG_WDT_CTRL: nat := 0x68
  const REG_HWM_INDEX: nat := 0x70
  const REG_HWM_DATA: nat := 0x71

  // ICH9 GPIO registers (offsets from the GPIO base)
  const GPIO_USE_SEL: nat := 0x00
  const GP_IO_SEL: nat := 0x04
  const GP_LVL: nat := 0x0C
  const GPO_BLINK: nat := 0x18
  const GPIO_USE_SEL2: nat := 0x30
  const GP_IO_SEL2: nat := 0x34
  const GP_LVL2: nat := 0x38

  /** The watchdog registers, in the order initsch5127 zeroes them. */
  const WDT_REGS: seq<nat> := [REG_WDT_TIME_OUT, REG_WDT_VAL, REG_WDT_CFG, REG_WDT_CTRL]

  // HP EX48x/EX49x: GPIO bit numbers
  const OUT_BLUE0: nat := 22
  const OUT_BLUE1: nat := 21
  const OUT_BLUE2: nat := 13
  const OUT_BLUE3: nat := 57
  const OUT_RED0: nat := 4
  const OUT_RED1: nat := 5
  const OUT_RED2: nat := 38
  const OUT_RED3: nat := 39
  const OUT_USB_DEVICE: nat := 7
  const OUT_SYSTEM_BLUE: nat := 28
  const OUT_SYSTEM_RED: nat := 27

  // Lenovo H340: high nibble = SCH5127 GP register, low nibble = bit
  const H340_BLUE0: nat := 0x56
  const H340_BLUE1: nat := 0x52
  const H340_BLUE2: nat := 0x50
  const H340_BLUE3: nat := 0x14
  const H340_RED0: nat := 0x57
  const H340_RED1: nat := 0x53
  const H340_RED2: nat := 0x51
  const H340_RED3: nat := 0x11
  const H340_USB_DEVICE: nat := 0x06
  const H340_USB_LED: nat := 0x1B
  const H340_POWER: nat := 0x19
  const H340_SYSTEM_RED: nat := 0x18
  const H340_SYSTEM_BLUE: nat := 0x14

  // Lenovo H341/H342
  const H341_BLUE0: nat := 0x4b
  const H341_BLUE1: nat := 0x4c
  const H341_BLUE2: nat := 0x52
  const H341_BLUE3: nat := 0x50
  const H341_RED0: nat := 0x59
  const H341_RED1: nat := 0x58
  const H341_RED2: nat := 0x4e
  const H341_RED3: nat := 0x51
  const H341_USB_DEVICE: nat := 0x06
  const H341_USB_LED: nat := 0x12
  const H341_POWER: nat := 0x1b
  const H341_SYSTEM_RED: nat := 0x18
  const H341_SYSTEM_BLUE: nat := 0x0A

  // Acer Altos
  const ALTOS_BLUE0: nat := 0x14
  const ALTOS_BLUE1: nat := 0x50
  const ALTOS_BLUE2: nat := 0x52
  const ALTOS_BLUE3: nat := 0x56
  const ALTOS_RED0: nat := 0x11
  const ALTOS_RED1: nat := 0x51
  const ALTOS_RED2: nat := 0x53
  const ALTOS_RED3: nat := 0x57
  const ALTOS_USB_DEVICE: nat := 0x06
  const ALTOS_USB_LED: nat := 0x1B
  const ALTOS_POWER: nat := 0x19
  const ALTOS_SYSTEM_RED: nat := 0x18
  const ALTOS_SYSTEM_BLUE: nat := 0x14

  /** The hardware variants with an init routine. */
  datatype Variant = HpEx49x | AcerAltos | H340 | H341

  /** PCI device/vendor word each init routine probes for. */
  function VendorId(v: Variant): nat {
    match v
    case HpEx49x => 0x29168086
    case AcerAltos => 0x27B88086
    case H340 => 0x27B88086
    case H341 => 0x29168086
  }

  /** IO_LEDS_BLUE of each init routine, indexed by slot - 1. */
  function BlueBits(v: Variant): (s: seq<nat>)
    ensures |s| == 4
  {
    match v
    case HpEx49x => [OUT_BLUE0, OUT_BLUE1, OUT_BLUE2, OUT_BLUE3]
    case AcerAltos => [ALTOS_BLUE0, ALTOS_BLUE1, ALTOS_BLUE2, ALTOS_BLUE3]
    case H340 => [H340_BLUE0, H340_BLUE1, H340_BLUE2, H340_BLUE3]
    case H341 => [H341_BLUE0, H341_BLUE1, H341_BLUE2, H341_BLUE3]
  }

  /** IO_LEDS_RED of each init routine, indexed by slot - 1. */
  function RedBits(v: Variant): (s: seq<nat>)
    ensures |s| == 4
  {
    match v
    case HpEx49x => [OUT_RED0, OUT_RED1, OUT_RED2, OUT_RED3]
    case AcerAltos => [ALTOS_RED0, ALTOS_RED1, ALTOS_RED2, ALTOS_RED3]
    case H340 => [H340_RED0, H340_RED1, H340_RED2, H340_RED3]
    case H341 => [H341_RED0, H341_RED1, H341_RED2, H341_RED3]
  }

  /** The value each init routine assigns to out_system_blue. */
  function SystemBlue(v: Variant): nat {
    match v
    case HpEx49x => OUT_SYSTEM_BLUE
    case AcerAltos => ALTOS_SYSTEM_BLUE
    case H340 => H340_SYSTEM_BLUE
    case H341 => H341_SYSTEM_BLUE
  }

  /** The value each init routine assigns to out_system_red. */
  function SystemRed(v: Variant): nat {
    match v
    case HpEx49x => OUT_SYSTEM_RED
    case AcerAltos => ALTOS_SYSTEM_RED
    case H340 => H340_SYSTEM_RED
    case H341 => H341_SYSTEM_RED
  }

  /**
   * The bits each init routine ORs into the use-select words, in call order:
   * the HP routine enables the eight drive bits (blue then red per slot) and
   * USB/system bits; the others enable USB, USB LED, power and system bits.
   */
  function UseSelectBits(v: Variant): seq<nat> {
    match v
    case HpEx49x =>
      [OUT_BLUE0, OUT_RED0, OUT_BLUE1, OUT_RED1, OUT_BLUE2, OUT_RED2, OUT_BLUE3, OUT_RED3,
       OUT_USB_DEVICE, OUT_SYSTEM_BLUE, OUT_SYSTEM_RED]
    case AcerAltos =>
      [ALTOS_USB_DEVICE, ALTOS_USB_LED, ALTOS_POWER, ALTOS_SYSTEM_BLUE, ALTOS_SYSTEM_RED]
    case H340 =>
      [H340_USB_DEVICE, H340_USB_LED, H340_POWER, H340_SYSTEM_BLUE, H340_SYSTEM_RED]
    case H341 =>
      [H341_USB_DEVICE, H341_USB_LED, H341_POWER, H341_SYSTEM_BLUE, H341_SYSTEM_RED]
  }

  /** Index of the SCH5127 GP register a code addresses, as setgpregslvl computes it. */
  function GpRegIndex(code: nat): int {
    (code / 16) % 16 - 1
  }

  predicate Distinct(s: seq<nat>) {
    forall i, j :: 0 <= i < j < |s| ==> s[i] != s[j]
  }

  /** The seven GPIO registers in use are pairwise distinct; each second-bank register
      is its first-bank partner plus a fixed distance. */
  lemma GpioOffsetsDistinct()
    ensures var offs := [GPIO_USE_SEL, GP_IO_SEL, GP_LVL, GPO_BLINK, GPIO_USE_SEL2, GP_IO_SEL2, GP_LVL2];
            forall i, j :: 0 <= i < j < |offs| ==> offs[i] != offs[j]
    ensures GPIO_USE_SEL2 == GPIO_USE_SEL + 0x30 && GP_IO_SEL2 == GP_IO_SEL + 0x30
    ensures GP_LVL2 == GP_LVL + 0x2C
  {
  }

  /** The watchdog registers are four consecutive offsets and the HWM pair is adjacent. */
  lemma WatchdogConsecutive()
    ensures |WDT_REGS| == 4
    ensures forall i :: 0 <= i < 4 ==> WDT_REGS[i] == REG_WDT_TIME_OUT + i
    ensures REG_WDT_TIME_OUT == 0x65 && REG_HWM_DATA == REG_HWM_INDEX + 1
  {
  }

  /** HP drive bits: eight distinct bits below 64; 57, 38 and 39 are in the second bank. */
  lemma HpDriveBits()
    ensures Distinct(BlueBits(HpEx49x) + RedBits(HpEx49x))
    ensures forall b :: b in BlueBits(HpEx49x) + RedBits(HpEx49x) ==> b < 64
    ensures forall b :: b in BlueBits(HpEx49x) + RedBits(HpEx49x) ==> (b >= 32 <==> b in {57, 38, 39})
  {
  }

  /** H340 and Altos codes: high nibble is GP register 1 or 5, low nibble a bit below 8,
      so setgpregslvl's register index is never negative for them. */
  lemma NibbleCodes(v: Variant, code: nat)
    requires v == H340 || v == AcerAltos
    requires code in BlueBits(v) + RedBits(v)
    ensures code / 16 == 1 || code / 16 == 5
    ensures code % 16 < 8
    ensures GpRegIndex(code) >= 0
  {
  }

  /** The H341 codes also give a register index of at least zero. */
  lemma H341RegIndex(code: nat)
    requires code in BlueBits(H341) + RedBits(H341)
    ensures 0 <= GpRegIndex(code) <= 4
  {
  }

  /** The Altos drive map is the H340 map in reverse slot order. */
  lemma AltosReversesH340()
    ensures forall i :: 0 <= i < 4 ==> BlueBits(AcerAltos)[i] == BlueBits(H340)[3 - i]
    ensures forall i :: 0 <= i < 4 ==> RedBits(AcerAltos)[i] == RedBits(H340)[3 - i]
  {
  }

  /** Every variant's system bits lie in the first 32-bit bank. */
  lemma SystemBitsFirstBank(v: Variant)
    ensures SystemBlue(v) < 32 && SystemRed(v) < 32
    ensures SystemBlue(v) != SystemRed(v)
  {
  }

  /** Every variant gives its eight drive lines eight distinct codes. */
  lemma DriveBitsDistinct(v: Variant)
    ensures Distinct(BlueBits(v) + RedBits(v))
  {
  }
}
