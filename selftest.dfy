/**
 * hpex49xled-test.c: a stand-alone check of the HP EX48x/EX49x LED hardware.
 * It carries its own copy of the register layer, which writes exactly what
 * Registers and Chipset.InitSch5127 describe (without the lock around the
 * drive setter), an init_hpex49x that enables the LED lines but assigns no
 * slot bits, and a main that turns the chassis LEDs and the bay-1 LEDs off.
 */
module SelfTest {
  import opened HpLed
  import opened LedMap
  import opened Registers
  import opened Chipset

  /** init_hpex49x of the self-test: set the system LED bits, run initsch5127 for the
      ICH9R bridge, and switch the eight drive lines and the USB and system lines to
      GPIO outputs; no other port changes. Returns 1 on success and 0 when the
      chipset is not recognised. */
  method InitHpex49x(c: Controller, p: Probe) returns (r: nat)
    requires c.Valid() && ProbeInRange(p)
    modifies c
    ensures c.Valid()
    ensures c.outSystemBlue == OUT_SYSTEM_BLUE && c.outSystemRed == OUT_SYSTEM_RED
    ensures r == 0 || r == 1
    ensures r == 1 <==> p.didVid == VendorId(HpEx49x) && GpioBase(p.gpioRaw).Some?
    ensures r == 1 ==> c.gpiobase == GpioBase(p.gpioRaw).value
    ensures PortsAfterInit(c, old(c.regs), old(c.log), old(c.gpiobase), old(c.sch5127Regs), HpEx49x, p)
    ensures r == 1 ==> HpLinesOutput(c)
  {
    var ok := SetUpLines(c, HpEx49x, p);
    if !ok {
      return 0;
    }
    HpLinesEnabled(c);
    return 1;
  }

  /** The eight first-bank bits 4, 5, 7, 13, 21, 22, 27, 28 and the three second-bank
      bits 6, 7, 25 (GPIO 38, 39, 57) are GPIO outputs. */
  ghost predicate HpLinesOutput(c: Controller)
    reads c
  {
    {4, 5, 7, 13, 21, 22, 27, 28} <= c.Read(c.gpiobase + GPIO_USE_SEL) &&
    {6, 7, 25} <= c.Read(c.gpiobase + GPIO_USE_SEL2) &&
    {4, 5, 7, 13, 21, 22, 27, 28} * c.Read(c.gpiobase + GP_IO_SEL) == {} &&
    {6, 7, 25} * c.Read(c.gpiobase + GP_IO_SEL2) == {}
  }

  /** With the HP lines enabled, the eight first-bank and three second-bank bits are
      GPIO outputs. */
  lemma HpLinesEnabled(c: Controller)
    requires LinesEnabled(c, HpEx49x)
    ensures {4, 5, 7, 13, 21, 22, 27, 28} <= c.Read(c.gpiobase + GPIO_USE_SEL) &&
            {6, 7, 25} <= c.Read(c.gpiobase + GPIO_USE_SEL2) &&
            {4, 5, 7, 13, 21, 22, 27, 28} * c.Read(c.gpiobase + GP_IO_SEL) == {} &&
            {6, 7, 25} * c.Read(c.gpiobase + GP_IO_SEL2) == {}
  {
    HpUseSelectContents();
  }

  /** The LED-off sequence of the self-test's main: both chassis LEDs off, then
      set_hpex_led(LED_BLUE, OFF, OUT_BLUE0) and set_hpex_led(LED_BLUE, OFF, OUT_RED0),
      which drive the bay-1 blue and red lines high. */
  method LedsOff(c: Controller)
    requires c.Valid() && c.outSystemBlue == OUT_SYSTEM_BLUE && c.outSystemRed == OUT_SYSTEM_RED
    modifies c
    ensures c.Valid() && c.Config() == old(c.Config())
    ensures c.Read(c.gpiobase + GP_LVL) == old(c.Read(c.gpiobase + GP_LVL)) + {OUT_SYSTEM_RED, OUT_SYSTEM_BLUE, OUT_BLUE0, OUT_RED0}
    ensures c.Read(c.gpiobase + GPO_BLINK) == old(c.Read(c.gpiobase + GPO_BLINK)) - {OUT_SYSTEM_RED, OUT_SYSTEM_BLUE}
    ensures forall q :: q != c.gpiobase + GP_LVL && q != c.gpiobase + GPO_BLINK ==> c.Read(q) == old(c.Read(q))
  {
    c.ChassisLedsOff();
    assert LevelTarget(c.gpiobase, OUT_BLUE0) == Target(c.gpiobase + GP_LVL, {OUT_BLUE0});
    assert LevelTarget(c.gpiobase, OUT_RED0) == Target(c.gpiobase + GP_LVL, {OUT_RED0});
    c.SetHpexLed(LED_BLUE, OFF, OUT_BLUE0);
    c.SetHpexLed(LED_BLUE, OFF, OUT_RED0);
  }

  /** main of the self-test: the process exit status is 1 (err) when the chipset is not
      recognised and 0 otherwise; on success the chassis LEDs and both bay-1 LEDs are
      dark (their lines high) and the chassis LEDs do not blink. */
  method TestMain(c: Controller, p: Probe) returns (status: int)
    requires c.Valid() && ProbeInRange(p)
    modifies c
    ensures c.Valid()
    ensures status == 0 <==> p.didVid == VendorId(HpEx49x) && GpioBase(p.gpioRaw).Some?
    ensures status == 0 || status == 1
    ensures status == 0 ==>
              {OUT_SYSTEM_RED, OUT_SYSTEM_BLUE, OUT_BLUE0, OUT_RED0} <= c.Read(c.gpiobase + GP_LVL) &&
              {OUT_SYSTEM_RED, OUT_SYSTEM_BLUE} * c.Read(c.gpiobase + GPO_BLINK) == {}
  {
    var r := InitHpex49x(c, p);
    if r != 1 {
      return 1;
    }
    LedsOff(c);
    return 0;
  }
}
