/**
 * Chipset initialisation of hpex49xled_led.c: initsch5127 (PCI identification
 * of the ICH9 LPC bridge, the GPIO base sanity check, the SCH5127 super-I/O
 * handshake that yields the runtime register base, and the watchdog shutdown),
 * and the four per-variant init routines that enable the GPIO lines and give
 * every monitored slot its LED bits.
 *
 * Values the hardware returns (inl/inb) are the fields of a Probe; the writes
 * go to the Controller's port space and log.
 */
module Chipset {
  import opened Common
  import opened HpLed
  import opened LedMap
  import opened Registers

  const PCI_CONFIG_ADDRESS: nat := 0x0CF8
  const PCI_CONFIG_DATA: nat := 0x0CFC
  const CONF_VENDOR_ID: nat := 0x8000F800
  const CONF_GPIOBASE: nat := 0x8000F848

  // super-I/O configuration indices
  const IDX_LDN: nat := 0x07
  const IDX_ID: nat := 0x20
  const IDX_SIO_SELECT: nat := 0x26
  const IDX_BASE_MSB: nat := 0x60
  const IDX_BASE_LSB: nat := 0x61
  const IDX_ENTER: nat := 0x55
  const IDX_EXIT: nat := 0xaa
  const LDN_RUNTIME: nat := 0x0a
  const SIO_PRIMARY: nat := 0x2e
  const SIO_ALTERNATE: nat := 0x4e

  /**
   * A configuration address of PCI Configuration Mechanism #1 (section 3.2.2.3.2 of
   * the PCI Local Bus Specification 3.0): enable bit 31, bus in bits 23..16, device
   * in bits 15..11, function in bits 10..8, register in bits 7..0.
   */
  function ConfigAddress(bus: nat, dev: nat, fn: nat, reg: nat): nat
    requires bus < 256 && dev < 32 && fn < 8 && reg < 256
  {
    0x8000_0000 + bus * 0x1_0000 + dev * 0x800 + fn * 0x100 + reg
  }

  /** The two addresses initsch5127 selects are registers 0x00 and 0x48 of bus 0,
      device 31, function 0: the LPC bridge's identification and GPIO base. */
  lemma ConfigAddresses()
    ensures ConfigAddress(0, 31, 0, 0x00) == CONF_VENDOR_ID
    ensures ConfigAddress(0, 31, 0, 0x48) == CONF_GPIOBASE
  {
  }

  /** The fields of a configuration address can be read back, and the address is a
      32-bit value with the enable bit set. */
  lemma ConfigAddressFields(bus: nat, dev: nat, fn: nat, reg: nat)
    requires bus < 256 && dev < 32 && fn < 8 && reg < 256
    ensures var a := ConfigAddress(bus, dev, fn, reg);
            0x8000_0000 <= a < 0x1_0000_0000 &&
            (a / 0x1_0000) % 0x100 == bus && (a / 0x800) % 0x20 == dev &&
            (a / 0x100) % 8 == fn && a % 0x100 == reg
  {
    var a := ConfigAddress(bus, dev, fn, reg);
    var low := fn * 0x100 + reg;
    assert low < 0x800;
    assert a == 0x8000_0000 + bus * 0x1_0000 + dev * 0x800 + low;
    assert a % 0x100 == reg;
    assert (a / 0x100) == 0x80_0000 + bus * 0x100 + dev * 8 + fn;
    assert (a / 0x800) == 0x10_0000 + bus * 0x20 + dev;
    assert (a / 0x1_0000) == 0x8000 + bus;
  }

  /** The values initsch5127 reads: the identification word, the raw GPIO base word,
      and the super-I/O bytes at index 0x26, 0x60 and 0x61. */
  datatype Probe = Probe(didVid: nat, gpioRaw: nat, reg26: nat, msb: nat, lsb: nat)

  /** inl yields 32 bits, inb 8. */
  predicate ProbeInRange(p: Probe) {
    p.didVid < 0x1_0000_0000 && p.gpioRaw < 0x1_0000_0000 &&
    p.reg26 < 0x100 && p.msb < 0x100 && p.lsb < 0x100
  }

  /** `raw & 0xFFFF007F` for a 32-bit word: bits 31..16 and 6..0 are kept, the address
      bits 15..7 are dropped. */
  function ReservedBits(raw: nat): nat {
    (raw / 0x1_0000) * 0x1_0000 + raw % 0x80
  }

  /** The GPIO base check and clean-up: accepted only when the reserved bits read
      exactly 0x1, and stored with bit 0 (the I/O-space indicator) cleared. */
  function GpioBase(raw: nat): Option<nat> {
    if ReservedBits(raw) == 1 then Some(raw - raw % 2) else None
  }

  /** The base is accepted exactly for an I/O-space address below 64K whose bits 6..1
      are clear; the stored base is then 128-aligned, below 0x10000, and the highest
      GPIO register in use is still inside the 64K I/O space. */
  lemma GpioBaseAccepted(raw: nat)
    ensures GpioBase(raw).Some? <==> raw < 0x1_0000 && raw % 0x80 == 1
    ensures GpioBase(raw).Some? ==>
              var b := GpioBase(raw).value;
              b == raw - 1 && b % 0x80 == 0 && b < 0x1_0000 && b + GP_LVL2 < 0x1_0000
  {
    var hi := raw / 0x1_0000;
    if hi > 0 {
      assert ReservedBits(raw) >= 0x1_0000;
    }
  }

  /** The super-I/O index port: 0x2e, or 0x4e exactly when register 0x26 reads 0x4e.
      The data port is always the index port plus one. */
  function SioIndexPort(reg26: nat): (port: nat)
    ensures port == SIO_ALTERNATE <==> reg26 == 0x4e
    ensures port == SIO_PRIMARY <==> reg26 != 0x4e
  {
    if reg26 == 0x4e then SIO_ALTERNATE else SIO_PRIMARY
  }

  /** `index_msb << 8 | index_lsb` for two bytes. */
  function RuntimeBase(msb: nat, lsb: nat): nat
    requires msb < 0x100 && lsb < 0x100
  {
    msb * 0x100 + lsb
  }

  /** The runtime base is a 16-bit port address from which both bytes come back. */
  lemma RuntimeBaseRoundTrip(msb: nat, lsb: nat)
    requires msb < 0x100 && lsb < 0x100
    ensures RuntimeBase(msb, lsb) < 0x1_0000
    ensures RuntimeBase(msb, lsb) / 0x100 == msb && RuntimeBase(msb, lsb) % 0x100 == lsb
  {
  }

  function Byte(port: nat, value: nat): PortWrite {
    PortWrite(port, WordOf(value))
  }

  /** Entering configuration mode at 0x2e, reading the identification and register
      0x26, and on 0x4e leaving 0x2e and entering at 0x4e. */
  function SioSelectWrites(reg26: nat): seq<PortWrite> {
    [Byte(SIO_PRIMARY, IDX_ENTER), Byte(SIO_PRIMARY, IDX_ID), Byte(SIO_PRIMARY, IDX_SIO_SELECT)]
    + (if reg26 == 0x4e then [Byte(SIO_PRIMARY, IDX_EXIT), Byte(SIO_ALTERNATE, IDX_ENTER)] else [])
  }

  /** Selecting logical device 0x0a, reading the runtime base bytes and leaving
      configuration mode, all through index port `sio`. */
  function RuntimeBaseWrites(sio: nat): seq<PortWrite> {
    [Byte(sio, IDX_LDN), Byte(sio + 1, LDN_RUNTIME), Byte(sio, IDX_BASE_MSB),
     Byte(sio, IDX_BASE_LSB), Byte(sio, IDX_EXIT)]
  }

  /** Zeroing the four watchdog registers, in table order. */
  function WatchdogWrites(sch: nat): (ws: seq<PortWrite>)
    ensures |ws| == |WDT_REGS|
  {
    seq(|WDT_REGS|, i requires 0 <= i < |WDT_REGS| => PortWrite(sch + WDT_REGS[i], {}))
  }

  /** Every port write initsch5127 performs, in order. */
  function InitSchWrites(vendor: nat, p: Probe): seq<PortWrite>
    requires ProbeInRange(p)
  {
    [PortWrite(PCI_CONFIG_ADDRESS, WordOf(CONF_VENDOR_ID))]
    + if p.didVid != vendor then []
      else [PortWrite(PCI_CONFIG_ADDRESS, WordOf(CONF_GPIOBASE))]
           + if GpioBase(p.gpioRaw).None? then []
             else SioSelectWrites(p.reg26) + RuntimeBaseWrites(SioIndexPort(p.reg26))
                  + WatchdogWrites(RuntimeBase(p.msb, p.lsb))
  }

  /** On an identification mismatch only the identification address is written: the
      GPIO base register is never selected. */
  lemma MismatchStopsEarly(vendor: nat, p: Probe)
    requires ProbeInRange(p) && p.didVid != vendor
    ensures InitSchWrites(vendor, p) == [PortWrite(PCI_CONFIG_ADDRESS, WordOf(CONF_VENDOR_ID))]
  {
  }

  /** On success configuration mode is left on the port it was entered on, before the
      watchdog is touched, and the last four writes zero the watchdog registers. */
  lemma SuccessEndsWithWatchdog(vendor: nat, p: Probe)
    requires ProbeInRange(p) && p.didVid == vendor && GpioBase(p.gpioRaw).Some?
    ensures var ws := InitSchWrites(vendor, p);
            var sch := RuntimeBase(p.msb, p.lsb);
            |ws| >= 4 + 5 &&
            ws[|ws| - 5] == Byte(SioIndexPort(p.reg26), IDX_EXIT) &&
            forall i :: 0 <= i < 4 ==> ws[|ws| - 4 + i] == PortWrite(sch + WDT_REGS[i], {})
  {
    var ws := InitSchWrites(vendor, p);
    var head := [PortWrite(PCI_CONFIG_ADDRESS, WordOf(CONF_VENDOR_ID)),
                 PortWrite(PCI_CONFIG_ADDRESS, WordOf(CONF_GPIOBASE))]
                + SioSelectWrites(p.reg26);
    var rb := RuntimeBaseWrites(SioIndexPort(p.reg26));
    var wd := WatchdogWrites(RuntimeBase(p.msb, p.lsb));
    assert ws == head + rb + wd;
  }

  /** The handshake talks only to the chosen index/data pair, apart from the switch
      from 0x2e, and every data-port write goes to index + 1. */
  lemma SioPortsUsed(reg26: nat)
    ensures var sio := SioIndexPort(reg26);
            forall w :: w in RuntimeBaseWrites(sio) ==> w.port == sio || w.port == sio + 1
    ensures forall w :: w in SioSelectWrites(reg26) ==> w.port == SIO_PRIMARY || w.port == SIO_ALTERNATE
    ensures reg26 != 0x4e ==> forall w :: w in SioSelectWrites(reg26) ==> w.port == SIO_PRIMARY
  {
  }

  /** The super-I/O entry of initsch5127: enter configuration mode at 0x2e, read the
      identification and register 0x26, and move to 0x4e when 0x26 says so. */
  method EnterSioConfig(c: Controller, reg26: nat) returns (sioAddr: nat)
    requires c.Valid()
    modifies c
    ensures c.Valid() && c.Config() == old(c.Config())
    ensures sioAddr == SioIndexPort(reg26)
    ensures c.log == old(c.log) + SioSelectWrites(reg26)
  {
    sioAddr := SIO_PRIMARY;
    c.Out(sioAddr, WordOf(IDX_ENTER));
    c.Out(sioAddr, WordOf(IDX_ID));
    c.Out(sioAddr, WordOf(IDX_SIO_SELECT));
    var input := reg26;
    if input == 0x4e {
      c.Out(sioAddr, WordOf(IDX_EXIT));
      sioAddr := SIO_ALTERNATE;
      c.Out(sioAddr, WordOf(IDX_ENTER));
    }
  }

  /** The runtime-base part of initsch5127: select logical device 0x0a, read the
      two base bytes, store the base in sch5127_regs and leave configuration mode. */
  method FetchRuntimeBase(c: Controller, sioAddr: nat, msb: nat, lsb: nat)
    requires c.Valid() && msb < 0x100 && lsb < 0x100
    modifies c
    ensures c.Valid()
    ensures c.Config() == (old(c.gpiobase), RuntimeBase(msb, lsb), old(c.outSystemBlue), old(c.outSystemRed))
    ensures c.log == old(c.log) + RuntimeBaseWrites(sioAddr)
  {
    var sioData := sioAddr + 1;
    c.Out(sioAddr, WordOf(IDX_LDN));
    c.Out(sioData, WordOf(LDN_RUNTIME));
    c.Out(sioAddr, WordOf(IDX_BASE_MSB));
    var indexMsb := msb;
    c.Out(sioAddr, WordOf(IDX_BASE_LSB));
    var indexLsb := lsb;
    c.sch5127Regs := indexMsb * 0x100 + indexLsb;
    c.Out(sioAddr, WordOf(IDX_EXIT));
  }

  /** The closing loop of initsch5127: zero the four watchdog registers. */
  method ZeroWatchdog(c: Controller)
    requires c.Valid()
    modifies c
    ensures c.Valid() && c.Config() == old(c.Config())
    ensures c.log == old(c.log) + WatchdogWrites(c.sch5127Regs)
    ensures forall i :: 0 <= i < |WDT_REGS| ==> c.Read(c.sch5127Regs + WDT_REGS[i]) == {}
  {
    var sch := c.sch5127Regs;
    ghost var ws := WatchdogWrites(sch);
    ghost var log0 := c.log;
    ghost var regs0 := c.regs;
    assert |ws| == |WDT_REGS|;
    for i := 0 to |WDT_REGS|
      invariant c.Valid() && c.Config() == old(c.Config())
      invariant c.log == log0 + ws[..i]
      invariant c.regs == Replay(regs0, ws[..i])
    {
      var port := sch + WDT_REGS[i];
      assert ws[i] == PortWrite(port, {});
      assert ws[..i + 1] == ws[..i] + [ws[i]];
      c.Out(port, {});
    }
    assert ws[..|WDT_REGS|] == ws;
    WatchdogCleared(regs0, sch);
  }

  /** Replaying the watchdog writes leaves each of the four watchdog registers zero. */
  lemma WatchdogCleared(m: map<nat, Word>, sch: nat)
    ensures forall i :: 0 <= i < |WDT_REGS| ==>
              sch + WDT_REGS[i] in Replay(m, WatchdogWrites(sch)) && Replay(m, WatchdogWrites(sch))[sch + WDT_REGS[i]] == {}
  {
    var ws := WatchdogWrites(sch);
    ReplayZeroes(m, ws);
    forall i | 0 <= i < |WDT_REGS|
      ensures sch + WDT_REGS[i] == ws[i].port
    {
    }
  }

  /** The GPIO base part of initsch5127: select register 0x48, store the raw word in
      gpiobase, and on acceptance clear its I/O-space bit. */
  method FetchGpioBase(c: Controller, raw: nat) returns (ok: bool)
    requires c.Valid()
    modifies c
    ensures c.Valid()
    ensures ok <==> GpioBase(raw).Some?
    ensures c.gpiobase == if ok then GpioBase(raw).value else raw
    ensures c.sch5127Regs == old(c.sch5127Regs)
    ensures c.outSystemBlue == old(c.outSystemBlue) && c.outSystemRed == old(c.outSystemRed)
    ensures c.log == old(c.log) + [PortWrite(PCI_CONFIG_ADDRESS, WordOf(CONF_GPIOBASE))]
  {
    c.Out(PCI_CONFIG_ADDRESS, WordOf(CONF_GPIOBASE));
    c.gpiobase := raw;
    if ReservedBits(c.gpiobase) != 1 {
      return false;
    }
    c.gpiobase := c.gpiobase - c.gpiobase % 2;
    return true;
  }

  /** The part of initsch5127 after the GPIO base is accepted: locate the runtime
      block through the super-I/O and zero its watchdog. */
  method SetUpRuntime(c: Controller, p: Probe)
    requires c.Valid() && ProbeInRange(p)
    modifies c
    ensures c.Valid()
    ensures c.Config() == (old(c.gpiobase), RuntimeBase(p.msb, p.lsb), old(c.outSystemBlue), old(c.outSystemRed))
    ensures c.log == old(c.log) + (SioSelectWrites(p.reg26) + RuntimeBaseWrites(SioIndexPort(p.reg26))
                                   + WatchdogWrites(RuntimeBase(p.msb, p.lsb)))
    ensures forall i :: 0 <= i < |WDT_REGS| ==> c.Read(c.sch5127Regs + WDT_REGS[i]) == {}
  {
    var sioAddr := EnterSioConfig(c, p.reg26);
    FetchRuntimeBase(c, sioAddr, p.msb, p.lsb);
    ZeroWatchdog(c);
  }

  /** initsch5127: identify the LPC bridge, fetch and check the GPIO base, find the
      SCH5127 runtime base through the super-I/O, and zero the watchdog. Returns
      whether the chipset was recognised. */
  method InitSch5127(c: Controller, vendor: nat, p: Probe) returns (ok: bool)
    requires c.Valid() && ProbeInRange(p)
    modifies c
    ensures c.Valid()
    ensures ok <==> p.didVid == vendor && GpioBase(p.gpioRaw).Some?
    ensures c.log == old(c.log) + InitSchWrites(vendor, p)
    ensures c.outSystemBlue == old(c.outSystemBlue) && c.outSystemRed == old(c.outSystemRed)
    ensures p.didVid != vendor ==> c.gpiobase == old(c.gpiobase) && c.sch5127Regs == old(c.sch5127Regs)
    ensures p.didVid == vendor && !ok ==> c.gpiobase == p.gpioRaw && c.sch5127Regs == old(c.sch5127Regs)
    ensures ok ==> c.gpiobase == GpioBase(p.gpioRaw).value && c.sch5127Regs == RuntimeBase(p.msb, p.lsb)
    ensures ok ==> forall i :: 0 <= i < |WDT_REGS| ==> c.Read(c.sch5127Regs + WDT_REGS[i]) == {}
  {
    c.Out(PCI_CONFIG_ADDRESS, WordOf(CONF_VENDOR_ID));
    var didVid := p.didVid;
    if vendor != didVid {
      MismatchStopsEarly(vendor, p);
      return false;
    }
    ok := FetchGpioBase(c, p.gpioRaw);
    if !ok {
      BadBaseStopsAfterBase(vendor, p);
      return;
    }
    SetUpRuntime(c, p);
    InitSchWritesOnSuccess(vendor, p);
    return true;
  }

  /** A rejected GPIO base stops initsch5127 right after the base register is selected. */
  lemma BadBaseStopsAfterBase(vendor: nat, p: Probe)
    requires ProbeInRange(p) && p.didVid == vendor && GpioBase(p.gpioRaw).None?
    ensures InitSchWrites(vendor, p)
         == [PortWrite(PCI_CONFIG_ADDRESS, WordOf(CONF_VENDOR_ID)), PortWrite(PCI_CONFIG_ADDRESS, WordOf(CONF_GPIOBASE))]
  {
  }

  /** On success the writes are the two configuration selections followed by the
      super-I/O handshake and the watchdog shutdown. */
  lemma InitSchWritesOnSuccess(vendor: nat, p: Probe)
    requires ProbeInRange(p) && p.didVid == vendor && GpioBase(p.gpioRaw).Some?
    ensures InitSchWrites(vendor, p)
         == [PortWrite(PCI_CONFIG_ADDRESS, WordOf(CONF_VENDOR_ID)), PortWrite(PCI_CONFIG_ADDRESS, WordOf(CONF_GPIOBASE))]
            + (SioSelectWrites(p.reg26) + RuntimeBaseWrites(SioIndexPort(p.reg26))
               + WatchdogWrites(RuntimeBase(p.msb, p.lsb)))
  {
  }

  /** The use-select words that setbits32 builds from `bits`, in order, from two zero words. */
  function SelectWords(bits: seq<nat>): (Word, Word)
    decreases |bits|
  {
    if bits == [] then ({}, {})
    else
      var (w1, w2) := SelectWords(bits[..|bits| - 1]);
      SetBits(bits[|bits| - 1], w1, w2)
  }

  /** The first word holds exactly the listed bits below 32; the second holds, at
      position `k`, exactly the listed bits `32 + k`, ... (bits of 32 or more). */
  lemma {:induction false} SelectWordsContents(bits: seq<nat>, k: nat)
    ensures k in SelectWords(bits).0 <==> k < 32 && k in bits
    ensures k in SelectWords(bits).1 <==> exists j :: 0 <= j < |bits| && bits[j] >= 32 && bits[j] % 32 == k
    decreases |bits|
  {
    if bits != [] {
      var init := bits[..|bits| - 1];
      var last := bits[|bits| - 1];
      SelectWordsContents(init, k);
      assert bits == init + [last];
      assert k in bits <==> k in init || k == last;
      if exists j :: 0 <= j < |bits| && bits[j] >= 32 && bits[j] % 32 == k {
        var j :| 0 <= j < |bits| && bits[j] >= 32 && bits[j] % 32 == k;
        if j < |init| {
          assert init[j] == bits[j];
        }
      }
      if exists j :: 0 <= j < |init| && init[j] >= 32 && init[j] % 32 == k {
        var j :| 0 <= j < |init| && init[j] >= 32 && init[j] % 32 == k;
        assert bits[j] == init[j];
      }
    }
  }

  /** The use-select words of init_hpex49x: blue then red for each of the four
      slots through ioledblue/ioledred, then the USB and system bits. */
  method HpUseSelectWords() returns (bits1: Word, bits2: Word)
    ensures (bits1, bits2) == SelectWords(UseSelectBits(HpEx49x))
  {
    ghost var order := UseSelectBits(HpEx49x);
    bits1, bits2 := SlotSelectWords();
    bits1, bits2 := SetBits32(OUT_USB_DEVICE, bits1, bits2);
    assert order[..9] == order[..8] + [OUT_USB_DEVICE];
    bits1, bits2 := SetBits32(OUT_SYSTEM_BLUE, bits1, bits2);
    assert order[..10] == order[..9] + [OUT_SYSTEM_BLUE];
    bits1, bits2 := SetBits32(OUT_SYSTEM_RED, bits1, bits2);
    assert order == order[..10] + [OUT_SYSTEM_RED];
  }

  /** The loop of init_hpex49x_led over the four slots: blue then red bit of each. */
  method SlotSelectWords() returns (bits1: Word, bits2: Word)
    ensures (bits1, bits2) == SelectWords(UseSelectBits(HpEx49x)[..2 * MAX_HDD_LEDS])
  {
    bits1, bits2 := {}, {};
    ghost var order := UseSelectBits(HpEx49x);
    for i := 0 to MAX_HDD_LEDS
      invariant (bits1, bits2) == SelectWords(order[..2 * i])
    {
      assert order[2 * i] == IoLedBlue(i) && order[2 * i + 1] == IoLedRed(i);
      ghost var before := (bits1, bits2);
      bits1, bits2 := SetBits32(IoLedBlue(i), bits1, bits2);
      assert (bits1, bits2) == SetBits(IoLedBlue(i), before.0, before.1);
      assert order[..2 * i + 1] == order[..2 * i] + [IoLedBlue(i)];
      before := (bits1, bits2);
      bits1, bits2 := SetBits32(IoLedRed(i), bits1, bits2);
      assert (bits1, bits2) == SetBits(IoLedRed(i), before.0, before.1);
      assert order[..2 * i + 2] == order[..2 * i + 1] + [IoLedRed(i)];
    }
  }

  /** The use-select words of the Acer and Lenovo routines: their five fixed bits. */
  method FixedUseSelectWords(v: Variant) returns (bits1: Word, bits2: Word)
    requires v != HpEx49x
    ensures (bits1, bits2) == SelectWords(UseSelectBits(v))
  {
    bits1, bits2 := {}, {};
    var order := UseSelectBits(v);
    for i := 0 to |order|
      invariant (bits1, bits2) == SelectWords(order[..i])
    {
      bits1, bits2 := SetBits32(order[i], bits1, bits2);
      assert order[..i + 1] == order[..i] + [order[i]];
    }
    assert order[..|order|] == order;
  }

  /** The GPIO words init_hpex49x_led enables: eight first-bank bits and, for the
      drive lines 38, 39 and 57, three second-bank bits. */
  lemma HpUseSelectContents()
    ensures SelectWords(UseSelectBits(HpEx49x)) == ({4, 5, 7, 13, 21, 22, 27, 28}, {6, 7, 25})
  {
    HpFirstWord();
    HpSecondWord();
  }

  lemma HpFirstWord()
    ensures SelectWords(UseSelectBits(HpEx49x)).0 == {4, 5, 7, 13, 21, 22, 27, 28}
  {
    var bits := UseSelectBits(HpEx49x);
    var e1: Word := {4, 5, 7, 13, 21, 22, 27, 28};
    forall k: nat
      ensures k in SelectWords(bits).0 <==> k in e1
    {
      SelectWordsContents(bits, k);
    }
  }

  lemma HpSecondWord()
    ensures SelectWords(UseSelectBits(HpEx49x)).1 == {6, 7, 25}
  {
    var bits := UseSelectBits(HpEx49x);
    var e2: Word := {6, 7, 25};
    forall k: nat
      ensures k in SelectWords(bits).1 <==> k in e2
    {
      SelectWordsContents(bits, k);
      if k in SelectWords(bits).1 {
        var j :| 0 <= j < |bits| && bits[j] >= 32 && bits[j] % 32 == k;
      }
      if k in e2 {
        var j := if k == 6 then 5 else if k == 7 then 7 else 6;
        assert bits[j] >= 32 && bits[j] % 32 == k;
      }
    }
  }

  /** The Acer and Lenovo routines enable five first-bank bits and nothing in the
      second bank: their fixed codes are all below 32. */
  lemma FixedUseSelectContents(v: Variant)
    requires v != HpEx49x
    ensures v != H341 ==> SelectWords(UseSelectBits(v)) == ({6, 20, 24, 25, 27}, {})
    ensures v == H341 ==> SelectWords(UseSelectBits(v)) == ({6, 10, 18, 24, 27}, {})
  {
    var bits := UseSelectBits(v);
    var (w1, w2) := SelectWords(bits);
    var e1: Word := if v == H341 then {6, 10, 18, 24, 27} else {6, 20, 24, 25, 27};
    forall k: nat
      ensures k in w1 <==> k in e1
      ensures k !in w2
    {
      SelectWordsContents(bits, k);
    }
    assert w1 == e1;
    assert w2 == {};
  }

  /** The use-select words of variant `v`, built as its init routine builds them. */
  method UseSelectWords(v: Variant) returns (bits1: Word, bits2: Word)
    ensures (bits1, bits2) == SelectWords(UseSelectBits(v))
  {
    if v == HpEx49x {
      bits1, bits2 := HpUseSelectWords();
    } else {
      bits1, bits2 := FixedUseSelectWords(v);
    }
  }

  /** A slot record with the LED bits of its bay, as the closing loop of every init
      routine assigns them. */
  function WithBits(v: Variant, r: Led): Led
    requires 1 <= r.hdd <= MAX_HDD_LEDS
  {
    r.(blue := BlueBits(v)[r.hdd - 1], red := RedBits(v)[r.hdd - 1])
  }

  /** The first `n` records name a bay 1..4 the bit tables can be indexed with. */
  predicate SlotsInRange(t: seq<Led>, n: nat) {
    n <= |t| && forall i :: 0 <= i < n ==> 1 <= t[i].hdd <= MAX_HDD_LEDS
  }

  /** The slot table after the closing loop has run over the first `n` records. */
  function AssignBits(v: Variant, t: seq<Led>, n: nat): seq<Led>
    requires SlotsInRange(t, n)
  {
    seq(|t|, i requires 0 <= i < |t| => if i < n then WithBits(v, t[i]) else t[i])
  }

  /** The closing loop changes only the LED bits: counters, identifiers, bay and path
      are kept, records past `n` are untouched, and running it again changes nothing. */
  lemma {:induction false} AssignBitsFrame(v: Variant, t: seq<Led>, n: nat)
    requires SlotsInRange(t, n)
    ensures var u := AssignBits(v, t, n);
            |u| == |t| && SlotsInRange(u, n) &&
            (forall i :: 0 <= i < |t| ==> u[i].(blue := t[i].blue, red := t[i].red) == t[i]) &&
            (forall i :: n <= i < |t| ==> u[i] == t[i]) &&
            AssignBits(v, u, n) == u
  {
    var u := AssignBits(v, t, n);
    assert forall i :: 0 <= i < |t| ==> u[i].hdd == t[i].hdd;
    assert SlotsInRange(u, n);
    var w := AssignBits(v, u, n);
    forall i | 0 <= i < |t|
      ensures w[i] == u[i]
    {
      if i < n {
        assert u[i] == WithBits(v, t[i]);
      }
    }
    assert w == u;
  }

  /** Records of different bays get different lines, and no record's blue line is any
      record's red line. */
  lemma SlotLinesDisjoint(v: Variant, t: seq<Led>, n: nat, i: nat, j: nat)
    requires SlotsInRange(t, n) && i < n && j < n
    ensures var u := AssignBits(v, t, n);
            u[i].blue != u[j].red &&
            (t[i].hdd != t[j].hdd ==> u[i].blue != u[j].blue && u[i].red != u[j].red)
  {
    DriveBitsDistinct(v);
    var a, b := t[i].hdd - 1, t[j].hdd - 1;
    var s := BlueBits(v) + RedBits(v);
    assert s[a] == BlueBits(v)[a] && s[4 + b] == RedBits(v)[b];
    assert s[b] == BlueBits(v)[b] && s[4 + a] == RedBits(v)[a];
  }

  /** What an init routine reports: the chipset was not recognised, it was and every
      slot got its bits, or the closing loop met a record whose bay (or whose position
      in the table) cannot index the bit tables, which the C code does not check. */
  datatype InitResult = InitFailed | InitOk | SlotOutOfRange(index: nat)

  /** Every use-select bit of the variant is set (GPIO function) and the same bit is
      clear in the I/O-select word (output). */
  ghost predicate LinesEnabled(c: Controller, v: Variant)
    reads c
  {
    var (b1, b2) := SelectWords(UseSelectBits(v));
    b1 <= c.Read(c.gpiobase + GPIO_USE_SEL) && b2 <= c.Read(c.gpiobase + GPIO_USE_SEL2) &&
    b1 * c.Read(c.gpiobase + GP_IO_SEL) == {} && b2 * c.Read(c.gpiobase + GP_IO_SEL2) == {}
  }

  /** The four GPIO select registers above the GPIO base `g`. */
  function SelectPorts(g: nat): set<nat> {
    {g + GPIO_USE_SEL, g + GPIO_USE_SEL2, g + GP_IO_SEL, g + GP_IO_SEL2}
  }

  /** The four writes of setgpioselinput for the variant's use-select words when the
      ports held `m`: the words ORed into the use-select registers, then cleared
      from the I/O-select registers. */
  function SelectWrites(g: nat, m: map<nat, Word>, v: Variant): seq<PortWrite> {
    var (b1, b2) := SelectWords(UseSelectBits(v));
    [PortWrite(g + GPIO_USE_SEL, At(m, g + GPIO_USE_SEL) + b1),
     PortWrite(g + GPIO_USE_SEL2, At(m, g + GPIO_USE_SEL2) + b2),
     PortWrite(g + GP_IO_SEL, At(m, g + GP_IO_SEL) - b1),
     PortWrite(g + GP_IO_SEL2, At(m, g + GP_IO_SEL2) - b2)]
  }

  /** The port contents after setgpioselinput above the GPIO base `g` for the
      variant's use-select words, on top of the contents `m`. */
  function SwitchLines(g: nat, m: map<nat, Word>, v: Variant): map<nat, Word> {
    var (b1, b2) := SelectWords(UseSelectBits(v));
    m[g + GPIO_USE_SEL := At(m, g + GPIO_USE_SEL) + b1]
     [g + GPIO_USE_SEL2 := At(m, g + GPIO_USE_SEL2) + b2]
     [g + GP_IO_SEL := At(m, g + GP_IO_SEL) - b1]
     [g + GP_IO_SEL2 := At(m, g + GP_IO_SEL2) - b2]
  }

  /** After the switch each select register holds its old word with the variant's
      lines set to GPIO function and output direction, every other port holds what it
      held, and the contents are what the four select writes replay to. */
  lemma SwitchLinesPorts(g: nat, m: map<nat, Word>, v: Variant)
    ensures var (b1, b2) := SelectWords(UseSelectBits(v));
            var r := SwitchLines(g, m, v);
            At(r, g + GPIO_USE_SEL) == At(m, g + GPIO_USE_SEL) + b1 &&
            At(r, g + GPIO_USE_SEL2) == At(m, g + GPIO_USE_SEL2) + b2 &&
            At(r, g + GP_IO_SEL) == At(m, g + GP_IO_SEL) - b1 &&
            At(r, g + GP_IO_SEL2) == At(m, g + GP_IO_SEL2) - b2 &&
            (forall q :: q !in SelectPorts(g) ==> At(r, q) == At(m, q)) &&
            r == Replay(m, SelectWrites(g, m, v))
  {
    var ws := SelectWrites(g, m, v);
    assert ws[..1][..0] == [] && ws[..2][..1] == ws[..1] && ws[..3][..2] == ws[..2] && ws[..4] == ws;
    assert Replay(m, ws[..1]) == m[ws[0].port := ws[0].value];
    assert Replay(m, ws[..2]) == Replay(m, ws[..1])[ws[1].port := ws[1].value];
    assert Replay(m, ws[..3]) == Replay(m, ws[..2])[ws[2].port := ws[2].value];
  }

  /** The four watchdog registers of the runtime block at `sch` read zero in `m`; a
      watchdog register that is also one of the select registers above `g` holds
      whatever setgpioselinput last wrote there. */
  ghost predicate WatchdogStopped(m: map<nat, Word>, sch: nat, g: nat) {
    forall i :: 0 <= i < |WDT_REGS| && sch + WDT_REGS[i] !in SelectPorts(g) ==> At(m, sch + WDT_REGS[i]) == {}
  }

  /** Switching the lines on top of any contents leaves them enabled. */
  lemma SwitchedLinesEnabled(c: Controller, m: map<nat, Word>, v: Variant)
    requires c.regs == SwitchLines(c.gpiobase, m, v)
    ensures LinesEnabled(c, v)
  {
    SwitchLinesPorts(c.gpiobase, m, v);
  }

  /** The middle of every init routine: build the variant's use-select words and
      switch those lines to GPIO outputs; no other port changes. */
  method EnableLines(c: Controller, v: Variant)
    requires c.Valid()
    modifies c
    ensures c.Valid() && c.Config() == old(c.Config())
    ensures c.log == old(c.log) + SelectWrites(c.gpiobase, old(c.regs), v)
    ensures c.regs == SwitchLines(c.gpiobase, old(c.regs), v)
    ensures LinesEnabled(c, v)
  {
    var bits1, bits2 := UseSelectWords(v);
    c.SetGpioSelInput(bits1, bits2);
    SwitchedLinesEnabled(c, old(c.regs), v);
  }

  /** The closing loop of every init routine over the first `hpdisks` records; it stops
      at the first record the bit tables cannot be indexed with. */
  method AssignSlotBits(v: Variant, table: array<Led>, hpdisks: nat) returns (r: InitResult)
    modifies table
    ensures r != InitFailed
    ensures r == InitOk <==> SlotsInRange(old(table[..]), hpdisks)
    ensures r == InitOk ==> table[..] == AssignBits(v, old(table[..]), hpdisks)
    ensures r.SlotOutOfRange? ==>
              r.index < hpdisks && SlotsInRange(old(table[..]), r.index) &&
              !SlotsInRange(old(table[..]), r.index + 1) &&
              table[..] == AssignBits(v, old(table[..]), r.index)
  {
    ghost var t0 := table[..];
    for i := 0 to hpdisks
      invariant SlotsInRange(t0, i)
      invariant table[..] == AssignBits(v, t0, i)
    {
      if i >= table.Length || !(1 <= table[i].hdd <= MAX_HDD_LEDS) {
        return SlotOutOfRange(i);
      }
      table[i] := WithBits(v, table[i]);
      assert table[..] == AssignBits(v, t0, i + 1);
    }
    return InitOk;
  }

  /** The start of every init routine: the system LED bits are assigned first, then
      initsch5127 runs with the variant's identification. */
  method Identify(c: Controller, v: Variant, p: Probe) returns (ok: bool)
    requires c.Valid() && ProbeInRange(p)
    modifies c
    ensures c.Valid()
    ensures c.outSystemBlue == SystemBlue(v) && c.outSystemRed == SystemRed(v)
    ensures ok <==> p.didVid == VendorId(v) && GpioBase(p.gpioRaw).Some?
    ensures c.log == old(c.log) + InitSchWrites(VendorId(v), p)
    ensures p.didVid != VendorId(v) ==> c.gpiobase == old(c.gpiobase) && c.sch5127Regs == old(c.sch5127Regs)
    ensures p.didVid == VendorId(v) && !ok ==> c.gpiobase == p.gpioRaw && c.sch5127Regs == old(c.sch5127Regs)
    ensures ok ==> c.gpiobase == GpioBase(p.gpioRaw).value && c.sch5127Regs == RuntimeBase(p.msb, p.lsb)
    ensures c.regs == Replay(old(c.regs), InitSchWrites(VendorId(v), p))
    ensures ok ==> forall i :: 0 <= i < |WDT_REGS| ==> c.Read(c.sch5127Regs + WDT_REGS[i]) == {}
  {
    ghost var ws := InitSchWrites(VendorId(v), p);
    ghost var regs0, log0 := c.regs, c.log;
    assert regs0 == Replay(c.initial, log0);
    c.outSystemBlue := SystemBlue(v);
    c.outSystemRed := SystemRed(v);
    ok := InitSch5127(c, VendorId(v), p);
    ReplayAppend(c.initial, log0, ws);
  }

  /** The part every init routine shares, the self-test's included: identify the
      chipset and, when it is recognised, switch the variant's GPIO lines to outputs.
      No port outside the initsch5127 writes and the four select registers changes. */
  method SetUpLines(c: Controller, v: Variant, p: Probe) returns (ok: bool)
    requires c.Valid() && ProbeInRange(p)
    modifies c
    ensures c.Valid()
    ensures c.outSystemBlue == SystemBlue(v) && c.outSystemRed == SystemRed(v)
    ensures ok <==> p.didVid == VendorId(v) && GpioBase(p.gpioRaw).Some?
    ensures PortsAfterInit(c, old(c.regs), old(c.log), old(c.gpiobase), old(c.sch5127Regs), v, p)
  {
    ok := Identify(c, v, p);
    if !ok {
      return;
    }
    ghost var m, sch := c.regs, c.sch5127Regs;
    forall i | 0 <= i < |WDT_REGS|
      ensures At(m, sch + WDT_REGS[i]) == {}
    {
      assert c.Read(sch + WDT_REGS[i]) == {};
    }
    EnableLines(c, v);
    WatchdogKept(c.regs, c.gpiobase, sch, m, v);
  }

  /** The ports after the variant's init routine ran on ports holding `m0` with the
      write log `log0` and the bases `g0` and `sch0`: on a recognised chipset the
      initsch5127 writes and the four select writes, with the lines switched and the
      watchdog stopped; otherwise the initsch5127 writes alone, the runtime base kept,
      and gpiobase kept on a foreign chipset or left at the raw word of a rejected base. */
  ghost predicate PortsAfterInit(c: Controller, m0: map<nat, Word>, log0: seq<PortWrite>, g0: nat, sch0: nat,
                                 v: Variant, p: Probe)
    requires ProbeInRange(p)
    reads c
  {
    var ws := InitSchWrites(VendorId(v), p);
    if p.didVid == VendorId(v) && GpioBase(p.gpioRaw).Some? then
      var m := Replay(m0, ws);
      c.gpiobase == GpioBase(p.gpioRaw).value && c.sch5127Regs == RuntimeBase(p.msb, p.lsb) &&
      c.log == log0 + ws + SelectWrites(c.gpiobase, m, v) && c.regs == SwitchLines(c.gpiobase, m, v) &&
      LinesEnabled(c, v) && WatchdogStopped(c.regs, c.sch5127Regs, c.gpiobase)
    else
      c.log == log0 + ws && c.sch5127Regs == sch0 &&
      c.gpiobase == if p.didVid == VendorId(v) then p.gpioRaw else g0
  }

  /**
   * init_hpex49x_led, init_acer_altos, init_h340 and init_h341: set the system LED
   * bits, run initsch5127 with the variant's identification, enable the variant's
   * GPIO lines as outputs, then give the first `hpdisks` records their LED bits.
   */
  method InitVariant(c: Controller, v: Variant, p: Probe, table: array<Led>, hpdisks: nat)
    returns (r: InitResult)
    requires c.Valid() && ProbeInRange(p)
    modifies c, table
    ensures c.Valid()
    ensures c.outSystemBlue == SystemBlue(v) && c.outSystemRed == SystemRed(v)
    ensures r == InitFailed <==> !(p.didVid == VendorId(v) && GpioBase(p.gpioRaw).Some?)
    ensures r == InitFailed ==> table[..] == old(table[..])
    ensures PortsAfterInit(c, old(c.regs), old(c.log), old(c.gpiobase), old(c.sch5127Regs), v, p)
    ensures r == InitOk <==> r != InitFailed && SlotsInRange(old(table[..]), hpdisks)
    ensures r == InitOk ==> table[..] == AssignBits(v, old(table[..]), hpdisks)
    ensures r.SlotOutOfRange? ==>
              r.index < hpdisks && SlotsInRange(old(table[..]), r.index) &&
              !SlotsInRange(old(table[..]), r.index + 1) &&
              table[..] == AssignBits(v, old(table[..]), r.index)
  {
    var ok := SetUpLines(c, v, p);
    if !ok {
      return InitFailed;
    }
    r := AssignSlotBits(v, table, hpdisks);
  }

  /** The watchdog registers initsch5127 cleared stay clear through setgpioselinput,
      unless they are select registers themselves. */
  lemma WatchdogKept(r: map<nat, Word>, g: nat, sch: nat, m: map<nat, Word>, v: Variant)
    requires r == SwitchLines(g, m, v)
    requires forall i :: 0 <= i < |WDT_REGS| ==> At(m, sch + WDT_REGS[i]) == {}
    ensures WatchdogStopped(r, sch, g)
  {
    SwitchLinesPorts(g, m, v);
  }
}
