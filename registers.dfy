/**
 * The register-bit layer of hpex49xled_led.c (duplicated in hpex49xled-test.c):
 * bit-to-word and bit-to-port routing, the read-modify-write helper, GPIO
 * use/direction selection, the chassis LED, the PWM brightness and the two
 * per-drive LED setters.
 *
 * A 32-bit I/O word is modelled as the set of positions of its one bits, so
 * `|` is union, `& ~` is difference and `&` is intersection. The I/O port
 * space is a map from port address to word together with the log of every
 * write (outb/outl); a port that was never written and is not in the initial
 * map reads as the empty word. The spinlock around the drive setters is left
 * out: each call is one atomic step.
 */
module Registers {
  import opened HpLed
  import opened LedMap

  /** A register value: the positions (0 = least significant) of its one bits. */
  type Word = set<nat>

  function Pow2(k: nat): (p: nat)
    ensures p >= 1
  {
    if k == 0 then 1 else 2 * Pow2(k - 1)
  }

  /** The word holding the binary digits of `n` below 2^32 (for the byte constants
      the initialisation writes). */
  function WordOf(n: nat): Word {
    set k | 0 <= k < 32 && (n / Pow2(k)) % 2 == 1
  }

  datatype PortWrite = PortWrite(port: nat, value: Word)

  /** Port contents after the writes `ws`, in order, on top of `m`. */
  function Replay(m: map<nat, Word>, ws: seq<PortWrite>): map<nat, Word>
    decreases |ws|
  {
    if ws == [] then m
    else Replay(m, ws[..|ws| - 1])[ws[|ws| - 1].port := ws[|ws| - 1].value]
  }

  /** After a run of writes that all store zero, every port written reads zero. */
  lemma {:induction false} ReplayZeroes(m: map<nat, Word>, ws: seq<PortWrite>)
    requires forall k :: 0 <= k < |ws| ==> ws[k].value == {}
    ensures forall k :: 0 <= k < |ws| ==> ws[k].port in Replay(m, ws) && Replay(m, ws)[ws[k].port] == {}
    decreases |ws|
  {
    if ws != [] {
      var front := ws[..|ws| - 1];
      ReplayZeroes(m, front);
      forall k | 0 <= k < |ws|
        ensures ws[k].port in Replay(m, ws) && Replay(m, ws)[ws[k].port] == {}
      {
        if k < |ws| - 1 {
          assert ws[k] == front[k];
        }
      }
    }
  }

  /** Replaying two runs of writes is replaying the first, then the second. */
  lemma {:induction false} ReplayAppend(m: map<nat, Word>, a: seq<PortWrite>, b: seq<PortWrite>)
    ensures Replay(m, a + b) == Replay(Replay(m, a), b)
    decreases |b|
  {
    if b == [] {
      assert a + b == a;
    } else {
      assert (a + b)[..|a + b| - 1] == a + b[..|b| - 1];
      ReplayAppend(m, a, b[..|b| - 1]);
    }
  }

  /** What `port` holds in the port contents `m`: a port never written reads zero. */
  function At(m: map<nat, Word>, port: nat): Word {
    if port in m then m[port] else {}
  }

  /** The value dobits computes: the masked bits set (state) or cleared, the others kept. */
  function Masked(val: Word, bits: Word, state: bool): Word {
    if state then val + bits else val - bits
  }

  /** dobits gives every masked bit the state and keeps every other bit. */
  lemma MaskedSpec(val: Word, bits: Word, state: bool, k: nat)
    ensures k in bits ==> (k in Masked(val, bits, state) <==> state)
    ensures k !in bits ==> (k in Masked(val, bits, state) <==> k in val)
  {
  }

  /** dobits leaves a value alone exactly when its masked bits already hold the state. */
  lemma MaskedSettled(val: Word, bits: Word, state: bool)
    ensures Masked(val, bits, state) == val <==> (if state then bits <= val else bits * val == {})
  {
    if state {
      if bits <= val {
        assert val + bits == val;
      }
    } else {
      if bits * val == {} {
        forall k | k in val
          ensures k !in bits
        {
          assert k !in bits * val;
        }
        assert val - bits == val;
      } else {
        var k :| k in bits * val;
        assert k !in val - bits;
      }
    }
  }

  /** Two dobits calls with the same state are one call with the union of the masks. */
  lemma MaskedCompose(val: Word, m1: Word, m2: Word, state: bool)
    ensures Masked(Masked(val, m1, state), m2, state) == Masked(val, m1 + m2, state)
  {
  }

  /** An empty mask changes nothing. */
  lemma MaskedNone(val: Word, state: bool)
    ensures Masked(val, {}, state) == val
  {
    assert val + {} == val;
    assert val - {} == val;
  }

  /** A second identical dobits finds nothing to change. */
  lemma MaskedIdempotent(val: Word, bits: Word, state: bool)
    ensures Masked(Masked(val, bits, state), bits, state) == Masked(val, bits, state)
  {
    MaskedCompose(val, bits, bits, state);
    assert bits + bits == bits;
  }

  /** The writes dobits performs: one, and only when the value changes. */
  function WriteIfChanged(port: nat, val: Word, newVal: Word): (ws: seq<PortWrite>)
    ensures |ws| <= 1
    ensures ws == [] <==> newVal == val
    ensures ws != [] ==> ws[0] == PortWrite(port, newVal)
  {
    if newVal == val then [] else [PortWrite(port, newVal)]
  }

  /** `1 << (bit % 32)`: the bit of a 32-bit word that GPIO bit `bit` occupies. For
      32 <= bit < 64 this is `bit - 32`, the position in the second bank. */
  function BitMask(bit: nat): Word {
    {bit % 32}
  }

  /** One setbits32 step as a value, for the folds that specify the use-select words:
      OR the bit into the first word when bit < 32, else into the second. For
      bit >= 32 the C shift `1 << bit` is undefined; the model uses the second-bank
      position `bit % 32`, the one setgplpllvl later drives. */
  function SetBits(bit: nat, w1: Word, w2: Word): (Word, Word) {
    if bit < 32 then (w1 + BitMask(bit), w2) else (w1, w2 + BitMask(bit))
  }

  /** setbits32, with its two `int *` in-out arguments as parameters and results. */
  method SetBits32(bit: nat, bits1: Word, bits2: Word) returns (b1: Word, b2: Word)
    ensures bit < 32 ==> b1 == bits1 + {bit} && b2 == bits2
    ensures bit >= 32 ==> b1 == bits1 && b2 == bits2 + {bit % 32}
  {
    if bit < 32 {
      b1, b2 := bits1 + BitMask(bit), bits2;
    } else {
      b1, b2 := bits1, bits2 + BitMask(bit);
    }
  }

  /** A port and the mask of the bit addressed in it. */
  datatype Target = Target(port: nat, mask: Word)

  /** setgplpllvl's routing: GP_LVL for bits below 32, GP_LVL2 otherwise. */
  function LevelTarget(gpiobase: nat, bit: nat): Target {
    Target(gpiobase + (if bit < 32 then GP_LVL else GP_LVL2), BitMask(bit))
  }

  /** setgpregslvl's routing: GP register `(bit >> 4) & 0xF` (REG_GP1 is register 1),
      bit `bit & 0xF` of it. */
  function GpRegTarget(sch5127Regs: nat, bit: nat): Target
    requires GpRegIndex(bit) >= 0
  {
    Target(sch5127Regs + REG_GP1 + GpRegIndex(bit), BitMask(bit % 16))
  }

  /** The level register setgplpllvl writes and the word setbits32 fills agree:
      both choose the first bank exactly for bits below 32, and use the same bit. */
  lemma BankAgreement(gpiobase: nat, bit: nat, w1: Word, w2: Word)
    requires bit < 64
    ensures var t := LevelTarget(gpiobase, bit);
            var (n1, n2) := SetBits(bit, w1, w2);
            (t.port == gpiobase + GP_LVL <==> bit < 32) &&
            (t.port == gpiobase + GP_LVL2 <==> bit >= 32) &&
            (bit < 32 ==> t.mask <= n1 && n2 == w2) &&
            (bit >= 32 ==> t.mask <= n2 && n1 == w1)
  {
  }

  /** For the two-nibble codes of the Lenovo/Acer maps the routing is "register = high
      nibble, bit = low nibble". */
  lemma GpRegTargetNibbles(sch5127Regs: nat, code: nat)
    requires 16 <= code < 256
    ensures GpRegIndex(code) == code / 16 - 1
    ensures GpRegTarget(sch5127Regs, code) == Target(sch5127Regs + REG_GP1 + code / 16 - 1, {code % 16})
  {
  }

  /** The bit of one `if (led_type & ...)` test: `bit` when the colour is selected. */
  function SelectedBit(selected: bool, bit: nat): Word {
    if selected then BitMask(bit) else {}
  }

  /** Mask of the chassis-LED bits setsystemled touches for `ledType`. */
  function SystemMask(ledType: bv32, blueBit: nat, redBit: nat): Word {
    SelectedBit(ledType & LED_BLUE != 0, blueBit) + SelectedBit(ledType & LED_RED != 0, redBit)
  }

  /** PWM duty cycles for brightness levels 0..9. */
  const LED_BRIGHTNESS: seq<nat> := [0x00, 0xbe, 0xc3, 0xcb, 0xd3, 0xdb, 0xe3, 0xeb, 0xf3, 0xff]
  const HWM_PWM3_DUTY_CYCLE: nat := 0x32

  /** The brightness table rises strictly from fully off to fully on. */
  lemma BrightnessRising()
    ensures |LED_BRIGHTNESS| == 10
    ensures LED_BRIGHTNESS[0] == 0x00 && LED_BRIGHTNESS[9] == 0xff
    ensures forall i, j :: 0 <= i < j < |LED_BRIGHTNESS| ==> LED_BRIGHTNESS[i] < LED_BRIGHTNESS[j]
  {
  }

  /** setbrightness's clamp of its argument into the table's index range. */
  function ClampLevel(val: int): (r: nat)
    ensures r < |LED_BRIGHTNESS|
    ensures 0 <= val < |LED_BRIGHTNESS| ==> r == val
    ensures val < 0 ==> r == 0
    ensures val >= |LED_BRIGHTNESS| ==> r == |LED_BRIGHTNESS| - 1
  {
    if val < 0 then 0 else if val > 9 then 9 else val
  }

  /** ioledblue: HP blue bit of a slot index; the C code asserts the index. */
  function IoLedBlue(ledIdx: nat): (b: nat)
    requires ledIdx < MAX_HDD_LEDS
    ensures b in BlueBits(HpEx49x) && b < 64
    ensures b < 32 <==> ledIdx < 3
  {
    BlueBits(HpEx49x)[ledIdx]
  }

  /** ioledred: HP red bit of a slot index; the C code asserts the index. */
  function IoLedRed(ledIdx: nat): (b: nat)
    requires ledIdx < MAX_HDD_LEDS
    ensures b in RedBits(HpEx49x) && b < 64
    ensures b < 32 <==> ledIdx < 2
  {
    RedBits(HpEx49x)[ledIdx]
  }

  /**
   * The LED register state of hpex49xled_led.c: the port space, and the globals
   * gpiobase, sch5127_regs, out_system_blue and out_system_red.
   */
  class Controller {
    ghost const initial: map<nat, Word>
    var regs: map<nat, Word>
    var log: seq<PortWrite>
    var gpiobase: nat
    var sch5127Regs: nat
    var outSystemBlue: nat
    var outSystemRed: nat

    /** The port contents are the initial hardware contents overwritten by the write log. */
    ghost predicate Valid()
      reads this
    {
      regs == Replay(initial, log)
    }

    /** inl/inb. */
    function Read(port: nat): Word
      reads this
    {
      At(regs, port)
    }

    /** The global configuration (not port contents). */
    function Config(): (nat, nat, nat, nat)
      reads this
    {
      (gpiobase, sch5127Regs, outSystemBlue, outSystemRed)
    }

    /** Process start: the globals are zero and the ports hold `hardware`. */
    constructor (hardware: map<nat, Word>)
      ensures Valid()
      ensures initial == hardware && regs == hardware && log == []
      ensures Config() == (0, 0, 0, 0)
    {
      initial := hardware;
      regs := hardware;
      log := [];
      gpiobase, sch5127Regs := 0, 0;
      outSystemBlue, outSystemRed := 0, 0;
    }

    /** outb/outl. */
    method Out(port: nat, value: Word)
      requires Valid()
      modifies this
      ensures Valid() && Config() == old(Config())
      ensures regs == old(regs)[port := value]
      ensures log == old(log) + [PortWrite(port, value)]
    {
      assert (log + [PortWrite(port, value)])[..|log|] == log;
      regs := regs[port := value];
      log := log + [PortWrite(port, value)];
    }

    /** dobits: read-modify-write of `bits` in `port`, writing only if the value changes. */
    method DoBits(bits: Word, port: nat, state: bool)
      requires Valid()
      modifies this
      ensures Valid() && Config() == old(Config())
      ensures Read(port) == Masked(old(Read(port)), bits, state)
      ensures forall q :: q != port ==> Read(q) == old(Read(q))
      ensures log == old(log) + WriteIfChanged(port, old(Read(port)), Masked(old(Read(port)), bits, state))
    {
      var val := Read(port);
      var newVal := if state then val + bits else val - bits;
      if val != newVal {
        Out(port, newVal);
      } else {
        assert log + [] == log;
      }
    }

    /** setgplpllvl: drive GPIO bit `bit` to `state`. */
    method SetGplpllvl(bit: nat, state: bool)
      requires Valid()
      modifies this
      ensures Valid() && Config() == old(Config())
      ensures var t := LevelTarget(gpiobase, bit);
              Read(t.port) == Masked(old(Read(t.port)), t.mask, state) &&
              log == old(log) + WriteIfChanged(t.port, old(Read(t.port)), Read(t.port))
      ensures forall q :: q != LevelTarget(gpiobase, bit).port ==> Read(q) == old(Read(q))
    {
      DoBits(BitMask(bit), gpiobase + (if bit < 32 then GP_LVL else GP_LVL2), state);
    }

    /** setgpregslvl: drive bit `bit & 0xF` of SCH5127 GP register `(bit >> 4) & 0xF`.
        The C code asserts that the register index is not negative. */
    method SetGpregslvl(bit: nat, state: bool)
      requires Valid()
      requires GpRegIndex(bit) >= 0
      modifies this
      ensures Valid() && Config() == old(Config())
      ensures var t := GpRegTarget(sch5127Regs, bit);
              Read(t.port) == Masked(old(Read(t.port)), t.mask, state) &&
              log == old(log) + WriteIfChanged(t.port, old(Read(t.port)), Read(t.port))
      ensures forall q :: q != GpRegTarget(sch5127Regs, bit).port ==> Read(q) == old(Read(q))
    {
      var reg := (bit / 16) % 16 - 1;
      DoBits(BitMask(bit % 16), sch5127Regs + REG_GP1 + reg, state);
    }

    /** setgpioselinput: OR the words into the two use-select registers (GPIO function),
        then clear them in the two I/O-select registers (output). Four unconditional writes. */
    method SetGpioSelInput(bits1: Word, bits2: Word)
      requires Valid()
      modifies this
      ensures Valid() && Config() == old(Config())
      ensures Read(gpiobase + GPIO_USE_SEL) == old(Read(gpiobase + GPIO_USE_SEL)) + bits1
      ensures Read(gpiobase + GPIO_USE_SEL2) == old(Read(gpiobase + GPIO_USE_SEL2)) + bits2
      ensures Read(gpiobase + GP_IO_SEL) == old(Read(gpiobase + GP_IO_SEL)) - bits1
      ensures Read(gpiobase + GP_IO_SEL2) == old(Read(gpiobase + GP_IO_SEL2)) - bits2
      ensures forall q :: (q != gpiobase + GPIO_USE_SEL && q != gpiobase + GPIO_USE_SEL2 &&
                           q != gpiobase + GP_IO_SEL && q != gpiobase + GP_IO_SEL2) ==>
                Read(q) == old(Read(q))
      ensures log == old(log) + [
                PortWrite(gpiobase + GPIO_USE_SEL, old(Read(gpiobase + GPIO_USE_SEL)) + bits1),
                PortWrite(gpiobase + GPIO_USE_SEL2, old(Read(gpiobase + GPIO_USE_SEL2)) + bits2),
                PortWrite(gpiobase + GP_IO_SEL, old(Read(gpiobase + GP_IO_SEL)) - bits1),
                PortWrite(gpiobase + GP_IO_SEL2, old(Read(gpiobase + GP_IO_SEL2)) - bits2)]
      ensures regs == old(regs)[gpiobase + GPIO_USE_SEL := old(Read(gpiobase + GPIO_USE_SEL)) + bits1]
                               [gpiobase + GPIO_USE_SEL2 := old(Read(gpiobase + GPIO_USE_SEL2)) + bits2]
                               [gpiobase + GP_IO_SEL := old(Read(gpiobase + GP_IO_SEL)) - bits1]
                               [gpiobase + GP_IO_SEL2 := old(Read(gpiobase + GP_IO_SEL2)) - bits2]
    {
      var useSel := gpiobase + GPIO_USE_SEL;
      var useSel2 := gpiobase + GPIO_USE_SEL2;
      var ioSel := gpiobase + GP_IO_SEL;
      var ioSel2 := gpiobase + GP_IO_SEL2;
      assert useSel < ioSel < useSel2 < ioSel2;
      var w1 := Read(useSel) + bits1;
      var w2 := Read(useSel2) + bits2;
      var w3 := Read(ioSel) - bits1;
      var w4 := Read(ioSel2) - bits2;
      Out(useSel, w1);
      Out(useSel2, w2);
      Out(ioSel, w3);
      Out(ioSel2, w4);
    }

    /** setsystemled: for each selected colour drive its level bit to `!(state == LED_ON)`
        (active low), then set the selected blink-enable bits iff `state == LED_BLINK`. */
    method SetSystemLed(ledType: bv32, state: bv32)
      requires Valid()
      requires outSystemBlue < 32 && outSystemRed < 32
      modifies this
      ensures Valid() && Config() == old(Config())
      ensures var m := SystemMask(ledType, outSystemBlue, outSystemRed);
              Read(gpiobase + GP_LVL) == Masked(old(Read(gpiobase + GP_LVL)), m, state != LED_ON) &&
              Read(gpiobase + GPO_BLINK) == Masked(old(Read(gpiobase + GPO_BLINK)), m, state == LED_BLINK)
      ensures forall q :: q != gpiobase + GP_LVL && q != gpiobase + GPO_BLINK ==> Read(q) == old(Read(q))
      ensures var mid := Masked(old(Read(gpiobase + GP_LVL)), SelectedBit(ledType & LED_BLUE != 0, outSystemBlue), state != LED_ON);
              log == old(log) + WriteIfChanged(gpiobase + GP_LVL, old(Read(gpiobase + GP_LVL)), mid)
                              + WriteIfChanged(gpiobase + GP_LVL, mid, Read(gpiobase + GP_LVL))
                              + WriteIfChanged(gpiobase + GPO_BLINK, old(Read(gpiobase + GPO_BLINK)), Read(gpiobase + GPO_BLINK))
    {
      ghost var lvl, blk := gpiobase + GP_LVL, gpiobase + GPO_BLINK;
      ghost var l0, b0, log0 := Read(lvl), Read(blk), log;
      ghost var mid := Masked(l0, SelectedBit(ledType & LED_BLUE != 0, outSystemBlue), state != LED_ON);
      var onOff := LED_ON == state;
      SystemLevels(ledType, !onOff);
      ghost var log1, lvl1 := log, Read(lvl);
      assert log1 == log0 + WriteIfChanged(lvl, l0, mid) + WriteIfChanged(lvl, mid, lvl1);
      assert Read(blk) == b0;
      var blink := LED_BLINK == state;
      SystemBlink(ledType, blink);
      assert log == log1 + WriteIfChanged(blk, b0, Read(blk));
      assert Read(lvl) == lvl1;
    }

    /** setsystemled(LED_RED, LED_OFF) followed by setsystemled(LED_BLUE, LED_OFF): both
        chassis lines high (dark) and neither blinking. */
    method ChassisLedsOff()
      requires Valid()
      requires outSystemBlue < 32 && outSystemRed < 32
      modifies this
      ensures Valid() && Config() == old(Config())
      ensures Read(gpiobase + GP_LVL) == old(Read(gpiobase + GP_LVL)) + {outSystemRed, outSystemBlue}
      ensures Read(gpiobase + GPO_BLINK) == old(Read(gpiobase + GPO_BLINK)) - {outSystemRed, outSystemBlue}
      ensures forall q :: q != gpiobase + GP_LVL && q != gpiobase + GPO_BLINK ==> Read(q) == old(Read(q))
    {
      assert SystemMask(LED_RED, outSystemBlue, outSystemRed) == {outSystemRed};
      assert SystemMask(LED_BLUE, outSystemBlue, outSystemRed) == {outSystemBlue};
      ghost var l0, b0 := Read(gpiobase + GP_LVL), Read(gpiobase + GPO_BLINK);
      SetSystemLed(LED_RED, LED_OFF);
      assert Read(gpiobase + GP_LVL) == l0 + {outSystemRed} && Read(gpiobase + GPO_BLINK) == b0 - {outSystemRed};
      SetSystemLed(LED_BLUE, LED_OFF);
    }

    /** The level half of setsystemled: drive the selected chassis lines to `high`. */
    method SystemLevels(ledType: bv32, high: bool)
      requires Valid()
      requires outSystemBlue < 32 && outSystemRed < 32
      modifies this
      ensures Valid() && Config() == old(Config())
      ensures Read(gpiobase + GP_LVL) == Masked(old(Read(gpiobase + GP_LVL)), SystemMask(ledType, outSystemBlue, outSystemRed), high)
      ensures forall q :: q != gpiobase + GP_LVL ==> Read(q) == old(Read(q))
      ensures var mid := Masked(old(Read(gpiobase + GP_LVL)), SelectedBit(ledType & LED_BLUE != 0, outSystemBlue), high);
              log == old(log) + WriteIfChanged(gpiobase + GP_LVL, old(Read(gpiobase + GP_LVL)), mid)
                              + WriteIfChanged(gpiobase + GP_LVL, mid, Read(gpiobase + GP_LVL))
    {
      ghost var lvl0 := Read(gpiobase + GP_LVL);
      ghost var mb: Word := SelectedBit(ledType & LED_BLUE != 0, outSystemBlue);
      ghost var mr: Word := SelectedBit(ledType & LED_RED != 0, outSystemRed);
      DriveIfSelected(ledType & LED_BLUE != 0, outSystemBlue, high);
      DriveIfSelected(ledType & LED_RED != 0, outSystemRed, high);
      MaskedCompose(lvl0, mb, mr, high);
    }

    /** One `if (led_type & ...) setgplpllvl(bit, state)` line of setsystemled, for a
        first-bank bit. */
    method DriveIfSelected(selected: bool, bit: nat, high: bool)
      requires Valid() && bit < 32
      modifies this
      ensures Valid() && Config() == old(Config())
      ensures Read(gpiobase + GP_LVL) == Masked(old(Read(gpiobase + GP_LVL)), SelectedBit(selected, bit), high)
      ensures forall q :: q != gpiobase + GP_LVL ==> Read(q) == old(Read(q))
      ensures log == old(log) + WriteIfChanged(gpiobase + GP_LVL, old(Read(gpiobase + GP_LVL)), Read(gpiobase + GP_LVL))
    {
      if selected {
        SetGplpllvl(bit, high);
      } else {
        MaskedNone(Read(gpiobase + GP_LVL), high);
        assert log + [] == log;
      }
    }

    /** The blink half of setsystemled: collect the selected chassis bits and, when
        there are any, set or clear them in GPO_BLINK. */
    method SystemBlink(ledType: bv32, blink: bool)
      requires Valid()
      modifies this
      ensures Valid() && Config() == old(Config())
      ensures Read(gpiobase + GPO_BLINK) == Masked(old(Read(gpiobase + GPO_BLINK)), SystemMask(ledType, outSystemBlue, outSystemRed), blink)
      ensures forall q :: q != gpiobase + GPO_BLINK ==> Read(q) == old(Read(q))
      ensures log == old(log) + WriteIfChanged(gpiobase + GPO_BLINK, old(Read(gpiobase + GPO_BLINK)), Read(gpiobase + GPO_BLINK))
    {
      var val: Word := {};
      if ledType & LED_BLUE != 0 {
        val := val + BitMask(outSystemBlue);
      }
      if ledType & LED_RED != 0 {
        val := val + BitMask(outSystemRed);
      }
      assert val == SystemMask(ledType, outSystemBlue, outSystemRed);
      if val != {} {
        DoBits(val, gpiobase + GPO_BLINK, blink);
      } else {
        MaskedNone(Read(gpiobase + GPO_BLINK), blink);
        assert log + [] == log;
      }
    }

    /** setbrightness: clamp to 0..9, select PWM3 duty cycle in the HWM index register,
        write the table value to the HWM data register. */
    method SetBrightness(val: int)
      requires Valid()
      modifies this
      ensures Valid() && Config() == old(Config())
      ensures log == old(log) + [PortWrite(sch5127Regs + REG_HWM_INDEX, WordOf(HWM_PWM3_DUTY_CYCLE)),
                                 PortWrite(sch5127Regs + REG_HWM_DATA, WordOf(LED_BRIGHTNESS[ClampLevel(val)]))]
      ensures Read(sch5127Regs + REG_HWM_INDEX) == WordOf(HWM_PWM3_DUTY_CYCLE)
      ensures Read(sch5127Regs + REG_HWM_DATA) == WordOf(LED_BRIGHTNESS[ClampLevel(val)])
      ensures forall q :: q != sch5127Regs + REG_HWM_INDEX && q != sch5127Regs + REG_HWM_DATA ==>
                Read(q) == old(Read(q))
    {
      var level := if val < 0 then 0 else if val > 9 then 9 else val;
      Out(sch5127Regs + REG_HWM_INDEX, WordOf(HWM_PWM3_DUTY_CYCLE));
      Out(sch5127Regs + REG_HWM_DATA, WordOf(LED_BRIGHTNESS[level]));
    }

    /** set_hpex_led: drive GPIO bit `led` to `!state` for the blue and for the red colour;
        both colours address the same bit. */
    method SetHpexLed(ledType: bv32, state: int, led: nat)
      requires Valid()
      modifies this
      ensures Valid() && Config() == old(Config())
      ensures var t := LevelTarget(gpiobase, led);
              Read(t.port) == if ledType & LED_BLUE != 0 || ledType & LED_RED != 0
                              then Masked(old(Read(t.port)), t.mask, Not(state) == 1)
                              else old(Read(t.port))
      ensures forall q :: q != LevelTarget(gpiobase, led).port ==> Read(q) == old(Read(q))
      ensures var t := LevelTarget(gpiobase, led);
              log == old(log) + WriteIfChanged(t.port, old(Read(t.port)), Read(t.port))
    {
      ghost var t := LevelTarget(gpiobase, led);
      ghost var v0, log0 := Read(t.port), log;
      if ledType & LED_BLUE != 0 {
        SetGplpllvl(led, state == 0);
      }
      if ledType & LED_RED != 0 {
        SetGplpllvl(led, state == 0);
        MaskedIdempotent(v0, t.mask, state == 0);
      }
      assert log == log0 + WriteIfChanged(t.port, v0, Read(t.port));
    }

    /** set_acer_led: drive bit `led` of the SCH5127 GP registers to `state` (not inverted). */
    method SetAcerLed(ledType: bv32, state: int, led: nat)
      requires Valid()
      requires GpRegIndex(led) >= 0
      modifies this
      ensures Valid() && Config() == old(Config())
      ensures var t := GpRegTarget(sch5127Regs, led);
              Read(t.port) == if ledType & LED_BLUE != 0 || ledType & LED_RED != 0
                              then Masked(old(Read(t.port)), t.mask, state != 0)
                              else old(Read(t.port))
      ensures forall q :: q != GpRegTarget(sch5127Regs, led).port ==> Read(q) == old(Read(q))
      ensures var t := GpRegTarget(sch5127Regs, led);
              log == old(log) + WriteIfChanged(t.port, old(Read(t.port)), Read(t.port))
    {
      ghost var t := GpRegTarget(sch5127Regs, led);
      ghost var v0, log0 := Read(t.port), log;
      if ledType & LED_BLUE != 0 {
        SetGpregslvl(led, state != 0);
      }
      if ledType & LED_RED != 0 {
        SetGpregslvl(led, state != 0);
        MaskedIdempotent(v0, t.mask, state != 0);
      }
      assert log == log0 + WriteIfChanged(t.port, v0, Read(t.port));
    }
  }

  /** What setsystemled does to one colour's bits: for a selected colour the level bit
      is low exactly when the state is LED_ON and the blink bit is set exactly when the
      state is LED_BLINK; a colour that is not selected keeps both bits. */
  lemma SystemLedBits(lvl: Word, blink: Word, ledType: bv32, state: bv32, blueBit: nat, redBit: nat)
    requires blueBit < 32 && redBit < 32 && blueBit != redBit
    ensures var m := SystemMask(ledType, blueBit, redBit);
            var lvl' := Masked(lvl, m, state != LED_ON);
            var blink' := Masked(blink, m, state == LED_BLINK);
            (ledType & LED_BLUE != 0 ==>
               (blueBit !in lvl' <==> state == LED_ON) && (blueBit in blink' <==> state == LED_BLINK)) &&
            (ledType & LED_BLUE == 0 ==>
               (blueBit in lvl' <==> blueBit in lvl) && (blueBit in blink' <==> blueBit in blink)) &&
            (ledType & LED_RED != 0 ==>
               (redBit !in lvl' <==> state == LED_ON) && (redBit in blink' <==> state == LED_BLINK)) &&
            (ledType & LED_RED == 0 ==>
               (redBit in lvl' <==> redBit in lvl) && (redBit in blink' <==> redBit in blink))
  {
  }
}
