/**
 * The daemon of hpex49xled_run.c: the globals it keeps (the slot table
 * hpex49x[4], hpdisks, thread_run, dev_change, openkvm and whether the
 * devstat snapshot cur.dinfo exists), disk_init's pass over the selected
 * devices, run_mediasmart with its monitor threads, one turn of main's
 * supervision loop, and the signal handler.
 *
 * The daemon is built for the HP chassis (HP is 1), so the threads run
 * hpex49x_thread_run and the LED calls go through set_hpex_led. The threads
 * are interleaved pass by pass by a schedule of events (see Monitor); what
 * devstat and CAM report is given as a list of devices and as poll results.
 */
module Daemon {
  import opened Common
  import opened HpLed
  import opened LedMap
  import opened Registers
  import opened Chipset
  import opened Enumerate
  import opened Monitor

  /** The two GPIO level words after one set_hpex_led call: the call's bit, in the
      bank setgplpllvl routes it to, is driven to `!state` when a colour is selected. */
  function Drive(lv: (Word, Word), call: LedCall): (r: (Word, Word))
    ensures call.ledType & LED_BLUE == 0 && call.ledType & LED_RED == 0 ==> r == lv
    ensures call.led < 32 ==> r.1 == lv.1
    ensures call.led >= 32 ==> r.0 == lv.0
    ensures forall b :: b != call.led % 32 ==> (b in r.0 <==> b in lv.0) && (b in r.1 <==> b in lv.1)
    ensures call.ledType & LED_BLUE != 0 || call.ledType & LED_RED != 0 ==>
              (LineLow(r, call.led) <==> call.state != 0)
  {
    if call.ledType & LED_BLUE == 0 && call.ledType & LED_RED == 0 then lv
    else if call.led < 32 then (Masked(lv.0, BitMask(call.led), Not(call.state) == 1), lv.1)
    else (lv.0, Masked(lv.1, BitMask(call.led), Not(call.state) == 1))
  }

  /** The level words after a sequence of set_hpex_led calls, in order. */
  function Levels(lv: (Word, Word), calls: seq<LedCall>): (r: (Word, Word))
    ensures forall b :: (forall c :: c in calls ==> c.led % 32 != b) ==>
              (b in r.0 <==> b in lv.0) && (b in r.1 <==> b in lv.1)
    decreases |calls|
  {
    if calls == [] then lv else Drive(Levels(lv, calls[..|calls| - 1]), calls[|calls| - 1])
  }

  lemma {:induction false} LevelsAppend(lv: (Word, Word), a: seq<LedCall>, b: seq<LedCall>)
    ensures Levels(lv, a + b) == Levels(Levels(lv, a), b)
    decreases |b|
  {
    if b == [] {
      assert a + b == a;
    } else {
      assert (a + b)[..|a + b| - 1] == a + b[..|b| - 1];
      LevelsAppend(lv, a, b[..|b| - 1]);
    }
  }

  /** Whether GPIO line `bit` is driven low (its LED lit) in the level words. */
  predicate LineLow(lv: (Word, Word), bit: nat) {
    if bit < 32 then bit !in lv.0 else bit % 32 !in lv.1
  }

  /** The bank and position a GPIO bit number addresses. */
  function Line(bit: nat): (bool, nat) {
    (bit < 32, bit % 32)
  }

  /** What one hpex49x_thread_run pass does to the slot's lines, from any level words:
      activity on reads leaves both lines low (lit); activity on writes alone leaves the
      red line high and, when blue is a different line, the blue line low; an idle pass
      after an active one leaves both lines high; a second idle pass changes nothing. */
  lemma PassDrivesLines(t: Task, nRead: u64, nWrite: u64, lv: (Word, Word))
    ensures var (_, calls) := Activity(HpThread, t, nRead, nWrite);
            var after := Levels(lv, calls);
            var r := t.rec;
            (r.bRead != nRead ==> LineLow(after, r.blue) && LineLow(after, r.red)) &&
            (r.bRead == nRead && r.bWrite != nWrite ==>
               !LineLow(after, r.red) && (Line(r.blue) != Line(r.red) ==> LineLow(after, r.blue))) &&
            (r.bRead == nRead && r.bWrite == nWrite && t.ledState != 0 ==>
               !LineLow(after, r.blue) && !LineLow(after, r.red)) &&
            (r.bRead == nRead && r.bWrite == nWrite && t.ledState == 0 ==> after == lv)
  {
    var (_, calls) := Activity(HpThread, t, nRead, nWrite);
    if calls != [] {
      assert |calls| == 2;
      assert calls[..1][..0] == [];
      assert calls[..|calls| - 1] == calls[..1];
    }
  }

  /** The private copies pthread_create hands to the first `n` threads, led_state 0. */
  function Tasks(table: seq<Led>, n: nat): (ts: seq<Task>)
    requires n <= |table|
    ensures |ts| == n
  {
    seq(n, i requires 0 <= i < n => Task(table[i], 0))
  }

  function AllLive(n: nat): (live: seq<bool>)
    ensures |live| == n
  {
    seq(n, _ => true)
  }

  /** How run_mediasmart ends: it returns dev_change once every thread has left its
      loop, a thread's err() ends the process, or threads are still running when the
      schedule runs out (run_mediasmart is still waiting in pthread_join). */
  datatype RunResult = Returned(devChange: bool) | ProcessExit | StillRunning

  /** Where one turn of main leaves the process. */
  datatype Step =
    | Continue       // the while loop goes on
    | Exit           // err() ended the process
    | Undefined      // the init loop indexed the bit tables out of bounds
    | Blocked        // run_mediasmart has not returned within the schedule

  /** The globals of hpex49xled_run.c and the port space they drive. */
  class Daemon {
    const c: Controller
    const table: array<Led>       // hpex49x[MAX_HDD_LEDS]
    var hpdisks: nat
    var threadRun: bool
    var devChange: bool
    var openKvm: int
    var haveSnapshot: bool        // cur.dinfo != NULL

    ghost predicate Valid()
      reads this, c
    {
      c.Valid() && table.Length == MAX_HDD_LEDS && hpdisks <= MAX_HDD_LEDS &&
      c.outSystemBlue < 32 && c.outSystemRed < 32
    }

    /** The flags the monitor threads share. */
    function Flags(): Globals
      reads this
    {
      Globals(threadRun, devChange, openKvm, haveSnapshot)
    }

    /** The two GPIO level words: GP_LVL and GP_LVL2. */
    function Lines(): (Word, Word)
      reads this, c
    {
      (c.Read(c.gpiobase + GP_LVL), c.Read(c.gpiobase + GP_LVL2))
    }

    /** Process start: static storage is zero, openkvm starts at 1. */
    constructor (hardware: map<nat, Word>)
      ensures Valid() && fresh(c) && fresh(table)
      ensures c.regs == hardware && c.log == [] && c.Config() == (0, 0, 0, 0)
      ensures table[..] == [ZeroLed, ZeroLed, ZeroLed, ZeroLed] && hpdisks == 0
      ensures Flags() == Globals(false, false, 1, false)
    {
      c := new Controller(hardware);
      table := new Led[MAX_HDD_LEDS](_ => ZeroLed);
      hpdisks := 0;
      threadRun, devChange := false, false;
      openKvm, haveSnapshot := 1, false;
      new;
      assert table[..] == [ZeroLed, ZeroLed, ZeroLed, ZeroLed];
    }

    /**
     * disk_init: open the device statistics (openkvm = 1, a fresh snapshot), then for
     * each selected device shown within the first four, classify its bay from
     * (path_id, target_id) and store its record at hpex49x[position]; an unknown bay or
     * a position above 3 ends the process. Returns the number of records stored.
     */
    method DiskInit(devs: seq<Device>) returns (r: Option<nat>)
      requires Valid()
      requires DistinctPositions(devs)
      modifies this, table
      ensures Valid()
      ensures openKvm == 1 && haveSnapshot
      ensures threadRun == old(threadRun) && devChange == old(devChange) && hpdisks == old(hpdisks)
      ensures var s := ScanDevices(devs, old(table[..]));
              (r.None? <==> s.ScanFailed?) &&
              (r.Some? ==> table[..] == s.table && r.value == s.disks && r.value <= MAX_HDD_LEDS)
    {
      openKvm := 1;
      haveSnapshot := true;
      ghost var t0 := table[..];
      var disks := 0;
      for dn := 0 to |devs|
        invariant Flags() == Globals(old(threadRun), old(devChange), 1, true) && hpdisks == old(hpdisks)
        invariant ScanDevices(devs[..dn], t0) == Scanned(table[..], disks)
      {
        var d := devs[dn];
        assert devs[..dn + 1][..dn] == devs[..dn];
        if d.selected == 0 || d.selected > MAX_SHOW_DEVS {
          continue;
        }
        var slot := Classify(d.pathId, d.targetId);
        if slot.None? || d.position > 3 {
          ScanFailsIff(devs, t0);
          return None;
        }
        table[d.position] := Record(d, slot.value);
        disks := disks + 1;
      }
      assert devs[..|devs|] == devs;
      AtMostFourDisks(devs, t0);
      return Some(disks);
    }

    /** The closing loops of run_mediasmart and of the signal handler, with their
        arguments as written: set_hpex_led(LED_BLUE, i, OFF) and set_hpex_led(LED_RED,
        i, OFF) pass `i` as the state and OFF (0) as the line. Every call addresses GPIO
        bit 0; it goes high for i = 0 and low for i >= 1, and no drive line is touched. */
    method SwappedOffLoop()
      requires Valid()
      modifies c
      ensures Valid() && c.Config() == old(c.Config())
      ensures c.Read(c.gpiobase + GP_LVL) == old(c.Read(c.gpiobase + GP_LVL)) - {0}
      ensures Lines() == (old(Lines()).0 - {0}, old(Lines()).1)
      ensures forall q :: q != c.gpiobase + GP_LVL ==> c.Read(q) == old(c.Read(q))
    {
      var lvl := c.gpiobase + GP_LVL;
      assert lvl != c.gpiobase + GP_LVL2;
      ghost var v0 := c.Read(lvl);
      assert LevelTarget(c.gpiobase, OFF) == Target(lvl, {0});
      for i := 0 to MAX_HDD_LEDS
        invariant Valid() && c.Config() == old(c.Config())
        invariant c.Read(lvl) == if i == 0 then v0 else if i == 1 then v0 + {0} else v0 - {0}
        invariant forall q :: q != lvl ==> c.Read(q) == old(c.Read(q))
      {
        c.SetHpexLed(LED_BLUE, i, OFF);
        c.SetHpexLed(LED_RED, i, OFF);
      }
    }

    /** The set_hpex_led calls one thread pass makes, in order. */
    method ApplyCalls(calls: seq<LedCall>)
      requires Valid()
      requires forall k :: 0 <= k < |calls| ==> calls[k].HpexCall?
      modifies c
      ensures Valid() && c.Config() == old(c.Config())
      ensures Lines() == Levels(old(Lines()), calls)
      ensures forall q :: q != c.gpiobase + GP_LVL && q != c.gpiobase + GP_LVL2 ==> c.Read(q) == old(c.Read(q))
    {
      var lvl, lvl2 := c.gpiobase + GP_LVL, c.gpiobase + GP_LVL2;
      ghost var lv0 := Lines();
      for k := 0 to |calls|
        invariant Valid() && c.Config() == old(c.Config())
        invariant Lines() == Levels(lv0, calls[..k])
        invariant forall q :: q != lvl && q != lvl2 ==> c.Read(q) == old(c.Read(q))
      {
        assert calls[..k + 1][..k] == calls[..k];
        ApplyCall(calls[k]);
      }
      assert calls[..|calls|] == calls;
    }

    /** One set_hpex_led call of a pass: the level words change as Drive says. */
    method ApplyCall(call: LedCall)
      requires Valid()
      modifies c
      ensures Valid() && c.Config() == old(c.Config())
      ensures Lines() == Drive(old(Lines()), call)
      ensures forall q :: q != c.gpiobase + GP_LVL && q != c.gpiobase + GP_LVL2 ==> c.Read(q) == old(c.Read(q))
    {
      c.SetHpexLed(call.ledType, call.state, call.led);
    }

    /** One pass of one monitor thread, as the next event of the schedule names it: an
        event for a thread that has left its loop does nothing; otherwise the pass
        updates the shared flags, the thread's copy and the ports. */
    method OnePass(tasks: seq<Task>, live: seq<bool>, ghost calls: seq<LedCall>, ev: Event)
      returns (fatal: bool, tasks': seq<Task>, live': seq<bool>, ghost cs: seq<LedCall>)
      requires Valid() && |tasks| == |live|
      modifies this, c
      ensures Valid() && c.Config() == old(c.Config()) && hpdisks == old(hpdisks)
      ensures var s := Advance(HpThread, Supervising(old(Flags()), tasks, live, calls), ev);
              (fatal <==> s.SupervisionFatal?) &&
              (!fatal ==> s == Supervising(Flags(), tasks', live', calls + cs) && Lines() == Levels(old(Lines()), cs))
      ensures forall q :: q != c.gpiobase + GP_LVL && q != c.gpiobase + GP_LVL2 ==> c.Read(q) == old(c.Read(q))
    {
      fatal, tasks', live', cs := false, tasks, live, [];
      if ev.task < |tasks| && live[ev.task] {
        var pass := Iteration(HpThread, Flags(), tasks[ev.task], ev.poll);
        match pass
        case Fatal =>
          fatal := true;
        case Exited(g') =>
          threadRun, devChange := g'.threadRun, g'.devChange;
          live' := live[ev.task := false];
        case Continued(g', t', calls') =>
          HpCallsOnly(tasks[ev.task], ev.poll.nRead, ev.poll.nWrite);
          ApplyCalls(calls');
          tasks' := tasks[ev.task := t'];
          cs := calls';
      }
      assert calls + [] == calls;
    }

    /** The passes of the monitor threads in the order of `events`, from the copies
        `tasks`, all threads in their loop; stops at the first err(). */
    method RunEvents(tasks: seq<Task>, events: seq<Event>) returns (fatal: bool, live: seq<bool>)
      requires Valid()
      modifies this, c
      ensures Valid() && c.Config() == old(c.Config()) && hpdisks == old(hpdisks)
      ensures var s := Schedule(HpThread, old(Flags()), tasks, AllLive(|tasks|), events);
              (fatal <==> s.SupervisionFatal?) &&
              (!fatal ==> Flags() == s.g && live == s.live && Lines() == Levels(old(Lines()), s.calls))
      ensures forall q :: q != c.gpiobase + GP_LVL && q != c.gpiobase + GP_LVL2 ==> c.Read(q) == old(c.Read(q))
    {
      var lvl, lvl2 := c.gpiobase + GP_LVL, c.gpiobase + GP_LVL2;
      ghost var lv0 := Lines();
      ghost var g0 := Flags();
      var ts := tasks;
      live := AllLive(|tasks|);
      ghost var calls: seq<LedCall> := [];
      for e := 0 to |events|
        invariant Valid() && c.Config() == old(c.Config()) && hpdisks == old(hpdisks)
        invariant Schedule(HpThread, g0, tasks, AllLive(|tasks|), events[..e]) == Supervising(Flags(), ts, live, calls)
        invariant Lines() == Levels(lv0, calls)
        invariant forall q :: q != lvl && q != lvl2 ==> c.Read(q) == old(c.Read(q))
      {
        assert events[..e + 1][..e] == events[..e];
        ghost var cs;
        fatal, ts, live, cs := OnePass(ts, live, calls, events[e]);
        if fatal {
          FatalIsFinal(HpThread, g0, tasks, AllLive(|tasks|), events, e + 1);
          return;
        }
        LevelsAppend(lv0, calls, cs);
        calls := calls + cs;
      }
      assert events[..|events|] == events;
      fatal := false;
    }

    /** The monitor threads of run_mediasmart: one hpex49x_thread_run per record
        hpex49x[0..hpdisks-1], each on its own copy; run_mediasmart gets past its
        pthread_join loop once every thread has left its loop. */
    method WatchThreads(events: seq<Event>) returns (r: RunResult)
      requires Valid()
      modifies this, c
      ensures Valid() && c.Config() == old(c.Config()) && hpdisks == old(hpdisks)
      ensures var s := Schedule(HpThread, old(Flags()), Tasks(table[..], hpdisks), AllLive(hpdisks), events);
              (r.ProcessExit? <==> s.SupervisionFatal?) &&
              (s.Supervising? ==>
                 Flags() == s.g && (r.StillRunning? <==> true in s.live) &&
                 (r.Returned? ==> r.devChange == devChange) &&
                 Lines() == Levels(old(Lines()), s.calls))
      ensures forall q :: q != c.gpiobase + GP_LVL && q != c.gpiobase + GP_LVL2 ==> c.Read(q) == old(c.Read(q))
    {
      var tasks := Tasks(table[..], hpdisks);
      var fatal, live := RunEvents(tasks, events);
      if fatal {
        return ProcessExit;
      } else if true in live {
        return StillRunning;
      }
      return Returned(devChange);
    }

    /**
     * run_mediasmart: turn both chassis LEDs off, run a monitor thread for each of the
     * first hpdisks records and wait for all of them, run the swapped closing loop,
     * lower thread_run and return dev_change.
     */
    method RunMediasmart(events: seq<Event>) returns (r: RunResult)
      requires Valid()
      modifies this, c
      ensures Valid() && c.Config() == old(c.Config()) && hpdisks == old(hpdisks)
      ensures var s := Schedule(HpThread, old(Flags()), Tasks(table[..], hpdisks), AllLive(hpdisks), events);
              var lv := (old(Lines()).0 + {c.outSystemRed, c.outSystemBlue}, old(Lines()).1);
              (r.ProcessExit? <==> s.SupervisionFatal?) &&
              (r.StillRunning? ==>
                 s.Supervising? && true in s.live && Flags() == s.g && Lines() == Levels(lv, s.calls)) &&
              (r.Returned? ==>
                 s.Supervising? && true !in s.live &&
                 Flags() == s.g.(threadRun := false) && r.devChange == s.g.devChange &&
                 Lines() == (Levels(lv, s.calls).0 - {0}, Levels(lv, s.calls).1))
      ensures c.Read(c.gpiobase + GPO_BLINK) == old(c.Read(c.gpiobase + GPO_BLINK)) - {c.outSystemRed, c.outSystemBlue}
      ensures forall q :: q != c.gpiobase + GP_LVL && q != c.gpiobase + GP_LVL2 && q != c.gpiobase + GPO_BLINK ==>
                c.Read(q) == old(c.Read(q))
    {
      assert GP_LVL < GP_LVL2 && GP_LVL < GPO_BLINK < GP_LVL2;
      ghost var lv := (old(Lines()).0 + {c.outSystemRed, c.outSystemBlue}, old(Lines()).1);
      c.ChassisLedsOff();
      assert Lines() == lv;
      ghost var blink := c.Read(c.gpiobase + GPO_BLINK);
      ghost var s := Schedule(HpThread, old(Flags()), Tasks(table[..], hpdisks), AllLive(hpdisks), events);
      r := WatchThreads(events);
      assert c.Read(c.gpiobase + GPO_BLINK) == blink;
      if r.Returned? {
        assert s.Supervising? && Lines() == Levels(lv, s.calls) && Flags() == s.g;
        FinishRun();
        r := Returned(devChange);
      }
    }

    /** The end of run_mediasmart once every thread has returned: the swapped closing
        loop, then thread_run is lowered. */
    method FinishRun()
      requires Valid()
      modifies this, c
      ensures Valid() && c.Config() == old(c.Config()) && hpdisks == old(hpdisks)
      ensures Flags() == old(Flags()).(threadRun := false)
      ensures Lines() == (old(Lines()).0 - {0}, old(Lines()).1)
      ensures forall q :: q != c.gpiobase + GP_LVL ==> c.Read(q) == old(c.Read(q))
    {
      SwappedOffLoop();
      threadRun := false;
    }

    /**
     * main up to its loop: count and record the disks, initialise the HP LED hardware,
     * and raise thread_run. No disk, a failed scan or a failed initialisation ends the
     * process.
     */
    method Startup(devs: seq<Device>, p: Probe) returns (st: Step)
      requires Valid() && ProbeInRange(p) && DistinctPositions(devs)
      modifies this, c, table
      ensures Valid()
      ensures st == Continue || st == Exit || st == Undefined
      ensures var s := ScanDevices(devs, old(table[..]));
              var recognised := p.didVid == VendorId(HpEx49x) && GpioBase(p.gpioRaw).Some?;
              (st == Continue <==> s.Scanned? && s.disks > 0 && recognised && SlotsInRange(s.table, s.disks)) &&
              (st == Undefined <==> s.Scanned? && s.disks > 0 && recognised && !SlotsInRange(s.table, s.disks)) &&
              (st == Continue ==>
                 threadRun && hpdisks == s.disks && table[..] == AssignBits(HpEx49x, s.table, s.disks) &&
                 openKvm == 1 && haveSnapshot && devChange == old(devChange)) &&
              (s.Scanned? && s.disks > 0 ==> PortsAfterInit(c, old(c.regs), old(c.log), old(c.gpiobase), old(c.sch5127Regs), HpEx49x, p)) &&
              (!(s.Scanned? && s.disks > 0) ==> c.log == old(c.log))
    {
      var disks := DiskInit(devs);
      if disks.None? || disks.value <= 0 {
        return Exit;
      }
      hpdisks := disks.value;
      SystemBitsFirstBank(HpEx49x);
      var init := InitVariant(c, HpEx49x, p, table, hpdisks);
      if init == InitFailed {
        return Exit;
      } else if init.SlotOutOfRange? {
        return Undefined;
      }
      threadRun := true;
      return Continue;
    }

    /**
     * One turn of main's `while (run)` loop. With thread_run set it runs
     * run_mediasmart; on a device change it closes the statistics, scans the devices
     * again, re-initialises the LEDs without checking the result, and raises
     * thread_run again unless no disk was found. Case 1 falls through into the default
     * case, which only prints; with thread_run clear the turn does nothing at all, so
     * the loop spins from then on.
     */
    method MainIteration(events: seq<Event>, kvmClose: int, devs: seq<Device>, p: Probe) returns (st: Step)
      requires Valid() && ProbeInRange(p) && DistinctPositions(devs)
      modifies this, c, table
      ensures Valid()
      ensures !old(threadRun) ==>
                st == Continue && Flags() == old(Flags()) && hpdisks == old(hpdisks) &&
                table[..] == old(table[..]) && c.log == old(c.log) && c.Config() == old(c.Config())
      ensures old(threadRun) ==>
                var s := Schedule(HpThread, old(Flags()), Tasks(old(table[..]), old(hpdisks)), AllLive(old(hpdisks)), events);
                var scan := ScanDevices(devs, old(table[..]));
                var recognised := p.didVid == VendorId(HpEx49x) && GpioBase(p.gpioRaw).Some?;
                var lv := (old(Lines()).0 + {old(c.outSystemRed), old(c.outSystemBlue)}, old(Lines()).1);
                (s.SupervisionFatal? ==> st == Exit) &&
                (s.Supervising? && true in s.live ==> st == Blocked && Lines() == Levels(lv, s.calls)) &&
                (s.Supervising? && true !in s.live && !s.g.devChange ==>
                   st == Continue && !threadRun && !devChange && hpdisks == old(hpdisks) &&
                   table[..] == old(table[..]) && Lines() == (Levels(lv, s.calls).0 - {0}, Levels(lv, s.calls).1)) &&
                (s.Supervising? && (true in s.live || !s.g.devChange) ==>
                   c.Config() == old(c.Config()) &&
                   c.Read(c.gpiobase + GPO_BLINK) == old(c.Read(c.gpiobase + GPO_BLINK)) - {c.outSystemRed, c.outSystemBlue} &&
                   forall q :: q != c.gpiobase + GP_LVL && q != c.gpiobase + GP_LVL2 && q != c.gpiobase + GPO_BLINK ==>
                     c.Read(q) == old(c.Read(q))) &&
                (s.Supervising? && true !in s.live && s.g.devChange ==>
                   (st == Exit <==> scan.ScanFailed? || scan.disks == 0) &&
                   (st == Undefined <==> scan.Scanned? && scan.disks > 0 && recognised &&
                                         !SlotsInRange(scan.table, scan.disks)) &&
                   (st == Continue ==>
                      threadRun && !devChange && hpdisks == scan.disks && openKvm == 1 && haveSnapshot &&
                      table[..] == if recognised then AssignBits(HpEx49x, scan.table, scan.disks) else scan.table) &&
                   (scan.Scanned? && recognised ==>
                      c.gpiobase == GpioBase(p.gpioRaw).value && c.sch5127Regs == RuntimeBase(p.msb, p.lsb) &&
                      LinesEnabled(c, HpEx49x) && WatchdogStopped(c.regs, c.sch5127Regs, c.gpiobase)) &&
                   (scan.Scanned? && !recognised ==>
                      c.sch5127Regs == old(c.sch5127Regs) &&
                      c.gpiobase == if p.didVid == VendorId(HpEx49x) then p.gpioRaw else old(c.gpiobase)))
    {
      if !threadRun {
        return Continue;
      }
      var retval := RunMediasmart(events);
      if retval.ProcessExit? {
        return Exit;
      } else if retval.StillRunning? {
        return Blocked;
      }
      if retval.devChange {
        haveSnapshot := false;
        openKvm := kvmClose;
        st := Reinitialise(devs, p);
        return;
      }
      return Continue;
    }

    /** The device-change branch of main's loop after the statistics are closed: scan
        again, re-initialise the LEDs ignoring the result, and leave unless a disk was
        found; then clear dev_change and raise thread_run. */
    method Reinitialise(devs: seq<Device>, p: Probe) returns (st: Step)
      requires Valid() && ProbeInRange(p) && DistinctPositions(devs)
      modifies this, c, table
      ensures Valid()
      ensures st == Continue || st == Exit || st == Undefined
      ensures var scan := ScanDevices(devs, old(table[..]));
              var recognised := p.didVid == VendorId(HpEx49x) && GpioBase(p.gpioRaw).Some?;
              (st == Exit <==> scan.ScanFailed? || scan.disks == 0) &&
              (st == Undefined <==> scan.Scanned? && scan.disks > 0 && recognised &&
                                    !SlotsInRange(scan.table, scan.disks)) &&
              (st == Continue ==>
                 threadRun && !devChange && hpdisks == scan.disks && openKvm == 1 && haveSnapshot &&
                 table[..] == if recognised then AssignBits(HpEx49x, scan.table, scan.disks) else scan.table) &&
              (scan.Scanned? ==> PortsAfterInit(c, old(c.regs), old(c.log), old(c.gpiobase), old(c.sch5127Regs), HpEx49x, p)) &&
              (scan.ScanFailed? ==> c.log == old(c.log))
    {
      ghost var m0, log0, g0, sch0 := c.regs, c.log, c.gpiobase, c.sch5127Regs;
      var disks := DiskInit(devs);
      if disks.None? {
        return Exit;
      }
      hpdisks := disks.value;
      SystemBitsFirstBank(HpEx49x);
      var init := InitVariant(c, HpEx49x, p, table, hpdisks);
      assert PortsAfterInit(c, m0, log0, g0, sch0, HpEx49x, p);
      if init.SlotOutOfRange? {
        return Undefined;
      }
      if hpdisks <= 0 {
        return Exit;
      }
      devChange := false;
      threadRun := true;
      return Continue;
    }

    /** sigterm_handler (also SIGINT, SIGQUIT, SIGILL): lower thread_run, turn the chassis
        LEDs off, run the swapped closing loop, and exit. */
    method SigtermHandler()
      requires Valid()
      modifies this, c
      ensures Valid() && c.Config() == old(c.Config())
      ensures Flags() == old(Flags()).(threadRun := false) && hpdisks == old(hpdisks)
      ensures c.Read(c.gpiobase + GP_LVL) == (old(c.Read(c.gpiobase + GP_LVL)) + {c.outSystemRed, c.outSystemBlue}) - {0}
      ensures c.Read(c.gpiobase + GPO_BLINK) == old(c.Read(c.gpiobase + GPO_BLINK)) - {c.outSystemRed, c.outSystemBlue}
      ensures forall q :: q != c.gpiobase + GP_LVL && q != c.gpiobase + GPO_BLINK ==> c.Read(q) == old(c.Read(q))
    {
      threadRun := false;
      assert GP_LVL < GPO_BLINK;
      c.ChassisLedsOff();
      SwappedOffLoop();
    }
  }

  /** One disk in bay 1 that devstat lists at index 2: the scan succeeds with one disk,
      but hpex49x[0], the record the init loop reads, has bay 0, so Startup and the
      re-initialisation in MainIteration report Undefined on a recognised chipset. */
  lemma StaleEntryUndefined()
    ensures var d := Device(1, 2, "ada", 0, 1, 0, 0, 0);
            var s := ScanDevices([d], [ZeroLed, ZeroLed, ZeroLed, ZeroLed]);
            s.Scanned? && s.disks == 1 && !SlotsInRange(s.table, s.disks)
  {
    StaleFirstEntry();
  }

  /** With each record stored at the next free entry, every entry the init loops read
      carries a bay number from 1 to 4, so the init routines always finish. */
  lemma {:induction false} PackedScanInRange(devs: seq<Device>, table: seq<Led>)
    requires |table| == MAX_HDD_LEDS
    ensures var r := ScanDevicesPacked(devs, table);
            r.Scanned? ==> SlotsInRange(r.table, r.disks)
    decreases |devs|
  {
    if devs != [] {
      PackedScanInRange(devs[..|devs| - 1], table);
    }
  }
}
