# hpex49xled for FreeBSD, modelled in Dafny

hpex49xled is a FreeBSD daemon that drives the drive-bay LEDs and the chassis
("system") LED of the HP MediaSmart Server EX48x/EX49x. It also carries init
routines for the Acer Altos and the Lenovo H340 and H341/H342. The LEDs hang
off the GPIO lines of the Intel ICH9 LPC bridge and off the general-purpose
registers of the SMSC SCH5127 super-I/O. The daemon works in four stages:

1. It finds the disks through devstat and CAM and records each one in a
   four-entry slot table, `hpex49x[]`.
2. It initialises the chipset: PCI identification, GPIO base, super-I/O
   handshake and watchdog shutdown.
3. It switches the LED lines to GPIO outputs and gives every slot its LED
   line numbers.
4. It runs one monitor thread per disk. Each thread compares the disk's byte
   counters with a baseline and lights or clears the slot's LEDs.

A device change stops the threads, and main's loop scans and initialises
again. A signal turns the LEDs off and ends the process. A separate self-test
program (`hpex49xled-test.c`) initialises the HP hardware and turns the LEDs
off.

The modules follow the source files:

| module | source |
|---|---|
| `Common` | `Option` and the `u_int64_t` counter type |
| `HpLed` | `hpled.h`: the slot record `struct hpled`, colour/state enums, `MAX_HDD_LEDS` |
| `LedMap` | `hpex49x_led.h`: register offsets and the LED line maps of the four chassis |
| `Registers` | the register layer of `hpex49xled_led.c` (class `Controller`) |
| `Chipset` | `initsch5127` and the four `init_*` routines of `hpex49xled_led.c` |
| `Enumerate` | `curdir` and `disk_init`'s device scan from `hpex49xled_run.c` |
| `Monitor` | `hpex49x_thread_run` and `acer_thread_run` as step functions, with an interleaving schedule |
| `Daemon` | the globals of `hpex49xled_run.c` (class `Daemon`), `disk_init`, `run_mediasmart`, main's loop and `sigterm_handler` |
| `SelfTest` | `hpex49xled-test.c` |

The register state is modelled like this:

- A 32-bit register value is the set of positions of its one bits (`Word`).
  `|` is union, `& ~` is difference and `&` is intersection.
- The I/O port space is a map from port number to `Word`, plus the log of
  every `outb`/`outl`.
- `Controller.Valid()` says that the map is the initial hardware contents with
  the log replayed over them.
- Values the hardware returns to `inl`/`inb` during initialisation are the
  fields of a `Probe`.
- What devstat and CAM report is a list of `Device` values and a `Poll` per
  thread pass.

The threads are interleaved one whole loop pass at a time, by a list of events.
Each event names the thread that makes the next pass and what devstat reports
to it. `Monitor.Schedule` is the specification of such a run.
`Daemon.RunEvents` performs the passes on the port space and is proved against
`Schedule`.

The following behaviours are modelled as the source is written:

- The closing loops of `run_mediasmart` and `sigterm_handler` call
  `set_hpex_led(LED_BLUE, i, OFF)`. They pass `i` as the state and `OFF` (0) as
  the line, so they only ever drive GPIO bit 0.
- In `acer_thread_run`, the write-only branch calls `set_hpex_led`.
- When both the read and the write counters change, red is turned ON.
- `case 1` of main's `switch (thread_run)` falls through into `default`.
- Every init routine assigns `out_system_*` before it calls `initsch5127`.
- `disk_init` stores each record at `hpex49x[di]`, the devstat index (see
  "## Findings").

After a successful init routine the port space is stated exactly. The log is
the `initsch5127` writes followed by the four `setgpioselinput` writes
(`Chipset.SelectWrites`), and the port map is `Chipset.SwitchLines` applied to
the contents `initsch5127` left (`Chipset.PortsAfterInit`). If the runtime
block and the GPIO block overlap, a watchdog register can also be one of the
four select registers. The later select write then stands, as it does on the
hardware, so `Chipset.WatchdogStopped` exempts such a register.

## Model

| member | source | states |
|---|---|---|
| HpLed.ColoursIndependent | hpled.h:62-65 | LED_BLUE and LED_RED are distinct single bits, so `led_type & LED_BLUE` and `led_type & LED_RED` test independent colours |
| HpLed.StatesExclusive | hpled.h:67-71 | LED_OFF, LED_ON and LED_BLINK are disjoint single bits; no state is both ON and BLINK |
| HpLed.Not | hpled.h:73-76 | `!state` is 0 or 1, and it is 1 exactly for OFF (0) |
| HpLed.OnDrivesLow | hpled.h:73-76 | `!ON` is level 0 and `!OFF` is level 1 (the LEDs are active low) |
| LedMap.GpioOffsetsDistinct | hpex49x_led.h:94-108 | the seven ICH9 GPIO register offsets are pairwise distinct; each second-bank register is its first-bank partner plus a fixed distance |
| LedMap.WatchdogConsecutive | hpex49x_led.h:83-89 | the four watchdog registers are consecutive from 0x65; HWM data follows HWM index |
| LedMap.HpDriveBits | hpex49x_led.h:115-123 | the eight HP drive lines are distinct and below 64; exactly 57, 38 and 39 are in the second bank |
| LedMap.NibbleCodes | hpex49x_led.h:131-178 | every H340 and Altos drive code names GP register 1 or 5 in its high nibble and a bit below 8, so setgpregslvl's register index is not negative |
| LedMap.H341RegIndex | hpex49x_led.h:148-156 | every H341 drive code gives a register index 0..4 |
| LedMap.AltosReversesH340 | hpex49x_led.h:131-172 | the Altos drive map is the H340 map in reverse bay order |
| LedMap.SystemBitsFirstBank | hpex49x_led.h:125-178 | every chassis's system blue and red lines are distinct and below 32 |
| LedMap.DriveBitsDistinct | hpex49x_led.h:115-172 | no two of the eight drive codes of any chassis are equal |
| Registers.ReplayAppend | hpex49xled_led.c:369-387 | replaying two runs of port writes is replaying the first, then the second |
| Registers.ReplayZeroes | hpex49xled_led.c:176-178 | after a run of writes that all store zero, every port written reads zero |
| Registers.MaskedSpec | hpex49xled_led.c:360-366 | dobits gives every masked bit the requested state and keeps every other bit |
| Registers.MaskedSettled | hpex49xled_led.c:360-366 | dobits leaves a value unchanged exactly when the masked bits already hold the state |
| Registers.MaskedCompose | hpex49xled_led.c:394-395 | two dobits with the same state equal one dobits with the union of the masks |
| Registers.MaskedIdempotent | hpex49xled_led.c:435-448 | a second identical dobits changes nothing (set_hpex_led addresses the same bit twice) |
| Registers.WriteIfChanged | hpex49xled_led.c:365 | dobits writes at most once, and only when the new value differs |
| Registers.SetBits32 | hpex49xled_led.c:337-342 | a bit below 32 is ORed into the first word, any other bit into the second word at position `bit % 32` |
| Registers.BankAgreement | hpex49xled_led.c:337-348 | setbits32 and setgplpllvl choose the same bank (first exactly for bits below 32) and the same bit position |
| Registers.GpRegTargetNibbles | hpex49xled_led.c:351-357 | for a two-nibble code, setgpregslvl addresses GP register = high nibble, bit = low nibble |
| Registers.BrightnessRising | hpex49xled_led.c:410 | the ten duty cycles rise strictly from 0x00 to 0xff |
| Registers.ClampLevel | hpex49xled_led.c:411 | the brightness index is always a valid table index; it equals the argument when that is in range, 0 below it and 9 above it |
| Registers.IoLedBlue | hpex49xled_led.c:417-422 | the blue line of slot index 0..3 is an HP blue line; it is in the first bank exactly for indices 0..2 |
| Registers.IoLedRed | hpex49xled_led.c:425-430 | the red line of slot index 0..3 is an HP red line; it is in the first bank exactly for indices 0..1 |
| Registers.SystemLedBits | hpex49xled_led.c:391-402 | for a selected colour the chassis line is low exactly when the state is LED_ON and blinks exactly when it is LED_BLINK; an unselected colour keeps both bits |
| Registers.Controller.constructor | hpex49x_led.h:60-68 | at process start gpiobase, sch5127_regs and out_system_* are zero and the ports hold the hardware contents |
| Registers.Controller.Out | hpex49xled_led.c:177 | outb/outl stores the value in the port and appends it to the write log; nothing else changes |
| Registers.Controller.DoBits | hpex49xled_led.c:360-366 | the port becomes the masked value, every other port is kept, and the log grows by a write only if the value changed |
| Registers.Controller.SetGplpllvl | hpex49xled_led.c:345-348 | drives the bit in GP_LVL (bit < 32) or GP_LVL2 (otherwise) to the state and leaves every other port alone |
| Registers.Controller.SetGpregslvl | hpex49xled_led.c:351-357 | drives bit `bit & 0xF` of SCH5127 GP register `(bit >> 4) & 0xF` to the state and leaves every other port alone |
| Registers.Controller.SetGpioSelInput | hpex49xled_led.c:369-387 | ORs the words into both use-select registers and clears them in both I/O-select registers, with four writes in source order |
| Registers.Controller.SetSystemLed | hpex49xled_led.c:391-402 | selected chassis lines go high unless the state is LED_ON; their blink bits are set exactly when the state is LED_BLINK; no other port changes; the log holds at most the two level writes and the blink write, each only when it changes its register |
| Registers.Controller.SystemLevels | hpex49xled_led.c:393-395 | the level half of setsystemled drives every selected chassis line to the requested level, logging a write only for a line whose level changes |
| Registers.Controller.DriveIfSelected | hpex49xled_led.c:394 | one guarded setgplpllvl: a selected line is driven, an unselected one is untouched, and at most one write is logged, only when GP_LVL changes |
| Registers.Controller.SystemBlink | hpex49xled_led.c:397-401 | the blink half of setsystemled sets or clears the selected chassis bits in GPO_BLINK, and does nothing when none is selected; at most one write, only when GPO_BLINK changes |
| Registers.Controller.ChassisLedsOff | hpex49xled-test.c:291-292 | setsystemled(LED_RED, LED_OFF) then setsystemled(LED_BLUE, LED_OFF) leave both chassis lines high and not blinking |
| Registers.Controller.SetBrightness | hpex49xled_led.c:406-414 | selects PWM3 duty cycle and writes the clamped table value; only the two HWM ports change |
| Registers.Controller.SetHpexLed | hpex49xled_led.c:435-448 | for blue, red or both, the one addressed GPIO line goes to `!state`; with no colour selected nothing changes; at most one write is logged, so the second colour's call never writes |
| Registers.Controller.SetAcerLed | hpex49xled_led.c:454-466 | for blue, red or both, the addressed SCH5127 GP bit goes to `state` (not inverted); at most one write is logged, so the second colour's call never writes |
| Chipset.ConfigAddresses | hpex49xled_led.c:84-86 | CONF_VENDOR_ID and CONF_GPIOBASE are registers 0x00 and 0x48 of bus 0, device 31, function 0 |
| Chipset.ConfigAddressFields | hpex49xled_led.c:84-86 | a configuration address is a 32-bit value with the enable bit set, and its bus, device, function and register fields read back |
| Chipset.GpioBaseAccepted | hpex49xled_led.c:108-115 | the GPIO base is accepted exactly for an I/O address below 64K with bits 6..1 clear; the stored base is 128-aligned and the last GPIO register fits in the I/O space |
| Chipset.SioIndexPort | hpex49xled_led.c:122-145 | the super-I/O index port is 0x4e exactly when register 0x26 reads 0x4e, and 0x2e otherwise |
| Chipset.RuntimeBaseRoundTrip | hpex49xled_led.c:163 | `msb * 256 + lsb` is a 16-bit address from which both bytes come back |
| Chipset.MismatchStopsEarly | hpex49xled_led.c:94-100 | on an identification mismatch only the identification address is written |
| Chipset.BadBaseStopsAfterBase | hpex49xled_led.c:101-114 | a rejected GPIO base stops initialisation right after the base register is selected |
| Chipset.SuccessEndsWithWatchdog | hpex49xled_led.c:168-178 | on success configuration mode is left on the port it was entered on, and the last four writes zero the watchdog registers |
| Chipset.InitSchWritesOnSuccess | hpex49xled_led.c:94-183 | on success the writes are the two configuration selections, the super-I/O handshake and the watchdog shutdown |
| Chipset.SioPortsUsed | hpex49xled_led.c:122-169 | the handshake only talks to 0x2e/0x4e and to the chosen index/data pair, and the data port is always index + 1 |
| Chipset.EnterSioConfig | hpex49xled_led.c:122-148 | enters configuration mode and returns the index port register 0x26 selects, with the writes of SioSelectWrites |
| Chipset.FetchRuntimeBase | hpex49xled_led.c:149-169 | selects logical device 0x0a, stores `msb * 256 + lsb` in sch5127_regs and leaves configuration mode |
| Chipset.ZeroWatchdog | hpex49xled_led.c:171-178 | writes zero to the four watchdog registers in table order; afterwards each of them reads zero |
| Chipset.WatchdogCleared | hpex49xled_led.c:176-178 | replaying the watchdog writes leaves each watchdog register zero |
| Chipset.FetchGpioBase | hpex49xled_led.c:101-115 | succeeds exactly when the reserved bits read 0x1; gpiobase is then the raw word with bit 0 cleared, otherwise the raw word |
| Chipset.SetUpRuntime | hpex49xled_led.c:120-178 | finds the runtime base through the super-I/O and zeroes the watchdog |
| Chipset.InitSch5127 | hpex49xled_led.c:73-184 | returns success exactly for a matching identification and an accepted GPIO base; then gpiobase and sch5127_regs are set and the watchdog is zero; the writes are InitSchWrites in every case |
| Chipset.SelectWordsContents | hpex49xled_led.c:337-342 | the first use-select word holds exactly the listed bits below 32; the second holds position k exactly when some listed bit of 32 or more is k modulo 32 |
| Chipset.SlotSelectWords | hpex49xled_led.c:207-210 | the slot loop enables the blue then red line of each of the four slots |
| Chipset.HpUseSelectWords | hpex49xled_led.c:207-216 | init_hpex49x_led builds the words of its eight drive lines and the USB and system lines, in source order |
| Chipset.FixedUseSelectWords | hpex49xled_led.c:248-252 | the Acer and Lenovo routines build the words of their five fixed lines |
| Chipset.UseSelectWords | hpex49xled_led.c:207-252 | every variant builds exactly SelectWords of its own line list |
| Chipset.HpUseSelectContents | hpex49xled_led.c:207-218 | the HP words are {4,5,7,13,21,22,27,28} and {6,7,25} |
| Chipset.HpFirstWord | hpex49xled_led.c:207-216 | the first HP word is {4,5,7,13,21,22,27,28} |
| Chipset.HpSecondWord | hpex49xled_led.c:207-216 | the second HP word is {6,7,25}: lines 38, 39 and 57 |
| Chipset.FixedUseSelectContents | hpex49xled_led.c:248-252 | the Acer/H340 words are {6,20,24,25,27} and {}; the H341 words are {6,10,18,24,27} and {} |
| Chipset.SwitchLinesPorts | hpex49xled_led.c:369-387 | after setgpioselinput each use-select register is its old word ORed with the variant's words, each I/O-select register is its old word with them cleared, every other port is unchanged, and the contents are what the four select writes replay to |
| Chipset.SwitchedLinesEnabled | hpex49xled_led.c:369-387 | whatever the ports held before, after the switch every use-select line of the variant is a GPIO output |
| Chipset.WatchdogKept | hpex49xled_led.c:171-178 | a watchdog register cleared by initsch5127 stays zero through setgpioselinput unless it is one of the four select registers |
| Chipset.EnableLines | hpex49xled_led.c:206-216 | appends exactly the four select writes to the log and leaves the port map as SwitchLines of the old one, so every use-select line of the variant is a GPIO output and no other port changes |
| Chipset.AssignBitsFrame | hpex49xled_led.c:221-224 | the closing loop changes only blue and red of the first hpdisks records, and running it again changes nothing |
| Chipset.SlotLinesDisjoint | hpex49xled_led.c:221-224 | after the loop records in different bays have different lines, and no blue line is any record's red line |
| Chipset.AssignSlotBits | hpex49xled_led.c:221-224 | succeeds exactly when the first hpdisks records name bays 1..4, and then gives each of them its bay's lines; otherwise it stops at the first bad record, which it names |
| Chipset.Identify | hpex49xled_led.c:196-203 | out_system_* are set to the variant's lines before initsch5127 runs with the variant's identification; the port map is the old one with the initsch5127 writes replayed; on success gpiobase and sch5127_regs are the probed bases and the watchdog reads zero; on an ID mismatch both bases are kept, and on a rejected base gpiobase is the raw word and sch5127_regs is kept |
| Chipset.SetUpLines | hpex49xled_led.c:196-216 | succeeds exactly for a recognised chipset; the ports are then PortsAfterInit: the initsch5127 writes, the four select writes, lines enabled, watchdog zero; on failure only the initsch5127 writes, sch5127_regs kept, and gpiobase kept on an ID mismatch or the raw word of a rejected base |
| Chipset.InitVariant | hpex49xled_led.c:187-230 | fails exactly when initsch5127 fails, leaving the table alone, the log as the initsch5127 writes, sch5127_regs kept and gpiobase kept or the raw word of a rejected base; otherwise the ports are PortsAfterInit (exact log and port map, lines enabled, watchdog zero) and the slot lines are assigned as AssignSlotBits says |
| Enumerate.Curdir | hpex49xled_run.c:118-122 | the basename is no longer than the path |
| Enumerate.CurdirSuffix | hpex49xled_run.c:118-122 | the basename is a suffix of the path |
| Enumerate.CurdirNoSlash | hpex49xled_run.c:118-122 | the basename holds no '/' |
| Enumerate.CurdirWhole | hpex49xled_run.c:118-122 | a path without '/' is its own basename |
| Enumerate.CurdirFollowsSlash | hpex49xled_run.c:118-122 | when the path holds a '/', the basename is what follows the last one |
| Enumerate.CurdirAfterSlash | hpex49xled_run.c:118-122 | `a + "/" + b` with b free of '/' has basename b |
| Enumerate.CurdirIdempotent | hpex49xled_run.c:118-122 | the basename of a basename is itself |
| Enumerate.Classify | hpex49xled_run.c:295-381 | a device has a bay exactly when path_id is 1..4 and target_id is 0, and the bay is path_id |
| Enumerate.DecimalString | hpex49xled_run.c:273 | `%d` of a unit number is a non-empty string of digits |
| Enumerate.StorePath | hpex49xled_run.c:297 | strlcpy into the 12-byte path keeps a prefix of at most 11 characters, and the whole name when it fits |
| Enumerate.Record | hpex49xled_run.c:296-306 | the record disk_init builds for a disk: its bay, its devstat index, the current byte totals as the baseline, no LED lines yet, and the truncated device path |
| Enumerate.ScanDevices | hpex49xled_run.c:236-385 | the table keeps four entries, the count never exceeds the list, and a failure names an entry of the list |
| Enumerate.ScanFailsIff | hpex49xled_run.c:295-385 | the scan fails exactly when a shown entry has an unknown bay or an index above 3; the failure names the first such entry and says which |
| Enumerate.ScanCount | hpex49xled_run.c:236-395 | a successful scan counts exactly the shown entries |
| Enumerate.ScanRecords | hpex49xled_run.c:295-310 | every shown entry's record sits at hpex49x[devstat index] unless a later shown entry reuses that index |
| Enumerate.ScanKeepsUnnamed | hpex49xled_run.c:236-395 | an index that no shown entry names keeps its old record: the table is never cleared |
| Enumerate.AtMostFourDisks | hpex49xled_run.c:383-384 | with one entry per device, a successful scan counts at most four disks |
| Enumerate.ScanDevicesPacked | hpex49xled_run.c:306-384 | the corrected scan: each accepted record goes to the next free entry; the table keeps four entries and at most four disks are counted |
| Enumerate.StaleFirstEntry | hpex49xled_run.c:306 | one disk in bay 1 at devstat index 2 is stored at hpex49x[2], while hpex49x[0] keeps a zero record with bay 0 |
| Monitor.Activity | hpex49xled_run.c:476-530 | the decision a pass makes after sampling: at most two LED calls, led_state ends 0 or 1, and the pass is silent exactly when neither total changed and the previous pass was idle |
| Monitor.ActivitySyncsBaseline | hpex49xled_run.c:478-531 | after a pass the baseline equals the sample, and nothing else in the record changes |
| Monitor.ActivityCalls | hpex49xled_run.c:478-531 | changed reads light blue and red; changed writes alone light blue and clear red through set_hpex_led; an idle pass clears both only if the last pass lit them; led_state records activity |
| Monitor.AcerWriteOnlyUsesHpex | hpex49xled_run.c:641-655 | the Acer thread's write-only branch calls set_hpex_led, while its read branches call set_acer_led |
| Monitor.IdleTwiceSilent | hpex49xled_run.c:656-667 | of two idle passes in a row, the second makes no LED call |
| Monitor.ActivityOwnLines | hpex49xled_run.c:478-531 | every call a pass makes drives the slot's own blue or red line |
| Monitor.HpCallsOnly | hpex49xled_run.c:478-531 | hpex49x_thread_run only calls set_hpex_led |
| Monitor.Iteration | hpex49xled_run.c:408-445 | one loop pass with its stop checks and devstat poll: err() exactly when a running thread with a usable snapshot gets a failed poll, and every exit leaves thread_run low |
| Monitor.IterationFlags | hpex49xled_run.c:408-445 | a pass continues exactly when thread_run is set, the snapshot is usable and devstat gives a sample; a change report stops the thread and raises dev_change; a failure is fatal |
| Monitor.FatalIsFinal | hpex49xled_run.c:433-440 | after err() in one pass the run is over, whatever the later events |
| Monitor.Advance | hpex49xled_run.c:682-700 | one interleaving step of run_mediasmart's threads: the chosen live thread makes a pass; the number of copies and liveness flags is kept, and after err() nothing revives |
| Monitor.Schedule | hpex49xled_run.c:682-700 | run_mediasmart's threads over an event list, pass by pass; while supervision goes on there is one copy and one liveness flag per thread |
| Monitor.ScheduleInvariants | hpex49xled_run.c:408-531 | over any interleaving no thread raises thread_run or touches openkvm or the snapshot, dev_change rises only on a change report, the LED lines of the copies are kept, and every call drives a monitored slot's line |
| Monitor.StoppedThreadsAreSilent | hpex49xled_run.c:408 | once thread_run is down, no pass makes an LED call or changes a flag |
| Daemon.Drive | hpex49xled_led.c:443-444 | one set_hpex_led call on the level words: with a colour selected, the line is lit (low) exactly when state is ON, in the bank setgplpllvl (hpex49xled_led.c:345-348) picks; no other bit and not the other bank changes; with no colour selected nothing changes |
| Daemon.Levels | hpex49xled_led.c:435-448 | a sequence of set_hpex_led calls in order: a bit position no call addresses keeps its level in both words |
| Daemon.PassDrivesLines | hpex49xled_run.c:478-531 | reads leave both slot lines low (lit); writes alone leave red high and a distinct blue line low; an idle pass after activity leaves both high; a second idle pass changes nothing |
| Daemon.Daemon.constructor | hpex49xled_run.c:81-91 | at start the table holds zero records, hpdisks and the flags are zero, and openkvm is 1 |
| Daemon.Daemon.DiskInit | hpex49xled_run.c:162-396 | opens the statistics, and fails exactly when ScanDevices fails; on success the table and count are those of ScanDevices, and the count is at most four |
| Daemon.Daemon.SwappedOffLoop | hpex49xled_run.c:701-706 | the swapped off loop only clears GPIO bit 0 of GP_LVL; no drive line is touched |
| Daemon.Daemon.ApplyCalls | hpex49xled_run.c:486-525 | the set_hpex_led calls of a pass change the level words as Levels says and touch no other port |
| Daemon.Daemon.OnePass | hpex49xled_run.c:408-531 | one thread pass does what Advance says to the flags, the copies and the level words |
| Daemon.Daemon.RunEvents | hpex49xled_run.c:682-700 | the threads' passes give the flags, the liveness and the level words that Schedule specifies, and stop at the first err() |
| Daemon.Daemon.WatchThreads | hpex49xled_run.c:682-700 | run_mediasmart's threads run as Schedule says over copies of hpex49x[0..hpdisks-1]; it gets past the joins only when every thread has exited |
| Daemon.Daemon.RunMediasmart | hpex49xled_run.c:674-715 | chassis LEDs off, threads as Schedule says, then the swapped loop and thread_run lowered, returning dev_change |
| Daemon.Daemon.FinishRun | hpex49xled_run.c:701-713 | the swapped loop, then thread_run is lowered; the other flags are kept |
| Daemon.Daemon.Startup | hpex49xled_run.c:770-804 | continues exactly when the scan succeeds with at least one disk on a recognised chipset with valid bays; then the table has its LED lines and thread_run is raised; whenever the init routine ran the ports are PortsAfterInit (lines enabled, watchdog zero), and otherwise nothing was written |
| Daemon.Daemon.MainIteration | hpex49xled_run.c:806-840 | with thread_run clear the turn does nothing; otherwise it runs run_mediasmart: while threads run, and after they return without a device change, GP_LVL/GP_LVL2 are the levels the schedule's LED calls drive (bit 0 cleared by the closing loop), blinking of the chassis lines is off and no other port changes; on a device change it scans and initialises again: on a recognised chipset the lines are enabled and the watchdog is zero, and on any other the threads go on with sch5127_regs kept and gpiobase kept or set to the raw word of a rejected base |
| Daemon.Daemon.Reinitialise | hpex49xled_run.c:823-828 | exits exactly when the new scan fails or finds no disk; the init result is ignored; otherwise dev_change is cleared and thread_run raised; after a successful scan the ports and bases are PortsAfterInit, so a failed init leaves gpiobase as the raw word of a rejected base that the restarted threads then drive; after a failed scan nothing was written |
| Daemon.Daemon.SigtermHandler | hpex49xled_run.c:846-891 | thread_run is lowered, the chassis LEDs go off and stop blinking, and GPIO bit 0 is cleared by the swapped loop |
| Daemon.PackedScanInRange | hpex49xled_led.c:221-223 | with the corrected scan every entry the init loop reads names a bay 1..4, so the init routine always finishes |
| Daemon.StaleEntryUndefined | hpex49xled_led.c:221-223 | one disk in bay 1 at devstat index 2 makes the init loop read hpex49x[0], whose bay 0 cannot index the line tables |
| SelfTest.InitHpex49x | hpex49xled-test.c:117-169 | returns 1 exactly for a recognised chipset; the ports are then PortsAfterInit for the HP lines (exact log and port map, watchdog zero), so the eight first-bank and three second-bank HP lines are GPIO outputs; on failure only the initsch5127 writes happened |
| SelfTest.HpLinesEnabled | hpex49xled-test.c:143-153 | with the HP lines enabled, {4,5,7,13,21,22,27,28} and {6,7,25} are GPIO outputs |
| SelfTest.LedsOff | hpex49xled-test.c:291-294 | both chassis lines and the bay-1 blue and red lines end high, and the chassis LEDs do not blink |
| SelfTest.TestMain | hpex49xled-test.c:281-298 | exit status 0 exactly for a recognised chipset, and then the chassis and bay-1 LEDs are dark |

## Left out

- Threads and spin locks. Each locked section and each loop pass is one atomic
  step. The threads are interleaved pass by pass by an explicit event list, not
  at instruction level. The EDEADLK branch and the `pthread_spin_*` failure
  paths are not modelled.
- devstat, kvm and CAM. What they report is given as input: a `Device` list for
  `disk_init`, a `Poll` per thread pass, and the result of `kvm_close`.
  `devstat_compute_statistics` failures and the allocation failures of
  `disk_init` are not modelled. Nor are the error exits of disk_init's devstat
  setup (`devstat_buildmatch`, `devstat_checkversion`, `devstat_getnumdevs`,
  `devstat_getdevs`, `devstat_selectdevs`; hpex49xled_run.c:173-234):
  the model starts from a successful setup.
- pthread_create, pthread_join and pthread_cancel failures
  (hpex49xled_run.c:683-684, 695-699 and 853-858) are not modelled: thread
  creation always succeeds, joins wait for the thread, and sigterm_handler's
  err(1) after a failed pthread_cancel, which would skip its off loops, never
  happens.
- Daemon.Daemon.DiskInit: requires that devstat lists each device once
  (distinct `position` values among the shown entries). Without that
  assumption the source can count more than four disks.
- Enumerate.ScanDevices: a shown entry with devstat index above 3 is stored at
  `hpex49x[di]` before the `di > 3` check, which writes out of bounds. The
  model ends the scan with the error exit that follows and does not model the
  stray write.
- Chipset.InitVariant: when the closing loop reads a record whose bay is not
  1..4, the C code indexes `IO_LEDS_BLUE` out of bounds. The model stops and
  reports `SlotOutOfRange`; Daemon reports this as `Undefined`.
- Registers.SetBits32: for bit ≥ 32, `1 << bit` on an `int` is undefined
  in C. The model uses `1 << (bit % 32)`, the second-bank position that
  setgplpllvl later drives.
- Registers.ClampLevel: `fmax`/`fmin` on doubles is modelled as an integer
  clamp.
- `HP` is the constant 1, so the daemon only spawns `hpex49x_thread_run` and
  the `set_acer_led` branches of the off loops are dead code. Those branches
  are not modelled. `acer_thread_run` is modelled in Monitor, but it is never
  started.
- Daemon.Daemon.WatchThreads: a run whose event list ends while threads are
  still in their loop is reported as `StillRunning`. MainIteration reports it
  as `Blocked`, because run_mediasmart's `pthread_join` would wait on.
- Monitor.Iteration: `nanosleep` and the BLINK_DELAY timing are not modelled.
  An idle pass is one step.
- Command-line parsing, `geteuid`, `daemon()`, `drop_priviledges`,
  `show_help`/`show_version`, `printf`, `syslog`, opening `/dev/io`, and the
  process exit are not modelled. err() and errx() are modelled as process
  exit (`Exit`, `Fatal`, `ProcessExit`).
- The self-test carries its own copy of the register layer
  (`hpex49xled-test.c:5-265`). That copy writes what `Registers` and
  `Chipset.InitSch5127` describe, so it is modelled by those members. The
  exception is set_hpex_led, whose lock calls are commented out in the
  self-test.
- Hardware contents are only read through the `Probe` fields. The model does
  not check that initialisation reads back what it wrote.
- camtest.c is not part of this model.

## Findings

| source | as written | input that shows it | evidently intended | confidence | as-written member | corrected member |
|---|---|---|---|---|---|---|
| hpex49xled_run.c:306 | `disk_init` stores each record at `hpex49x[di]`, the devstat index, but the init loops read `hpex49x[0..hpdisks-1]` | one disk in bay 1 that devstat lists at index 2: hpdisks is 1, the record lands in `hpex49x[2]`, and the init loop reads the zero record in `hpex49x[0]` and indexes `IO_LEDS_BLUE[-1]` | store each record at the next free entry `hpex49x[disks]` and reject a fifth disk | not executed | Daemon.StaleEntryUndefined | Daemon.PackedScanInRange |

The daemon model keeps the scan as written (`Enumerate.ScanDevices`), so it
reports this input as `Undefined`. `Enumerate.ScanDevicesPacked` is the
corrected scan, and `Daemon.PackedScanInRange` proves that its table always
satisfies the precondition of the init loop.
