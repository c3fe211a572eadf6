/**
 * The monitor threads of hpex49xled_run.c (hpex49x_thread_run and acer_thread_run)
 * as pure step functions: one pass of the thread loop takes the shared flags, the
 * thread's private copy of its slot record with led_state, and what devstat
 * reported, and yields the new flags and copy and the LED calls the pass makes.
 *
 * The spin locks are not modelled: a pass is one atomic step, and several threads
 * are interleaved pass by pass by an explicit schedule of events.
 */
module Monitor {
  import opened Common
  import opened HpLed

  /** Which thread body runs the slot. */
  datatype ThreadKind = HpThread | AcerThread

  /** One call of set_hpex_led or set_acer_led: colour, bstate and LED code. */
  datatype LedCall =
    | HpexCall(ledType: bv32, state: int, led: nat)
    | AcerCall(ledType: bv32, state: int, led: nat)

  /** A thread's private `mediasmart` copy of its record and its led_state. */
  datatype Task = Task(rec: Led, ledState: int)

  /** The LED call a thread body makes for a colour: set_hpex_led in
      hpex49x_thread_run, set_acer_led in acer_thread_run. */
  function Call(k: ThreadKind, ledType: bv32, state: int, led: nat): LedCall {
    if k == HpThread then HpexCall(ledType, state, led) else AcerCall(ledType, state, led)
  }

  /** The part of a pass after sampling: compare the new totals with the baseline,
      light the slot's LEDs on activity, and turn them off after the first idle pass. */
  function Activity(k: ThreadKind, t: Task, nRead: u64, nWrite: u64): (r: (Task, seq<LedCall>))
    ensures |r.1| <= 2 && (r.0.ledState == 0 || r.0.ledState == 1)
    ensures r.1 == [] <==> t.rec.bRead == nRead && t.rec.bWrite == nWrite && t.ledState == 0
  {
    var m := t.rec.(nRead := nRead, nWrite := nWrite);
    if m.bRead != m.nRead && m.bWrite != m.nWrite then
      (Task(m.(bRead := m.nRead, bWrite := m.nWrite), 1),
       [Call(k, LED_BLUE, ON, m.blue), Call(k, LED_RED, ON, m.red)])
    else if m.bRead != m.nRead then
      (Task(m.(bRead := m.nRead), 1),
       [Call(k, LED_BLUE, ON, m.blue), Call(k, LED_RED, ON, m.red)])
    else if m.bWrite != m.nWrite then
      // both thread bodies use set_hpex_led here
      (Task(m.(bWrite := m.nWrite), 1),
       [HpexCall(LED_BLUE, ON, m.blue), HpexCall(LED_RED, OFF, m.red)])
    else if t.ledState != 0 then
      (Task(m, 0), [Call(k, LED_BLUE, OFF, m.blue), Call(k, LED_RED, OFF, m.red)])
    else
      (Task(m, 0), [])
  }

  /** After a pass the baseline equals the sample; nothing else in the record changes. */
  lemma ActivitySyncsBaseline(k: ThreadKind, t: Task, nRead: u64, nWrite: u64)
    ensures Activity(k, t, nRead, nWrite).0.rec
         == t.rec.(bRead := nRead, bWrite := nWrite, nRead := nRead, nWrite := nWrite)
  {
  }

  /** Which LED calls a pass makes:
      - a changed read total lights blue and red (whether or not writes changed);
      - a changed write total alone lights blue and turns red off, through set_hpex_led
        in either thread body;
      - with no change, blue and red are turned off only if the last pass lit them;
      and led_state records whether this pass saw activity. */
  lemma ActivityCalls(k: ThreadKind, t: Task, nRead: u64, nWrite: u64)
    ensures var (t', calls) := Activity(k, t, nRead, nWrite);
            var r := t.rec;
            (t'.ledState == 1 <==> r.bRead != nRead || r.bWrite != nWrite) &&
            (t'.ledState == 0 <==> r.bRead == nRead && r.bWrite == nWrite) &&
            (r.bRead != nRead ==>
               calls == [Call(k, LED_BLUE, ON, r.blue), Call(k, LED_RED, ON, r.red)]) &&
            (r.bRead == nRead && r.bWrite != nWrite ==>
               calls == [HpexCall(LED_BLUE, ON, r.blue), HpexCall(LED_RED, OFF, r.red)]) &&
            (r.bRead == nRead && r.bWrite == nWrite ==>
               calls == if t.ledState != 0
                        then [Call(k, LED_BLUE, OFF, r.blue), Call(k, LED_RED, OFF, r.red)]
                        else [])
  {
  }

  /** The acer thread's write-only branch calls set_hpex_led, unlike its other branches. */
  lemma AcerWriteOnlyUsesHpex(t: Task, nRead: u64, nWrite: u64)
    requires t.rec.bRead == nRead && t.rec.bWrite != nWrite
    ensures forall c :: c in Activity(AcerThread, t, nRead, nWrite).1 ==> c.HpexCall?
    ensures forall nRead', nWrite' :: t.rec.bRead != nRead' ==>
              forall c :: c in Activity(AcerThread, t, nRead', nWrite').1 ==> c.AcerCall?
  {
  }

  /** Two idle passes in a row: the second makes no LED call. */
  lemma IdleTwiceSilent(k: ThreadKind, t: Task)
    ensures var (t1, calls1) := Activity(k, t, t.rec.bRead, t.rec.bWrite);
            var (t2, calls2) := Activity(k, t1, t.rec.bRead, t.rec.bWrite);
            t1.ledState == 0 && calls2 == []
  {
  }

  /** Every call a pass makes drives one of the slot's own lines: blue calls its blue
      code and red calls its red code. */
  predicate OwnLines(calls: seq<LedCall>, blue: nat, red: nat) {
    forall c :: c in calls ==>
      (c.ledType == LED_BLUE && c.led == blue) || (c.ledType == LED_RED && c.led == red)
  }

  lemma ActivityOwnLines(k: ThreadKind, t: Task, nRead: u64, nWrite: u64)
    ensures OwnLines(Activity(k, t, nRead, nWrite).1, t.rec.blue, t.rec.red)
  {
  }

  /** The shared flags a thread reads and writes: thread_run, dev_change, openkvm and
      whether cur.dinfo is non-NULL. */
  datatype Globals = Globals(threadRun: bool, devChange: bool, openKvm: int, haveSnapshot: bool)

  /** What devstat_getdevs reports at the start of a pass: 1, -1, or success with the
      slot's new byte totals. */
  datatype Poll = DevicesChanged | PollFailed | Sample(nRead: u64, nWrite: u64)

  /** The end of a pass: the loop goes on, the thread exits, or err() ends the process. */
  datatype Pass = Continued(g: Globals, t: Task, calls: seq<LedCall>) | Exited(g: Globals) | Fatal

  /** One pass of the thread loop. */
  function Iteration(k: ThreadKind, g: Globals, t: Task, poll: Poll): (r: Pass)
    ensures r.Fatal? <==> g.threadRun && g.openKvm > 0 && g.haveSnapshot && poll.PollFailed?
    ensures r.Exited? ==> !r.g.threadRun
  {
    if !g.threadRun then Exited(g)
    else if g.openKvm <= 0 || !g.haveSnapshot then Exited(g.(threadRun := false))
    else
      match poll
      case DevicesChanged => Exited(g.(threadRun := false, devChange := true))
      case PollFailed => Fatal
      case Sample(r, w) =>
        var (t', calls) := Activity(k, t, r, w);
        Continued(g, t', calls)
  }

  /** How a pass ends, in terms of the flags: it goes on exactly when thread_run is set,
      the snapshot is usable and devstat reports a sample, and then leaves the flags
      alone; a change report stops the thread and raises dev_change; a stop for any
      other reason lowers thread_run and keeps dev_change. */
  lemma IterationFlags(k: ThreadKind, g: Globals, t: Task, poll: Poll)
    ensures var p := Iteration(k, g, t, poll);
            (p.Continued? <==> g.threadRun && g.openKvm > 0 && g.haveSnapshot && poll.Sample?) &&
            (p.Fatal? <==> g.threadRun && g.openKvm > 0 && g.haveSnapshot && poll.PollFailed?) &&
            (p.Continued? ==> p.g == g && p.t.rec.blue == t.rec.blue && p.t.rec.red == t.rec.red) &&
            (p.Exited? ==> !p.g.threadRun && p.g.openKvm == g.openKvm &&
                           p.g.haveSnapshot == g.haveSnapshot &&
                           (p.g.devChange <==> g.devChange || (g.threadRun && g.openKvm > 0 &&
                                                                g.haveSnapshot && poll.DevicesChanged?)))
  {
  }

  /** An interleaving step: task `task` makes one pass with devstat reporting `poll`. */
  datatype Event = Event(task: nat, poll: Poll)

  /** The state of a set of monitor threads: flags, private copies, which threads are
      still in their loop, and every LED call made so far, in order. */
  datatype Supervision =
    | Supervising(g: Globals, tasks: seq<Task>, live: seq<bool>, calls: seq<LedCall>)
    | SupervisionFatal

  /** One interleaving step: the event's thread makes a pass, unless it has exited or
      does not exist, in which case nothing changes. */
  function Advance(k: ThreadKind, s: Supervision, e: Event): (s': Supervision)
    requires s.Supervising? ==> |s.tasks| == |s.live|
    ensures s'.Supervising? ==> s.Supervising? && |s'.tasks| == |s.tasks| && |s'.live| == |s.tasks|
  {
    match s
    case SupervisionFatal => SupervisionFatal
    case Supervising(g, ts, lv, calls) =>
      if e.task >= |ts| || !lv[e.task] then s
      else
        match Iteration(k, g, ts[e.task], e.poll)
        case Fatal => SupervisionFatal
        case Exited(g') => Supervising(g', ts, lv[e.task := false], calls)
        case Continued(g', t', cs) => Supervising(g', ts[e.task := t'], lv, calls + cs)
  }

  /** Threads of kind `k` running the events in order. */
  function Schedule(k: ThreadKind, g: Globals, tasks: seq<Task>, live: seq<bool>, events: seq<Event>): (s: Supervision)
    requires |tasks| == |live|
    ensures s.Supervising? ==> |s.tasks| == |tasks| && |s.live| == |tasks|
    decreases |events|
  {
    if events == [] then Supervising(g, tasks, live, [])
    else Advance(k, Schedule(k, g, tasks, live, events[..|events| - 1]), events[|events| - 1])
  }

  /** err() in one pass ends the process: whatever the later events, the run is over. */
  lemma {:induction false} FatalIsFinal(k: ThreadKind, g: Globals, tasks: seq<Task>, live: seq<bool>, events: seq<Event>, n: nat)
    requires |tasks| == |live| && n <= |events|
    requires Schedule(k, g, tasks, live, events[..n]).SupervisionFatal?
    ensures Schedule(k, g, tasks, live, events).SupervisionFatal?
    decreases |events| - n
  {
    if n == |events| {
      assert events[..n] == events;
    } else {
      var init := events[..|events| - 1];
      assert init[..n] == events[..n];
      FatalIsFinal(k, g, tasks, live, init, n);
    }
  }

  /** hpex49x_thread_run only ever calls set_hpex_led. */
  lemma HpCallsOnly(t: Task, nRead: u64, nWrite: u64)
    ensures forall c :: c in Activity(HpThread, t, nRead, nWrite).1 ==> c.HpexCall?
  {
  }

  /** A call drives the blue or red line of one of the threads' records. */
  predicate OnSomeLine(c: LedCall, tasks: seq<Task>) {
    exists i :: 0 <= i < |tasks| &&
      ((c.ledType == LED_BLUE && c.led == tasks[i].rec.blue) ||
       (c.ledType == LED_RED && c.led == tasks[i].rec.red))
  }

  predicate AllOwnLines(calls: seq<LedCall>, tasks: seq<Task>) {
    forall c :: c in calls ==> OnSomeLine(c, tasks)
  }

  /** Across any interleaving: no thread raises thread_run, none touches openkvm or the
      snapshot, dev_change is raised only by a change report, the threads keep their
      LED codes, and every call drives a line of one of the monitored slots. */
  lemma {:induction false} ScheduleInvariants(k: ThreadKind, g: Globals, tasks: seq<Task>, live: seq<bool>, events: seq<Event>)
    requires |tasks| == |live|
    ensures var s := Schedule(k, g, tasks, live, events);
            s.Supervising? ==>
              (s.g.threadRun ==> g.threadRun) &&
              s.g.openKvm == g.openKvm && s.g.haveSnapshot == g.haveSnapshot &&
              (s.g.devChange ==> g.devChange || exists j :: 0 <= j < |events| && events[j].poll.DevicesChanged?) &&
              (forall i :: 0 <= i < |tasks| ==>
                 s.tasks[i].rec.blue == tasks[i].rec.blue && s.tasks[i].rec.red == tasks[i].rec.red) &&
              AllOwnLines(s.calls, tasks)
    decreases |events|
  {
    if events != [] {
      var init := events[..|events| - 1];
      ScheduleInvariants(k, g, tasks, live, init);
      var s0 := Schedule(k, g, tasks, live, init);
      if s0.Supervising? {
        var e := events[|events| - 1];
        if e.task < |s0.tasks| && s0.live[e.task] {
          var t := s0.tasks[e.task];
          IterationFlags(k, s0.g, t, e.poll);
          match Iteration(k, s0.g, t, e.poll)
          case Fatal =>
          case Exited(g'') =>
            if g''.devChange && !s0.g.devChange {
              assert events[|events| - 1].poll.DevicesChanged?;
            }
            if s0.g.devChange && !g.devChange {
              var j :| 0 <= j < |init| && init[j].poll.DevicesChanged?;
              assert events[j] == init[j];
            }
          case Continued(g'', t', cs) =>
            ActivityOwnLines(k, t, e.poll.nRead, e.poll.nWrite);
            var s := Schedule(k, g, tasks, live, events);
            forall c | c in s.calls
              ensures OnSomeLine(c, tasks)
            {
              if c !in s0.calls {
                assert c in cs;
                assert tasks[e.task].rec.blue == t.rec.blue && tasks[e.task].rec.red == t.rec.red;
              }
            }
            if s0.g.devChange && !g.devChange {
              var j :| 0 <= j < |init| && init[j].poll.DevicesChanged?;
              assert events[j] == init[j];
            }
        } else {
          if s0.g.devChange && !g.devChange {
            var j :| 0 <= j < |init| && init[j].poll.DevicesChanged?;
            assert events[j] == init[j];
          }
        }
      }
    }
  }

  /** Once thread_run is down, every remaining pass only exits: no LED call is made and
      the flags stay as they are. */
  lemma {:induction false} StoppedThreadsAreSilent(k: ThreadKind, g: Globals, tasks: seq<Task>, live: seq<bool>, events: seq<Event>)
    requires |tasks| == |live| && !g.threadRun
    ensures var s := Schedule(k, g, tasks, live, events);
            s.Supervising? && s.g == g && s.calls == [] && s.tasks == tasks
    decreases |events|
  {
    if events != [] {
      StoppedThreadsAreSilent(k, g, tasks, live, events[..|events| - 1]);
    }
  }
}
