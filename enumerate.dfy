/**
 * The enumeration side of hpex49xled_run.c: curdir, the devstat device list as
 * disk_init sees it, the (path_id, target_id) -> bay classification, and the
 * slot records disk_init stores in hpex49x[].
 *
 * devstat and CAM are not modelled: what they report about each device is a
 * Device value, and disk_init's pass over the selection list is the fold
 * ScanDevices, which the daemon's loop is proved against.
 */
module Enumerate {
  import opened Common
  import opened HpLed

  /** curdir: the text after the last '/', or the whole string when there is none. */
  function Curdir(s: string): (r: string)
    ensures |r| <= |s|
    decreases |s|
  {
    if s == [] then []
    else if s[|s| - 1] == '/' then []
    else Curdir(s[..|s| - 1]) + [s[|s| - 1]]
  }

  /** The result is a suffix of the input. */
  lemma {:induction false} CurdirSuffix(s: string)
    ensures Curdir(s) == s[|s| - |Curdir(s)|..]
    decreases |s|
  {
    if s != [] && s[|s| - 1] != '/' {
      var r := Curdir(s[..|s| - 1]);
      CurdirSuffix(s[..|s| - 1]);
      assert s[|s| - |r| - 1..] == s[..|s| - 1][|s| - 1 - |r|..] + [s[|s| - 1]];
    }
  }

  predicate NoSlash(s: string) {
    forall i :: 0 <= i < |s| ==> s[i] != '/'
  }

  /** The result holds no '/'. */
  lemma {:induction false} CurdirNoSlash(s: string)
    ensures NoSlash(Curdir(s))
    decreases |s|
  {
    if s != [] && s[|s| - 1] != '/' {
      var r' := Curdir(s[..|s| - 1]);
      CurdirNoSlash(s[..|s| - 1]);
      NoSlashAppend(r', s[|s| - 1]);
      assert Curdir(s) == r' + [s[|s| - 1]];
    }
  }

  lemma NoSlashAppend(r: string, c: char)
    requires NoSlash(r) && c != '/'
    ensures NoSlash(r + [c])
  {
    forall i | 0 <= i < |r| + 1 ensures (r + [c])[i] != '/' {
      if i < |r| {
        assert (r + [c])[i] == r[i];
      }
    }
  }

  /** A string without '/' is its own basename. */
  lemma {:induction false} CurdirWhole(s: string)
    requires NoSlash(s)
    ensures Curdir(s) == s
    decreases |s|
  {
    if s != [] {
      var s' := s[..|s| - 1];
      assert NoSlash(s') by {
        forall i | 0 <= i < |s'| ensures s'[i] != '/' {
          assert s'[i] == s[i];
        }
      }
      CurdirWhole(s');
      assert s == s' + [s[|s| - 1]];
    }
  }

  /** When the input holds a '/', the result is shorter and follows a '/'. */
  lemma {:induction false} CurdirFollowsSlash(s: string)
    requires !NoSlash(s)
    ensures |Curdir(s)| < |s| && s[|s| - |Curdir(s)| - 1] == '/'
    decreases |s|
  {
    if s[|s| - 1] != '/' {
      var s' := s[..|s| - 1];
      assert !NoSlash(s') by {
        var i :| 0 <= i < |s| && s[i] == '/';
        assert i < |s'| && s'[i] == '/';
      }
      CurdirFollowsSlash(s');
      var r' := Curdir(s');
      assert |Curdir(s)| == |r'| + 1;
      assert s[|s| - |Curdir(s)| - 1] == s'[|s'| - |r'| - 1];
    }
  }

  /** Whatever precedes the last '/' does not matter. */
  lemma {:induction false} CurdirAfterSlash(a: string, b: string)
    requires NoSlash(b)
    ensures Curdir(a + ['/'] + b) == b
    decreases |b|
  {
    var s := a + ['/'] + b;
    if b == [] {
      assert s[|s| - 1] == '/';
    } else {
      var b' := b[..|b| - 1];
      assert s[..|s| - 1] == a + ['/'] + b';
      assert NoSlash(b') by {
        forall i | 0 <= i < |b'| ensures b'[i] != '/' {
          assert b'[i] == b[i];
        }
      }
      CurdirAfterSlash(a, b');
      assert b == b' + [b[|b| - 1]];
    }
  }

  /** curdir of its own result changes nothing. */
  lemma CurdirIdempotent(s: string)
    ensures Curdir(Curdir(s)) == Curdir(s)
  {
    CurdirNoSlash(s);
    CurdirWhole(Curdir(s));
  }

  /** What devstat and CAM report about one entry of the selection list. */
  datatype Device = Device(
    selected: nat,          // dev_select[dn].selected
    position: nat,          // dev_select[dn].position, the devstat index di
    name: string, unit: nat,
    pathId: nat, targetId: nat,
    bytesRead: u64, bytesWrite: u64)

  /** maxshowdevs, as disk_init sets it. */
  const MAX_SHOW_DEVS: nat := 4

  /** disk_init skips an entry that is not selected or ranked past maxshowdevs. */
  predicate Shown(d: Device) {
    0 < d.selected <= MAX_SHOW_DEVS
  }

  /** The bay of a device: path_id k in 1..4 with target_id 0 is bay k, anything else
      is unknown (fatal in disk_init). */
  function Classify(pathId: nat, targetId: nat): (slot: Option<int>)
    ensures slot.Some? <==> 1 <= pathId <= 4 && targetId == 0
    ensures slot.Some? ==> slot.value == pathId
  {
    if pathId == 1 && targetId == 0 then Some(1)
    else if pathId == 2 && targetId == 0 then Some(2)
    else if pathId == 3 && targetId == 0 then Some(3)
    else if pathId == 4 && targetId == 0 then Some(4)
    else None
  }

  function DigitChar(d: nat): char
    requires d < 10
  {
    (48 + d) as char
  }

  predicate IsDigits(s: string) {
    forall i :: 0 <= i < |s| ==> '0' <= s[i] <= '9'
  }

  /** `%d` of a non-negative number. */
  function DecimalString(n: nat): (s: string)
    ensures |s| >= 1 && IsDigits(s)
    decreases n
  {
    if n < 10 then [DigitChar(n)] else DecimalString(n / 10) + [DigitChar(n % 10)]
  }

  /** The device node name disk_init prints with `/dev/%s%d`. */
  function DevicePath(d: Device): string {
    "/dev/" + d.name + DecimalString(d.unit)
  }

  /** strlcpy into the 12-byte path field: at most eleven characters, a prefix of the
      source, and the whole source when it fits. */
  function StorePath(s: string): (r: string)
    ensures |r| <= PATH_SIZE - 1 && r <= s
    ensures |s| < PATH_SIZE ==> r == s
  {
    if |s| < PATH_SIZE then s else s[..PATH_SIZE - 1]
  }

  /** The record one of the static ide0..ide3 holds after disk_init fills it for device
      `d` at devstat index `d.position` in bay `slot`. Those statics never receive LED
      bits, so a stored record has blue and red zero. */
  function Record(d: Device, slot: int): (r: Led)
    ensures r.hdd == slot && r.devIndex == d.position && r.blue == 0 && r.red == 0
    ensures r.bRead == d.bytesRead && r.bWrite == d.bytesWrite
    ensures |r.path| < PATH_SIZE && r.path <= DevicePath(d)
  {
    Led(d.bytesRead, d.bytesWrite, 0, 0, d.targetId, d.pathId, 0, 0, d.position, slot,
        StorePath(DevicePath(d)))
  }

  datatype ScanFailure = UnknownDevice | IllegalIndex

  /** The outcome of disk_init's pass: the new hpex49x[] and the disk count, or the
      error exit and the list entry that caused it. */
  datatype Scan = Scanned(table: seq<Led>, disks: nat) | ScanFailed(failure: ScanFailure, at: nat)

  /** disk_init's loop over the first |devs| entries, starting from the table `table`. */
  function ScanDevices(devs: seq<Device>, table: seq<Led>): (r: Scan)
    requires |table| == MAX_HDD_LEDS
    ensures r.Scanned? ==> |r.table| == MAX_HDD_LEDS && r.disks <= |devs|
    ensures r.ScanFailed? ==> r.at < |devs|
    decreases |devs|
  {
    if devs == [] then Scanned(table, 0)
    else
      match ScanDevices(devs[..|devs| - 1], table)
      case ScanFailed(f, at) => ScanFailed(f, at)
      case Scanned(t, n) =>
        var d := devs[|devs| - 1];
        if !Shown(d) then Scanned(t, n)
        else
          match Classify(d.pathId, d.targetId)
          case None => ScanFailed(UnknownDevice, |devs| - 1)
          case Some(slot) =>
            if d.position > 3 then ScanFailed(IllegalIndex, |devs| - 1)
            else Scanned(t[d.position := Record(d, slot)], n + 1)
  }

  /** disk_init with each accepted record stored at the next free entry
      hpex49x[disks] instead of hpex49x[di], so that the first `disks` entries are the
      ones the init loops read; a fifth accepted disk is the illegal index. */
  function ScanDevicesPacked(devs: seq<Device>, table: seq<Led>): (r: Scan)
    requires |table| == MAX_HDD_LEDS
    ensures r.Scanned? ==> |r.table| == MAX_HDD_LEDS && r.disks <= MAX_HDD_LEDS
    ensures r.ScanFailed? ==> r.at < |devs|
    decreases |devs|
  {
    if devs == [] then Scanned(table, 0)
    else
      match ScanDevicesPacked(devs[..|devs| - 1], table)
      case ScanFailed(f, at) => ScanFailed(f, at)
      case Scanned(t, n) =>
        var d := devs[|devs| - 1];
        if !Shown(d) then Scanned(t, n)
        else
          match Classify(d.pathId, d.targetId)
          case None => ScanFailed(UnknownDevice, |devs| - 1)
          case Some(slot) =>
            if n > 3 then ScanFailed(IllegalIndex, |devs| - 1)
            else Scanned(t[n := Record(d, slot)], n + 1)
  }

  /** A shown entry disk_init accepts: a known bay and a devstat index of at most 3. */
  predicate Acceptable(d: Device) {
    Classify(d.pathId, d.targetId).Some? && d.position <= 3
  }

  /** The number of shown entries. */
  function ShownCount(devs: seq<Device>): nat
    decreases |devs|
  {
    if devs == [] then 0
    else ShownCount(devs[..|devs| - 1]) + (if Shown(devs[|devs| - 1]) then 1 else 0)
  }

  /** disk_init fails exactly when some shown entry is unknown or has an index above 3,
      and it then names the first such entry. */
  lemma {:induction false} ScanFailsIff(devs: seq<Device>, table: seq<Led>)
    requires |table| == MAX_HDD_LEDS
    ensures ScanDevices(devs, table).Scanned? <==>
            forall k :: 0 <= k < |devs| && Shown(devs[k]) ==> Acceptable(devs[k])
    ensures ScanDevices(devs, table).ScanFailed? ==>
              var at := ScanDevices(devs, table).at;
              Shown(devs[at]) && !Acceptable(devs[at]) &&
              (ScanDevices(devs, table).failure == UnknownDevice <==>
                 Classify(devs[at].pathId, devs[at].targetId).None?) &&
              forall k :: 0 <= k < at && Shown(devs[k]) ==> Acceptable(devs[k])
    decreases |devs|
  {
    if devs != [] {
      var init := devs[..|devs| - 1];
      ScanFailsIff(init, table);
      assert forall k :: 0 <= k < |init| ==> init[k] == devs[k];
    }
  }

  /** On success the count is the number of shown entries. */
  lemma {:induction false} ScanCount(devs: seq<Device>, table: seq<Led>)
    requires |table| == MAX_HDD_LEDS && ScanDevices(devs, table).Scanned?
    ensures ScanDevices(devs, table).disks == ShownCount(devs)
    decreases |devs|
  {
    if devs != [] {
      ScanCount(devs[..|devs| - 1], table);
    }
  }

  /** Whether a shown entry after index `k` has the same devstat index as entry `k`. */
  predicate OverwrittenLater(devs: seq<Device>, k: nat)
    requires k < |devs|
  {
    exists j :: k < j < |devs| && Shown(devs[j]) && devs[j].position == devs[k].position
  }

  /** On success every shown entry's record sits at hpex49x[position] unless a later
      shown entry reuses that index. */
  lemma {:induction false} ScanRecords(devs: seq<Device>, table: seq<Led>)
    requires |table| == MAX_HDD_LEDS && ScanDevices(devs, table).Scanned?
    ensures var t := ScanDevices(devs, table).table;
            forall k :: 0 <= k < |devs| && Shown(devs[k]) && !OverwrittenLater(devs, k) ==>
              devs[k].position < MAX_HDD_LEDS &&
              t[devs[k].position] == Record(devs[k], devs[k].pathId)
    decreases |devs|
  {
    if devs != [] {
      var init := devs[..|devs| - 1];
      var d := devs[|devs| - 1];
      ScanRecords(init, table);
      var t := ScanDevices(devs, table).table;
      var t0 := ScanDevices(init, table).table;
      assert Shown(d) ==> d.position < MAX_HDD_LEDS && t == t0[d.position := Record(d, d.pathId)];
      assert !Shown(d) ==> t == t0;
      forall k | 0 <= k < |devs| && Shown(devs[k]) && !OverwrittenLater(devs, k)
        ensures devs[k].position < MAX_HDD_LEDS
        ensures t[devs[k].position] == Record(devs[k], devs[k].pathId)
      {
        if k < |init| {
          assert init[k] == devs[k];
          assert forall j :: k < j < |init| ==> init[j] == devs[j];
          assert !OverwrittenLater(init, k);
          assert Shown(d) ==> d.position != devs[k].position;
        }
      }
    }
  }

  /** On success an index no shown entry names keeps whatever it held before:
      disk_init never clears the table. */
  lemma {:induction false} ScanKeepsUnnamed(devs: seq<Device>, table: seq<Led>)
    requires |table| == MAX_HDD_LEDS && ScanDevices(devs, table).Scanned?
    ensures var t := ScanDevices(devs, table).table;
            forall p :: (0 <= p < MAX_HDD_LEDS &&
                         forall k :: 0 <= k < |devs| && Shown(devs[k]) ==> devs[k].position != p) ==>
              t[p] == table[p]
    decreases |devs|
  {
    if devs != [] {
      var init := devs[..|devs| - 1];
      ScanKeepsUnnamed(init, table);
      var t := ScanDevices(devs, table).table;
      var t0 := ScanDevices(init, table).table;
      forall p | 0 <= p < MAX_HDD_LEDS &&
                 (forall k :: 0 <= k < |devs| && Shown(devs[k]) ==> devs[k].position != p)
        ensures t[p] == table[p]
      {
        assert forall k :: 0 <= k < |init| && Shown(init[k]) ==> init[k].position != p by {
          forall k | 0 <= k < |init| && Shown(init[k]) ensures init[k].position != p {
            assert init[k] == devs[k];
          }
        }
        assert t0[p] == table[p];
      }
    }
  }

  /** The devstat indices of the shown entries. */
  function ShownPositions(devs: seq<Device>): set<nat>
    decreases |devs|
  {
    if devs == [] then {}
    else ShownPositions(devs[..|devs| - 1]) + (if Shown(devs[|devs| - 1]) then {devs[|devs| - 1].position} else {})
  }

  /** devstat lists each device once: the shown entries have pairwise distinct indices. */
  predicate DistinctPositions(devs: seq<Device>) {
    forall i, j :: 0 <= i < j < |devs| && Shown(devs[i]) && Shown(devs[j]) ==>
      devs[i].position != devs[j].position
  }

  /** A position is shown exactly when some shown entry carries it. */
  lemma {:induction false} ShownPositionsMembers(devs: seq<Device>)
    ensures forall p :: p in ShownPositions(devs) <==>
              exists k :: 0 <= k < |devs| && Shown(devs[k]) && devs[k].position == p
    decreases |devs|
  {
    if devs != [] {
      var init := devs[..|devs| - 1];
      ShownPositionsMembers(init);
      forall p | p in ShownPositions(devs)
        ensures exists k :: 0 <= k < |devs| && Shown(devs[k]) && devs[k].position == p
      {
        if p in ShownPositions(init) {
          var k :| 0 <= k < |init| && Shown(init[k]) && init[k].position == p;
          assert devs[k] == init[k];
        } else {
          assert Shown(devs[|devs| - 1]) && devs[|devs| - 1].position == p;
        }
      }
      forall p | exists k :: 0 <= k < |devs| && Shown(devs[k]) && devs[k].position == p
        ensures p in ShownPositions(devs)
      {
        var k :| 0 <= k < |devs| && Shown(devs[k]) && devs[k].position == p;
        if k < |init| {
          assert init[k] == devs[k];
        }
      }
    }
  }

  /** With distinct indices, there are as many shown positions as shown entries. */
  lemma {:induction false} ShownPositionsCount(devs: seq<Device>)
    requires DistinctPositions(devs)
    ensures |ShownPositions(devs)| == ShownCount(devs)
    decreases |devs|
  {
    if devs != [] {
      var init := devs[..|devs| - 1];
      var d := devs[|devs| - 1];
      assert DistinctPositions(init) by {
        forall i, j | 0 <= i < j < |init| && Shown(init[i]) && Shown(init[j])
          ensures init[i].position != init[j].position
        {
          assert init[i] == devs[i] && init[j] == devs[j];
        }
      }
      ShownPositionsCount(init);
      if Shown(d) {
        ShownPositionsMembers(init);
        assert d.position !in ShownPositions(init);
      }
    }
  }

  lemma {:induction false} SubsetCard(a: set<nat>, b: set<nat>)
    requires a <= b
    ensures |a| <= |b|
    decreases b
  {
    if a != {} {
      var x :| x in a;
      SubsetCard(a - {x}, b - {x});
    }
  }

  /** With one entry per device, a successful scan counts at most four disks: there
      are only four acceptable indices. */
  lemma AtMostFourDisks(devs: seq<Device>, table: seq<Led>)
    requires |table| == MAX_HDD_LEDS && ScanDevices(devs, table).Scanned?
    requires DistinctPositions(devs)
    ensures ScanDevices(devs, table).disks <= MAX_HDD_LEDS
  {
    ScanFailsIff(devs, table);
    ScanCount(devs, table);
    ShownPositionsCount(devs);
    ShownPositionsMembers(devs);
    assert ShownPositions(devs) <= {0, 1, 2, 3} by {
      forall p | p in ShownPositions(devs) ensures p in {0, 1, 2, 3} {
        var k :| 0 <= k < |devs| && Shown(devs[k]) && devs[k].position == p;
        assert Acceptable(devs[k]);
      }
    }
    SubsetCard(ShownPositions(devs), {0, 1, 2, 3});
  }

  /** One disk in bay 1 that devstat lists at index 2 is stored at hpex49x[2], while
      hpex49x[0], which the init loops read for `hpdisks == 1`, keeps its zero record
      with bay number 0. */
  lemma StaleFirstEntry()
    ensures var d := Device(1, 2, "ada", 0, 1, 0, 0, 0);
            var s := ScanDevices([d], [ZeroLed, ZeroLed, ZeroLed, ZeroLed]);
            s.Scanned? && s.disks == 1 && s.table[2] == Record(d, 1) &&
            s.table[0] == ZeroLed && s.table[0].hdd == 0
  {
    var d := Device(1, 2, "ada", 0, 1, 0, 0, 0);
    assert [d][..0] == [];
  }
}
