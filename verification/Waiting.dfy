/**
 The bounded loops around external calls: waitTask (pkg/driver/controller.go), Retry
 (pkg/utils/utils.go), ResizeBlock (pkg/utils/resizer.go) with NodeExpandVolume, and the
 device search of getVolumeDevice (pkg/driver/node.go). What a call answers on its i-th use
 is a function of i.
 */
module Waiting {
  import opened Text

  // ---- waitTask ----

  datatype Answer = QueryError | NoTask | Pending | Succeeded | TaskFailed

  datatype WaitResult = WaitOk | WaitError

  /** Seconds at the start of the wait, and after each sleep: `clock(i)` follows the i-th sleep. */
  ghost predicate Sleeps(clock: nat -> int) {
    forall i: nat :: clock(i) + 5 <= clock(i + 1)
  }

  lemma {:induction false} Elapsed(clock: nat -> int, i: nat)
    requires Sleeps(clock)
    ensures clock(0) + 5 * i <= clock(i)
  {
    if i > 0 {
      Elapsed(clock, i - 1);
      assert clock(i - 1) + 5 <= clock(i - 1 + 1);
    }
  }

  /** The wait goes on after its (i + 1)-th poll: nothing final was seen and its limit, one
      minute for a missing task and ten for a pending one, has not passed. */
  predicate GoesOn(answers: nat -> Answer, clock: nat -> int, i: nat) {
    || (answers(i).NoTask? && clock(i + 1) - clock(0) <= 60)
    || (answers(i).Pending? && clock(i + 1) - clock(0) <= 600)
  }

  /** waitTask stops at the first poll after which it does not go on: within 121 polls, within
      13 when the task is never found. It returns nil only without a task or on seeing success, and
      sees every success that comes while no limit has passed. */
  method WaitTask(id: Option<string>, answers: nat -> Answer, clock: nat -> int) returns (r: WaitResult, polls: nat)
    requires Sleeps(clock)
    ensures id.None? ==> r == WaitOk && polls == 0
    ensures id.Some? ==> 1 <= polls <= 121 && !GoesOn(answers, clock, polls - 1)
    ensures forall i :: 0 <= i < polls - 1 ==> GoesOn(answers, clock, i)
    ensures id.Some? ==> (r == WaitOk <==> answers(polls - 1).Succeeded?)
    ensures (forall i: nat :: i < polls ==> answers(i).NoTask?) ==> polls <= 13
    ensures forall n: nat :: id.Some? && answers(n).Succeeded? && InTime(answers, clock, n) ==>
              r == WaitOk && polls == n + 1
    ensures id.Some? && answers(polls - 1).Pending? ==> clock(polls) - clock(0) > 600
    ensures id.Some? && answers(polls - 1).NoTask? ==> clock(polls) - clock(0) > 60
  {
    if id.None? {
      return WaitOk, 0;
    }
    var start := clock(0);
    polls := 0;
    while true
      invariant polls <= 120 && forall i :: 0 <= i < polls ==> GoesOn(answers, clock, i)
      invariant polls > 12 ==> exists i: nat :: i < polls && !answers(i).NoTask?
      decreases 121 - polls
    {
      var a := answers(polls);
      polls := polls + 1;
      Elapsed(clock, polls);
      match a
      case QueryError =>
        r := WaitError;
        break;
      case NoTask =>
        if clock(polls) - start > 60 {
          r := WaitError;
          break;
        }
      case Succeeded =>
        r := WaitOk;
        break;
      case TaskFailed =>
        r := WaitError;
        break;
      case Pending =>
        if clock(polls) - start > 600 {
          r := WaitError;
          break;
        }
        assert !answers(polls - 1).NoTask?;
    }
    forall n: nat | answers(n).Succeeded? && InTime(answers, clock, n) ensures polls == n + 1 {
      FirstStop(answers, clock, polls, n);
    }
  }

  /** No limit has passed at any of the first `n` polls, none of which saw an end. */
  ghost predicate InTime(answers: nat -> Answer, clock: nat -> int, n: nat) {
    forall i: nat :: i < n ==>
      || (answers(i).Pending? && clock(i + 1) - clock(0) <= 600)
      || (answers(i).NoTask? && clock(i + 1) - clock(0) <= 60)
  }

  lemma FirstStop(answers: nat -> Answer, clock: nat -> int, polls: nat, n: nat)
    requires polls >= 1 && !GoesOn(answers, clock, polls - 1)
    requires forall i :: 0 <= i < polls - 1 ==> GoesOn(answers, clock, i)
    requires answers(n).Succeeded? && InTime(answers, clock, n)
    ensures polls == n + 1
  {
    assert n < polls - 1 ==> GoesOn(answers, clock, n);
  }

  // ---- Retry ----

  /** Retry: it stops at the first success, makes at most `limit` calls, and returns nil exactly
      when its last call succeeded. A limit of zero makes no call and returns nil. */
  method Retry(succeeds: nat -> bool, limit: nat) returns (ok: bool, calls: nat)
    ensures calls <= limit && (limit > 0 ==> calls >= 1)
    ensures forall i :: 0 <= i < calls - 1 ==> !succeeds(i)
    ensures calls > 0 ==> (ok <==> succeeds(calls - 1))
    ensures !ok ==> calls == limit
    ensures limit == 0 ==> ok
  {
    ok, calls := true, 0;
    while calls < limit
      invariant calls <= limit
      invariant forall i :: 0 <= i < calls ==> !succeeds(i)
      invariant ok <==> calls == 0
    {
      ok := succeeds(calls);
      calls := calls + 1;
      if ok {
        break;
      }
    }
  }

  // ---- NodeExpandVolume ----

  /** One pass of ResizeBlock's body: rescan, then read the size. */
  datatype Reading = RescanError | SizeError | Size(bytes: nat)

  predicate BigEnough(r: Reading, size: nat) { r.Size? && r.bytes >= size }

  const RESIZE_LIMIT: nat := 15
  const RESIZABLE := {"ext2", "ext3", "ext4", "xfs"}

  method ResizeBlock(readings: nat -> Reading, size: nat) returns (ok: bool, rescans: nat)
    ensures 1 <= rescans <= 15
    ensures ok <==> BigEnough(readings(rescans - 1), size)
    ensures forall i :: 0 <= i < rescans - 1 ==> !BigEnough(readings(i), size)
    ensures !ok ==> rescans == 15
  {
    var done := (i: nat) => BigEnough(readings(i), size);
    ok, rescans := Retry(done, RESIZE_LIMIT);
    forall i | 0 <= i < rescans - 1 ensures !BigEnough(readings(i), size) {
      assert !done(i);
    }
  }

  datatype Expansion = Expansion(ok: bool, resizedFs: bool)

  /** NodeExpandVolume from ResizeBlock on; `format` is GetDiskFormat's answer. A file system is
      grown only behind a rescan that read the full size, one of at most fifteen; a blank device
      is a success without a file system to grow. */
  method Expand(readings: nat -> Reading, size: nat, format: Option<string>, toolFails: bool)
    returns (r: Expansion, rescans: nat)
    ensures 1 <= rescans <= 15
    ensures r.resizedFs ==> BigEnough(readings(rescans - 1), size) && format.Some? && format.value != ""
    ensures r.ok <==> && (exists i :: 0 <= i < 15 && BigEnough(readings(i), size))
                      && format.Some?
                      && (format.value == "" || (format.value in {"ext2", "ext3", "ext4", "xfs"} && !toolFails))
    ensures r.ok ==> (r.resizedFs <==> format.value != "")
  {
    var ok;
    ok, rescans := ResizeBlock(readings, size);
    if !ok {
      return Expansion(false, false), rescans;
    }
    assert BigEnough(readings(rescans - 1), size);
    if format.None? {
      return Expansion(false, false), rescans;
    }
    if format.value == "" {
      return Expansion(true, false), rescans;
    }
    if format.value !in RESIZABLE {
      return Expansion(false, false), rescans;
    }
    return Expansion(!toolFails, !toolFails), rescans;
  }

  // ---- Finding a volume's device ----

  predicate Space(c: char) { c == ' ' || c == '\n' || c == '\t' || c == '\r' }

  /** strings.TrimSpace. */
  function TrimSpace(s: string): string {
    if s != "" && Space(s[0]) then TrimSpace(s[1..])
    else if s != "" && Space(s[|s| - 1]) then TrimSpace(s[..|s| - 1])
    else s
  }

  /** A listed device: its name and the output of the udev query, `None` when that fails. */
  datatype Listed = Listed(name: string, output: Option<string>)

  /** The device's reported serial is a prefix of the volume's. */
  predicate Matches(serial: string, d: Listed) {
    d.output.Some? && var parts := Split(TrimSpace(d.output.value), '='); |parts| == 2 && parts[1] <= serial
  }

  /** The search loop: an error if any query fails or nothing matches, else the last match. */
  method FindDevice(serial: string, listed: seq<Listed>) returns (r: Option<string>)
    ensures r.Some? <==> (forall i :: 0 <= i < |listed| ==> listed[i].output.Some?)
                         && exists i :: 0 <= i < |listed| && Matches(serial, listed[i])
    ensures r.Some? ==>
              exists i :: 0 <= i < |listed| && r.value == "/dev/" + listed[i].name && Matches(serial, listed[i])
                && forall j :: i < j < |listed| ==> !Matches(serial, listed[j])
  {
    var device := "";
    ghost var at := -1;
    for n := 0 to |listed|
      invariant forall i :: 0 <= i < n ==> listed[i].output.Some?
      invariant -1 <= at < n
      invariant at == -1 ==> device == ""
      invariant at >= 0 ==> device == "/dev/" + listed[at].name && Matches(serial, listed[at])
      invariant forall j :: at < j < n ==> !Matches(serial, listed[j])
    {
      if listed[n].output.None? {
        return None;
      }
      var idSerial := Split(TrimSpace(listed[n].output.value), '=');
      if |idSerial| != 2 {
        continue;
      }
      if idSerial[1] <= serial {
        device := "/dev/" + listed[n].name;
        at := n;
      }
    }
    if device == "" {
      return None;
    }
    return Some(device);
  }

  /** getVolumeDevice: `disks` are the serials of the volume's disks on this node, `None` when the
      backend query fails, `listed` the block devices, `None` when lsblk fails. */
  method GetVolumeDevice(disks: Option<seq<Option<string>>>, listed: Option<seq<Listed>>) returns (r: Option<string>)
    ensures r.Some? <==>
            && disks.Some? && |disks.value| >= 1 && disks.value[0].Some? && disks.value[0].value != ""
            && listed.Some? && (forall i :: 0 <= i < |listed.value| ==> listed.value[i].output.Some?)
            && exists i :: 0 <= i < |listed.value| && Matches(disks.value[0].value, listed.value[i])
    ensures r.Some? ==>
              exists i :: 0 <= i < |listed.value| && r.value == "/dev/" + listed.value[i].name
                && Matches(disks.value[0].value, listed.value[i])
                && forall j :: i < j < |listed.value| ==> !Matches(disks.value[0].value, listed.value[j])
  {
    if disks.None? || |disks.value| < 1 {
      return None;
    }
    var serial := disks.value[0];
    if serial.None? || serial.value == "" || listed.None? {
      return None;
    }
    r := FindDevice(serial.value, listed.value);
  }

  /** The udev line of a device: the first `k` characters of its own serial. */
  function Line(serial: string, k: nat): string {
    "E: ID_SERIAL=" + (if k < |serial| then serial[..k] else serial) + "\n"
  }

  predicate Plain(s: string) { forall c :: c in s ==> !Space(c) && c != '=' }

  /** The device reports the first `k` characters of its own serial. */
  predicate Reports(d: Listed, serial: string, k: nat) {
    Plain(serial) && serial != "" && d.output == Some(Line(serial, k))
  }

  /** The two serials differ somewhere in their first `k` characters. */
  ghost predicate DifferWithin(a: string, b: string, k: nat) {
    exists p :: 0 <= p < k && p < |a| && p < |b| && a[p] != b[p]
  }

  lemma LineParses(serial: string, k: nat)
    requires Plain(serial) && serial != "" && k > 0
    ensures Split(TrimSpace(Line(serial, k)), '=') == ["E: ID_SERIAL", if k < |serial| then serial[..k] else serial]
  {
    var head, v := "E: ID_SERIAL", if k < |serial| then serial[..k] else serial;
    var body := head + ['='] + v;
    assert Line(serial, k) == body + "\n";
    assert Line(serial, k)[0] == 'E' && Line(serial, k)[..|body|] == body;
    assert v[|v| - 1] in serial && body[|body| - 1] == v[|v| - 1];
    assert TrimSpace(body) == body;
    assert TrimSpace(Line(serial, k)) == body;
    assert forall c :: c in v ==> c in serial;
    assert '=' !in head && '=' !in v;
    assert Join([head, v], '=') == body;
    SplitJoin([head, v], '=');
  }

  /** When every listed device reports the first k characters of its own serial and no other
      serial agrees with the volume's on that many, the search returns the volume's own device,
      in whatever order the devices are listed. */
  lemma OwnDeviceOnly(serials: seq<string>, listed: seq<Listed>, k: nat, own: nat, i: nat)
    requires |serials| == |listed| && own < |serials| && i < |serials| && k > 0
    requires forall j :: 0 <= j < |serials| ==> Reports(listed[j], serials[j], k)
    requires forall j :: 0 <= j < |serials| && j != own ==> DifferWithin(serials[j], serials[own], k)
    ensures Matches(serials[own], listed[i]) <==> i == own
  {
    LineParses(serials[i], k);
    var shown := if k < |serials[i]| then serials[i][..k] else serials[i];
    if i != own {
      var p :| 0 <= p < k && p < |serials[i]| && p < |serials[own]| && serials[i][p] != serials[own][p];
      assert p < |shown| && shown[p] != serials[own][p];
    }
  }

  method FindOwnDevice(serials: seq<string>, listed: seq<Listed>, k: nat, own: nat) returns (r: Option<string>)
    requires |serials| == |listed| && own < |serials| && k > 0
    requires forall j :: 0 <= j < |serials| ==> Reports(listed[j], serials[j], k)
    requires forall j :: 0 <= j < |serials| && j != own ==> DifferWithin(serials[j], serials[own], k)
    ensures r == Some("/dev/" + listed[own].name)
  {
    r := GetVolumeDevice(Some([Some(serials[own])]), Some(listed));
    forall i | 0 <= i < |listed| ensures Matches(serials[own], listed[i]) <==> i == own {
      OwnDeviceOnly(serials, listed, k, own, i);
    }
    assert Matches(serials[own], listed[own]);
  }
}
