/**
 Formats and device data under overlapping RPCs. Nothing in the driver keeps two filesystem
 stages that found one device apart: both can see it blank, and the second mkfs then runs
 on a formatted device. This module proves when formats are write-once and data is safe;
 NodeRace proves that the condition is exact.
 */
module NodeData {
  import opened Text
  import opened NodeModel
  import opened NodeRuns
  import opened NodeSteps
  import opened NodeSystem

  /** The file system a stage request asks mkfs for. */
  function MkfsType(rpc: Rpc): string { if rpc.Stage? then FsType(rpc.cap) else "" }

  /** A stage that saw the device blank and whose mkfs is about to write to it. */
  predicate Armed(w: Work, device: string) {
    w.pc.Blank? && w.faults.device == Some(device) && w.faults.mkfs != MkfsNotRun
  }

  /** A stage is about to write to the device even if that is formatted by now: its type is not
      one whose mkfs `refuses` a formatted device. */
  ghost predicate Pending(y: System, device: string, refuses: iset<string>) {
    exists p :: p in y.works && Armed(y.works[p], device) && MkfsType(y.works[p].rpc) !in refuses
  }

  /** An mkfs of a type in `refuses` does not write to a formatted device. */
  ghost predicate Respects(y: System, e: StepEvent, refuses: iset<string>) {
    e.Proceed? && e.path in y.works && y.works[e.path].pc.Blank? ==>
      var w := y.works[e.path];
      forall d :: Armed(w, d) && MkfsType(w.rpc) in refuses ==> Format(y.st, d) == ""
  }

  ghost predicate AllRespect(y: System, es: seq<StepEvent>, refuses: iset<string>)
    requires AllAt(y)
  {
    es == [] || (var n := |es| - 1; AllRespect(y, es[..n], refuses) && Respects(SysRun(y, es[..n]), es[n], refuses))
  }

  lemma {:induction false} NothingRefused(y: System, es: seq<StepEvent>)
    requires AllAt(y)
    ensures AllRespect(y, es, iset{})
  {
    if es != [] {
      NothingRefused(y, es[..|es| - 1]);
    }
  }

  /** A filesystem stage that found `device`: the only RPC that can format it. */
  predicate Finds(rpc: Rpc, f: Faults, device: string) { FsStage(rpc) && f.device == Some(device) }

  ghost predicate NotFound(y: System, device: string) {
    forall p :: p in y.works ==> !Finds(y.works[p].rpc, y.works[p].faults, device)
  }

  /** No filesystem stage under way or to come finds the device. */
  ghost predicate NeverFound(y: System, es: seq<StepEvent>, device: string) {
    && NotFound(y, device)
    && (forall i :: 0 <= i < |es| && es[i].Begin? ==> !Finds(es[i].rpc, es[i].faults, device))
  }

  /** What the workload wrote to the device last, from `start` on. */
  function UserWrites(es: seq<StepEvent>, device: string, start: Option<string>): Option<string> {
    if es == [] then start else
      var e := es[|es| - 1];
      if e.UserWrite? && e.device == device then Some(e.data) else UserWrites(es[..|es| - 1], device, start)
  }

  // ---- One step ----

  lemma AdvanceKeepsDevice(s: State, w: Work, path: Path, inUse: iset<Path>, device: string)
    requires At(w.rpc, w.faults, w.pc) && Inv(s, inUse) && path in inUse && WorkInv(s, w, path) && !Armed(w, device)
    ensures SameDevice(s, Advance(s, w.rpc, w.faults, path, w.pc).st, device)
  {
    AdvanceIsLocal(s, w, path, inUse);
  }

  lemma SysStepData(y: System, e: StepEvent, inUse: iset<Path>, device: string, refuses: iset<string>)
    requires SysInv(y, inUse) && !Pending(y, device, refuses) && Respects(y, e, refuses)
    requires Format(y.st, device) != "" || NotFound(y, device)
    ensures Format(SysStep(y, e).st, device) == Format(y.st, device)
    ensures Data(SysStep(y, e).st, device) ==
            if e.UserWrite? && e.device == device then Some(e.data) else Data(y.st, device)
  {
    if e.Proceed? && e.path in y.works {
      assert !Armed(y.works[e.path], device);
      AdvanceKeepsDevice(y.st, y.works[e.path], e.path, inUse, device);
    }
  }

  /** A stage gets armed only while the device is blank. */
  lemma AdvanceNotArmed(s: State, w: Work, path: Path, device: string)
    requires At(w.rpc, w.faults, w.pc) && (Format(s, device) != "" || !Finds(w.rpc, w.faults, device))
    ensures !Armed(w.(pc := Advance(s, w.rpc, w.faults, path, w.pc).pc), device)
  {
  }

  lemma StepNotPending(y: System, e: StepEvent, device: string, refuses: iset<string>)
    requires AllAt(y) && !Pending(y, device, refuses)
    requires Format(y.st, device) != "" || NotFound(y, device)
    ensures !Pending(SysStep(y, e), device, refuses)
  {
    if e.Proceed? && e.path in y.works {
      AdvanceNotArmed(y.st, y.works[e.path], e.path, device);
    }
  }

  lemma StepNeverFound(y: System, e: StepEvent, device: string)
    requires AllAt(y) && NeverFound(y, [e], device)
    ensures NotFound(SysStep(y, e), device)
  {
    assert [e][0] == e;
  }

  // ---- Whole interleavings ----

  /** From a point where no armed stage is about to format the device: if the device is formatted
      or no stage finds it, it keeps its format and holds what its workload wrote last, whatever
      the RPCs do. The lemma is for any set of types whose mkfs refuses a formatted device. */
  lemma {:induction false} InterleavedData(
    y: System, es: seq<StepEvent>, inUse: iset<Path>, device: string, refuses: iset<string>)
    requires PrefixFree(inUse) && SysInv(y, inUse) && AllEventsUse(es, inUse) && AllRespect(y, es, refuses)
    requires !Pending(y, device, refuses) && (Format(y.st, device) != "" || NeverFound(y, es, device))
    ensures Format(SysRun(y, es).st, device) == Format(y.st, device)
    ensures Data(SysRun(y, es).st, device) == UserWrites(es, device, Data(y.st, device))
    ensures !Pending(SysRun(y, es), device, refuses)
    ensures NeverFound(y, es, device) ==> NotFound(SysRun(y, es), device)
  {
    if es != [] {
      var init, e := es[..|es| - 1], es[|es| - 1];
      assert NeverFound(y, es, device) ==> NeverFound(y, init, device);
      InterleavedData(y, init, inUse, device, refuses);
      InterleavingsAreSafe(y, init, inUse);
      var z := SysRun(y, init);
      SysStepData(z, e, inUse, device, refuses);
      StepNotPending(z, e, device, refuses);
      if NeverFound(y, es, device) {
        assert NeverFound(z, [e], device);
        StepNeverFound(z, e, device);
      }
    }
  }

  /** The continuation `es` of `y` leaves the format alone. */
  ghost predicate KeepsFormat(y: System, es: seq<StepEvent>, device: string)
    requires AllAt(y)
  {
    Format(SysRun(y, es).st, device) == Format(y.st, device)
  }

  /** The continuation `es` of `y` leaves the data to the workload. */
  ghost predicate KeepsData(y: System, es: seq<StepEvent>, device: string)
    requires AllAt(y)
  {
    Data(SysRun(y, es).st, device) == UserWrites(es, device, Data(y.st, device))
  }

  // ---- Which requests may overlap ----

  /** The filesystem stages of a run are among `stages`: requests with the device each one finds. */
  ghost predicate Obeys(e: StepEvent, stages: iset<(Rpc, string)>, inUse: iset<Path>) {
    && EventUses(e, inUse)
    && (e.Begin? && FsStage(e.rpc) && e.faults.device.Some? ==> (e.rpc, e.faults.device.value) in stages)
  }

  ghost predicate AllObey(es: seq<StepEvent>, stages: iset<(Rpc, string)>, inUse: iset<Path>) {
    forall i :: 0 <= i < |es| ==> Obeys(es[i], stages, inUse)
  }

  /** Of two stage requests on different paths that can format and find the same device, neither
      has a type whose mkfs writes over a formatted device. */
  ghost predicate Apart(stages: iset<(Rpc, string)>, refuses: iset<string>) {
    forall a, b | a in stages && b in stages && Formatting(a.0) && Formatting(b.0) ::
      a.1 == b.1 && MkfsType(b.0) !in refuses ==> PathOf(a.0) == PathOf(b.0)
  }

  /** One run, cut at a point where the device is formatted. */
  ghost predicate FormatKeptAfter(s: State, before: seq<StepEvent>, after: seq<StepEvent>, device: string) {
    var y := SysRun(System(s, map[]), before);
    Format(y.st, device) != "" ==> KeepsFormat(y, after, device)
  }

  ghost predicate DataKeptAfter(s: State, before: seq<StepEvent>, after: seq<StepEvent>, device: string) {
    var y := SysRun(System(s, map[]), before);
    Format(y.st, device) != "" ==> KeepsData(y, after, device)
  }

  /** A stage that saw its device blank, and would write over a format, still has it blank; stages
      under way are among `stages`. */
  ghost predicate BlankSeen(y: System, stages: iset<(Rpc, string)>, refuses: iset<string>) {
    forall p :: p in y.works ==>
      var w := y.works[p];
      && (FsStage(w.rpc) && w.faults.device.Some? ==> (w.rpc, w.faults.device.value) in stages)
      && (w.pc.Blank? && w.faults.device.Some? && MkfsType(w.rpc) !in refuses ==>
            Format(y.st, w.faults.device.value) == "")
  }

  lemma StepKeepsBlankSeen(
    y: System, e: StepEvent, stages: iset<(Rpc, string)>, inUse: iset<Path>, refuses: iset<string>)
    requires PrefixFree(inUse) && SysInv(y, inUse) && BlankSeen(y, stages, refuses)
    requires Apart(stages, refuses) && Obeys(e, stages, inUse)
    ensures BlankSeen(SysStep(y, e), stages, refuses)
  {
    if e.Proceed? && e.path in y.works {
      var w := y.works[e.path];
      var n := Advance(y.st, w.rpc, w.faults, e.path, w.pc);
      AdvanceIsLocal(y.st, w, e.path, inUse);
      OwnBlankSeen(y.st, w, e.path);
      forall q | q in y.works && q != e.path && y.works[q].pc.Blank? && MkfsType(y.works[q].rpc) !in refuses
        ensures Format(n.st, y.works[q].faults.device.value) == ""
      {
        OtherBlankSeen(y, e.path, q, stages, inUse, refuses);
        assert SameDevice(y.st, n.st, y.works[q].faults.device.value);
      }
    }
  }

  lemma OwnBlankSeen(s: State, w: Work, path: Path)
    requires At(w.rpc, w.faults, w.pc)
    ensures var n := Advance(s, w.rpc, w.faults, path, w.pc); n.pc.Blank? ==> Format(n.st, w.faults.device.value) == ""
  {
  }

  /** Two stages past their probe of a blank device, one of which would write over a format, found
      different devices. */
  lemma OtherBlankSeen(
    y: System, p: Path, q: Path, stages: iset<(Rpc, string)>, inUse: iset<Path>, refuses: iset<string>)
    requires SysInv(y, inUse) && Apart(stages, refuses) && BlankSeen(y, stages, refuses)
    requires p in y.works && q in y.works && p != q && y.works[q].pc.Blank?
    requires MkfsType(y.works[q].rpc) !in refuses
    ensures y.works[p].pc.Blank? ==> y.works[p].faults.device != y.works[q].faults.device
  {
    if y.works[p].pc.Blank? {
      var a := (y.works[p].rpc, y.works[p].faults.device.value);
      var b := (y.works[q].rpc, y.works[q].faults.device.value);
      assert a in stages && b in stages && PathOf(a.0) != PathOf(b.0);
    }
  }

  lemma {:induction false} RunKeepsBlankSeen(
    y: System, es: seq<StepEvent>, stages: iset<(Rpc, string)>, inUse: iset<Path>, refuses: iset<string>)
    requires PrefixFree(inUse) && SysInv(y, inUse) && BlankSeen(y, stages, refuses)
    requires Apart(stages, refuses) && AllObey(es, stages, inUse)
    ensures SysInv(SysRun(y, es), inUse) && BlankSeen(SysRun(y, es), stages, refuses)
  {
    if es != [] {
      var n := |es| - 1;
      RunKeepsBlankSeen(y, es[..n], stages, inUse, refuses);
      SysStepKeepsInv(SysRun(y, es[..n]), es[n], inUse);
      StepKeepsBlankSeen(SysRun(y, es[..n]), es[n], stages, inUse, refuses);
    }
  }

  /** Formats are write-once and the data of formatted devices belongs to the workloads, in every
      run of stages that are apart with any other RPCs, any faults and any writes. */
  lemma ApartIsSafe(
    s: State, before: seq<StepEvent>, after: seq<StepEvent>,
    stages: iset<(Rpc, string)>, inUse: iset<Path>, device: string, refuses: iset<string>)
    requires PrefixFree(inUse) && Inv(s, inUse) && Apart(stages, refuses)
    requires AllObey(before, stages, inUse) && AllObey(after, stages, inUse)
    requires AllRespect(SysRun(System(s, map[]), before), after, refuses)
    ensures FormatKeptAfter(s, before, after, device) && DataKeptAfter(s, before, after, device)
  {
    var y := System(s, map[]);
    RunKeepsBlankSeen(y, before, stages, inUse, refuses);
    var z := SysRun(y, before);
    if Format(z.st, device) != "" {
      assert !Pending(z, device, refuses);
      assert AllEventsUse(after, inUse);
      InterleavedData(z, after, inUse, device, refuses);
    }
  }

  // ---- Runs of whole RPCs ----

  function LastWrite(es: seq<Event>, device: string, start: Option<string>): Option<string> {
    if es == [] then start else
      var e := es[|es| - 1];
      if e.Write? && e.device == device then Some(e.data) else LastWrite(es[..|es| - 1], device, start)
  }

  lemma {:induction false} UserWritesConcat(a: seq<StepEvent>, b: seq<StepEvent>, device: string, start: Option<string>)
    ensures UserWrites(a + b, device, start) == UserWrites(b, device, UserWrites(a, device, start))
  {
    if b == [] {
      assert a + b == a;
    } else {
      assert (a + b)[..|a + b| - 1] == a + b[..|b| - 1];
      UserWritesConcat(a, b[..|b| - 1], device, start);
    }
  }

  lemma {:induction false} NoUserWrites(es: seq<StepEvent>, device: string, start: Option<string>)
    requires forall i :: 0 <= i < |es| ==> !es[i].UserWrite?
    ensures UserWrites(es, device, start) == start
  {
    if es != [] {
      NoUserWrites(es[..|es| - 1], device, start);
    }
  }

  lemma WritesOfEvent(e: Event, device: string, start: Option<string>)
    ensures UserWrites(Steps(e), device, start) == if e.Write? && e.device == device then Some(e.data) else start
  {
    if e.Call? {
      NoUserWrites(Steps(e), device, start);
    } else {
      assert Steps(e)[..0] == [];
    }
  }

  lemma {:induction false} WritesOfSteps(es: seq<Event>, device: string, start: Option<string>)
    ensures UserWrites(AllSteps(es), device, start) == LastWrite(es, device, start)
  {
    if es != [] {
      var n := |es| - 1;
      WritesOfSteps(es[..n], device, start);
      UserWritesConcat(AllSteps(es[..n]), Steps(es[n]), device, start);
      WritesOfEvent(es[n], device, LastWrite(es[..n], device, start));
    }
  }

  /** In runs of whole RPCs nothing overlaps: a formatted device keeps its format, and holds what
      its workload wrote last. */
  lemma RunData(s: State, es: seq<Event>, inUse: iset<Path>, device: string)
    requires PrefixFree(inUse) && Inv(s, inUse) && AllUse(es, inUse) && Format(s, device) != ""
    ensures Format(Run(s, es), device) == Format(s, device)
    ensures Data(Run(s, es), device) == LastWrite(es, device, Data(s, device))
  {
    RunIsSysRun(s, es);
    AllStepsUse(es, inUse);
    NothingRefused(System(s, map[]), AllSteps(es));
    InterleavedData(System(s, map[]), AllSteps(es), inUse, device, iset{});
    WritesOfSteps(es, device, Data(s, device));
  }

  /** One RPC leaves every formatted device as it is. */
  lemma ExecKeepsFormatted(s: State, rpc: Rpc, f: Faults, inUse: iset<Path>)
    requires PrefixFree(inUse) && Inv(s, inUse) && Uses(Call(rpc, f), inUse)
    ensures Inv(Exec(s, rpc, f).st, inUse)
    ensures forall d :: Format(s, d) != "" ==> SameDevice(s, Exec(s, rpc, f).st, d)
  {
    var es := [Call(rpc, f)];
    assert es[..0] == [] && Run(s, es) == Step(s, es[0]);
    RunKeepsInv(s, es, inUse);
    forall d | Format(s, d) != "" ensures SameDevice(s, Exec(s, rpc, f).st, d) {
      RunData(s, es, inUse, d);
      assert LastWrite(es, d, Data(s, d)) == LastWrite(es[..0], d, Data(s, d));
    }
  }
}
