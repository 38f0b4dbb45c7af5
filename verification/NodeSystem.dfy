/**
 The node service with overlapping RPCs. RPCs on one path are serialised; the steps of all
 others interleave freely, also those of stages that found the same device.
 */
module NodeSystem {
  import opened Text
  import opened NodeModel
  import opened NodeRuns
  import opened NodeSteps

  datatype Work = Work(rpc: Rpc, faults: Faults, pc: Pc)

  /** `works` holds the RPC under way, or last ended, on each path. */
  datatype System = System(st: State, works: map<Path, Work>)

  datatype StepEvent = Begin(rpc: Rpc, faults: Faults) | Proceed(path: Path) | UserWrite(device: string, data: string)

  /** An RPC waits for the one under way on its path. */
  predicate MayBegin(y: System, rpc: Rpc) {
    PathOf(rpc).Some? && (PathOf(rpc).value in y.works ==> y.works[PathOf(rpc).value].pc.Ended?)
  }

  function SysStep(y: System, e: StepEvent): System
    requires AllAt(y)
  {
    match e
    case Begin(rpc, f) =>
      if MayBegin(y, rpc) then y.(works := y.works[PathOf(rpc).value := Work(rpc, f, Begun)]) else y
    case Proceed(path) =>
      if path !in y.works then y else
        var w := y.works[path];
        var n := Advance(y.st, w.rpc, w.faults, path, w.pc);
        System(n.st, y.works[path := w.(pc := n.pc)])
    case UserWrite(device, data) => y.(st := y.st.(contents := y.st.contents[device := data]))
  }

  predicate AllAt(y: System) {
    forall p :: p in y.works ==> At(y.works[p].rpc, y.works[p].faults, y.works[p].pc)
  }

  function SysRun(y: System, es: seq<StepEvent>): (r: System)
    requires AllAt(y)
    ensures AllAt(r)
  {
    if es == [] then y else SysStep(SysRun(y, es[..|es| - 1]), es[|es| - 1])
  }

  lemma SysSnoc(y: System, es: seq<StepEvent>, e: StepEvent)
    requires AllAt(y)
    ensures SysRun(y, es + [e]) == SysStep(SysRun(y, es), e)
  {
    assert (es + [e])[..|es|] == es;
  }

  lemma {:induction false} SysConcat(y: System, a: seq<StepEvent>, b: seq<StepEvent>)
    requires AllAt(y)
    ensures SysRun(y, a + b) == SysRun(SysRun(y, a), b)
  {
    if b == [] {
      assert a + b == a;
    } else {
      var n := |b| - 1;
      SysConcat(y, a, b[..n]);
      assert a + b == a + b[..n] + [b[n]];
      SysSnoc(y, a + b[..n], b[n]);
    }
  }

  lemma SysCons(y: System, e: StepEvent, rest: seq<StepEvent>)
    requires AllAt(y)
    ensures AllAt(SysStep(y, e)) && SysRun(y, [e] + rest) == SysRun(SysStep(y, e), rest)
  {
    SysSnoc(y, [], e);
    assert [] + [e] == [e];
    assert SysRun(y, [e]) == SysStep(y, e);
    SysConcat(y, [e], rest);
  }

  // ---- Invariant of the interleaving ----

  /** What an RPC under way has seen of its path still holds. */
  ghost predicate WorkInv(s: State, w: Work, path: Path) {
    && PathOf(w.rpc) == Some(path)
    && (w.pc in {Unmounted, Blank, Formatted, Bindable} ==> Count(s.mounts, path) == 0)
    && (w.pc.Detached? ==> Clear(s, path))
  }

  ghost predicate SysInv(y: System, inUse: iset<Path>) {
    && AllAt(y) && Inv(y.st, inUse)
    && (forall p :: p in y.works ==> p in inUse && WorkInv(y.st, y.works[p], p))
  }

  ghost predicate EventUses(e: StepEvent, inUse: iset<Path>) {
    e.Begin? && PathOf(e.rpc).Some? ==> PathOf(e.rpc).value in inUse
  }

  ghost predicate AllEventsUse(es: seq<StepEvent>, inUse: iset<Path>) {
    forall i :: 0 <= i < |es| ==> EventUses(es[i], inUse)
  }

  /** Mounts change on one path only, and do not come to stack there. */
  ghost predicate MountsLocal(m: seq<Entry>, m': seq<Entry>, path: Path) {
    && (forall q :: q != path ==> Count(m', q) == Count(m, q))
    && (Count(m', path) <= 1 || Count(m', path) <= Count(m, path))
    && (forall e :: e in m' ==> e in m || e.path == path)
    && (forall q :: q != path ==> FirstAt(m', q) == FirstAt(m, q))
  }

  lemma AppendIsLocal(m: seq<Entry>, e: Entry, path: Path)
    requires Count(m, path) == 0 && e.path == path
    ensures MountsLocal(m, m + [e], path)
  {
    forall q ensures q != path ==> Count(m + [e], q) == Count(m, q) && FirstAt(m + [e], q) == FirstAt(m, q) {
      AppendMount(m, e, q);
    }
    AppendMount(m, e, path);
  }

  lemma DetachIsLocal(m: seq<Entry>, path: Path)
    ensures MountsLocal(m, Detach(m, path), path)
    ensures Count(m, path) <= 1 ==> Count(Detach(m, path), path) == 0
  {
    forall q
      ensures q != path ==> Count(Detach(m, path), q) == Count(m, q) && FirstAt(Detach(m, path), q) == FirstAt(m, q)
    {
      DetachMount(m, path, q);
    }
    DetachMount(m, path, path);
  }

  /** What one step does to the shared state: mounts change on its own path, and a device changes
      only when it is formatted. */
  ghost predicate Local(s: State, s': State, w: Work, path: Path) {
    && MountsLocal(s.mounts, s'.mounts, path)
    && forall d :: SameDevice(s, s', d) || (w.pc.Blank? && w.faults.device == Some(d))
  }

  lemma BeginIsLocal(s: State, w: Work, path: Path)
    requires w.pc.Begun? && WorkInv(s, w, path)
    ensures var n := BeginStep(s, w.rpc, w.faults, path);
            Local(s, n.st, w, path) && WorkInv(n.st, w.(pc := n.pc), path)
  {
    var n := BeginStep(s, w.rpc, w.faults, path);
    assert n.st == s.(files := n.st.files);
    assert n.pc.Created? || n.pc.Ended?;
  }

  lemma CheckIsLocal(s: State, w: Work, path: Path, inUse: iset<Path>)
    requires w.pc.Created? && At(w.rpc, w.faults, Created) && Inv(s, inUse) && path in inUse && WorkInv(s, w, path)
    ensures var n := CheckStep(s, w.rpc, w.faults, path);
            n.st == s && WorkInv(s, w.(pc := n.pc), path)
  {
    CountZero(s.mounts, path);
  }

  lemma ProbeIsLocal(s: State, w: Work, path: Path)
    requires w.pc.Unmounted? && At(w.rpc, w.faults, w.pc) && WorkInv(s, w, path)
    ensures var n := Advance(s, w.rpc, w.faults, path, w.pc);
            n.st == s && WorkInv(n.st, w.(pc := n.pc), path)
  {
  }

  lemma MkfsIsLocal(s: State, w: Work, path: Path)
    requires w.pc.Blank? && At(w.rpc, w.faults, w.pc) && WorkInv(s, w, path)
    ensures var n := Advance(s, w.rpc, w.faults, path, w.pc);
            Local(s, n.st, w, path) && WorkInv(n.st, w.(pc := n.pc), path)
  {
    var n := Advance(s, w.rpc, w.faults, path, w.pc);
    assert n.st.mounts == s.mounts && (n.pc.Formatted? || n.pc.Ended?);
  }

  lemma MountIsLocal(s: State, w: Work, path: Path)
    requires w.pc.Formatted? && At(w.rpc, w.faults, w.pc) && WorkInv(s, w, path)
    ensures var n := Advance(s, w.rpc, w.faults, path, w.pc);
            Local(s, n.st, w, path) && WorkInv(n.st, w.(pc := n.pc), path)
  {
    var e := StageEntry(w.rpc, w.faults.device.value, path);
    AppendIsLocal(s.mounts, e, path);
    assert Advance(s, w.rpc, w.faults, path, w.pc) ==
           if w.faults.mount != MountOk then Next(s, Ended(Internal)) else Next(AddMount(s, e), Ended(Ok));
  }

  lemma BindMountIsLocal(s: State, e: Entry, f: Faults, path: Path)
    requires Count(s.mounts, path) == 0 && e.path == path
    ensures var t := BindMount(s, e, f).st; MountsLocal(s.mounts, t.mounts, path) && t == s.(mounts := t.mounts)
  {
    AppendIsLocal(s.mounts, e, path);
    AppendIsLocal(s.mounts, e.(opts := ["bind"]), path);
  }

  lemma BindIsLocal(s: State, w: Work, path: Path)
    requires w.pc.Bindable? && At(w.rpc, w.faults, w.pc) && WorkInv(s, w, path)
    ensures var n := Advance(s, w.rpc, w.faults, path, w.pc);
            Local(s, n.st, w, path) && WorkInv(n.st, w.(pc := n.pc), path)
  {
    var e := BindStepEntry(s, w.rpc, w.faults.device.value, path);
    BindMountIsLocal(s, e, w.faults, path);
    assert Advance(s, w.rpc, w.faults, path, w.pc) == Continue(BindMount(s, e, w.faults), Ended(Ok));
  }

  lemma UmountIsLocal(s: State, w: Work, path: Path, inUse: iset<Path>)
    requires w.pc.Attached? && At(w.rpc, w.faults, w.pc)
    requires Inv(s, inUse) && path in inUse && WorkInv(s, w, path)
    ensures var n := Advance(s, w.rpc, w.faults, path, w.pc);
            Local(s, n.st, w, path) && WorkInv(n.st, w.(pc := n.pc), path)
  {
    DetachIsLocal(s.mounts, path);
    CountZero(Detach(s.mounts, path), path);
  }

  lemma DeleteIsLocal(s: State, w: Work, path: Path)
    requires w.pc.Detached? && At(w.rpc, w.faults, w.pc) && WorkInv(s, w, path)
    ensures var n := Advance(s, w.rpc, w.faults, path, w.pc);
            Local(s, n.st, w, path) && WorkInv(n.st, w.(pc := n.pc), path)
  {
  }

  lemma AdvanceIsLocal(s: State, w: Work, path: Path, inUse: iset<Path>)
    requires At(w.rpc, w.faults, w.pc) && Inv(s, inUse) && path in inUse && WorkInv(s, w, path)
    ensures var n := Advance(s, w.rpc, w.faults, path, w.pc);
            Local(s, n.st, w, path) && WorkInv(n.st, w.(pc := n.pc), path)
  {
    match w.pc
    case Begun => BeginIsLocal(s, w, path);
    case Created => CheckIsLocal(s, w, path, inUse);
    case Unmounted => ProbeIsLocal(s, w, path);
    case Blank => MkfsIsLocal(s, w, path);
    case Formatted => MountIsLocal(s, w, path);
    case Bindable => BindIsLocal(s, w, path);
    case Attached => UmountIsLocal(s, w, path, inUse);
    case Detached => DeleteIsLocal(s, w, path);
    case Ended(_) =>
  }

  /** Local changes at one path in use leave the table invariant intact. */
  lemma LocalKeepsInv(m: seq<Entry>, s: State, path: Path, inUse: iset<Path>, s': State)
    requires PrefixFree(inUse) && Inv(s, inUse) && path in inUse && m == s'.mounts && MountsLocal(s.mounts, m, path)
    ensures Inv(s', inUse)
  {
  }

  /** What another RPC has seen survives the step, because paths in use are prefix-free. */
  lemma OtherWorkKept(s: State, s': State, path: Path, other: Work, q: Path, inUse: iset<Path>)
    requires PrefixFree(inUse) && path in inUse && q in inUse && q != path
    requires MountsLocal(s.mounts, s'.mounts, path) && WorkInv(s, other, q)
    ensures WorkInv(s', other, q)
  {
  }

  /** A local step of one RPC that keeps its own part of the invariant keeps all of it. */
  lemma LocalStepKeepsInv(y: System, path: Path, n: Next, inUse: iset<Path>)
    requires PrefixFree(inUse) && SysInv(y, inUse) && path in y.works
    requires var w := y.works[path];
             && Local(y.st, n.st, w, path) && WorkInv(n.st, w.(pc := n.pc), path)
             && At(w.rpc, w.faults, n.pc)
    ensures SysInv(System(n.st, y.works[path := y.works[path].(pc := n.pc)]), inUse)
  {
    var y' := System(n.st, y.works[path := y.works[path].(pc := n.pc)]);
    LocalKeepsInv(n.st.mounts, y.st, path, inUse, n.st);
    forall q | q in y'.works ensures q in inUse && WorkInv(y'.st, y'.works[q], q) {
      if q != path {
        OtherWorkKept(y.st, n.st, path, y.works[q], q, inUse);
      }
    }
  }

  lemma ProceedKeepsInv(y: System, path: Path, inUse: iset<Path>)
    requires PrefixFree(inUse) && SysInv(y, inUse) && path in y.works
    ensures SysInv(SysStep(y, Proceed(path)), inUse)
  {
    var w := y.works[path];
    AdvanceIsLocal(y.st, w, path, inUse);
    LocalStepKeepsInv(y, path, Advance(y.st, w.rpc, w.faults, path, w.pc), inUse);
  }

  lemma SysStepKeepsInv(y: System, e: StepEvent, inUse: iset<Path>)
    requires PrefixFree(inUse) && SysInv(y, inUse) && EventUses(e, inUse)
    ensures SysInv(SysStep(y, e), inUse)
  {
    var y' := SysStep(y, e);
    if e.Proceed? && e.path in y.works {
      ProceedKeepsInv(y, e.path, inUse);
    } else {
      forall p | p in y'.works ensures p in inUse && WorkInv(y'.st, y'.works[p], p) {
        if p in y.works {
          assert WorkInv(y.st, y.works[p], p);
        }
      }
    }
  }

  /** Safety over every interleaving of RPCs serialised per path, with failures anywhere: mounts
      never stack, and every recursive delete about to run has nothing mounted at or below its
      path. */
  lemma {:induction false} InterleavingsAreSafe(y: System, es: seq<StepEvent>, inUse: iset<Path>)
    requires PrefixFree(inUse) && SysInv(y, inUse) && AllEventsUse(es, inUse)
    ensures SysInv(SysRun(y, es), inUse)
    ensures forall p :: p in SysRun(y, es).works && SysRun(y, es).works[p].pc.Detached? ==> Clear(SysRun(y, es).st, p)
  {
    if es != [] {
      InterleavingsAreSafe(y, es[..|es| - 1], inUse);
      SysStepKeepsInv(SysRun(y, es[..|es| - 1]), es[|es| - 1], inUse);
    }
  }

  /** In every interleaving, the recursive delete of unmountVolume changes no device's data. */
  lemma DeleteChangesNoData(y: System, es: seq<StepEvent>, inUse: iset<Path>, path: Path, leftover: set<Path>)
    requires PrefixFree(inUse) && SysInv(y, inUse) && AllEventsUse(es, inUse)
    requires path in SysRun(y, es).works && SysRun(y, es).works[path].pc.Detached?
    ensures RemoveAll(SysRun(y, es).st, path, leftover).st.contents == SysRun(y, es).st.contents
  {
    InterleavingsAreSafe(y, es, inUse);
    var s := SysRun(y, es).st;
    assert forall d :: !Reaches(s.mounts, path, d);
  }

  // ---- Runs of whole RPCs are interleavings ----

  function Proceeds(path: Path, n: nat): (r: seq<StepEvent>)
    ensures |r| == n && forall i :: 0 <= i < n ==> r[i] == Proceed(path)
  {
    if n == 0 then [] else [Proceed(path)] + Proceeds(path, n - 1)
  }

  /** The RPC on `path` takes all its remaining turns. */
  function Finish(y: System, path: Path): System
    requires AllAt(y) && path in y.works
    decreases Rank(y.works[path].pc)
  {
    if y.works[path].pc.Ended? then y else Finish(SysStep(y, Proceed(path)), path)
  }

  lemma {:induction false} ProceedsFinish(y: System, path: Path, n: nat)
    requires AllAt(y) && path in y.works && n >= Rank(y.works[path].pc)
    ensures SysRun(y, Proceeds(path, n)) == Finish(y, path)
    decreases n
  {
    if n > 0 {
      var y1 := SysStep(y, Proceed(path));
      SysCons(y, Proceed(path), Proceeds(path, n - 1));
      if y.works[path].pc.Ended? {
        assert y1.works == y.works;
      }
      ProceedsFinish(y1, path, n - 1);
    }
  }

  /** All turns in a row are the uninterrupted steps. */
  lemma {:induction false} FinishIsDrive(y: System, path: Path)
    requires AllAt(y) && path in y.works
    ensures var w := y.works[path];
            var o := Drive(y.st, w.rpc, w.faults, path, w.pc);
            Finish(y, path) == System(o.st, y.works[path := w.(pc := Ended(o.status))])
    decreases Rank(y.works[path].pc)
  {
    var w := y.works[path];
    if w.pc.Ended? {
      assert y.works[path := w] == y.works;
    } else {
      var m := Advance(y.st, w.rpc, w.faults, path, w.pc);
      FinishIsDrive(System(m.st, y.works[path := w.(pc := m.pc)]), path);
    }
  }

  /** The steps of one event of a run: an RPC begins and gets five turns. */
  function Steps(e: Event): seq<StepEvent> {
    match e
    case Call(rpc, f) =>
      if PathOf(rpc).None? then [] else [Begin(rpc, f)] + Proceeds(PathOf(rpc).value, 5)
    case Write(device, data) => [UserWrite(device, data)]
  }

  function AllSteps(es: seq<Event>): seq<StepEvent> {
    if es == [] then [] else AllSteps(es[..|es| - 1]) + Steps(es[|es| - 1])
  }

  ghost predicate AllEnded(y: System) {
    forall p :: p in y.works ==> y.works[p].pc.Ended?
  }

  lemma StepsFinish(y: System, rpc: Rpc, f: Faults)
    requires AllAt(y) && MayBegin(y, rpc)
    ensures var p := PathOf(rpc).value;
            SysRun(y, Steps(Call(rpc, f))) == Finish(System(y.st, y.works[p := Work(rpc, f, Begun)]), p)
  {
    var p := PathOf(rpc).value;
    SysCons(y, Begin(rpc, f), Proceeds(p, 5));
    ProceedsFinish(System(y.st, y.works[p := Work(rpc, f, Begun)]), p, 5);
  }

  lemma DriveAmid(y: System, rpc: Rpc, f: Faults)
    requires AllAt(y) && MayBegin(y, rpc)
    ensures var p := PathOf(rpc).value;
            var o := Drive(y.st, rpc, f, p, Begun);
            SysRun(y, Steps(Call(rpc, f))) == System(o.st, y.works[p := Work(rpc, f, Ended(o.status))])
  {
    var p, w := PathOf(rpc).value, Work(rpc, f, Begun);
    StepsFinish(y, rpc, f);
    FinishIsDrive(System(y.st, y.works[p := w]), p);
    UpdateTwice(y.works, p, w, Work(rpc, f, Ended(Drive(y.st, rpc, f, p, Begun).status)));
  }

  lemma UpdateTwice(works: map<Path, Work>, p: Path, a: Work, b: Work)
    ensures works[p := a][p := b] == works[p := b]
  {
  }

  /** An RPC that gets all its turns at once, amid others under way, is its transition. */
  lemma CallAmid(y: System, rpc: Rpc, f: Faults)
    requires AllAt(y) && MayBegin(y, rpc)
    ensures var p, o := PathOf(rpc).value, Exec(y.st, rpc, f);
            SysRun(y, Steps(Call(rpc, f))) == System(o.st, y.works[p := Work(rpc, f, Ended(o.status))])
  {
    DriveAmid(y, rpc, f);
    StepsAreExec(y.st, rpc, f);
  }

  lemma StepIsSteps(y: System, e: Event)
    requires AllAt(y) && AllEnded(y)
    ensures SysRun(y, Steps(e)).st == Step(y.st, e) && AllEnded(SysRun(y, Steps(e)))
  {
    match e
    case Call(rpc, f) =>
      if PathOf(rpc).Some? {
        CallAmid(y, rpc, f);
      }
    case Write(device, data) =>
      SysCons(y, UserWrite(device, data), []);
      assert [UserWrite(device, data)] + [] == [UserWrite(device, data)];
  }

  /** A run of whole RPCs is the interleaving in which each RPC gets all its turns at once. */
  lemma {:induction false} RunIsSysRun(s: State, es: seq<Event>)
    ensures SysRun(System(s, map[]), AllSteps(es)).st == Run(s, es) && AllEnded(SysRun(System(s, map[]), AllSteps(es)))
  {
    var y := System(s, map[]);
    if es != [] {
      var n := |es| - 1;
      RunIsSysRun(s, es[..n]);
      SysConcat(y, AllSteps(es[..n]), Steps(es[n]));
      StepIsSteps(SysRun(y, AllSteps(es[..n])), es[n]);
    }
  }

  lemma {:induction false} AllStepsUse(es: seq<Event>, inUse: iset<Path>)
    requires AllUse(es, inUse)
    ensures AllEventsUse(AllSteps(es), inUse)
  {
    if es != [] {
      var n := |es| - 1;
      AllStepsUse(es[..n], inUse);
      assert Uses(es[n], inUse);
      assert forall i :: 0 <= i < |Steps(es[n])| ==> EventUses(Steps(es[n])[i], inUse);
    }
  }

  /** Delete safety for runs of whole RPCs: where unmountVolume is about to delete recursively,
      nothing is mounted at or below the path, and the delete changes no device's data. */
  lemma DeleteIsSafe(s: State, es: seq<Event>, inUse: iset<Path>, path: Path, f: Faults)
    requires PrefixFree(inUse) && Inv(s, inUse) && AllUse(es, inUse) && path in inUse
    ensures var d := DetachStep(Run(s, es), path, f);
            d.status == Ok ==>
              Clear(d.st, path) && RemoveAll(d.st, path, f.leftover).st.contents == Run(s, es).contents
  {
    RunKeepsInv(s, es, inUse);
    var t := Run(s, es);
    var d := DetachStep(t, path, f).st;
    CountZero(t.mounts, path);
    DetachIsLocal(t.mounts, path);
    CountZero(Detach(t.mounts, path), path);
    assert DetachStep(t, path, f).status == Ok ==> Clear(d, path);
    assert DetachStep(t, path, f).status == Ok ==> forall x :: !Reaches(d.mounts, path, x);
  }
}
