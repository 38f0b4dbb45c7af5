/**
 Publishing while other RPCs are under way: as long as the staging path stays mounted, every
 filesystem publish from it that succeeds lands on the staged device.
 */
module NodePublish {
  import opened Text
  import opened NodeModel
  import opened NodeRuns
  import opened NodeSteps
  import opened NodeSystem

  /** A filesystem publish from the staging path `source`. */
  predicate PublishesFrom(rpc: Rpc, source: Path) {
    rpc.Publish? && rpc.cap.Mount? && rpc.staging.Some? && StagingPath(rpc.staging.value, rpc.volume) == source
  }

  /** The target is mounted on the staged device with every flag asked for, except "rw" where the
      publish mounted read-only. */
  ghost predicate Landed(mounts: seq<Entry>, rpc: Rpc, target: Path, staged: Entry)
    requires rpc.Publish? && rpc.cap.Mount?
  {
    var m := FirstAt(mounts, target);
    && m.Some? && m.value.device == staged.device
    && forall o :: o in rpc.cap.flags ==> o in m.value.opts || (o == "rw" && rpc.readonly && "ro" in m.value.opts)
  }

  predicate Unmounting(rpc: Rpc) { rpc.Unpublish? || rpc.Unstage? }

  /** `staged` is mounted at `source`, and nothing under way unmounts it. */
  ghost predicate Staged(y: System, source: Path, staged: Entry) {
    && FirstAt(y.st.mounts, source) == Some(staged)
    && (source in y.works && Unmounting(y.works[source].rpc) ==> y.works[source].pc.Ended?)
  }

  /** Every publish from `source` that succeeded on one of the `targets` has landed. */
  ghost predicate AllLanded(y: System, targets: iset<Path>, source: Path, staged: Entry) {
    forall t :: t in targets && t in y.works && PublishesFrom(y.works[t].rpc, source) && y.works[t].pc == Ended(Ok) ==>
      Landed(y.st.mounts, y.works[t].rpc, t, staged)
  }

  /** The paths whose last RPC was under way at `y` or began in `es`; on all others it had ended. */
  ghost function Recent(y: System, es: seq<StepEvent>): iset<Path> {
    iset t: Path | (t in y.works ==> !y.works[t].pc.Ended?)
                   || exists i :: 0 <= i < |es| && es[i].Begin? && PathOf(es[i].rpc) == Some(t)
  }

  ghost predicate NeverUnmounted(es: seq<StepEvent>, source: Path) {
    forall i :: 0 <= i < |es| && es[i].Begin? && PathOf(es[i].rpc) == Some(source) ==> !Unmounting(es[i].rpc)
  }

  /** A step on the staging path itself, short of an unmount, leaves the mount table alone. */
  lemma MountedStays(s: State, w: Work, path: Path)
    requires At(w.rpc, w.faults, w.pc) && WorkInv(s, w, path) && Mounted(s, path)
    requires Unmounting(w.rpc) ==> w.pc.Ended?
    ensures Advance(s, w.rpc, w.faults, path, w.pc).st.mounts == s.mounts
  {
    CountZero(s.mounts, path);
  }

  lemma DetectLands(s: State, w: Work, path: Path, source: Path, staged: Entry)
    requires w.pc.Created? && At(w.rpc, w.faults, w.pc) && PublishesFrom(w.rpc, source)
    requires FirstAt(s.mounts, source) == Some(staged)
    ensures var n := CheckStep(s, w.rpc, w.faults, path);
            n.st == s && (n.pc == Ended(Ok) ==> Landed(s.mounts, w.rpc, path, staged))
  {
  }

  lemma BindLands(s: State, w: Work, path: Path, source: Path, staged: Entry)
    requires w.pc.Bindable? && At(w.rpc, w.faults, w.pc) && WorkInv(s, w, path) && PublishesFrom(w.rpc, source)
    requires FirstAt(s.mounts, source) == Some(staged) && Count(s.mounts, source) <= 1
    ensures var n := Advance(s, w.rpc, w.faults, path, w.pc);
            n.pc == Ended(Ok) ==> Landed(n.st.mounts, w.rpc, path, staged)
  {
    var e := BindStepEntry(s, w.rpc, w.faults.device.value, path);
    TopIsFirst(s.mounts, source);
    CountZero(s.mounts, path);
    AppendMount(s.mounts, e, path);
    FlagsOfBind(w.rpc.cap, w.rpc.readonly);
    assert Advance(s, w.rpc, w.faults, path, w.pc) == Continue(BindMount(s, e, w.faults), Ended(Ok));
  }

  /** The step with which a publish succeeds lands it. */
  lemma SuccessLands(s: State, w: Work, path: Path, source: Path, staged: Entry)
    requires At(w.rpc, w.faults, w.pc) && WorkInv(s, w, path) && PublishesFrom(w.rpc, source) && !w.pc.Ended?
    requires FirstAt(s.mounts, source) == Some(staged) && Count(s.mounts, source) <= 1
    ensures var n := Advance(s, w.rpc, w.faults, path, w.pc);
            n.pc == Ended(Ok) ==> Landed(n.st.mounts, w.rpc, path, staged)
  {
    match w.pc
    case Created => DetectLands(s, w, path, source, staged);
    case Bindable => BindLands(s, w, path, source, staged);
    case _ =>
  }

  lemma LocalKeepsLanded(y: System, path: Path, n: Next, targets: iset<Path>, source: Path, staged: Entry)
    requires path in y.works && Staged(y, source, staged) && AllLanded(y, targets, source, staged)
    requires MountsLocal(y.st.mounts, n.st.mounts, path) && (path == source ==> n.st.mounts == y.st.mounts)
    requires y.works[path].pc.Ended? ==> n == Next(y.st, y.works[path].pc)
    requires PublishesFrom(y.works[path].rpc, source) && n.pc == Ended(Ok) && !y.works[path].pc.Ended? ==>
               Landed(n.st.mounts, y.works[path].rpc, path, staged)
    ensures var z := System(n.st, y.works[path := y.works[path].(pc := n.pc)]);
            Staged(z, source, staged) && AllLanded(z, targets, source, staged)
  {
  }

  lemma ProceedKeepsLanded(
    y: System, path: Path, inUse: iset<Path>, targets: iset<Path>, source: Path, staged: Entry)
    requires PrefixFree(inUse) && SysInv(y, inUse) && source in inUse && path in y.works
    requires Staged(y, source, staged) && AllLanded(y, targets, source, staged)
    ensures var z := SysStep(y, Proceed(path)); Staged(z, source, staged) && AllLanded(z, targets, source, staged)
  {
    var w := y.works[path];
    AdvanceIsLocal(y.st, w, path, inUse);
    if path == source {
      MountedStays(y.st, w, path);
    }
    if PublishesFrom(w.rpc, source) && !w.pc.Ended? {
      SuccessLands(y.st, w, path, source, staged);
    }
    LocalKeepsLanded(y, path, Advance(y.st, w.rpc, w.faults, path, w.pc), targets, source, staged);
  }

  lemma SysStepKeepsLanded(
    y: System, e: StepEvent, inUse: iset<Path>, targets: iset<Path>, source: Path, staged: Entry)
    requires PrefixFree(inUse) && SysInv(y, inUse) && source in inUse
    requires Staged(y, source, staged) && AllLanded(y, targets, source, staged)
    requires e.Begin? && PathOf(e.rpc) == Some(source) ==> !Unmounting(e.rpc)
    ensures var z := SysStep(y, e); Staged(z, source, staged) && AllLanded(z, targets, source, staged)
  {
    if e.Proceed? && e.path in y.works {
      ProceedKeepsLanded(y, e.path, inUse, targets, source, staged);
    }
  }

  /** An RPC that had ended stays on record until another one begins on its path. */
  lemma {:induction false} EarlierKept(y: System, es: seq<StepEvent>, t: Path)
    requires AllAt(y) && t !in Recent(y, es)
    ensures t in SysRun(y, es).works && SysRun(y, es).works[t] == y.works[t]
  {
    if es != [] {
      var n := |es| - 1;
      assert t !in Recent(y, es[..n]) by {
        assert forall i :: 0 <= i < n ==> es[..n][i] == es[i];
      }
      EarlierKept(y, es[..n], t);
      assert es[n].Begin? ==> PathOf(es[n].rpc) != Some(t);
    }
  }

  /** The path on which an RPC begins had no earlier success that could be taken for its own. */
  lemma BeginLands(y: System, es: seq<StepEvent>, e: StepEvent, source: Path, staged: Entry)
    requires AllAt(y) && e.Begin? && AllLanded(SysRun(y, es), Recent(y, es), source, staged)
    ensures AllLanded(SysStep(SysRun(y, es), e), Recent(y, es + [e]), source, staged)
  {
    var z := SysRun(y, es);
    var z' := SysStep(z, e);
    forall t | t in Recent(y, es + [e]) && t in z'.works && PublishesFrom(z'.works[t].rpc, source)
               && z'.works[t].pc == Ended(Ok)
      ensures Landed(z'.st.mounts, z'.works[t].rpc, t, staged)
    {
      if t !in Recent(y, es) {
        EarlierKept(y, es, t);
      }
    }
  }

  /** In every interleaving in which the staging path is not unmounted, its mount stays, and every
      filesystem publish from it that succeeds on the way, whatever else is under way and whatever
      was published from it before, leaves its target on the staged device with the flags asked for. */
  lemma {:induction false} PublishesLand(y: System, es: seq<StepEvent>, inUse: iset<Path>, source: Path, staged: Entry)
    requires PrefixFree(inUse) && SysInv(y, inUse) && source in inUse && Staged(y, source, staged)
    requires AllEventsUse(es, inUse) && NeverUnmounted(es, source)
    ensures Staged(SysRun(y, es), source, staged)
    ensures AllLanded(SysRun(y, es), Recent(y, es), source, staged)
  {
    if es != [] {
      var n := |es| - 1;
      var z := SysRun(y, es[..n]);
      assert es == es[..n] + [es[n]];
      PublishesLand(y, es[..n], inUse, source, staged);
      InterleavingsAreSafe(y, es[..n], inUse);
      SysStepKeepsLanded(z, es[n], inUse, Recent(y, es[..n]), source, staged);
      if es[n].Begin? {
        BeginLands(y, es[..n], es[n], source, staged);
      } else {
        SameRecent(y, es);
      }
    }
  }

  lemma SameRecent(y: System, es: seq<StepEvent>)
    requires es != [] && !es[|es| - 1].Begin?
    ensures Recent(y, es) == Recent(y, es[..|es| - 1])
  {
    var init := es[..|es| - 1];
    assert forall i :: 0 <= i < |init| ==> init[i] == es[i];
  }

  // ---- From the stage on ----

  /** The step with which a filesystem stage succeeds. */
  predicate StageSucceeds(y: System, source: Path)
    requires AllAt(y)
  {
    && source in y.works && !y.works[source].pc.Ended?
    && y.works[source].rpc.Stage? && y.works[source].rpc.cap.Mount?
    && SysStep(y, Proceed(source)).works[source].pc == Ended(Ok)
  }

  /** The path is mounted as the stage request asked, on the device it found. */
  ghost predicate MountedAsAsked(mounts: seq<Entry>, w: Work, path: Path)
    requires w.rpc.Stage? && w.rpc.cap.Mount?
  {
    var m := FirstAt(mounts, path);
    && m.Some? && Some(m.value.device) == w.faults.device
    && m.value.fsType == FsType(w.rpc.cap) && FlagsPresent(m.value.opts, w.rpc.cap.flags)
  }

  lemma MountStepLeaves(s: State, w: Work, path: Path)
    requires w.pc.Formatted? && At(w.rpc, w.faults, w.pc) && w.rpc.cap.Mount? && Count(s.mounts, path) == 0
    ensures MountedAsAsked(AddMount(s, StageEntry(w.rpc, w.faults.device.value, path)).mounts, w, path)
  {
    CountZero(s.mounts, path);
    AppendMount(s.mounts, StageEntry(w.rpc, w.faults.device.value, path), path);
  }

  lemma CheckStepLeaves(s: State, w: Work, path: Path)
    requires w.pc.Created? && At(w.rpc, w.faults, w.pc) && w.rpc.Stage? && w.rpc.cap.Mount?
    requires CheckStep(s, w.rpc, w.faults, path).pc == Ended(Ok)
    ensures MountedAsAsked(s.mounts, w, path)
  {
  }

  lemma StageStepLeaves(s: State, w: Work, path: Path)
    requires At(w.rpc, w.faults, w.pc) && WorkInv(s, w, path) && w.rpc.Stage? && w.rpc.cap.Mount? && !w.pc.Ended?
    requires Advance(s, w.rpc, w.faults, path, w.pc).pc == Ended(Ok)
    ensures MountedAsAsked(Advance(s, w.rpc, w.faults, path, w.pc).st.mounts, w, path)
  {
    match w.pc
    case Formatted => MountStepLeaves(s, w, path);
    case Created => CheckStepLeaves(s, w, path);
    case _ =>
  }

  /** It leaves the device it found mounted, with the type and the flags asked for. */
  lemma StageLeavesMount(y: System, inUse: iset<Path>, source: Path)
    requires SysInv(y, inUse) && StageSucceeds(y, source)
    ensures var z := SysStep(y, Proceed(source));
            && MountedAsAsked(z.st.mounts, y.works[source], source)
            && Staged(z, source, FirstAt(z.st.mounts, source).value)
  {
    StageStepLeaves(y.st, y.works[source], source);
  }

  /** From the last step of a successful filesystem stage, in every interleaving without its
      unstage, the device it found stays mounted at the staging path as asked, and every successful
      publish from there leaves its target on that device with the flags asked for. */
  lemma StagedThenPublished(y: System, es: seq<StepEvent>, inUse: iset<Path>, source: Path)
    requires PrefixFree(inUse) && SysInv(y, inUse) && StageSucceeds(y, source)
    requires AllEventsUse(es, inUse) && NeverUnmounted(es, source)
    ensures var z := SysStep(y, Proceed(source));
            && MountedAsAsked(SysRun(z, es).st.mounts, y.works[source], source)
            && AllLanded(SysRun(z, es), Recent(z, es), source, FirstAt(SysRun(z, es).st.mounts, source).value)
  {
    var z := SysStep(y, Proceed(source));
    StageLeavesMount(y, inUse, source);
    SysStepKeepsInv(y, Proceed(source), inUse);
    PublishesLand(z, es, inUse, source, FirstAt(z.st.mounts, source).value);
  }
}
