/**
 When an RPC of the node service succeeds if no external call fails, and what failed
 attempts leave for the next one: a stage can always be retried, a publish cannot when its
 option remount failed, until it is unpublished.
 */
module NodeRetry {
  import opened Text
  import opened NodeModel
  import opened NodeRuns

  /** No external call of the RPC fails. */
  predicate FaultFree(f: Faults) { Quiet(f) && f.mkfs.MkfsOk? && f.mount.MountOk? }

  // ---- Unmounting ----

  /** Mounts on paths in use sit on paths that exist. */
  ghost predicate Rooted(s: State, inUse: iset<Path>) {
    forall e :: e in s.mounts && e.path in inUse ==> e.path in s.files
  }

  /** No path is lost, and a new mount sits on an existing path. */
  ghost predicate PathsKept(s: State, s': State, path: Path) {
    && s.files.Keys <= s'.files.Keys
    && (forall e :: e in s'.mounts ==> e in s.mounts || (e.path == path && path in s'.files))
  }

  lemma BlockKeepsPaths(s: State, device: string, path: Path, readonly: bool, f: Faults)
    ensures PathsKept(s, MountBlockVolume(s, device, path, readonly, f).st, path)
  {
    var c := CreateFile(s, path, f);
    var e := BlockEntry(device, path, if readonly then ["bind", "ro"] else ["bind"]);
    var t := MountBlockVolume(s, device, path, readonly, f).st;
    assert t == c.st || (c.status == Ok && t == BindMount(c.st, e, f).st);
  }

  lemma BindKeepsPaths(s: State, source: Path, path: Path, cap: Capability, readonly: bool, f: Faults)
    ensures PathsKept(s, BindMountVolume(s, source, path, cap, readonly, f).st, path)
  {
  }

  lemma MountKeepsPaths(s: State, device: string, path: Path, cap: Capability, f: Faults)
    ensures PathsKept(s, MountMountVolume(s, device, path, cap, false, f).st, path)
  {
  }

  lemma MountingKeepsPaths(s: State, rpc: Rpc, f: Faults)
    requires (rpc.Stage? || rpc.Publish?) && PathOf(rpc).Some?
    ensures PathsKept(s, Exec(s, rpc, f).st, PathOf(rpc).value)
  {
    if f.device.Some? && rpc.staging.Some? {
      var d, p := f.device.value, PathOf(rpc).value;
      if rpc.cap.Block? {
        BlockKeepsPaths(s, d, p, rpc.Publish? && rpc.readonly, f);
      } else if rpc.Stage? {
        MountKeepsPaths(s, d, p, rpc.cap, f);
      } else {
        BindKeepsPaths(s, StagingPath(rpc.staging.value, rpc.volume), p, rpc.cap, rpc.readonly, f);
      }
    }
  }

  lemma UnmountingKeepsPaths(s: State, inUse: iset<Path>, path: Path, f: Faults)
    requires PrefixFree(inUse) && Inv(s, inUse) && Rooted(s, inUse) && path in inUse
    ensures Rooted(UnmountVolume(s, path, f).st, inUse)
  {
    DetachMount(s.mounts, path, path);
    CountZero(Detach(s.mounts, path), path);
    CountZero(s.mounts, path);
  }

  /** Runs of whole RPCs keep mounts on existing paths. */
  lemma {:induction false} RunKeepsRooted(s: State, es: seq<Event>, inUse: iset<Path>)
    requires PrefixFree(inUse) && Inv(s, inUse) && Rooted(s, inUse) && AllUse(es, inUse)
    ensures Rooted(Run(s, es), inUse)
  {
    if es != [] {
      var n := |es| - 1;
      var t, e := Run(s, es[..n]), es[n];
      RunKeepsRooted(s, es[..n], inUse);
      RunKeepsInv(s, es[..n], inUse);
      assert Uses(e, inUse);
      if e.Call? && PathOf(e.rpc).Some? {
        if e.rpc.Stage? || e.rpc.Publish? {
          MountingKeepsPaths(t, e.rpc, e.faults);
        } else {
          UnmountingKeepsPaths(t, inUse, PathOf(e.rpc).value, e.faults);
        }
      }
    }
  }

  /** The umount of a path in use leaves nothing mounted at or below it. */
  lemma DetachClears(s: State, inUse: iset<Path>, path: Path, f: Faults)
    requires Inv(s, inUse) && path in inUse && Quiet(f)
    ensures var d := DetachStep(s, path, f);
            d.status == Ok && Clear(d.st, path) && d.st == s.(mounts := d.st.mounts)
  {
    DetachMount(s.mounts, path, path);
    CountZero(Detach(s.mounts, path), path);
    CountZero(s.mounts, path);
  }

  /** The recursive delete of a path nothing is mounted at or below. */
  lemma RemoveClear(s: State, path: Path)
    requires Clear(s, path)
    ensures var o := RemoveAll(s, path, {});
            o.status == Ok && path !in o.st.files && o.st == s.(files := o.st.files)
  {
    assert forall x :: !Reaches(s.mounts, path, x);
    assert RemoveAll(s, path, {}).st.contents == s.contents;
  }

  /** An unpublish or unstage in which no call fails always succeeds: the path is gone, nothing is
      mounted at or below it, and no device is changed. */
  lemma UnmountSucceeds(s: State, inUse: iset<Path>, rpc: Rpc, f: Faults)
    requires Inv(s, inUse) && Rooted(s, inUse) && Quiet(f)
    requires (rpc.Unpublish? || rpc.Unstage?) && rpc.volume != "" && PathOf(rpc).Some? && PathOf(rpc).value in inUse
    ensures var o, p := Exec(s, rpc, f), PathOf(rpc).value;
            && o.status == Ok && p !in o.st.files && Clear(o.st, p)
            && o.st.contents == s.contents && o.st.format == s.format
  {
    var p := PathOf(rpc).value;
    assert Exec(s, rpc, f) == UnmountVolume(s, p, f);
    if p in s.files {
      DetachClears(s, inUse, p, f);
      RemoveClear(DetachStep(s, p, f).st, p);
    }
  }

  /** An unpublish or unstage succeeds exactly when its arguments are valid and either its path does
      not exist or no call fails and everything at or below the path can be deleted. */
  lemma UnmountSucceedsExactly(s: State, rpc: Rpc, f: Faults)
    requires rpc.Unpublish? || rpc.Unstage?
    ensures Exec(s, rpc, f).status == Ok <==>
            && rpc.volume != "" && PathOf(rpc).Some? && !f.stat
            && var p := PathOf(rpc).value;
               p in s.files ==> && !f.check && (Mounted(s, p) ==> !f.umount)
                                && forall q :: q in s.files && p <= q ==> q !in f.leftover
  {
    if rpc.volume != "" && PathOf(rpc).Some? {
      var p := PathOf(rpc).value;
      assert Exec(s, rpc, f) == UnmountVolume(s, p, f);
      RemovesAll(DetachStep(s, p, f).st, p, f.leftover);
    }
  }

  lemma RemovesAll(s: State, path: Path, leftover: set<Path>)
    ensures var o := RemoveAll(s, path, leftover);
            && (o.status == Ok <==> forall q :: q in s.files && path <= q ==> q !in leftover)
            && (forall q :: q in o.st.files <==> q in s.files && (path <= q ==> q in leftover))
            && (forall q :: q in o.st.files ==> o.st.files[q] == s.files[q])
  {
    var o := RemoveAll(s, path, leftover).st;
    assert forall q :: q in s.files && path <= q && q in leftover ==> q in o.files;
  }

  // ---- Mounting ----

  /** The path is there with the right kind, or can be made. */
  predicate CanMake(s: State, path: Path, kind: Kind) {
    if path in s.files then s.files[path] == kind
    else if kind.Dir? then forall n :: 0 <= n < |path| && path[..n] in s.files ==> s.files[path[..n]].Dir?
    else path != [] && path[..|path| - 1] in s.files && s.files[path[..|path| - 1]].Dir?
  }

  /** The calls that make the path do not fail. */
  predicate Making(s: State, path: Path, f: Faults) { !f.stat && (path in s.files || !f.make) }

  lemma MakeDir(s: State, path: Path, f: Faults)
    ensures CreateDir(s, path, f).status == Ok <==> CanMake(s, path, Dir) && Making(s, path, f)
  {
    if path !in s.files {
      assert path == path[..|path|];
      assert forall p :: p in Prefixes(path) ==> exists n :: 0 <= n <= |path| && p == path[..n];
      assert forall n :: 0 <= n < |path| ==> path[..n] in Prefixes(path);
    }
  }

  /** What a mounted path must show for a filesystem request to be satisfied by it. */
  predicate Serves(s: State, path: Path, device: string, cap: Capability) {
    var m := FirstAt(s.mounts, path);
    && m.Some? && cap.Mount? && m.value.device == device && m.value.fsType == FsType(cap)
    && FlagsPresent(m.value.opts, cap.flags)
  }

  predicate ServesBlock(s: State, path: Path, device: string) {
    var m := FirstAt(s.mounts, path); m.Some? && Base(m.value.root) == Base(device)
  }

  /** The device is formatted, or may be. */
  predicate Ready(s: State, device: string, cap: Capability) {
    Format(s, device) != "" || !RefusesBlank(FsType(cap), Flags(cap))
  }

  /** What a stage needs when no call fails. */
  predicate StageFits(s: State, path: Path, device: string, cap: Capability) {
    if cap.Block? then CanMake(s, path, File) && (Mounted(s, path) ==> ServesBlock(s, path, device))
    else
      && CanMake(s, path, Dir)
      && if Mounted(s, path) then Serves(s, path, device, cap)
         else Ready(s, device, cap)
  }

  /** The calls a block mount makes do not fail. */
  predicate BlockCalls(s: State, path: Path, f: Faults) {
    Making(s, path, f) && !f.check && if Mounted(s, path) then !f.list else f.mount.MountOk?
  }

  /** The calls a filesystem stage makes do not fail. */
  predicate FsCalls(s: State, path: Path, device: string, f: Faults) {
    && Making(s, path, f) && !f.check
    && if Mounted(s, path) then !f.relist
       else !f.probe && (Format(s, device) != "" || f.mkfs.MkfsOk?) && f.mount.MountOk?
  }

  /** The calls a filesystem publish makes do not fail. */
  predicate BindCalls(s: State, path: Path, f: Faults) {
    && Making(s, path, f) && !f.check && !f.list
    && if Mounted(s, path) then !f.relist else f.mount.MountOk?
  }

  lemma BlockFits(s: State, device: string, path: Path, readonly: bool, f: Faults)
    ensures MountBlockVolume(s, device, path, readonly, f).status == Ok <==>
            && CanMake(s, path, File) && (Mounted(s, path) ==> ServesBlock(s, path, device))
            && BlockCalls(s, path, f)
  {
  }

  lemma MountFits(s: State, device: string, path: Path, cap: Capability, f: Faults)
    requires !cap.Block?
    ensures MountMountVolume(s, device, path, cap, false, f).status == Ok <==>
            StageFits(s, path, device, cap) && FsCalls(s, path, device, f)
  {
    MakeDir(s, path, f);
  }

  /** A stage succeeds exactly when its arguments are valid, its device is found, no call it makes
      fails, its path can be made, and the path already shows what is asked for or is unmounted with
      a device that is formatted or may be. */
  lemma StageSucceedsExactly(s: State, rpc: Rpc, f: Faults)
    requires rpc.Stage?
    ensures Exec(s, rpc, f).status == Ok <==>
            && rpc.volume != "" && rpc.staging.Some? && f.device.Some?
            && StageFits(s, PathOf(rpc).value, f.device.value, rpc.cap)
            && if rpc.cap.Block? then BlockCalls(s, PathOf(rpc).value, f)
               else FsCalls(s, PathOf(rpc).value, f.device.value, f)
  {
    if rpc.volume != "" && rpc.staging.Some? && f.device.Some? {
      if rpc.cap.Block? {
        BlockFits(s, f.device.value, PathOf(rpc).value, false, f);
      } else {
        MountFits(s, f.device.value, PathOf(rpc).value, rpc.cap, f);
      }
    }
  }

  /** What a filesystem publish needs when no call fails. */
  predicate PublishFits(s: State, source: Path, target: Path, cap: Capability) {
    && CanMake(s, target, Dir) && (source in s.files || (target !in s.files && source <= target))
    && (Mounted(s, target) ==> Mounted(s, source) && Serves(s, target, FirstAt(s.mounts, source).value.device, cap))
  }

  lemma BindFits(s: State, source: Path, target: Path, cap: Capability, readonly: bool, f: Faults)
    ensures BindMountVolume(s, source, target, cap, readonly, f).status == Ok <==>
            PublishFits(s, source, target, cap) && BindCalls(s, target, f)
  {
    MakeDir(s, target, f);
    assert source <= target <==> source in Prefixes(target) by {
      if source <= target {
        assert target[..|source|] == source;
      }
    }
  }

  /** A publish succeeds exactly when its arguments are valid, its device is found, no call it makes
      fails, its target can be made, its staging path exists, and a mounted target shows what is
      asked for; nothing asks for the staging path to be mounted. */
  lemma PublishSucceedsExactly(s: State, rpc: Rpc, f: Faults)
    requires rpc.Publish?
    ensures Exec(s, rpc, f).status == Ok <==>
            && rpc.volume != "" && rpc.staging.Some? && rpc.target.Some? && !rpc.cap.Missing? && f.device.Some?
            && if rpc.cap.Block? then
                 && CanMake(s, rpc.target.value, File) && BlockCalls(s, rpc.target.value, f)
                 && (Mounted(s, rpc.target.value) ==> ServesBlock(s, rpc.target.value, f.device.value))
               else
                 && PublishFits(s, StagingPath(rpc.staging.value, rpc.volume), rpc.target.value, rpc.cap)
                 && BindCalls(s, rpc.target.value, f)
  {
    if rpc.volume != "" && rpc.staging.Some? && rpc.target.Some? && !rpc.cap.Missing? && f.device.Some? {
      if rpc.cap.Block? {
        BlockFits(s, f.device.value, rpc.target.value, rpc.readonly, f);
      } else {
        BindFits(s, StagingPath(rpc.staging.value, rpc.volume), rpc.target.value, rpc.cap, rpc.readonly, f);
      }
    }
  }

  /** A filesystem publish that mounted reaches what is mounted at its staging path; where nothing
      is, it reports success with a directory of the host. */
  lemma PublishReaches(s: State, inUse: iset<Path>, rpc: Rpc, f: Faults)
    requires Inv(s, inUse) && rpc.Publish? && !rpc.cap.Block? && Exec(s, rpc, f).status == Ok
    requires StagingPath(rpc.staging.value, rpc.volume) in inUse && !Mounted(s, rpc.target.value)
    ensures var source := FirstAt(s.mounts, StagingPath(rpc.staging.value, rpc.volume));
            var m := FirstAt(Exec(s, rpc, f).st.mounts, rpc.target.value);
            m.Some? && m.value.backing == if source.Some? then source.value.backing else HOST_DEVICE
  {
    var source := StagingPath(rpc.staging.value, rpc.volume);
    TopIsFirst(s.mounts, source);
    AppendMount(s.mounts, BindEntry(s, source, rpc.target.value, BindOpts(rpc.cap, rpc.readonly)), rpc.target.value);
  }

  // ---- Retrying a stage ----

  lemma MadeDir(s: State, path: Path, f: Faults)
    ensures var t := CreateDir(s, path, f);
            (CanMake(t.st, path, Dir) <==> CanMake(s, path, Dir)) && (t.status == Ok ==> CanMake(s, path, Dir))
  {
    if path !in s.files && CreateDir(s, path, f).status == Ok {
      assert forall n :: 0 <= n < |path| ==> path[..n] in Prefixes(path);
    }
  }

  lemma MadeFile(s: State, path: Path, f: Faults)
    ensures var t := CreateFile(s, path, f);
            (CanMake(t.st, path, File) <==> CanMake(s, path, File)) && (t.status == Ok ==> CanMake(s, path, File))
  {
  }

  lemma OwnMountServes(s: State, device: string, path: Path, opts: seq<string>)
    requires !Mounted(s, path)
    ensures ServesBlock(AddMount(s, BlockEntry(device, path, opts)), path, device)
  {
    BaseOfRooted(device);
    AppendMount(s.mounts, BlockEntry(device, path, opts), path);
  }

  lemma BlockStageRetry(s: State, device: string, path: Path, f: Faults)
    ensures StageFits(MountBlockVolume(s, device, path, false, f).st, path, device, Block) <==>
            StageFits(s, path, device, Block)
  {
    var c := CreateFile(s, path, f).st;
    var t := MountBlockVolume(s, device, path, false, f).st;
    MadeFile(s, path, f);
    if t != c {
      assert t == AddMount(c, BlockEntry(device, path, ["bind"]));
      OwnMountServes(c, device, path, ["bind"]);
    }
  }

  lemma FormatReady(s: State, device: string, cap: Capability, f: Faults)
    ensures var o := FormatIfBlank(s, device, FsType(cap), RefusesBlank(FsType(cap), Flags(cap)), f);
            && o.st.mounts == s.mounts && o.st.files == s.files
            && (Ready(o.st, device, cap) <==> Ready(s, device, cap)) && (o.status == Ok ==> Ready(s, device, cap))
  {
  }

  lemma MountServes(s: State, device: string, path: Path, cap: Capability)
    requires cap.Mount? && !Mounted(s, path)
    ensures var e := Entry(device, path, FsType(cap), MountOpts(FsType(cap), cap.flags), "/", device);
            Serves(AddMount(s, e), path, device, cap)
  {
    AppendMount(s.mounts, Entry(device, path, FsType(cap), MountOpts(FsType(cap), cap.flags), "/", device), path);
  }

  /** Formatting leaves the device as ready for a stage as it was, or mounts what is asked for. */
  lemma FormatRetry(s: State, device: string, path: Path, cap: Capability, f: Faults)
    requires cap.Mount? && !Mounted(s, path)
    ensures var t := FormatAndMount(s, device, path, FsType(cap), cap.flags, f).st;
            && t.files == s.files
            && if t.mounts == s.mounts then Ready(t, device, cap) <==> Ready(s, device, cap)
               else Serves(t, path, device, cap) && Ready(s, device, cap)
  {
    FormatReady(s, device, cap, f);
    var o := FormatIfBlank(s, device, FsType(cap), RefusesBlank(FsType(cap), cap.flags), f);
    MountServes(o.st, device, path, cap);
  }

  lemma FsStageRetry(s: State, device: string, path: Path, cap: Capability, f: Faults)
    requires cap.Mount?
    ensures StageFits(MountMountVolume(s, device, path, cap, false, f).st, path, device, cap) <==>
            StageFits(s, path, device, cap)
  {
    var c := CreateDir(s, path, f).st;
    var t := MountMountVolume(s, device, path, cap, false, f).st;
    MadeDir(s, path, f);
    if !Mounted(c, path) {
      FormatRetry(c, device, path, cap, f);
      assert t == c || t == FormatAndMount(c, device, path, FsType(cap), cap.flags, f).st;
    } else {
      assert t == c;
    }
  }

  /** The state after attempts of one RPC. */
  function Attempts(s: State, rpc: Rpc, fs: seq<Faults>): State {
    if fs == [] then s else Exec(Attempts(s, rpc, fs[..|fs| - 1]), rpc, fs[|fs| - 1]).st
  }

  lemma StageRetry(s: State, rpc: Rpc, f: Faults, device: string)
    requires rpc.Stage? && (rpc.cap.Mount? || rpc.cap.Block?) && rpc.staging.Some?
    requires f.device.Some? ==> f.device.value == device
    ensures StageFits(Exec(s, rpc, f).st, PathOf(rpc).value, device, rpc.cap) <==>
            StageFits(s, PathOf(rpc).value, device, rpc.cap)
  {
    if f.device.Some? {
      if rpc.cap.Block? {
        BlockStageRetry(s, device, PathOf(rpc).value, f);
      } else {
        FsStageRetry(s, device, PathOf(rpc).value, rpc.cap, f);
      }
    }
  }

  lemma {:induction false} AttemptsFit(s: State, rpc: Rpc, fs: seq<Faults>, device: string)
    requires rpc.Stage? && (rpc.cap.Mount? || rpc.cap.Block?) && rpc.staging.Some?
    requires forall i :: 0 <= i < |fs| && fs[i].device.Some? ==> fs[i].device.value == device
    ensures StageFits(Attempts(s, rpc, fs), PathOf(rpc).value, device, rpc.cap) <==>
            StageFits(s, PathOf(rpc).value, device, rpc.cap)
  {
    if fs != [] {
      AttemptsFit(s, rpc, fs[..|fs| - 1], device);
      StageRetry(Attempts(s, rpc, fs[..|fs| - 1]), rpc, fs[|fs| - 1], device);
    }
  }

  /** Staging converges: after any number of attempts failing anywhere, an attempt in which no call
      fails succeeds exactly when it would have succeeded at first. */
  lemma StageConverges(s: State, rpc: Rpc, fs: seq<Faults>, again: Faults)
    requires rpc.Stage? && (rpc.cap.Mount? || rpc.cap.Block?) && FaultFree(again)
    requires forall i :: 0 <= i < |fs| && fs[i].device.Some? ==> fs[i].device == again.device
    ensures Exec(Attempts(s, rpc, fs), rpc, again).status == Ok <==> Exec(s, rpc, again).status == Ok
  {
    StageSucceedsExactly(s, rpc, again);
    StageSucceedsExactly(Attempts(s, rpc, fs), rpc, again);
    if rpc.staging.Some? {
      AttemptsFit(s, rpc, fs, again.device.value);
    }
  }

  // ---- Retrying a publish ----

  /** A filesystem publish whose option remount failed. */
  predicate HalfPublished(s: State, rpc: Rpc, f: Faults) {
    && rpc.Publish? && rpc.cap.Mount? && f.mount.MountHalf? && rpc.target.Some? && rpc.staging.Some?
    && !Mounted(s, rpc.target.value) && Mounted(Exec(s, rpc, f).st, rpc.target.value)
  }

  lemma HalfBound(s: State, source: Path, target: Path, cap: Capability, readonly: bool, f: Faults)
    requires f.mount.MountHalf? && !Mounted(s, target) && Mounted(s, source) && Count(s.mounts, source) <= 1
    requires var t := BindMountVolume(s, source, target, cap, readonly, f).st; Mounted(t, target)
    ensures var t := BindMountVolume(s, source, target, cap, readonly, f).st;
            var m, src := FirstAt(t.mounts, target).value, FirstAt(s.mounts, source).value;
            && m.opts == ["bind"] && m.device == src.device && m.fsType == src.fsType
            && FirstAt(t.mounts, source) == FirstAt(s.mounts, source)
            && target in t.files && t.files[target].Dir? && source in t.files
  {
    TopIsFirst(s.mounts, source);
    var half := BindEntry(s, source, target, BindOpts(cap, readonly)).(opts := ["bind"]);
    AppendMount(s.mounts, half, target);
    AppendMount(s.mounts, half, source);
  }

  lemma HalfEntry(s: State, inUse: iset<Path>, rpc: Rpc, f: Faults)
    requires Inv(s, inUse) && HalfPublished(s, rpc, f)
    requires var sp := StagingPath(rpc.staging.value, rpc.volume); sp in inUse && Mounted(s, sp)
    ensures var t, sp, p := Exec(s, rpc, f).st, StagingPath(rpc.staging.value, rpc.volume), rpc.target.value;
            var m, src := FirstAt(t.mounts, p).value, FirstAt(s.mounts, sp).value;
            && m.opts == ["bind"] && m.device == src.device && m.fsType == src.fsType
            && FirstAt(t.mounts, sp) == FirstAt(s.mounts, sp)
            && p in t.files && t.files[p].Dir? && sp in t.files
  {
    var sp, p := StagingPath(rpc.staging.value, rpc.volume), rpc.target.value;
    assert Exec(s, rpc, f) == BindMountVolume(s, sp, p, rpc.cap, rpc.readonly, f);
    HalfBound(s, sp, p, rpc.cap, rpc.readonly, f);
  }

  /** Publishing does not converge: after a publish whose option remount failed, every retry in which
      no call fails changes nothing, and succeeds exactly when the type is the staged one and no
      flag but "bind" was asked for. */
  lemma HalfPublishRetry(s: State, inUse: iset<Path>, rpc: Rpc, f: Faults, again: Faults)
    requires Inv(s, inUse) && HalfPublished(s, rpc, f) && Quiet(again)
    requires var sp := StagingPath(rpc.staging.value, rpc.volume); sp in inUse && Mounted(s, sp)
    ensures var t := Exec(s, rpc, f).st;
            Exec(t, rpc, again) ==
            Out(t, if FsType(rpc.cap) == FirstAt(s.mounts, StagingPath(rpc.staging.value, rpc.volume)).value.fsType
                      && (forall o :: o in rpc.cap.flags ==> o == "bind") then Ok else AlreadyExists)
  {
    HalfEntry(s, inUse, rpc, f);
    QuietRebind(Exec(s, rpc, f).st, StagingPath(rpc.staging.value, rpc.volume), rpc.target.value,
                rpc.cap, rpc.readonly, again);
  }

  /** No file lies above the path. */
  predicate NoFileAbove(s: State, path: Path) {
    forall n :: 0 <= n < |path| && path[..n] in s.files ==> s.files[path[..n]].Dir?
  }

  lemma CreateDirAbove(s: State, path: Path, f: Faults)
    requires NoFileAbove(s, path)
    ensures NoFileAbove(CreateDir(s, path, f).st, path)
  {
  }

  lemma UnmountedFiles(s: State, path: Path, f: Faults)
    requires Quiet(f) && path in s.files
    ensures var t := UnmountVolume(s, path, f).st;
            && (forall x :: x in t.files <==> x in s.files && !(path <= x))
            && (forall x :: x in t.files ==> t.files[x] == s.files[x])
  {
  }

  /** Unpublishing clears the way: the publish after it succeeds. */
  lemma UnpublishRecovers(
    s: State, inUse: iset<Path>, rpc: Rpc, f: Faults, unpublish: Rpc, f': Faults, again: Faults)
    requires PrefixFree(inUse) && Inv(s, inUse) && Rooted(s, inUse) && HalfPublished(s, rpc, f)
    requires var sp := StagingPath(rpc.staging.value, rpc.volume); sp in inUse && Mounted(s, sp)
    requires rpc.target.value in inUse && NoFileAbove(s, rpc.target.value)
    requires unpublish.Unpublish? && unpublish.volume != "" && unpublish.target == rpc.target
    requires FaultFree(f') && FaultFree(again)
    ensures Exec(Exec(Exec(s, rpc, f).st, unpublish, f').st, rpc, again).status == Ok
  {
    var t := Exec(s, rpc, f).st;
    var u := Exec(t, unpublish, f').st;
    var sp, p := StagingPath(rpc.staging.value, rpc.volume), rpc.target.value;
    HalfEntry(s, inUse, rpc, f);
    Recovered(s, inUse, rpc, f, unpublish, f');
    assert sp in u.files && CanMake(u, p, Dir);
    CountZero(u.mounts, p);
    PublishSucceedsExactly(u, rpc, again);
  }

  lemma Recovered(s: State, inUse: iset<Path>, rpc: Rpc, f: Faults, unpublish: Rpc, f': Faults)
    requires PrefixFree(inUse) && Inv(s, inUse) && Rooted(s, inUse) && HalfPublished(s, rpc, f) && FaultFree(f')
    requires rpc.target.value in inUse && NoFileAbove(s, rpc.target.value)
    requires unpublish.Unpublish? && unpublish.volume != "" && unpublish.target == rpc.target
    ensures var t, p := Exec(s, rpc, f).st, rpc.target.value;
            var u := Exec(t, unpublish, f').st;
            && p !in u.files && Clear(u, p) && NoFileAbove(u, p)
            && (forall x :: x in t.files && !(p <= x) ==> x in u.files)
  {
    var t, p := Exec(s, rpc, f).st, rpc.target.value;
    StepKeepsInv(s, Call(rpc, f), inUse);
    MountingKeepsPaths(s, rpc, f);
    UnmountSucceeds(t, inUse, unpublish, f');
    CreateDirAbove(s, p, f);
    assert t.files == CreateDir(s, p, f).st.files && NoFileAbove(t, p);
    assert p in t.files;
    UnmountedFiles(t, p, f');
  }
}
