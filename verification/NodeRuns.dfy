/**
 What every run of whole RPCs keeps: mounts never stack, publishes land on the staged
 device, and retries are harmless.
 */
module NodeRuns {
  import opened Text
  import opened NodeModel

  // ---- Counting mounts ----

  ghost function Count(mounts: seq<Entry>, path: Path): nat {
    if mounts == [] then 0 else
      var n := |mounts| - 1;
      Count(mounts[..n], path) + if mounts[n].path == path then 1 else 0
  }

  lemma {:induction false} CountZero(mounts: seq<Entry>, path: Path)
    ensures FirstAt(mounts, path).None? <==> Count(mounts, path) == 0
    ensures Count(mounts, path) == 0 <==> forall e :: e in mounts ==> e.path != path
  {
    if mounts != [] {
      var n := |mounts| - 1;
      CountZero(mounts[..n], path);
      assert mounts == mounts[..n] + [mounts[n]];
    }
  }

  lemma AppendMount(mounts: seq<Entry>, e: Entry, path: Path)
    ensures Count(mounts + [e], path) == Count(mounts, path) + if e.path == path then 1 else 0
    ensures FirstAt(mounts + [e], path) ==
            var r := FirstAt(mounts, path); if r.Some? then r else if e.path == path then Some(e) else None
  {
  }

  lemma {:induction false} DetachMount(mounts: seq<Entry>, path: Path, q: Path)
    ensures Count(Detach(mounts, path), q) ==
            if q == path && Count(mounts, q) > 0 then Count(mounts, q) - 1 else Count(mounts, q)
    ensures q != path ==> FirstAt(Detach(mounts, path), q) == FirstAt(mounts, q)
  {
    if mounts != [] {
      var n := |mounts| - 1;
      if mounts[n].path != path {
        DetachMount(mounts[..n], path, q);
        AppendMount(Detach(mounts[..n], path), mounts[n], q);
      }
    }
  }

  /** Where mounts do not stack, the row the driver reads is the mount in force. */
  lemma {:induction false} TopIsFirst(mounts: seq<Entry>, path: Path)
    requires Count(mounts, path) <= 1
    ensures TopAt(mounts, path) == FirstAt(mounts, path)
  {
    if mounts != [] {
      var n := |mounts| - 1;
      CountZero(mounts[..n], path);
      if mounts[n].path != path {
        TopIsFirst(mounts[..n], path);
      }
    }
  }

  // ---- The invariant ----

  /** No path in use lies below another one. */
  ghost predicate PrefixFree(inUse: iset<Path>) {
    forall p, q :: p in inUse && q in inUse && p <= q ==> p == q
  }

  /** Each path in use has at most one mount, and none below it. */
  ghost predicate Inv(s: State, inUse: iset<Path>) {
    && (forall p :: p in inUse ==> Count(s.mounts, p) <= 1)
    && (forall p, e :: p in inUse && e in s.mounts && p <= e.path ==> e.path == p)
  }

  ghost predicate Uses(e: Event, inUse: iset<Path>) {
    e.Call? && PathOf(e.rpc).Some? ==> PathOf(e.rpc).value in inUse
  }

  ghost predicate AllUse(es: seq<Event>, inUse: iset<Path>) {
    forall i :: 0 <= i < |es| ==> Uses(es[i], inUse)
  }

  predicate Unmounts(rpc: Rpc, path: Path) {
    (rpc.Unpublish? || rpc.Unstage?) && PathOf(rpc) == Some(path)
  }

  /** Not at all, or one new mount on an unmounted path. */
  ghost predicate Grows(mounts: seq<Entry>, mounts': seq<Entry>, path: Path) {
    || mounts' == mounts
    || (Count(mounts, path) == 0 && |mounts'| == |mounts| + 1
        && mounts' == mounts + [mounts'[|mounts|]] && mounts'[|mounts|].path == path)
  }

  lemma BlockGrows(s: State, device: string, path: Path, readonly: bool, f: Faults)
    ensures Grows(s.mounts, MountBlockVolume(s, device, path, readonly, f).st.mounts, path)
  {
    CountZero(s.mounts, path);
  }

  lemma BindGrows(s: State, source: Path, path: Path, cap: Capability, readonly: bool, f: Faults)
    ensures Grows(s.mounts, BindMountVolume(s, source, path, cap, readonly, f).st.mounts, path)
  {
    CountZero(s.mounts, path);
  }

  lemma MountGrows(s: State, device: string, path: Path, cap: Capability, readonly: bool, f: Faults)
    ensures Grows(s.mounts, MountMountVolume(s, device, path, cap, readonly, f).st.mounts, path)
  {
    CountZero(s.mounts, path);
  }

  /** How one RPC changes the mount table: only at its own path, by one mount more or one less. */
  lemma ExecMounts(s: State, rpc: Rpc, f: Faults)
    ensures PathOf(rpc).None? ==> Exec(s, rpc, f).st == s
    ensures PathOf(rpc).Some? ==>
              var m, p := Exec(s, rpc, f).st.mounts, PathOf(rpc).value;
              if Unmounts(rpc, p) then m == s.mounts || m == Detach(s.mounts, p) else Grows(s.mounts, m, p)
  {
    if PathOf(rpc).Some? && f.device.Some? {
      var p, d := PathOf(rpc).value, f.device.value;
      match rpc
      case Stage(_, _, cap) =>
        BlockGrows(s, d, p, false, f);
        MountGrows(s, d, p, cap, false, f);
      case Publish(volume, staging, _, cap, readonly) =>
        BlockGrows(s, d, p, readonly, f);
        if staging.Some? {
          BindGrows(s, StagingPath(staging.value, volume), p, cap, readonly, f);
        }
      case Unpublish(_, _) =>
      case Unstage(_, _) =>
    }
  }

  lemma StepKeepsInv(s: State, e: Event, inUse: iset<Path>)
    requires PrefixFree(inUse) && Inv(s, inUse) && Uses(e, inUse)
    ensures Inv(Step(s, e), inUse)
  {
    if e.Call? {
      ExecMounts(s, e.rpc, e.faults);
      var m := Step(s, e).mounts;
      forall p | p in inUse ensures Count(m, p) <= 1 {
        if PathOf(e.rpc).Some? {
          DetachMount(s.mounts, PathOf(e.rpc).value, p);
          if m != s.mounts && m != Detach(s.mounts, PathOf(e.rpc).value) {
            AppendMount(s.mounts, m[|m| - 1], p);
          }
        }
      }
    }
  }

  /** Safety over whole runs: mounts never stack on a path in use, whatever fails. */
  lemma {:induction false} RunKeepsInv(s: State, es: seq<Event>, inUse: iset<Path>)
    requires PrefixFree(inUse) && Inv(s, inUse) && AllUse(es, inUse)
    ensures Inv(Run(s, es), inUse)
  {
    if es != [] {
      var n := |es| - 1;
      RunKeepsInv(s, es[..n], inUse);
      StepKeepsInv(Run(s, es[..n]), es[n], inUse);
    }
  }

  // ---- Devices ----

  /** Nothing is mounted at or below the path. */
  ghost predicate Clear(s: State, path: Path) {
    forall e :: e in s.mounts ==> !(path <= e.path)
  }

  function Data(s: State, device: string): Option<string> {
    if device in s.contents then Some(s.contents[device]) else None
  }

  ghost predicate SameDevice(s: State, s': State, device: string) {
    Format(s', device) == Format(s, device) && Data(s', device) == Data(s, device)
  }

  /** The read-only refusal depends on the type: a blank disk staged with the flag "ro" is
      formatted as ext4 or xfs, and left alone for every other type. */
  lemma BlankReadOnly(s: State, device: string, path: Path, fsType: string, opts: seq<string>, f: Faults)
    requires Format(s, device) == "" && "ro" in opts && !f.probe && f.mkfs == MkfsOk && fsType != ""
    ensures Format(FormatAndMount(s, device, path, fsType, opts, f).st, device) ==
            if fsType == "ext4" || fsType == "xfs" then fsType else ""
  {
  }

  // ---- Publishing on the staged device ----

  ghost predicate NeverUnmounts(es: seq<Event>, path: Path) {
    forall i :: 0 <= i < |es| && es[i].Call? ==> !Unmounts(es[i].rpc, path)
  }

  lemma StepKeepsMount(s: State, e: Event, path: Path)
    requires FirstAt(s.mounts, path).Some?
    requires e.Call? ==> !Unmounts(e.rpc, path)
    ensures FirstAt(Step(s, e).mounts, path) == FirstAt(s.mounts, path)
  {
    if e.Call? {
      ExecMounts(s, e.rpc, e.faults);
      var m := Step(s, e).mounts;
      if m != s.mounts {
        DetachMount(s.mounts, PathOf(e.rpc).value, path);
        if m != Detach(s.mounts, PathOf(e.rpc).value) {
          AppendMount(s.mounts, m[|m| - 1], path);
        }
      }
    }
  }

  lemma {:induction false} RunKeepsMount(s: State, es: seq<Event>, path: Path)
    requires FirstAt(s.mounts, path).Some? && NeverUnmounts(es, path)
    ensures FirstAt(Run(s, es).mounts, path) == FirstAt(s.mounts, path)
  {
    if es != [] {
      var n := |es| - 1;
      RunKeepsMount(s, es[..n], path);
      StepKeepsMount(Run(s, es[..n]), es[n], path);
    }
  }

  /** A filesystem stage that succeeds leaves its device mounted, with the type and flags asked for. */
  lemma StageMounts(s: State, device: string, path: Path, cap: Capability, f: Faults)
    requires cap.Mount? && MountMountVolume(s, device, path, cap, false, f).status == Ok
    ensures var m := FirstAt(MountMountVolume(s, device, path, cap, false, f).st.mounts, path);
            && m.Some? && m.value.device == device && m.value.fsType == FsType(cap)
            && FlagsPresent(m.value.opts, cap.flags)
            && (!Mounted(s, path) ==>
                  Format(MountMountVolume(s, device, path, cap, false, f).st, device) ==
                  if Format(s, device) == "" then FsType(cap) else Format(s, device))
  {
    if !Mounted(s, path) {
      AppendMount(s.mounts, Entry(device, path, FsType(cap), MountOpts(FsType(cap), cap.flags), "/", device), path);
    }
  }

  /** The entry a successful filesystem publish leaves, given the mount at its source. */
  lemma PublishEntry(
    s: State, inUse: iset<Path>, source: Path, target: Path, cap: Capability, readonly: bool, f: Faults)
    requires Inv(s, inUse) && source in inUse && Mounted(s, source)
    requires BindMountVolume(s, source, target, cap, readonly, f).status == Ok
    ensures var m := FirstAt(BindMountVolume(s, source, target, cap, readonly, f).st.mounts, target);
            var src := FirstAt(s.mounts, source).value;
            && m.Some? && m.value.device == src.device
            && (Mounted(s, target) ==>
                  m == FirstAt(s.mounts, target) && cap.Mount? && FlagsPresent(m.value.opts, cap.flags))
            && (!Mounted(s, target) ==> m.value.fsType == src.fsType && m.value.opts == BindOpts(cap, readonly))
  {
    TopIsFirst(s.mounts, source);
    if !Mounted(s, target) {
      AppendMount(s.mounts, BindEntry(s, source, target, BindOpts(cap, readonly)), target);
    }
  }

  lemma FlagsOfBind(cap: Capability, readonly: bool)
    ensures forall o :: o in Flags(cap) ==> (o in BindOpts(cap, readonly) <==> !(readonly && o == "rw"))
    ensures readonly ==> "ro" in BindOpts(cap, readonly) && "rw" !in BindOpts(cap, readonly)
  {
  }

  /** After a successful filesystem stage, in every run without its unstage, a successful
      publish leaves its target mounted on the staged device with every flag asked for,
      except "rw" when this publish did the mounting and was read-only. */
  lemma PublishLandsOnStagedDevice(
    s: State, inUse: iset<Path>, stage: Rpc, f: Faults, es: seq<Event>, publish: Rpc, f': Faults)
    requires PrefixFree(inUse) && Inv(s, inUse) && Uses(Call(stage, f), inUse) && AllUse(es, inUse)
    requires stage.Stage? && stage.cap.Mount? && Exec(s, stage, f).status == Ok
    requires NeverUnmounts(es, PathOf(stage).value)
    requires publish.Publish? && publish.cap.Mount?
    requires publish.volume == stage.volume && publish.staging == stage.staging
    requires Exec(Run(Exec(s, stage, f).st, es), publish, f').status == Ok
    ensures var t := Run(Exec(s, stage, f).st, es);
            var m := FirstAt(Exec(t, publish, f').st.mounts, publish.target.value);
            && m.Some? && Some(m.value.device) == f.device
            && (forall o :: o in publish.cap.flags ==>
                  o in m.value.opts || (o == "rw" && publish.readonly && !Mounted(t, publish.target.value)))
            && (publish.readonly && !Mounted(t, publish.target.value) ==> "ro" in m.value.opts && "rw" !in m.value.opts)
  {
    var sp := PathOf(stage).value;
    var s1 := Exec(s, stage, f).st;
    StageMounts(s, f.device.value, sp, stage.cap, f);
    StepKeepsInv(s, Call(stage, f), inUse);
    RunKeepsInv(s1, es, inUse);
    RunKeepsMount(s1, es, sp);
    PublishEntry(Run(s1, es), inUse, sp, publish.target.value, publish.cap, publish.readonly, f');
    FlagsOfBind(publish.cap, publish.readonly);
  }

  // ---- Retries ----

  /** A retry in which no external call fails. */
  predicate Quiet(f: Faults) {
    && f.device.Some? && !f.stat && !f.make && !f.check && !f.list && !f.relist
    && !f.probe && !f.umount && f.leftover == {}
  }

  /** Repeating a filesystem publish that did the mounting changes nothing, and succeeds
      exactly when the type is the staged one and it is not both read-only and flagged "rw". */
  lemma RepeatPublish(s: State, inUse: iset<Path>, rpc: Rpc, f: Faults, again: Faults)
    requires Inv(s, inUse) && rpc.Publish? && rpc.cap.Mount? && Exec(s, rpc, f).status == Ok
    requires var sp := StagingPath(rpc.staging.value, rpc.volume); sp in inUse && Mounted(s, sp)
    requires !Mounted(s, rpc.target.value) && Quiet(again)
    ensures var s1 := Exec(s, rpc, f).st;
            var o := Exec(s1, rpc, again);
            && o.st == s1
            && o.status ==
                 if FsType(rpc.cap) == FirstAt(s.mounts, StagingPath(rpc.staging.value, rpc.volume)).value.fsType
                    && !(rpc.readonly && "rw" in rpc.cap.flags) then Ok else AlreadyExists
  {
    var sp, target := StagingPath(rpc.staging.value, rpc.volume), rpc.target.value;
    var s1 := BindMountVolume(s, sp, target, rpc.cap, rpc.readonly, f).st;
    PublishEntry(s, inUse, sp, target, rpc.cap, rpc.readonly, f);
    FlagsOfBind(rpc.cap, rpc.readonly);
    PublishedTwice(s, sp, target, rpc.cap, rpc.readonly, f);
    QuietRebind(s1, sp, target, rpc.cap, rpc.readonly, again);
  }

  /** The publish leaves its target a directory and its source as it was. */
  lemma PublishedTwice(s: State, source: Path, path: Path, cap: Capability, readonly: bool, f: Faults)
    requires Mounted(s, source) && !Mounted(s, path) && BindMountVolume(s, source, path, cap, readonly, f).status == Ok
    ensures var t := BindMountVolume(s, source, path, cap, readonly, f).st;
            && path in t.files && t.files[path].Dir? && source in t.files
            && FirstAt(t.mounts, source) == FirstAt(s.mounts, source)
  {
    AppendMount(s.mounts, BindEntry(s, source, path, BindOpts(cap, readonly)), source);
  }

  lemma QuietRebind(t: State, source: Path, path: Path, cap: Capability, readonly: bool, again: Faults)
    requires path in t.files && t.files[path].Dir? && source in t.files && Mounted(t, path) && Mounted(t, source)
    requires Quiet(again)
    ensures BindMountVolume(t, source, path, cap, readonly, again) ==
            Out(t, DetectMount(t, FirstAt(t.mounts, source).value.device, path, cap, again))
  {
    assert CreateDir(t, path, again) == Out(t, Ok);
  }

  lemma RepeatBlock(s: State, device: string, path: Path, readonly: bool, f: Faults, again: Faults)
    requires MountBlockVolume(s, device, path, readonly, f).status == Ok && Quiet(again)
    ensures var s1 := MountBlockVolume(s, device, path, readonly, f).st;
            MountBlockVolume(s1, device, path, readonly, again) == Out(s1, Ok)
  {
    var s1 := MountBlockVolume(s, device, path, readonly, f).st;
    var opts := if readonly then ["bind", "ro"] else ["bind"];
    BaseOfRooted(device);
    AppendMount(s.mounts, BlockEntry(device, path, opts), path);
    assert path in s1.files && s1.files[path].File?;
    assert CreateFile(s1, path, again) == Out(s1, Ok);
    assert Mounted(s1, path) && DetectBlock(s1, device, path, again) == Ok;
  }

  lemma FsIsMounted(s: State, device: string, path: Path, cap: Capability, f: Faults)
    requires MountMountVolume(s, device, path, cap, false, f).status == Ok
    ensures var t := MountMountVolume(s, device, path, cap, false, f).st;
            path in t.files && t.files[path].Dir? && Mounted(t, path)
  {
  }

  lemma QuietRetry(t: State, device: string, path: Path, cap: Capability, again: Faults)
    requires path in t.files && t.files[path].Dir? && Mounted(t, path) && Quiet(again)
    ensures MountMountVolume(t, device, path, cap, false, again) == Out(t, DetectMount(t, device, path, cap, again))
  {
  }

  lemma RepeatMount(s: State, device: string, path: Path, cap: Capability, f: Faults, again: Faults)
    requires MountMountVolume(s, device, path, cap, false, f).status == Ok && Quiet(again)
    ensures var s1 := MountMountVolume(s, device, path, cap, false, f).st;
            MountMountVolume(s1, device, path, cap, false, again) == Out(s1, if cap.Mount? then Ok else Crash)
  {
    FsIsMounted(s, device, path, cap, f);
    if cap.Mount? {
      StageMounts(s, device, path, cap, f);
    }
    QuietRetry(MountMountVolume(s, device, path, cap, false, f).st, device, path, cap, again);
  }

  lemma RepeatUnmount(s: State, path: Path, f: Faults, again: Faults)
    requires UnmountVolume(s, path, f).status == Ok && Quiet(again)
    ensures UnmountVolume(UnmountVolume(s, path, f).st, path, again) == Out(UnmountVolume(s, path, f).st, Ok)
  {
  }

  /** Repeating a stage, a block publish, an unpublish or an unstage that succeeded, with the
      same device found, changes nothing; it succeeds again, unless a stage carried no access
      type, whose retry dereferences a nil capability. */
  lemma RepeatOthers(s: State, rpc: Rpc, f: Faults, again: Faults)
    requires rpc.Publish? ==> rpc.cap.Block?
    requires Exec(s, rpc, f).status == Ok && Quiet(again)
    requires rpc.Stage? || rpc.Publish? ==> again.device == f.device
    ensures var s1 := Exec(s, rpc, f).st;
            Exec(s1, rpc, again) == Out(s1, if rpc.Stage? && !rpc.cap.Mount? && !rpc.cap.Block? then Crash else Ok)
  {
    var p := PathOf(rpc).value;
    match rpc
    case Stage(_, _, cap) =>
      if cap.Block? {
        RepeatBlock(s, f.device.value, p, false, f, again);
      } else {
        RepeatMount(s, f.device.value, p, cap, f, again);
      }
    case Publish(_, _, _, cap, readonly) => RepeatBlock(s, f.device.value, p, readonly, f, again);
    case Unpublish(_, _) => RepeatUnmount(s, p, f, again);
    case Unstage(_, _) => RepeatUnmount(s, p, f, again);
  }

  /** Unpublish undoes publish on the mount table. */
  lemma UnpublishUndoesPublish(s: State, publish: Rpc, f: Faults, unpublish: Rpc, f': Faults)
    requires publish.Publish? && unpublish.Unpublish? && unpublish.target == publish.target
    requires Exec(s, publish, f).status == Ok && !Mounted(s, publish.target.value)
    requires Exec(Exec(s, publish, f).st, unpublish, f').status == Ok
    ensures Exec(Exec(s, publish, f).st, unpublish, f').st.mounts == s.mounts
  {
    var s1, p := Exec(s, publish, f).st, publish.target.value;
    CountZero(s.mounts, p);
    ExecMounts(s, publish, f);
    PublishedIsMounted(s, publish, f);
    assert s1.mounts == s.mounts + [s1.mounts[|s.mounts|]];
    assert s1.mounts[..|s.mounts|] == s.mounts;
    assert Detach(s1.mounts, p) == s.mounts;
    assert Mounted(s1, p) && Exec(s1, unpublish, f') == UnmountVolume(s1, p, f');
  }

  /** A successful block stage or publish leaves a mount of the device node; the one that did
      the mounting made it read-only exactly when asked. */
  lemma BlockIsMounted(s: State, device: string, path: Path, readonly: bool, f: Faults)
    requires MountBlockVolume(s, device, path, readonly, f).status == Ok
    ensures var t := MountBlockVolume(s, device, path, readonly, f).st;
            && path in t.files && Mounted(t, path) && Base(FirstAt(t.mounts, path).value.root) == Base(device)
            && (Mounted(s, path) ==> FirstAt(t.mounts, path) == FirstAt(s.mounts, path))
            && (!Mounted(s, path) ==>
                  var e := FirstAt(t.mounts, path).value; e.backing == device && (readonly <==> "ro" in e.opts))
  {
    var c := CreateFile(s, path, f).st;
    var e := BlockEntry(device, path, if readonly then ["bind", "ro"] else ["bind"]);
    if Mounted(c, path) {
      assert MountBlockVolume(s, device, path, readonly, f) == Out(c, DetectBlock(c, device, path, f));
    } else {
      BaseOfRooted(device);
      AppendMount(c.mounts, e, path);
      assert MountBlockVolume(s, device, path, readonly, f) == BindMount(c, e, f);
    }
  }

  lemma BindIsMounted(s: State, source: Path, path: Path, cap: Capability, readonly: bool, f: Faults)
    requires BindMountVolume(s, source, path, cap, readonly, f).status == Ok
    ensures var t := BindMountVolume(s, source, path, cap, readonly, f).st;
            && path in t.files && Mounted(t, path)
            && (Mounted(s, path) ==> FirstAt(t.mounts, path) == FirstAt(s.mounts, path))
            && (!Mounted(s, path) ==> FirstAt(t.mounts, path).value.opts == BindOpts(cap, readonly))
  {
    AppendMount(s.mounts, BindEntry(s, source, path, BindOpts(cap, readonly)), path);
  }

  /** A read-only publish that succeeds leaves a read-only mount exactly when the target was not
      mounted before or was mounted read-only: the conflict checks do not compare the mode. */
  lemma ReadOnlyExactly(s: State, rpc: Rpc, f: Faults)
    requires rpc.Publish? && rpc.readonly && Exec(s, rpc, f).status == Ok
    ensures var p := rpc.target.value;
            var m := FirstAt(Exec(s, rpc, f).st.mounts, p);
            m.Some? && ("ro" in m.value.opts <==> (Mounted(s, p) ==> "ro" in FirstAt(s.mounts, p).value.opts))
  {
    if rpc.cap.Block? {
      BlockIsMounted(s, f.device.value, rpc.target.value, true, f);
    } else {
      BindIsMounted(s, StagingPath(rpc.staging.value, rpc.volume), rpc.target.value, rpc.cap, true, f);
      FlagsOfBind(rpc.cap, true);
    }
  }

  lemma PublishedIsMounted(s: State, rpc: Rpc, f: Faults)
    requires rpc.Publish? && Exec(s, rpc, f).status == Ok
    ensures Mounted(Exec(s, rpc, f).st, rpc.target.value) && rpc.target.value in Exec(s, rpc, f).st.files
  {
    if rpc.cap.Block? {
      BlockIsMounted(s, f.device.value, rpc.target.value, rpc.readonly, f);
    } else {
      BindIsMounted(s, StagingPath(rpc.staging.value, rpc.volume), rpc.target.value, rpc.cap, rpc.readonly, f);
    }
  }
}
