/**
 The node service in the form of its source: methods that change the host step by step.
 Each is proved equal to its transition in NodeModel, so the run theorems of NodeRuns
 hold of these methods.
 */
module NodeServer {
  import opened Text
  import M = NodeModel
  import R = NodeRuns
  import D = NodeData
  import X = NodeExact

  /** IsMountReadOnly. */
  method IsMountReadOnly(options: seq<string>) returns (b: bool)
    ensures b <==> "ro" in options
  {
    for i := 0 to |options|
      invariant "ro" !in options[..i]
    {
      if options[i] == "ro" {
        return true;
      }
    }
    return false;
  }

  /** MakeReadOnlyMountOpts: "rw" is dropped, "ro" comes last and once, all else stays in order. */
  method MakeReadOnlyMountOpts(options: seq<string>) returns (r: seq<string>)
    ensures r == M.MakeReadOnly(options)
    ensures "rw" !in r && "ro" in r && forall o :: o in options && o != "rw" ==> o in r
  {
    r := [];
    for i := 0 to |options|
      invariant r == M.DropReadWrite(options[..i])
    {
      assert options[..i + 1][..i] == options[..i];
      if options[i] == "rw" || options[i] == "ro" {
        continue;
      }
      r := r + [options[i]];
    }
    assert options[..|options|] == options;
    r := r + ["ro"];
    assert r[|r| - 1] == "ro";
    assert forall o :: o in M.DropReadWrite(options) ==> o in r;
  }

  /** checkMountFlags: a set of the actual flags, then a scan of the expected ones. */
  method CheckMountFlags(actual: seq<string>, expected: seq<string>) returns (b: bool)
    ensures b <==> M.FlagsPresent(actual, expected)
  {
    var present: map<string, bool> := map[];
    for i := 0 to |actual|
      invariant forall o :: o in present <==> o in actual[..i]
    {
      present := present[actual[i] := true];
    }
    assert actual[..|actual|] == actual;
    for i := 0 to |expected|
      invariant forall o :: o in expected[..i] ==> o in actual
    {
      if expected[i] !in present {
        return false;
      }
    }
    return true;
  }

  class Server {
    var files: map<M.Path, M.Kind>
    var mounts: seq<M.Entry>
    var format: map<string, string>
    ghost var contents: map<string, string>

    ghost function Snapshot(): M.State
      reads this
    {
      M.State(files, mounts, format, contents)
    }

    constructor ()
      ensures Snapshot() == M.State(map[], [], map[], map[])
    {
      files, mounts, format, contents := map[], [], map[], map[];
    }

    /** IsLikelyNotMountPoint, negated: some row is at the path. */
    method IsMountPoint(path: M.Path) returns (b: bool)
      ensures b <==> M.Mounted(Snapshot(), path)
    {
      var r := ScanMounts(path);
      return r.Some?;
    }

    /** GetMountPoint and GetMountRef: resolving a path that does not exist and reading the table
        can fail; otherwise the first row at the path, if any. */
    method GetMountPoint(path: M.Path, fails: bool) returns (ok: bool, r: Option<M.Entry>)
      ensures ok <==> !fails && path in files
      ensures r == if ok then M.FirstAt(mounts, path) else None
    {
      if path !in files || fails {
        return false, None;
      }
      r := ScanMounts(path);
      ok := true;
    }

    /** The scan of the mount list. */
    method ScanMounts(path: M.Path) returns (r: Option<M.Entry>)
      ensures r == M.FirstAt(mounts, path)
      ensures r.Some? <==> exists i :: 0 <= i < |mounts| && mounts[i].path == path
    {
      for i := 0 to |mounts|
        invariant M.FirstAt(mounts[..i], path).None?
        invariant forall j :: 0 <= j < i ==> mounts[j].path != path
      {
        assert mounts[..i + 1][..i] == mounts[..i];
        if mounts[i].path == path {
          FirstInPrefix(mounts, i + 1, path);
          return Some(mounts[i]);
        }
      }
      assert mounts[..|mounts|] == mounts;
      return None;
    }

    static lemma {:induction false} FirstInPrefix(ms: seq<M.Entry>, n: nat, path: M.Path)
      requires n <= |ms| && M.FirstAt(ms[..n], path).Some?
      ensures M.FirstAt(ms, path) == M.FirstAt(ms[..n], path)
    {
      if n < |ms| {
        assert ms[..|ms| - 1][..n] == ms[..n];
        FirstInPrefix(ms[..|ms| - 1], n, path);
      } else {
        assert ms[..n] == ms;
      }
    }

    method CreateDir(path: M.Path, f: M.Faults) returns (status: M.Status)
      modifies this
      ensures M.Out(Snapshot(), status) == M.CreateDir(old(Snapshot()), path, f)
    {
      if f.stat {
        return M.Internal;
      }
      if path in files {
        return if files[path].Dir? then M.Ok else M.AlreadyExists;
      }
      if f.make || exists p :: p in M.Prefixes(path) && p in files && files[p].File? {
        files := M.AddDirs(files, (M.Prefixes(path) - {path}) * f.made);
        return M.Internal;
      }
      files := M.AddDirs(files, M.Prefixes(path));
      return M.Ok;
    }

    method CreateFile(path: M.Path, f: M.Faults) returns (status: M.Status)
      modifies this
      ensures M.Out(Snapshot(), status) == M.CreateFile(old(Snapshot()), path, f)
    {
      if f.stat {
        return M.Internal;
      }
      if path in files {
        return if files[path].Dir? then M.AlreadyExists else M.Ok;
      }
      if f.make || path == [] || path[..|path| - 1] !in files || files[path[..|path| - 1]].File? {
        return M.Internal;
      }
      files := files[path := M.File];
      return M.Ok;
    }

    method DetectBlockVolumeConflict(device: string, path: M.Path, f: M.Faults) returns (status: M.Status)
      ensures status == M.DetectBlock(Snapshot(), device, path, f)
    {
      var read, info := GetMountPoint(path, f.list);
      if !read {
        return M.Internal;
      }
      if info.None? {
        return M.Crash;
      }
      if Base(info.value.root) != Base(device) {
        return M.AlreadyExists;
      }
      return M.Ok;
    }

    method DetectMountVolumeConflict(device: string, path: M.Path, cap: M.Capability, f: M.Faults)
      returns (status: M.Status)
      ensures status == M.DetectMount(Snapshot(), device, path, cap, f)
    {
      if !cap.Mount? {
        return M.Crash;
      }
      var read, point := GetMountPoint(path, f.relist);
      if !read {
        return M.Internal;
      }
      if point.None? {
        return M.Crash;
      }
      if point.value.device != device || point.value.fsType != M.FsType(cap) {
        return M.AlreadyExists;
      }
      var compatible := CheckMountFlags(point.value.opts, cap.flags);
      return if compatible then M.Ok else M.AlreadyExists;
    }

    /** The kernel's bind mount followed by its option remount. */
    method Bind(entry: M.Entry, f: M.Faults) returns (status: M.Status)
      modifies this
      ensures M.Out(Snapshot(), status) == M.BindMount(old(Snapshot()), entry, f)
    {
      match f.mount {
        case MountOk =>
          mounts := mounts + [entry];
          return M.Ok;
        case MountFailed => return M.Internal;
        case MountHalf =>
          mounts := mounts + [entry.(opts := ["bind"])];
          return M.Internal;
      }
    }

    method MountBlockVolume(device: string, path: M.Path, readonly: bool, f: M.Faults) returns (status: M.Status)
      modifies this
      ensures M.Out(Snapshot(), status) == M.MountBlockVolume(old(Snapshot()), device, path, readonly, f)
    {
      status := CreateFile(path, f);
      if status != M.Ok {
        return;
      }
      if f.check {
        return M.Internal;
      }
      var mounted := IsMountPoint(path);
      if mounted {
        status := DetectBlockVolumeConflict(device, path, f);
        return;
      }
      var opts := ["bind"];
      if readonly {
        opts := opts + ["ro"];
        assert opts == ["bind", "ro"];
      }
      status := Bind(M.BlockEntry(device, path, opts), f);
    }

    method BindMountVolume(source: M.Path, path: M.Path, cap: M.Capability, readonly: bool, f: M.Faults)
      returns (status: M.Status)
      modifies this
      ensures M.Out(Snapshot(), status) == M.BindMountVolume(old(Snapshot()), source, path, cap, readonly, f)
    {
      status := CreateDir(path, f);
      if status != M.Ok {
        return;
      }
      if f.check {
        return M.Internal;
      }
      var mounted := IsMountPoint(path);
      var read, mp := GetMountPoint(source, f.list);
      if !read {
        return M.Internal;
      }
      if mounted {
        if mp.None? {
          return M.Crash;
        }
        status := DetectMountVolumeConflict(mp.value.device, path, cap, f);
        return;
      }
      var opts := M.Flags(cap);
      if readonly {
        opts := MakeReadOnlyMountOpts(opts);
      }
      opts := opts + ["bind"];
      var entry := M.BindEntry(M.State(files, mounts, format, map[]), source, path, opts);
      status := Bind(entry, f);
    }

    /** formatWithOption, and the blank-disk half of the library's format-and-mount. */
    method FormatIfBlank(device: string, fsType: string, refuse: bool, f: M.Faults) returns (status: M.Status)
      modifies this
      ensures M.Out(Snapshot(), status) == M.FormatIfBlank(old(Snapshot()), device, fsType, refuse, f)
    {
      if f.probe {
        return M.Internal;
      }
      if device in format && format[device] != "" {
        return M.Ok;
      }
      if refuse {
        return M.Internal;
      }
      match f.mkfs {
        case MkfsOk =>
          format := format[device := fsType];
          contents := contents[device := ""];
          return M.Ok;
        case MkfsNotRun => return M.Internal;
        case MkfsPartial(leaves) =>
          format := format[device := leaves];
          contents := contents[device := ""];
          return M.Internal;
      }
    }

    method FormatAndMount(device: string, path: M.Path, fsType: string, options: seq<string>, f: M.Faults)
      returns (status: M.Status)
      modifies this
      ensures M.Out(Snapshot(), status) == M.FormatAndMount(old(Snapshot()), device, path, fsType, options, f)
    {
      var opts := options;
      var refuse: bool;
      if fsType == "xfs" {
        refuse := IsMountReadOnly(["-m", "reflink=0", "-K"]);
      } else if fsType == "ext4" {
        refuse := IsMountReadOnly(["-E", "nodiscard", "-F", "-m0"]);
      } else {
        refuse := IsMountReadOnly(options);
      }
      status := FormatIfBlank(device, fsType, refuse, f);
      if status != M.Ok {
        return;
      }
      if fsType == "xfs" {
        opts := opts + ["nouuid"];
      }
      if f.mount != M.MountOk {
        return M.Internal;
      }
      mounts := mounts + [M.Entry(device, path, fsType, opts, "/", device)];
    }

    method MountMountVolume(device: string, path: M.Path, cap: M.Capability, readonly: bool, f: M.Faults)
      returns (status: M.Status)
      modifies this
      ensures M.Out(Snapshot(), status) == M.MountMountVolume(old(Snapshot()), device, path, cap, readonly, f)
    {
      status := CreateDir(path, f);
      if status != M.Ok {
        return;
      }
      var opts := M.Flags(cap);
      if f.check {
        return M.Internal;
      }
      var mounted := IsMountPoint(path);
      if mounted {
        status := DetectMountVolumeConflict(device, path, cap, f);
        return;
      }
      if readonly {
        opts := MakeReadOnlyMountOpts(opts);
      }
      status := FormatAndMount(device, path, M.FsType(cap), opts, f);
    }

    method UnmountVolume(path: M.Path, f: M.Faults) returns (status: M.Status)
      modifies this
      ensures M.Out(Snapshot(), status) == M.UnmountVolume(old(Snapshot()), path, f)
    {
      if f.stat {
        return M.Internal;
      }
      if path !in files {
        return M.Ok;
      }
      if f.check {
        return M.Internal;
      }
      var mounted := IsMountPoint(path);
      if mounted {
        if f.umount {
          return M.Internal;
        }
        mounts := M.Detach(mounts, path);
      }
      contents := map d | d in contents :: if M.Reaches(mounts, path, d) then "" else contents[d];
      files := map p | p in files && !(path <= p && p !in f.leftover) :: files[p];
      return if exists p :: p in files && path <= p then M.Internal else M.Ok;
    }

    /** NodeStageVolume, NodePublishVolume, NodeUnpublishVolume and NodeUnstageVolume. Whatever
        fails, mounts do not come to stack on the paths in use, and every formatted device keeps
        its format and its data. A staged volume is mounted in the directory of its name, and a
        published raw device is read-only exactly when that was asked for. */
    method Serve(rpc: M.Rpc, f: M.Faults, ghost inUse: iset<M.Path>) returns (status: M.Status)
      modifies this
      ensures M.Out(Snapshot(), status) == M.Exec(old(Snapshot()), rpc, f)
      ensures R.PrefixFree(inUse) && R.Inv(old(Snapshot()), inUse) && R.Uses(M.Call(rpc, f), inUse) ==>
                && R.Inv(Snapshot(), inUse)
                && forall d :: M.Format(old(Snapshot()), d) != "" ==> R.SameDevice(old(Snapshot()), Snapshot(), d)
      ensures status == M.Ok && rpc.Stage? && X.PlainName(rpc.volume) ==>
                M.Mounted(Snapshot(), rpc.staging.value + [rpc.volume])
      ensures status == M.Ok && rpc.Publish? && rpc.cap.Block? && !M.Mounted(old(Snapshot()), rpc.target.value) ==>
                var m := M.FirstAt(mounts, rpc.target.value);
                m.Some? && Some(m.value.backing) == f.device && ("ro" in m.value.opts <==> rpc.readonly)
    {
      ghost var s := Snapshot();
      if M.Exec(s, rpc, f).status == M.Ok {
        if rpc.Stage? && X.PlainName(rpc.volume) {
          X.StagedWhere(s, rpc, f);
        }
        if rpc.Publish? && rpc.cap.Block? && !M.Mounted(s, rpc.target.value) {
          X.BlockPublishMounts(s, rpc, f);
        }
      }
      if R.PrefixFree(inUse) && R.Inv(Snapshot(), inUse) && R.Uses(M.Call(rpc, f), inUse) {
        D.ExecKeepsFormatted(Snapshot(), rpc, f, inUse);
      }
      match rpc {
        case Stage(volume, staging, cap) =>
          if volume == "" || staging.None? {
            return M.InvalidArgument;
          }
          if f.device.None? {
            return M.Unknown;
          }
          var path := M.StagingPath(staging.value, volume);
          if cap.Block? {
            status := MountBlockVolume(f.device.value, path, false, f);
          } else {
            status := MountMountVolume(f.device.value, path, cap, false, f);
          }
        case Publish(volume, staging, target, cap, readonly) =>
          if volume == "" || target.None? || cap.Missing? {
            return M.InvalidArgument;
          }
          if staging.None? {
            return M.FailedPrecondition;
          }
          if f.device.None? {
            return M.Unknown;
          }
          if cap.Block? {
            status := MountBlockVolume(f.device.value, target.value, readonly, f);
          } else {
            status := BindMountVolume(M.StagingPath(staging.value, volume), target.value, cap, readonly, f);
          }
        case Unpublish(volume, target) =>
          if volume == "" || target.None? {
            return M.InvalidArgument;
          }
          status := UnmountVolume(target.value, f);
        case Unstage(volume, staging) =>
          if volume == "" || staging.None? {
            return M.InvalidArgument;
          }
          status := UnmountVolume(M.StagingPath(staging.value, volume), f);
      }
    }
  }
}
