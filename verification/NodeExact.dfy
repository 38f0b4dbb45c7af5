/**
 What the node service leaves behind, in the terms of the request: where a volume is
 staged, the row a mount adds to the table, the format of the device, and the answer to a
 request that cannot be served.
 */
module NodeExact {
  import opened Text
  import opened NodeModel
  import opened NodeRuns
  import opened NodeRetry

  // ---- Staging paths ----

  predicate PlainName(volume: string) {
    volume != "" && volume != "." && volume != ".." && '/' !in volume
  }

  /** A volume is staged in a directory of its own name below the path given. An id with slashes
      counts as its last piece; one that names no directory gives the path itself, and ".." the
      path above it. */
  lemma StagingIs(target: Path, volume: string)
    ensures PlainName(volume) ==> StagingPath(target, volume) == target + [volume]
    ensures var b := Base(volume);
            && (b != "." && b != ".." && b != "/" ==> StagingPath(target, volume) == target + [b])
            && (b == "." || b == "/" ==> StagingPath(target, volume) == target)
            && (b == ".." ==> StagingPath(target, volume) == if target == [] then [] else target[..|target| - 1])
  {
    if PlainName(volume) {
      PlainBase(volume);
      assert '/' in "/";
    }
  }

  /** Volumes with different plain ids are staged apart: neither path lies below the other. */
  lemma StagedApart(target: Path, v: string, w: string)
    requires PlainName(v) && PlainName(w) && v != w
    ensures !(StagingPath(target, v) <= StagingPath(target, w))
  {
    StagingIs(target, v);
    StagingIs(target, w);
    assert StagingPath(target, v)[|target|] == v && StagingPath(target, w)[|target|] == w;
  }

  // ---- The mount table ----

  /** The driver reads the first row at a path. */
  lemma {:induction false} FirstAtIs(mounts: seq<Entry>, path: Path, i: nat)
    requires i < |mounts| && mounts[i].path == path && forall j :: 0 <= j < i ==> mounts[j].path != path
    ensures FirstAt(mounts, path) == Some(mounts[i])
  {
    var n := |mounts| - 1;
    if i < n {
      FirstAtIs(mounts[..n], path, i);
    } else {
      CountZero(mounts[..n], path);
    }
  }

  /** The last row at a path is in force, and is the one an umount removes. */
  lemma {:induction false} TopAtIs(mounts: seq<Entry>, path: Path, i: nat)
    requires i < |mounts| && mounts[i].path == path && forall j :: i < j < |mounts| ==> mounts[j].path != path
    ensures TopAt(mounts, path) == Some(mounts[i])
    ensures Detach(mounts, path) == mounts[..i] + mounts[i + 1..]
  {
    var n := |mounts| - 1;
    if i < n {
      TopAtIs(mounts[..n], path, i);
      assert mounts[..n][i + 1..] + [mounts[n]] == mounts[i + 1..];
    }
  }

  // ---- The row a request adds ----

  /** A raw device bound to the path. */
  predicate RawRow(e: Entry, path: Path, device: string, readonly: bool) {
    && e.path == path && e.backing == device && e.root == "/" + Base(device)
    && e.device == "devtmpfs" && e.fsType == "devtmpfs"
    && e.opts == if readonly then ["bind", "ro"] else ["bind"]
  }

  lemma BlockRow(s: State, device: string, path: Path, readonly: bool, f: Faults)
    requires MountBlockVolume(s, device, path, readonly, f).status == Ok && !Mounted(s, path)
    ensures var t := MountBlockVolume(s, device, path, readonly, f).st;
            && |t.mounts| == |s.mounts| + 1 && t.mounts[..|s.mounts|] == s.mounts
            && RawRow(t.mounts[|s.mounts|], path, device, readonly)
            && t.format == s.format && t.contents == s.contents
  {
  }

  /** A block stage that mounts adds one writable row for the raw device. */
  lemma BlockStageMounts(s: State, rpc: Rpc, f: Faults)
    requires rpc.Stage? && rpc.cap.Block? && Exec(s, rpc, f).status == Ok && !Mounted(s, PathOf(rpc).value)
    ensures var t := Exec(s, rpc, f).st;
            && |t.mounts| == |s.mounts| + 1 && t.mounts[..|s.mounts|] == s.mounts
            && RawRow(t.mounts[|s.mounts|], PathOf(rpc).value, f.device.value, false)
            && t.format == s.format && t.contents == s.contents
  {
    BlockRow(s, f.device.value, PathOf(rpc).value, false, f);
  }

  /** A block publish that mounts adds one row for the raw device, read-only exactly when the request
      says so. */
  lemma BlockPublishMounts(s: State, rpc: Rpc, f: Faults)
    requires rpc.Publish? && rpc.cap.Block? && Exec(s, rpc, f).status == Ok && !Mounted(s, rpc.target.value)
    ensures var t := Exec(s, rpc, f).st;
            var m := FirstAt(t.mounts, rpc.target.value);
            && |t.mounts| == |s.mounts| + 1 && t.mounts[..|s.mounts|] == s.mounts
            && RawRow(t.mounts[|s.mounts|], rpc.target.value, f.device.value, rpc.readonly)
            && m == Some(t.mounts[|s.mounts|]) && Some(m.value.backing) == f.device
            && ("ro" in m.value.opts <==> rpc.readonly)
            && t.format == s.format && t.contents == s.contents
  {
    var p := rpc.target.value;
    BlockRow(s, f.device.value, p, rpc.readonly, f);
    var t := Exec(s, rpc, f).st;
    CountZero(s.mounts, p);
    assert t.mounts == s.mounts + [t.mounts[|s.mounts|]];
    AppendMount(s.mounts, t.mounts[|s.mounts|], p);
  }

  /** The options without "rw" and "ro", in order. */
  lemma {:induction false} DropIs(a: seq<string>, b: seq<string>)
    ensures DropReadWrite(a + b) == DropReadWrite(a) + DropReadWrite(b)
    ensures "rw" !in b && "ro" !in b ==> DropReadWrite(b) == b
    ensures DropReadWrite(["rw"]) == DropReadWrite(["ro"]) == []
    decreases |b|
  {
    assert ["rw"][..0] == [] && ["ro"][..0] == [];
    if b == [] {
      assert a + b == a;
    } else {
      var n := |b| - 1;
      assert (a + b)[..|a + b| - 1] == a + b[..n];
      DropIs(a, b[..n]);
      assert b == b[..n] + [b[n]];
    }
  }

  /** A filesystem publish that mounts adds one row: device, type, root and data of what is mounted
      at the staging path, and the flags asked for with "bind" behind them; where the request is
      read-only, "ro" takes the place of "rw" and "ro" among them. */
  lemma FsPublishMounts(s: State, inUse: iset<Path>, rpc: Rpc, f: Faults)
    requires Inv(s, inUse) && rpc.Publish? && rpc.cap.Mount? && Exec(s, rpc, f).status == Ok
    requires !Mounted(s, rpc.target.value)
    requires var sp := StagingPath(rpc.staging.value, rpc.volume); sp in inUse && Mounted(s, sp)
    ensures var t, src := Exec(s, rpc, f).st, FirstAt(s.mounts, StagingPath(rpc.staging.value, rpc.volume)).value;
            && |t.mounts| == |s.mounts| + 1 && t.mounts[..|s.mounts|] == s.mounts
            && t.format == s.format && t.contents == s.contents
            && var e := t.mounts[|s.mounts|];
               && e.path == rpc.target.value && e.device == src.device && e.fsType == src.fsType
               && e.root == src.root && e.backing == src.backing
               && (!rpc.readonly ==> e.opts == rpc.cap.flags + ["bind"])
               && (rpc.readonly ==> e.opts == DropReadWrite(rpc.cap.flags) + ["ro"] + ["bind"])
               && ("ro" in e.opts <==> rpc.readonly || "ro" in rpc.cap.flags)
  {
    TopIsFirst(s.mounts, StagingPath(rpc.staging.value, rpc.volume));
  }

  /** The type a request asks for: ext4 unless it names one. */
  function Requested(cap: Capability): string {
    if cap.Mount? && cap.fsType != "" then cap.fsType else "ext4"
  }

  /** A filesystem stage that mounts adds one row for the device it found, with the type and the flags
      asked for, and "nouuid" for xfs; a blank device gets that type and loses what it held, a
      formatted one and all others are left alone. */
  lemma FsStageMounts(s: State, rpc: Rpc, f: Faults)
    requires rpc.Stage? && !rpc.cap.Block? && Exec(s, rpc, f).status == Ok && !Mounted(s, PathOf(rpc).value)
    ensures var t, d, fs := Exec(s, rpc, f).st, f.device.value, Requested(rpc.cap);
            var flags := if rpc.cap.Mount? then rpc.cap.flags else [];
            && t.mounts == s.mounts + [Entry(d, PathOf(rpc).value, fs,
                                             flags + if fs == "xfs" then ["nouuid"] else [], "/", d)]
            && (Format(s, d) == "" ==> t.format == s.format[d := fs] && t.contents == s.contents[d := ""])
            && (Format(s, d) != "" ==> t.format == s.format && t.contents == s.contents)
  {
    var d, fs := f.device.value, Requested(rpc.cap);
    var flags := if rpc.cap.Mount? then rpc.cap.flags else [];
    FormatRow(CreateDir(s, PathOf(rpc).value, f).st, d, PathOf(rpc).value, fs, flags, f);
    if fs != "xfs" {
      assert flags + [] == flags;
    }
  }

  lemma FormatRow(s: State, device: string, path: Path, fsType: string, opts: seq<string>, f: Faults)
    requires FormatAndMount(s, device, path, fsType, opts, f).status == Ok
    ensures var t := FormatAndMount(s, device, path, fsType, opts, f).st;
            && t.mounts == s.mounts + [Entry(device, path, fsType,
                                             if fsType == "xfs" then opts + ["nouuid"] else opts, "/", device)]
            && (Format(s, device) == "" ==>
                  t.format == s.format[device := fsType] && t.contents == s.contents[device := ""])
            && (Format(s, device) != "" ==> t.format == s.format && t.contents == s.contents)
  {
  }

  /** A volume with a plain id that was staged is mounted in the directory of its name. */
  lemma StagedWhere(s: State, rpc: Rpc, f: Faults)
    requires rpc.Stage? && PlainName(rpc.volume) && Exec(s, rpc, f).status == Ok
    ensures Mounted(Exec(s, rpc, f).st, rpc.staging.value + [rpc.volume])
  {
    StagingIs(rpc.staging.value, rpc.volume);
    if rpc.cap.Block? {
      BlockIsMounted(s, f.device.value, PathOf(rpc).value, false, f);
    } else {
      FsIsMounted(s, f.device.value, PathOf(rpc).value, rpc.cap, f);
    }
  }

  /** A volume with a plain id that was unstaged has its own directory removed, and nothing outside
      of it. */
  lemma UnstagedWhere(s: State, rpc: Rpc, f: Faults)
    requires rpc.Unstage? && PlainName(rpc.volume) && Exec(s, rpc, f).status == Ok
    ensures var p, t := rpc.staging.value + [rpc.volume], Exec(s, rpc, f).st;
            p !in t.files && forall q :: q in s.files && !(p <= q) ==> q in t.files && t.files[q] == s.files[q]
  {
    StagingIs(rpc.staging.value, rpc.volume);
    assert Exec(s, rpc, f) == UnmountVolume(s, rpc.staging.value + [rpc.volume], f);
    UnmountedWhere(s, rpc.staging.value + [rpc.volume], f);
  }

  lemma UnmountedWhere(s: State, path: Path, f: Faults)
    requires UnmountVolume(s, path, f).status == Ok
    ensures var t := UnmountVolume(s, path, f).st;
            path !in t.files && forall q :: q in s.files && !(path <= q) ==> q in t.files && t.files[q] == s.files[q]
  {
    var d := DetachStep(s, path, f);
    RemovesAll(d.st, path, f.leftover);
    if path in s.files {
      assert d.status == Ok && d.st.files == s.files;
      assert UnmountVolume(s, path, f) == RemoveAll(d.st, path, f.leftover);
    }
  }

  /** A stage whose mkfs failed after it wrote leaves an empty device with whatever format is there now;
      one whose mkfs did not run leaves it blank with its data. */
  lemma FailedMkfs(s: State, rpc: Rpc, f: Faults)
    requires rpc.Stage? && !rpc.cap.Block? && rpc.volume != "" && rpc.staging.Some? && Quiet(f) && !f.mkfs.MkfsOk?
    requires !Mounted(s, PathOf(rpc).value) && CanMake(s, PathOf(rpc).value, Dir)
    requires Format(s, f.device.value) == "" && (Requested(rpc.cap) in {"ext4", "xfs"} || "ro" !in Flags(rpc.cap))
    ensures var o, d := Exec(s, rpc, f), f.device.value;
            && o.status == Internal && o.st.mounts == s.mounts
            && o.st.format == (if f.mkfs.MkfsPartial? then s.format[d := f.mkfs.leaves] else s.format)
            && o.st.contents == (if f.mkfs.MkfsPartial? then s.contents[d := ""] else s.contents)
  {
    MakeDir(s, PathOf(rpc).value, f);
  }

  // ---- The path tree ----

  /** A directory that was made brings all missing ones above it, and nothing else; a failure may
      leave some of those above. */
  lemma MakesDirs(s: State, path: Path, f: Faults)
    ensures var o := CreateDir(s, path, f);
            && (forall p :: p in s.files ==> p in o.st.files && o.st.files[p] == s.files[p])
            && (forall p :: p in o.st.files && p !in s.files ==> p <= path && o.st.files[p].Dir?)
            && (o.status == Ok && path !in s.files ==> forall n :: 0 <= n <= |path| ==> path[..n] in o.st.files)
            && (o.status != Ok && CanMake(s, path, Dir) && !f.stat && path !in s.files ==>
                  forall n :: 0 <= n <= |path| && path[..n] !in s.files ==>
                    (path[..n] in o.st.files <==> n < |path| && path[..n] in f.made))
            && (o.status != Ok ==> (path in o.st.files <==> path in s.files))
  {
    assert path == path[..|path|];
  }

  lemma MakesFile(s: State, path: Path, f: Faults)
    ensures var o := CreateFile(s, path, f);
            o.st.files == if o.status == Ok && path !in s.files then s.files[path := File] else s.files
  {
  }

  /** The recursive delete destroys the data of every device mounted at or below the path, and of no
      other; it removes what lies there except what it could not delete. */
  lemma DeleteDestroys(s: State, path: Path, leftover: set<Path>)
    ensures var t := RemoveAll(s, path, leftover).st;
            && t.mounts == s.mounts && t.format == s.format && t.contents.Keys == s.contents.Keys
            && (forall e :: e in s.mounts && path <= e.path && e.backing in s.contents ==> t.contents[e.backing] == "")
            && (forall d :: d in s.contents && (forall e :: e in s.mounts && e.backing == d ==> !(path <= e.path)) ==>
                  t.contents[d] == s.contents[d])
            && (forall q :: q in t.files <==> q in s.files && (path <= q ==> q in leftover))
  {
    forall e | e in s.mounts && path <= e.path ensures Reaches(s.mounts, path, e.backing) {
    }
    RemovesAll(s, path, leftover);
  }

  /** A bind mount whose option remount failed stays behind with "bind" for its only option: a block
      request's with the row of its raw device, a filesystem publish's with that of its source. */
  lemma HalfStays(s: State, inUse: iset<Path>, rpc: Rpc, f: Faults)
    requires (rpc.Stage? || rpc.Publish?) && rpc.volume != "" && rpc.staging.Some? && PathOf(rpc).Some?
    requires (rpc.cap.Block? || (rpc.Publish? && rpc.cap.Mount?)) && f.mount.MountHalf? && Quiet(f)
    requires Inv(s, inUse) && !Mounted(s, PathOf(rpc).value)
    requires CanMake(s, PathOf(rpc).value, if rpc.cap.Block? then File else Dir)
    requires !rpc.cap.Block? ==>
               var sp := StagingPath(rpc.staging.value, rpc.volume); sp in inUse && sp in s.files && Mounted(s, sp)
    ensures var o, p := Exec(s, rpc, f), PathOf(rpc).value;
            && o.status == Internal && |o.st.mounts| == |s.mounts| + 1 && o.st.mounts[..|s.mounts|] == s.mounts
            && var e := o.st.mounts[|s.mounts|];
               && e.opts == ["bind"] && e.path == p
               && if rpc.cap.Block? then RawRow(e, p, f.device.value, false)
                  else var src := FirstAt(s.mounts, StagingPath(rpc.staging.value, rpc.volume)).value;
                       && e.device == src.device && e.fsType == src.fsType
                       && e.root == src.root && e.backing == src.backing
  {
    var p, sp := PathOf(rpc).value, StagingPath(rpc.staging.value, rpc.volume);
    if rpc.cap.Block? {
      HalfBlock(s, f.device.value, p, rpc.Publish? && rpc.readonly, f);
    } else {
      TopIsFirst(s.mounts, sp);
      MakeDir(s, p, f);
    }
  }

  lemma HalfBlock(s: State, device: string, path: Path, readonly: bool, f: Faults)
    requires f.mount.MountHalf? && Quiet(f) && !Mounted(s, path) && CanMake(s, path, File)
    ensures var o := MountBlockVolume(s, device, path, readonly, f);
            && o.status == Internal && |o.st.mounts| == |s.mounts| + 1 && o.st.mounts[..|s.mounts|] == s.mounts
            && RawRow(o.st.mounts[|s.mounts|], path, device, false)
  {
  }

  // ---- Requests that cannot be served ----

  /** Requests with a missing argument are refused before anything is done, and so is one whose
      device is not found. */
  lemma BadRequests(s: State, rpc: Rpc, f: Faults)
    ensures rpc.volume == "" ==> Exec(s, rpc, f) == Out(s, InvalidArgument)
    ensures (rpc.Publish? || rpc.Unpublish?) && rpc.target.None? ==> Exec(s, rpc, f) == Out(s, InvalidArgument)
    ensures (rpc.Stage? || rpc.Unstage?) && rpc.staging.None? ==> Exec(s, rpc, f) == Out(s, InvalidArgument)
    ensures rpc.Publish? && rpc.cap.Missing? ==> Exec(s, rpc, f) == Out(s, InvalidArgument)
    ensures rpc.Publish? && rpc.staging.None? && rpc.volume != "" && rpc.target.Some? && !rpc.cap.Missing? ==>
              Exec(s, rpc, f) == Out(s, FailedPrecondition)
    ensures (rpc.Stage? || rpc.Publish?) && rpc.volume != "" && rpc.staging.Some? && f.device.None?
            && (rpc.Publish? ==> rpc.target.Some? && !rpc.cap.Missing?) ==>
              Exec(s, rpc, f) == Out(s, Unknown)
  {
  }

  /** A stage on a path that is mounted otherwise, or is of the wrong kind, answers AlreadyExists and
      changes nothing. */
  lemma StageConflicts(s: State, rpc: Rpc, f: Faults)
    requires rpc.Stage? && rpc.volume != "" && rpc.staging.Some? && (rpc.cap.Block? || rpc.cap.Mount?) && Quiet(f)
    requires PathOf(rpc).value in s.files
    ensures var p := PathOf(rpc).value;
            || s.files[p] != (if rpc.cap.Block? then File else Dir)
            || (Mounted(s, p) && !if rpc.cap.Block? then ServesBlock(s, p, f.device.value)
                                  else Serves(s, p, f.device.value, rpc.cap)) ==>
              Exec(s, rpc, f) == Out(s, AlreadyExists)
  {
  }

  /** The same for a publish from a mounted staging path. */
  lemma PublishConflicts(s: State, rpc: Rpc, f: Faults)
    requires rpc.Publish? && rpc.volume != "" && rpc.staging.Some? && rpc.target.Some? && Quiet(f)
    requires (rpc.cap.Block? || rpc.cap.Mount?) && rpc.target.value in s.files
    requires var sp := StagingPath(rpc.staging.value, rpc.volume); sp in s.files && Mounted(s, sp)
    ensures var p, sp := rpc.target.value, StagingPath(rpc.staging.value, rpc.volume);
            || s.files[p] != (if rpc.cap.Block? then File else Dir)
            || (Mounted(s, p) && !if rpc.cap.Block? then ServesBlock(s, p, f.device.value)
                                  else Serves(s, p, FirstAt(s.mounts, sp).value.device, rpc.cap)) ==>
              Exec(s, rpc, f) == Out(s, AlreadyExists)
  {
  }

  /** A stage or publish that fails leaves the mount table as it was, unless a bind mount stayed behind
      its failed option remount. */
  lemma FailureLeavesMounts(s: State, rpc: Rpc, f: Faults)
    requires Exec(s, rpc, f).status != Ok && !f.mount.MountHalf? && (rpc.Stage? || rpc.Publish?)
    ensures Exec(s, rpc, f).st.mounts == s.mounts
  {
    if f.device.Some? && PathOf(rpc).Some? && rpc.staging.Some? {
      var d, p := f.device.value, PathOf(rpc).value;
      BlockFailure(s, d, p, rpc.Publish? && rpc.readonly, f);
      if rpc.Stage? {
        MountFailure(s, d, p, rpc.cap, f);
      } else {
        BindFailure(s, StagingPath(rpc.staging.value, rpc.volume), p, rpc.cap, rpc.readonly, f);
      }
    }
  }

  lemma BlockFailure(s: State, device: string, path: Path, readonly: bool, f: Faults)
    requires !f.mount.MountHalf?
    ensures var o := MountBlockVolume(s, device, path, readonly, f); o.status != Ok ==> o.st.mounts == s.mounts
  {
  }

  lemma MountFailure(s: State, device: string, path: Path, cap: Capability, f: Faults)
    ensures var o := MountMountVolume(s, device, path, cap, false, f); o.status != Ok ==> o.st.mounts == s.mounts
  {
  }

  lemma BindFailure(s: State, source: Path, path: Path, cap: Capability, readonly: bool, f: Faults)
    requires !f.mount.MountHalf?
    ensures var o := BindMountVolume(s, source, path, cap, readonly, f); o.status != Ok ==> o.st.mounts == s.mounts
  {
  }
}
