/**
 The node service as transitions of a mount table, a path tree and per-device
 formats (pkg/driver/node.go, pkg/utils/mount.go, createDir and createFile of
 pkg/driver/utils.go). Every external call an RPC makes draws its outcome from a
 `Faults` record, so a statement over all `Faults` covers failures anywhere.
 */
module NodeModel {
  import opened Text

  /** Cleaned absolute path, as its components. */
  type Path = seq<string>

  datatype Kind = File | Dir

  /** One row of the kernel's mount table. `device`, `fsType` and `opts` are what
      the mount list shows, `root` is the mountinfo root, and `backing` is the
      device whose data is reachable through the mount. */
  datatype Entry = Entry(device: string, path: Path, fsType: string, opts: seq<string>, root: string, backing: string)

  datatype State = State(
    files: map<Path, Kind>, mounts: seq<Entry>, format: map<string, string>, contents: map<string, string>)

  datatype Status = Ok | InvalidArgument | FailedPrecondition | AlreadyExists | Internal | Unknown | Crash

  datatype Out = Out(st: State, status: Status)

  datatype MkfsOutcome = MkfsOk | MkfsNotRun | MkfsPartial(leaves: string)

  /** `MountHalf`: a bind mount whose option remount failed stays behind. */
  datatype MountOutcome = MountOk | MountFailed | MountHalf

  /** Outcomes of the external calls of one RPC; `true` means that the call fails. */
  datatype Faults = Faults(
    device: Option<string>,       // answer of getVolumeDevice
    stat: bool,                   // os.Stat, for a reason other than absence
    make: bool, made: set<Path>,  // os.MkdirAll or os.Create, with the directories made before failing
    check: bool,                  // IsLikelyNotMountPoint
    list: bool, relist: bool,     // first and second read of the mount table
    probe: bool,                  // GetDiskFormat
    mkfs: MkfsOutcome,
    mount: MountOutcome,
    umount: bool,
    leftover: set<Path>)          // what os.RemoveAll could not delete

  /** `Missing` is a nil capability, `Neither` one with no access type. */
  datatype Capability = Missing | Neither | Block | Mount(fsType: string, flags: seq<string>)

  datatype Rpc =
    | Stage(volume: string, staging: Option<Path>, cap: Capability)
    | Publish(volume: string, staging: Option<Path>, target: Option<Path>, cap: Capability, readonly: bool)
    | Unpublish(volume: string, target: Option<Path>)
    | Unstage(volume: string, staging: Option<Path>)

  const DEFAULT_FS := "ext4"
  const HOST_DEVICE := "rootfs"
  const HOST_FS := "hostfs"
  const DEVTMPFS := "devtmpfs"

  // ---- The mount table ----

  /** The row GetMountPoint and GetMountRef return: the first one at `path`. */
  function FirstAt(mounts: seq<Entry>, path: Path): (r: Option<Entry>)
    ensures r.Some? ==> r.value in mounts && r.value.path == path
  {
    if mounts == [] then None else
      var n := |mounts| - 1;
      var r := FirstAt(mounts[..n], path);
      if r.Some? then r else if mounts[n].path == path then Some(mounts[n]) else None
  }

  /** The mount in force at `path`: the one stacked last. */
  function TopAt(mounts: seq<Entry>, path: Path): (r: Option<Entry>)
    ensures r.Some? ==> r.value in mounts && r.value.path == path
  {
    if mounts == [] then None else
      var n := |mounts| - 1;
      if mounts[n].path == path then Some(mounts[n]) else TopAt(mounts[..n], path)
  }

  /** umount(8): drop the mount stacked last at `path`. */
  function Detach(mounts: seq<Entry>, path: Path): (r: seq<Entry>)
    ensures forall e :: e in r ==> e in mounts
  {
    if mounts == [] then [] else
      var n := |mounts| - 1;
      if mounts[n].path == path then mounts[..n] else Detach(mounts[..n], path) + [mounts[n]]
  }

  predicate Mounted(s: State, path: Path) { FirstAt(s.mounts, path).Some? }

  function Format(s: State, device: string): string {
    if device in s.format then s.format[device] else ""
  }

  /** A bind mount shows the source's underlying device and type, with the options given. */
  function BindEntry(s: State, source: Path, path: Path, opts: seq<string>): Entry {
    match TopAt(s.mounts, source)
    case Some(e) => Entry(e.device, path, e.fsType, opts, e.root, e.backing)
    case None => Entry(HOST_DEVICE, path, HOST_FS, opts, "/", HOST_DEVICE)
  }

  // ---- The path tree ----

  function Prefixes(path: Path): set<Path> {
    set n | 0 <= n <= |path| :: path[..n]
  }

  function AddDirs(files: map<Path, Kind>, dirs: set<Path>): map<Path, Kind> {
    map p | p in files.Keys + dirs :: if p in files then files[p] else Dir
  }

  function CreateDir(s: State, path: Path, f: Faults): (o: Out)
    ensures o.st == s.(files := o.st.files)
    ensures o.status == Ok ==> path in o.st.files && o.st.files[path].Dir?
  {
    assert path == path[..|path|];
    if f.stat then Out(s, Internal)
    else if path in s.files then Out(s, if s.files[path].Dir? then Ok else AlreadyExists)
    else if f.make || exists p :: p in Prefixes(path) && p in s.files && s.files[p].File? then
      Out(s.(files := AddDirs(s.files, (Prefixes(path) - {path}) * f.made)), Internal)
    else Out(s.(files := AddDirs(s.files, Prefixes(path))), Ok)
  }

  function CreateFile(s: State, path: Path, f: Faults): (o: Out)
    ensures o.st == s.(files := o.st.files)
    ensures o.status == Ok ==> path in o.st.files && o.st.files[path].File?
  {
    if f.stat then Out(s, Internal)
    else if path in s.files then Out(s, if s.files[path].Dir? then AlreadyExists else Ok)
    else if f.make || path == [] || path[..|path| - 1] !in s.files || s.files[path[..|path| - 1]].File? then
      Out(s, Internal)
    else Out(s.(files := s.files[path := File]), Ok)
  }

  /** Data of `device` can be reached at or below `path`. */
  predicate Reaches(mounts: seq<Entry>, path: Path, device: string) {
    exists e :: e in mounts && path <= e.path && e.backing == device
  }

  /** os.RemoveAll: whatever is mounted at or below `path` loses its data. */
  function RemoveAll(s: State, path: Path, leftover: set<Path>): Out {
    var files := map p | p in s.files && !(path <= p && p !in leftover) :: s.files[p];
    var contents := map d | d in s.contents :: if Reaches(s.mounts, path, d) then "" else s.contents[d];
    Out(s.(files := files, contents := contents), if exists p :: p in files && path <= p then Internal else Ok)
  }

  // ---- Options ----

  function MakeReadOnly(opts: seq<string>): seq<string> {
    DropReadWrite(opts) + ["ro"]
  }

  function DropReadWrite(opts: seq<string>): (r: seq<string>)
    ensures forall o :: o in r <==> o in opts && o != "rw" && o != "ro"
  {
    if opts == [] then [] else
      var n := |opts| - 1;
      DropReadWrite(opts[..n]) + if opts[n] == "rw" || opts[n] == "ro" then [] else [opts[n]]
  }

  predicate FlagsPresent(actual: seq<string>, expected: seq<string>) {
    forall o :: o in expected ==> o in actual
  }

  function FsType(cap: Capability): string {
    if cap.Mount? && cap.fsType != "" then cap.fsType else DEFAULT_FS
  }

  function Flags(cap: Capability): seq<string> {
    if cap.Mount? then cap.flags else []
  }

  // ---- Formatting ----

  /** The mkfs options formatWithOption is given, the ones its read-only test looks at. */
  function MkfsOpts(fsType: string): seq<string> {
    if fsType == "xfs" then ["-m", "reflink=0", "-K"] else ["-E", "nodiscard", "-F", "-m0"]
  }

  function Mkfs(s: State, device: string, fsType: string, f: Faults): Out {
    match f.mkfs
    case MkfsOk => Out(s.(format := s.format[device := fsType], contents := s.contents[device := ""]), Ok)
    case MkfsNotRun => Out(s, Internal)
    case MkfsPartial(leaves) =>
      Out(s.(format := s.format[device := leaves], contents := s.contents[device := ""]), Internal)
  }

  /** Format when blank; `refuse` is the read-only test made on a blank disk. */
  function FormatIfBlank(s: State, device: string, fsType: string, refuse: bool, f: Faults): Out {
    if f.probe then Out(s, Internal)
    else if Format(s, device) != "" then Out(s, Ok)
    else if refuse then Out(s, Internal)
    else Mkfs(s, device, fsType, f)
  }

  /** The mount options FormatAndMount ends up passing. */
  function MountOpts(fsType: string, opts: seq<string>): seq<string> {
    if fsType == "xfs" then opts + ["nouuid"] else opts
  }

  /** ext4 and xfs test the mkfs options for "ro"; the library, for other types, tests the mount options. */
  predicate RefusesBlank(fsType: string, opts: seq<string>) {
    if fsType == "xfs" || fsType == "ext4" then "ro" in MkfsOpts(fsType) else "ro" in opts
  }

  function FormatAndMount(s: State, device: string, path: Path, fsType: string, opts: seq<string>, f: Faults): Out {
    var o := FormatIfBlank(s, device, fsType, RefusesBlank(fsType, opts), f);
    if o.status != Ok then o
    else if f.mount != MountOk then Out(o.st, Internal)
    else Out(AddMount(o.st, Entry(device, path, fsType, MountOpts(fsType, opts), "/", device)), Ok)
  }

  function AddMount(s: State, e: Entry): State { s.(mounts := s.mounts + [e]) }

  // ---- Conflict detection ----

  function DetectBlock(s: State, device: string, path: Path, f: Faults): Status {
    if f.list || path !in s.files then Internal else
      match FirstAt(s.mounts, path)
      case None => Crash
      case Some(e) => if Base(e.root) != Base(device) then AlreadyExists else Ok
  }

  function DetectMount(s: State, device: string, path: Path, cap: Capability, f: Faults): Status {
    if !cap.Mount? then Crash
    else if f.relist || path !in s.files then Internal else
      match FirstAt(s.mounts, path)
      case None => Crash
      case Some(e) =>
        if e.device != device || e.fsType != FsType(cap) || !FlagsPresent(e.opts, cap.flags) then AlreadyExists else Ok
  }

  // ---- Mounting ----

  function BlockEntry(device: string, path: Path, opts: seq<string>): Entry {
    Entry(DEVTMPFS, path, DEVTMPFS, opts, "/" + Base(device), device)
  }

  /** A bind mount, which may fail after the mount itself was made. */
  function BindMount(s: State, full: Entry, f: Faults): Out {
    match f.mount
    case MountOk => Out(AddMount(s, full), Ok)
    case MountFailed => Out(s, Internal)
    case MountHalf => Out(AddMount(s, full.(opts := ["bind"])), Internal)
  }

  function MountBlockVolume(s: State, device: string, path: Path, readonly: bool, f: Faults): Out {
    var c := CreateFile(s, path, f);
    if c.status != Ok then c
    else if f.check then Out(c.st, Internal)
    else if Mounted(c.st, path) then Out(c.st, DetectBlock(c.st, device, path, f))
    else BindMount(c.st, BlockEntry(device, path, if readonly then ["bind", "ro"] else ["bind"]), f)
  }

  /** The options a filesystem publish asks the mount for. */
  function BindOpts(cap: Capability, readonly: bool): seq<string> {
    (if readonly then MakeReadOnly(Flags(cap)) else Flags(cap)) + ["bind"]
  }

  function BindMountVolume(s: State, source: Path, path: Path, cap: Capability, readonly: bool, f: Faults): Out {
    var c := CreateDir(s, path, f);
    if c.status != Ok then c
    else if f.check || f.list || source !in c.st.files then Out(c.st, Internal)
    else if Mounted(c.st, path) then
      match FirstAt(c.st.mounts, source)
      case None => Out(c.st, Crash)
      case Some(m) => Out(c.st, DetectMount(c.st, m.device, path, cap, f))
    else BindMount(c.st, BindEntry(c.st, source, path, BindOpts(cap, readonly)), f)
  }

  function MountMountVolume(s: State, device: string, path: Path, cap: Capability, readonly: bool, f: Faults): Out {
    var c := CreateDir(s, path, f);
    if c.status != Ok then c
    else if f.check then Out(c.st, Internal)
    else if Mounted(c.st, path) then Out(c.st, DetectMount(c.st, device, path, cap, f))
    else FormatAndMount(c.st, device, path, FsType(cap), if readonly then MakeReadOnly(Flags(cap)) else Flags(cap), f)
  }

  // ---- Unmounting ----

  /** unmountVolume up to its recursive delete; `Ok` means that the delete runs next. */
  function DetachStep(s: State, path: Path, f: Faults): Out {
    if f.check then Out(s, Internal)
    else if !Mounted(s, path) then Out(s, Ok)
    else if f.umount then Out(s, Internal)
    else Out(s.(mounts := Detach(s.mounts, path)), Ok)
  }

  function UnmountVolume(s: State, path: Path, f: Faults): Out {
    if f.stat then Out(s, Internal)
    else if path !in s.files then Out(s, Ok)
    else
      var d := DetachStep(s, path, f);
      if d.status != Ok then d else RemoveAll(d.st, path, f.leftover)
  }

  // ---- RPCs ----

  /** filepath.Join of a cleaned path and the base name of the volume id. */
  function StagingPath(target: Path, volume: string): Path {
    var b := Base(volume);
    if b == "." || b == "/" then target
    else if b == ".." then (if target == [] then [] else target[..|target| - 1])
    else target + [b]
  }

  function ExecStage(s: State, volume: string, staging: Path, cap: Capability, f: Faults): Out {
    match f.device
    case None => Out(s, Unknown)
    case Some(device) =>
      if cap.Block? then MountBlockVolume(s, device, StagingPath(staging, volume), false, f)
      else MountMountVolume(s, device, StagingPath(staging, volume), cap, false, f)
  }

  function ExecPublish(
    s: State, volume: string, staging: Path, target: Path, cap: Capability, readonly: bool, f: Faults): Out
  {
    match f.device
    case None => Out(s, Unknown)
    case Some(device) =>
      if cap.Block? then MountBlockVolume(s, device, target, readonly, f)
      else BindMountVolume(s, StagingPath(staging, volume), target, cap, readonly, f)
  }

  function Exec(s: State, rpc: Rpc, f: Faults): Out {
    match rpc
    case Stage(volume, staging, cap) =>
      if volume == "" || staging.None? then Out(s, InvalidArgument)
      else ExecStage(s, volume, staging.value, cap, f)
    case Publish(volume, staging, target, cap, readonly) =>
      if volume == "" || target.None? || cap.Missing? then Out(s, InvalidArgument)
      else if staging.None? then Out(s, FailedPrecondition)
      else ExecPublish(s, volume, staging.value, target.value, cap, readonly, f)
    case Unpublish(volume, target) =>
      if volume == "" || target.None? then Out(s, InvalidArgument) else UnmountVolume(s, target.value, f)
    case Unstage(volume, staging) =>
      if volume == "" || staging.None? then Out(s, InvalidArgument)
      else UnmountVolume(s, StagingPath(staging.value, volume), f)
  }

  /** The one path an RPC mounts or unmounts. */
  function PathOf(rpc: Rpc): Option<Path> {
    match rpc
    case Stage(volume, staging, _) => if staging.None? then None else Some(StagingPath(staging.value, volume))
    case Publish(_, _, target, _, _) => target
    case Unpublish(_, target) => target
    case Unstage(volume, staging) => if staging.None? then None else Some(StagingPath(staging.value, volume))
  }

  // ---- Runs ----

  /** A run interleaves RPCs with writes by the workloads that use the volumes. */
  datatype Event = Call(rpc: Rpc, faults: Faults) | Write(device: string, data: string)

  function Step(s: State, e: Event): State {
    match e
    case Call(rpc, f) => Exec(s, rpc, f).st
    case Write(device, data) => s.(contents := s.contents[device := data])
  }

  function Run(s: State, es: seq<Event>): State
  {
    if es == [] then s else Step(Run(s, es[..|es| - 1]), es[|es| - 1])
  }
}
