/**
 The node service with its RPCs cut into steps. An RPC whose steps run without
 interruption is the transition of NodeModel.
 */
module NodeSteps {
  import opened Text
  import opened NodeModel
  import opened NodeRuns

  datatype Pc =
    | Begun
    | Created          // the path exists, or an unmount saw that it exists
    | Unmounted        // filesystem stage: the path is not a mount point
    | Blank            // filesystem stage: the device has no format
    | Formatted        // filesystem stage: about to mount
    | Bindable         // about to bind-mount
    | Attached         // unmount: about to call umount
    | Detached         // unmount: about to delete recursively
    | Ended(status: Status)

  datatype Next = Next(st: State, pc: Pc)

  function Rank(pc: Pc): nat {
    match pc
    case Begun => 5 case Created => 4 case Unmounted => 3 case Blank => 2 case Attached => 2
    case Formatted => 1 case Bindable => 1 case Detached => 1 case Ended(_) => 0
  }

  function Continue(o: Out, pc: Pc): Next { Next(o.st, if o.status == Ok then pc else Ended(o.status)) }

  // ---- Steps ----

  predicate FsStage(rpc: Rpc) { rpc.Stage? && !rpc.cap.Block? }

  /** The argument checks and the creation of the path. */
  function BeginStep(s: State, rpc: Rpc, f: Faults, path: Path): Next {
    match rpc
    case Stage(volume, staging, cap) =>
      if volume == "" || staging.None? then Next(s, Ended(InvalidArgument))
      else if f.device.None? then Next(s, Ended(Unknown))
      else Continue(if cap.Block? then CreateFile(s, path, f) else CreateDir(s, path, f), Created)
    case Publish(volume, staging, target, cap, _) =>
      if volume == "" || target.None? || cap.Missing? then Next(s, Ended(InvalidArgument))
      else if staging.None? then Next(s, Ended(FailedPrecondition))
      else if f.device.None? then Next(s, Ended(Unknown))
      else Continue(if cap.Block? then CreateFile(s, path, f) else CreateDir(s, path, f), Created)
    case _ =>
      if rpc.volume == "" then Next(s, Ended(InvalidArgument))
      else if f.stat then Next(s, Ended(Internal))
      else if path !in s.files then Next(s, Ended(Ok))
      else Next(s, Created)
  }

  /** The mount-point check, with the conflict detection on a mounted path. The source makes up to
      three reads here, of the path, of the publish's source and of the path again; they are one
      step. No read changes anything, and only the RPC under way on a path changes its mounts, so
      the mounts of the path are the same at each of the three. */
  function CheckStep(s: State, rpc: Rpc, f: Faults, path: Path): Next
    requires rpc.Stage? || rpc.Publish? ==> f.device.Some? && rpc.staging.Some?
  {
    if f.check then Next(s, Ended(Internal)) else
      match rpc
      case Stage(volume, staging, cap) =>
        if cap.Block? then
          if Mounted(s, path) then Next(s, Ended(DetectBlock(s, f.device.value, path, f))) else Next(s, Bindable)
        else if Mounted(s, path) then Next(s, Ended(DetectMount(s, f.device.value, path, cap, f)))
        else Next(s, Unmounted)
      case Publish(volume, staging, _, cap, _) =>
        var source := StagingPath(staging.value, volume);
        if cap.Block? then
          if Mounted(s, path) then Next(s, Ended(DetectBlock(s, f.device.value, path, f))) else Next(s, Bindable)
        else if f.list || source !in s.files then Next(s, Ended(Internal))
        else if Mounted(s, path) then
          match FirstAt(s.mounts, source) {
            case None => Next(s, Ended(Crash))
            case Some(m) => Next(s, Ended(DetectMount(s, m.device, path, cap, f)))
          }
        else Next(s, Bindable)
      case _ => Next(s, if Mounted(s, path) then Attached else Detached)
  }

  /** The entry a bind step adds, read off the mount table at that moment. */
  function BindStepEntry(s: State, rpc: Rpc, device: string, path: Path): Entry
    requires rpc.Stage? || (rpc.Publish? && rpc.staging.Some?)
  {
    if rpc.Stage? then BlockEntry(device, path, ["bind"])
    else if rpc.cap.Block? then BlockEntry(device, path, if rpc.readonly then ["bind", "ro"] else ["bind"])
    else BindEntry(s, StagingPath(rpc.staging.value, rpc.volume), path, BindOpts(rpc.cap, rpc.readonly))
  }

  /** A filesystem stage request that can lead to mkfs. */
  predicate Formatting(rpc: Rpc) {
    FsStage(rpc) && rpc.volume != "" && rpc.staging.Some? && !RefusesBlank(FsType(rpc.cap), Flags(rpc.cap))
  }

  /** Whether an RPC can be at this point at all. */
  predicate At(rpc: Rpc, f: Faults, pc: Pc) {
    match pc
    case Begun => true
    case Created => rpc.Stage? || rpc.Publish? ==> f.device.Some? && rpc.staging.Some? && rpc.volume != ""
    case Unmounted => FsStage(rpc) && f.device.Some? && rpc.staging.Some? && rpc.volume != ""
    case Blank => Formatting(rpc) && f.device.Some?
    case Formatted => FsStage(rpc) && f.device.Some? && rpc.staging.Some?
    case Bindable => (rpc.Publish? || (rpc.Stage? && rpc.cap.Block?)) && f.device.Some? && rpc.staging.Some?
    case Attached => rpc.Unpublish? || rpc.Unstage?
    case Detached => rpc.Unpublish? || rpc.Unstage?
    case Ended(_) => true
  }

  /** What a filesystem stage mounts. */
  function StageEntry(rpc: Rpc, device: string, path: Path): Entry
    requires rpc.Stage?
  {
    var fs := FsType(rpc.cap);
    Entry(device, path, fs, MountOpts(fs, Flags(rpc.cap)), "/", device)
  }

  function Advance(s: State, rpc: Rpc, f: Faults, path: Path, pc: Pc): (n: Next)
    requires At(rpc, f, pc)
    ensures At(rpc, f, n.pc)
    ensures !pc.Ended? ==> Rank(n.pc) < Rank(pc)
  {
    match pc
    case Begun => BeginStep(s, rpc, f, path)
    case Created => CheckStep(s, rpc, f, path)
    case Unmounted =>
      if f.probe then Next(s, Ended(Internal))
      else if Format(s, f.device.value) != "" then Next(s, Formatted)
      else if RefusesBlank(FsType(rpc.cap), Flags(rpc.cap)) then Next(s, Ended(Internal))
      else Next(s, Blank)
    case Blank => Continue(Mkfs(s, f.device.value, FsType(rpc.cap), f), Formatted)
    case Formatted =>
      if f.mount != MountOk then Next(s, Ended(Internal)) else
        Next(AddMount(s, StageEntry(rpc, f.device.value, path)), Ended(Ok))
    case Bindable => Continue(BindMount(s, BindStepEntry(s, rpc, f.device.value, path), f), Ended(Ok))
    case Attached =>
      if f.umount then Next(s, Ended(Internal)) else Next(s.(mounts := Detach(s.mounts, path)), Detached)
    case Detached => Continue(RemoveAll(s, path, f.leftover), Ended(Ok))
    case Ended(_) => Next(s, pc)
  }

  /** The remaining steps, without interruption. */
  function Drive(s: State, rpc: Rpc, f: Faults, path: Path, pc: Pc): Out
    requires At(rpc, f, pc)
    decreases Rank(pc)
  {
    if pc.Ended? then Out(s, pc.status) else
      var n := Advance(s, rpc, f, path, pc);
      Drive(n.st, rpc, f, path, n.pc)
  }

  // ---- Uninterrupted steps are the RPC ----

  lemma DriveUnmount(s: State, rpc: Rpc, f: Faults, path: Path)
    requires (rpc.Unpublish? || rpc.Unstage?) && rpc.volume != ""
    ensures Drive(s, rpc, f, path, Begun) == UnmountVolume(s, path, f)
  {
  }

  lemma DriveCreatedStage(s: State, rpc: Rpc, f: Faults, path: Path)
    requires FsStage(rpc) && At(rpc, f, Created)
    ensures Drive(s, rpc, f, path, Created) ==
            if f.check then Out(s, Internal)
            else if Mounted(s, path) then Out(s, DetectMount(s, f.device.value, path, rpc.cap, f))
            else FormatAndMount(s, f.device.value, path, FsType(rpc.cap), Flags(rpc.cap), f)
  {
  }

  lemma DriveCreatedBlock(s: State, rpc: Rpc, f: Faults, path: Path)
    requires (rpc.Stage? || rpc.Publish?) && rpc.cap.Block? && At(rpc, f, Created)
    ensures Drive(s, rpc, f, path, Created) ==
            if f.check then Out(s, Internal)
            else if Mounted(s, path) then Out(s, DetectBlock(s, f.device.value, path, f))
            else BindMount(s, BindStepEntry(s, rpc, f.device.value, path), f)
  {
  }

  lemma DriveCreatedBind(s: State, rpc: Rpc, f: Faults, path: Path)
    requires rpc.Publish? && !rpc.cap.Block? && At(rpc, f, Created)
    ensures var source := StagingPath(rpc.staging.value, rpc.volume);
            Drive(s, rpc, f, path, Created) ==
            if f.check || f.list || source !in s.files then Out(s, Internal)
            else if Mounted(s, path) then
              (match FirstAt(s.mounts, source)
               case None => Out(s, Crash)
               case Some(m) => Out(s, DetectMount(s, m.device, path, rpc.cap, f)))
            else BindMount(s, BindStepEntry(s, rpc, f.device.value, path), f)
  {
  }

  /** Refinement: the steps of an RPC that nothing interrupts are its transition in NodeModel. */
  lemma StepsAreExec(s: State, rpc: Rpc, f: Faults)
    requires PathOf(rpc).Some?
    ensures Drive(s, rpc, f, PathOf(rpc).value, Begun) == Exec(s, rpc, f)
  {
    var p := PathOf(rpc).value;
    match rpc
    case Stage(volume, staging, cap) =>
      if volume != "" && f.device.Some? {
        if cap.Block? {
          DriveCreatedBlock(CreateFile(s, p, f).st, rpc, f, p);
        } else {
          DriveCreatedStage(CreateDir(s, p, f).st, rpc, f, p);
        }
      }
    case Publish(volume, staging, target, cap, readonly) =>
      if volume != "" && staging.Some? && f.device.Some? {
        if cap.Block? {
          DriveCreatedBlock(CreateFile(s, p, f).st, rpc, f, p);
        } else {
          DriveCreatedBind(CreateDir(s, p, f).st, rpc, f, p);
        }
      }
    case Unpublish(volume, _) =>
      if volume != "" {
        DriveUnmount(s, rpc, f, p);
      }
    case Unstage(volume, _) =>
      if volume != "" {
        DriveUnmount(s, rpc, f, p);
      }
  }
}
