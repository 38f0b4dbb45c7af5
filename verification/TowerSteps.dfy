/**
 The controller RPCs cut into steps, one per backend query or change
 (pkg/driver/controller.go). CreateVolume and DeleteVolume hold no lock, and publish and
 unpublish hold one per node only, so nothing keeps calls about one volume apart. An RPC
 whose steps run without interruption is the transition of Tower.
 */
module TowerSteps {
  import opened Text
  import opened Sizes
  import opened Words
  import opened Tower
  import opened TowerRuns

  datatype Pc =
    | Begun
    | Absent                                               // create: saw no volume of the name
    | Known(id: string, volume: Volume)                    // create: a volume, as it was read
    | Unlabelled(id: string, volume: Volume)               // create: saw no label of the cluster
    | Tagging(id: string, volume: Volume, tag: string)     // create: about to label the volume
    | Doomed                                               // delete: saw the volume without a disk
    | Free                                                 // publish: saw the volume without a disk
    | Chosen(disk: string)                                 // unpublish: saw a disk to remove
    | Ended(result: Result)

  datatype Next = Next(st: State, pc: Pc)

  function Rank(pc: Pc): nat {
    match pc
    case Begun => 5 case Absent => 4 case Known(_, _) => 3 case Unlabelled(_, _) => 2
    case Tagging(_, _, _) => 1 case Doomed => 1 case Free => 1 case Chosen(_) => 1 case Ended(_) => 0
  }

  /** Whether an RPC can be at this point at all. */
  predicate At(rpc: Rpc, pc: Pc) {
    && (pc.Absent? || pc.Known? || pc.Unlabelled? || pc.Tagging? ==> Valid(rpc))
    && (pc.Doomed? ==> rpc.DeleteVolume?)
    && (pc.Free? ==> Publishing(rpc))
    && (pc.Chosen? ==> rpc.UnpublishVolume?)
  }

  /** A publish request with acceptable arguments. */
  predicate Publishing(rpc: Rpc) {
    rpc.PublishVolume? && rpc.volume != "" && !rpc.readonly && rpc.node != "" && rpc.hasCap
  }

  /** The argument checks and the first query. */
  function BeginStep(s: State, rpc: Rpc, f: Faults): Pc {
    match rpc
    case CreateVolume(name, _, _, _) =>
      if !Valid(rpc) then Ended(Failed) else (
        match Lookup(Named(s, ToLower(name)), f.volumes)
        case Broken => Ended(Failed)
        case Nothing => Absent
        case First(id) => Known(id, s.volumes[id]))
    case DeleteVolume(volume) =>
      if volume == "" || !Lookup(WithId(s, volume), f.volumes).First? || DisksOf(s, volume) != {} then Ended(Failed)
      else Doomed
    case PublishVolume(volume, _, _, _) =>
      if !Publishing(rpc) || !f.reachable || !Lookup(WithId(s, volume), f.volumes).First? then Ended(Failed)
      else if DisksOf(s, volume) != {} then Ended(Done)
      else Free
    case UnpublishVolume(volume, node) =>
      if volume == "" || node == "" then Ended(Failed) else
        match Lookup(DisksOn(s, volume, node), f.disks)
        case Broken => Ended(Failed)
        case Nothing => Ended(Done)
        case First(d) => Chosen(d)
  }

  function CreateStep(s: State, rpc: Rpc, f: Faults): Next
    requires Valid(rpc)
  {
    var e := Creating(f.create, f.newVolume !in s.volumes);
    var size, sharing := VolumeSize(rpc.required, rpc.limit).value, NeedSharing(rpc.caps).value;
    var v := Volume(ToLower(rpc.name), ToInt64(size), sharing, [], true);
    if !f.cluster || e.NotApplied? then Next(s, Ended(Failed))
    else Next(AddVolume(s, f.newVolume, v), if e.Applied? then Known(f.newVolume, v) else Ended(Failed))
  }

  function LabelStep(s: State, cluster: string, id: string, v: Volume, f: Faults): Next {
    var e := Creating(f.createLabel, f.newLabel !in s.labels);
    if e.NotApplied? then Next(s, Ended(Failed))
    else Next(AddLabelObject(s, f.newLabel, ClusterLabel(cluster)),
              if e.Applied? then Tagging(id, v, f.newLabel) else Ended(Failed))
  }

  function TagStep(s: State, id: string, v: Volume, tag: string, f: Faults): Next {
    if tag in v.labels then Next(s, Ended(Created(id, v.size)))
    else if f.addLabel.NotApplied? || id !in s.volumes then Next(s, Ended(Failed))
    else Next(AddLabel(s, id, tag), Ended(if f.addLabel.Applied? then Created(id, v.size) else Failed))
  }

  function AttachStep(s: State, rpc: Rpc, f: Faults): Next
    requires Publishing(rpc)
  {
    var e := Creating(f.attach, f.newDisk !in s.disks);
    if !f.vm || e.NotApplied? then Next(s, Ended(Failed))
    else Next(s.(disks := s.disks[f.newDisk := Disk(rpc.volume, rpc.node)]), Ended(if e.Applied? then Done else Failed))
  }

  function Advance(s: State, cluster: string, rpc: Rpc, f: Faults, pc: Pc): (n: Next)
    requires At(rpc, pc)
    ensures At(rpc, n.pc)
    ensures !pc.Ended? ==> Rank(n.pc) < Rank(pc)
  {
    match pc
    case Begun => Next(s, BeginStep(s, rpc, f))
    case Absent => CreateStep(s, rpc, f)
    case Known(id, v) =>
      Next(s, match Lookup(Labelled(s, ClusterLabel(cluster)), f.labels)
              case Broken => Ended(Failed)
              case Nothing => Unlabelled(id, v)
              case First(l) => Tagging(id, v, l))
    case Unlabelled(id, v) => LabelStep(s, cluster, id, v, f)
    case Tagging(id, v, l) => TagStep(s, id, v, l, f)
    case Doomed =>
      if f.delete.NotApplied? then Next(s, Ended(Failed))
      else Next(s.(volumes := s.volumes - {rpc.volume}), Ended(if f.delete.Applied? then Done else Failed))
    case Free => AttachStep(s, rpc, f)
    case Chosen(d) =>
      if d == "" || f.detach.NotApplied? then Next(s, Ended(Failed))
      else Next(s.(disks := s.disks - {d}), Ended(if f.detach.Applied? then Done else Failed))
    case Ended(_) => Next(s, pc)
  }

  /** The remaining steps, without interruption. */
  function Drive(s: State, cluster: string, rpc: Rpc, f: Faults, pc: Pc): Out
    requires At(rpc, pc)
    decreases Rank(pc)
  {
    if pc.Ended? then Out(s, pc.result) else
      var n := Advance(s, cluster, rpc, f, pc);
      Drive(n.st, cluster, rpc, f, n.pc)
  }

  // ---- Uninterrupted steps are the RPC ----

  lemma DriveTagging(s: State, cluster: string, rpc: Rpc, f: Faults, id: string, v: Volume, tag: string)
    requires Valid(rpc)
    ensures var n := TagStep(s, id, v, tag, f);
            Drive(s, cluster, rpc, f, Tagging(id, v, tag)) == Out(n.st, n.pc.result)
  {
  }

  lemma DriveUnlabelled(s: State, cluster: string, rpc: Rpc, f: Faults, id: string, v: Volume)
    requires Valid(rpc)
    ensures var n := LabelStep(s, cluster, id, v, f);
            Drive(s, cluster, rpc, f, Unlabelled(id, v)) ==
            if n.pc.Ended? then Out(n.st, Failed) else Drive(n.st, cluster, rpc, f, n.pc)
  {
  }

  lemma DriveKnown(s: State, cluster: string, rpc: Rpc, f: Faults, id: string)
    requires Valid(rpc) && id in s.volumes
    ensures var l := ReconcileLabel(s, cluster, id, f);
            Drive(s, cluster, rpc, f, Known(id, s.volumes[id])) ==
            Out(l.st, if l.id.None? then Failed else Created(id, s.volumes[id].size))
  {
    var u := UpsertLabel(s, ClusterLabel(cluster), f);
    DriveUnlabelled(s, cluster, rpc, f, id, s.volumes[id]);
    if u.id.Some? {
      DriveTagging(u.st, cluster, rpc, f, id, s.volumes[id], u.id.value);
    }
  }

  lemma DriveCreate(s: State, cluster: string, rpc: Rpc, f: Faults)
    requires Valid(rpc)
    ensures Drive(s, cluster, rpc, f, Begun) == ExecCreate(s, cluster, rpc, f)
  {
    var v := CreateVmVolume(
      s, ToLower(rpc.name), VolumeSize(rpc.required, rpc.limit).value, NeedSharing(rpc.caps).value, f);
    if v.id.Some? {
      DriveKnown(v.st, cluster, rpc, f, v.id.value);
    }
  }

  /** Refinement: the steps of an RPC that nothing interrupts are its transition in Tower. */
  lemma StepsAreExec(s: State, cluster: string, rpc: Rpc, f: Faults)
    ensures Drive(s, cluster, rpc, f, Begun) == Exec(s, cluster, rpc, f)
  {
    if Valid(rpc) {
      DriveCreate(s, cluster, rpc, f);
    }
  }
}
