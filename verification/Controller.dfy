/**
 The controller service in the form of its source: methods that call the backend step by
 step. Each performs its transition in Tower and keeps what TowerRuns proves of it.
 */
module Controller {
  import opened Text
  import opened Sizes
  import opened Words
  import T = Tower
  import R = TowerRuns
  import X = TowerExact

  class Server {
    const cluster: string
    var volumes: map<string, T.Volume>
    var disks: map<string, T.Disk>
    var labels: map<string, T.Label>

    function Snapshot(): T.State
      reads this
    {
      T.State(volumes, disks, labels)
    }

    constructor (cluster: string)
      ensures this.cluster == cluster && Snapshot() == T.State(map[], map[], map[])
    {
      this.cluster := cluster;
      volumes, disks, labels := map[], map[], map[];
    }

    method CreateVmVolume(name: string, size: nat, sharing: bool, f: T.Faults) returns (r: Option<string>)
      modifies this
      ensures T.Sub(Snapshot(), r) == T.CreateVmVolume(old(Snapshot()), name, size, sharing, f)
    {
      match T.Lookup(T.Named(Snapshot(), name), f.volumes) {
        case Broken => return None;
        case First(id) => return Some(id);
        case Nothing =>
      }
      if !f.cluster {
        return None;
      }
      var e := T.Creating(f.create, f.newVolume !in volumes);
      if e.NotApplied? {
        return None;
      }
      volumes := volumes[f.newVolume := T.Volume(name, ToInt64(size), sharing, [], true)];
      return if e.Applied? then Some(f.newVolume) else None;
    }

    method UpsertLabel(l: T.Label, f: T.Faults) returns (r: Option<string>)
      modifies this
      ensures T.Sub(Snapshot(), r) == T.UpsertLabel(old(Snapshot()), l, f)
    {
      match T.Lookup(T.Labelled(Snapshot(), l), f.labels) {
        case Broken => return None;
        case First(id) => return Some(id);
        case Nothing =>
      }
      var e := T.Creating(f.createLabel, f.newLabel !in labels);
      if e.NotApplied? {
        return None;
      }
      labels := labels[f.newLabel := l];
      return if e.Applied? then Some(f.newLabel) else None;
    }

    /** reconcileVolumeLabel, with its scan of the labels the volume was read with. */
    method ReconcileVolumeLabel(volume: string, f: T.Faults) returns (r: Option<string>)
      requires volume in volumes
      modifies this
      ensures T.Sub(Snapshot(), r) == T.ReconcileLabel(old(Snapshot()), cluster, volume, f)
    {
      var held := volumes[volume].labels;
      r := UpsertLabel(T.Label(T.LABEL_KEY, cluster), f);
      if r.None? {
        return;
      }
      for i := 0 to |held|
        invariant r.value !in held[..i]
      {
        if held[i] == r.value {
          return;
        }
      }
      if f.addLabel.NotApplied? {
        return None;
      }
      volumes := volumes[volume := volumes[volume].(labels := volumes[volume].labels + [r.value])];
      if !f.addLabel.Applied? {
        return None;
      }
    }

    method CreateVolume(rpc: T.Rpc, f: T.Faults) returns (result: T.Result)
      requires rpc.CreateVolume?
      modifies this
      ensures T.Out(Snapshot(), result) == T.ExecCreate(old(Snapshot()), cluster, rpc, f)
      ensures R.Single(old(Snapshot()), cluster, T.ToLower(rpc.name)) && result.Created? ==>
                R.Settled(Snapshot(), cluster, T.ToLower(rpc.name), result.id, result.size)
    {
      ghost var s := Snapshot();
      if R.Single(s, cluster, T.ToLower(rpc.name)) && T.ExecCreate(s, cluster, rpc, f).result.Created? {
        R.SuccessSettles(s, cluster, rpc, f);
      }
      var name := T.ToLower(rpc.name);
      var size := VolumeSize(rpc.required, rpc.limit);
      if name == "" || size.None? {
        return T.Failed;
      }
      var sharing := CheckNeedSharing(rpc.caps);
      if sharing.None? {
        return T.Failed;
      }
      var id := CreateVmVolume(name, size.value, sharing.value, f);
      if id.None? {
        return T.Failed;
      }
      var bytes := volumes[id.value].size;
      var l := ReconcileVolumeLabel(id.value, f);
      if l.None? {
        return T.Failed;
      }
      return T.Created(id.value, bytes);
    }

    method PublishVolumeToVm(volume: string, node: string, f: T.Faults) returns (result: T.Result)
      modifies this
      ensures T.Out(Snapshot(), result) == T.ExecPublish(old(Snapshot()), volume, node, f)
      ensures R.Inv(old(Snapshot())) ==> R.Inv(Snapshot())
      ensures R.Inv(old(Snapshot())) && result.Done? ==>
                && (exists d :: T.DisksOf(Snapshot(), volume) == {d})
                && (T.DisksOn(Snapshot(), volume, node) != {} <==>
                    forall d :: d in old(disks) && old(disks)[d].volume == volume ==> old(disks)[d].vm == node)
    {
      if R.Inv(Snapshot()) {
        R.PublishKeepsInv(Snapshot(), volume, node, f);
        if T.ExecPublish(Snapshot(), volume, node, f).result.Done? {
          R.PublishAttaches(Snapshot(), volume, node, f);
          R.PublishReachesNodeExactly(Snapshot(), volume, node, f);
        }
      }
      match T.Lookup(T.WithId(Snapshot(), volume), f.volumes) {
        case Broken => return T.Failed;
        case Nothing => return T.Failed;
        case First(id) =>
      }
      if T.DisksOf(Snapshot(), volume) != {} {
        return T.Done;
      }
      var e := T.Creating(f.attach, f.newDisk !in disks);
      if !f.vm || e.NotApplied? {
        return T.Failed;
      }
      disks := disks[f.newDisk := T.Disk(volume, node)];
      return if e.Applied? then T.Done else T.Failed;
    }

    method UnpublishVolumeFromVm(volume: string, node: string, f: T.Faults) returns (result: T.Result)
      modifies this
      ensures T.Out(Snapshot(), result) == T.ExecUnpublish(old(Snapshot()), volume, node, f)
      ensures R.Inv(old(Snapshot())) ==> R.Inv(Snapshot())
      ensures R.Inv(old(Snapshot())) && result.Done? ==> T.DisksOn(Snapshot(), volume, node) == {}
      ensures forall d :: d in old(disks) && old(disks)[d] != T.Disk(volume, node) ==>
                d in disks && disks[d] == old(disks)[d]
      ensures f.disks.Returns? && (forall d :: d in old(disks) ==> old(disks)[d] != T.Disk(volume, node)) ==>
                result == T.Done && Snapshot() == old(Snapshot())
    {
      if f.disks.Returns? && forall d :: d in disks ==> disks[d] != T.Disk(volume, node) {
        X.UnpublishSkips(Snapshot(), volume, node, f);
      }
      if R.Inv(Snapshot()) {
        R.UnpublishKeepsInv(Snapshot(), volume, node, f);
        R.DoneMeansDone(Snapshot(), volume, node, f);
      }
      var disk: string;
      match T.Lookup(T.DisksOn(Snapshot(), volume, node), f.disks) {
        case Broken => return T.Failed;
        case Nothing => return T.Done;
        case First(id) => disk := id;
      }
      if disk == "" || f.detach.NotApplied? {
        return T.Failed;
      }
      disks := disks - {disk};
      return if f.detach.Applied? then T.Done else T.Failed;
    }

    method DeleteVolume(volume: string, f: T.Faults) returns (result: T.Result)
      modifies this
      ensures T.Out(Snapshot(), result) == T.ExecDelete(old(Snapshot()), volume, f)
      ensures R.Inv(old(Snapshot())) ==> R.Inv(Snapshot())
      ensures result.Done? ==> volume !in volumes
      ensures forall v :: v in old(volumes) && v != volume ==> v in volumes && volumes[v] == old(volumes)[v]
    {
      if R.Inv(Snapshot()) {
        R.DeleteKeepsInv(Snapshot(), volume, f);
      }
      match T.Lookup(T.WithId(Snapshot(), volume), f.volumes) {
        case Broken => return T.Failed;
        case Nothing => return T.Failed;
        case First(id) =>
      }
      if T.DisksOf(Snapshot(), volume) != {} {
        return T.Failed;
      }
      if f.delete.NotApplied? {
        return T.Failed;
      }
      volumes := volumes - {volume};
      return if f.delete.Applied? then T.Done else T.Failed;
    }

    method Serve(rpc: T.Rpc, f: T.Faults) returns (result: T.Result)
      modifies this
      ensures T.Out(Snapshot(), result) == T.Exec(old(Snapshot()), cluster, rpc, f)
      ensures R.Inv(old(Snapshot())) ==> R.Inv(Snapshot())
    {
      if R.Inv(Snapshot()) {
        R.StepKeepsInv(Snapshot(), cluster, T.Call(rpc, f));
      }
      match rpc {
        case CreateVolume(_, _, _, _) => result := CreateVolume(rpc, f);
        case DeleteVolume(volume) =>
          if volume == "" {
            return T.Failed;
          }
          result := DeleteVolume(volume, f);
        case PublishVolume(volume, node, readonly, hasCap) =>
          if volume == "" || readonly || node == "" || !hasCap || !f.reachable {
            return T.Failed;
          }
          result := PublishVolumeToVm(volume, node, f);
        case UnpublishVolume(volume, node) =>
          if volume == "" || node == "" {
            return T.Failed;
          }
          result := UnpublishVolumeFromVm(volume, node, f);
      }
    }
  }
}
