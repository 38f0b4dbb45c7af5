/**
 The controller service over an abstract Tower backend (pkg/driver/controller.go), one RPC
 at a time. Every backend call draws its outcome from a `Faults` record. A task's effect is
 taken to happen no later than its wait returns, and `Mounting` to be true exactly when the
 volume has a disk.
 */
module Tower {
  import opened Text
  import opened Sizes
  import opened Words

  /** `ours` marks the volumes this driver created. */
  datatype Volume = Volume(name: string, size: int, sharing: bool, labels: seq<string>, ours: bool)
  datatype Disk = Disk(volume: string, vm: string)
  datatype Label = Label(key: string, value: string)

  datatype State = State(volumes: map<string, Volume>, disks: map<string, Disk>, labels: map<string, Label>)

  /** The outcome of a call that changes the backend: no effect, an effect with success
      reported, or an effect behind a failed call or a failed wait. */
  datatype Effect = NotApplied | Applied | AppliedUnseen

  /** The outcome of a query: an error, or the element its answer lists first, if any matches. */
  datatype Query = QueryFails | Returns(first: string)

  datatype Faults = Faults(
    reachable: bool,              // node entry found and liveness probe healthy
    volumes: Query, cluster: bool, create: Effect, newVolume: string,
    labels: Query, createLabel: Effect, newLabel: string, addLabel: Effect,
    vm: bool, attach: Effect, newDisk: string,
    disks: Query, detach: Effect, delete: Effect)

  datatype Rpc =
    | CreateVolume(name: string, required: int, limit: int, caps: seq<Cap>)
    | DeleteVolume(volume: string)
    | PublishVolume(volume: string, node: string, readonly: bool, hasCap: bool)
    | UnpublishVolume(volume: string, node: string)

  datatype Result = Created(id: string, size: int) | Done | Failed

  datatype Out = Out(st: State, result: Result)

  const LABEL_KEY := "k8s-cluster-id"

  /** strings.ToLower, on ASCII letters. */
  function ToLower(s: string): (r: string)
    ensures |r| == |s|
    ensures forall i :: 0 <= i < |s| ==>
              if 'A' <= s[i] <= 'Z' then r[i] as int == s[i] as int + 32 else r[i] == s[i]
  {
    if s == "" then "" else
      [if 'A' <= s[0] <= 'Z' then ((s[0] as int) + 32) as char else s[0]] + ToLower(s[1..])
  }

  // ---- Backend calls ----

  datatype Found = Broken | Nothing | First(id: string)

  /** The first element of a query's answer; an outcome that names no match counts as an error. */
  function Lookup(matching: set<string>, q: Query): (r: Found)
    ensures r.First? ==> r.id in matching
    ensures r.Nothing? ==> matching == {}
  {
    match q
    case QueryFails => Broken
    case Returns(first) => if matching == {} then Nothing else if first in matching then First(first) else Broken
  }

  function Named(s: State, name: string): set<string> { set id | id in s.volumes && s.volumes[id].name == name }
  function WithId(s: State, id: string): set<string> { set x | x in s.volumes && x == id }
  function DisksOf(s: State, volume: string): set<string> { set d | d in s.disks && s.disks[d].volume == volume }
  function DisksOn(s: State, volume: string, vm: string): set<string> {
    set d | d in s.disks && s.disks[d] == Disk(volume, vm)
  }
  function Labelled(s: State, l: Label): set<string> { set id | id in s.labels && s.labels[id] == l }

  /** A creating call needs an identifier the backend has not used. */
  function Creating(e: Effect, unused: bool): Effect { if unused then e else NotApplied }

  // ---- CreateVolume ----

  /** The state after a sub-operation and the identifier it returns, `None` for an error. */
  datatype Sub = Sub(st: State, id: Option<string>)

  function CreateVmVolume(s: State, name: string, size: nat, sharing: bool, f: Faults): (r: Sub)
    ensures r.id.Some? ==> r.id.value in r.st.volumes && r.st.volumes[r.id.value].name == name
  {
    match Lookup(Named(s, name), f.volumes)
    case Broken => Sub(s, None)
    case First(id) => Sub(s, Some(id))
    case Nothing =>
      var e := Creating(f.create, f.newVolume !in s.volumes);
      if !f.cluster || e.NotApplied? then Sub(s, None) else
        Sub(s.(volumes := s.volumes[f.newVolume := Volume(name, ToInt64(size), sharing, [], true)]),
            if e.Applied? then Some(f.newVolume) else None)
  }

  function UpsertLabel(s: State, l: Label, f: Faults): Sub {
    match Lookup(Labelled(s, l), f.labels)
    case Broken => Sub(s, None)
    case First(id) => Sub(s, Some(id))
    case Nothing =>
      var e := Creating(f.createLabel, f.newLabel !in s.labels);
      if e.NotApplied? then Sub(s, None) else
        Sub(s.(labels := s.labels[f.newLabel := l]), if e.Applied? then Some(f.newLabel) else None)
  }

  function AddLabel(s: State, volume: string, id: string): State
    requires volume in s.volumes
  {
    s.(volumes := s.volumes[volume := s.volumes[volume].(labels := s.volumes[volume].labels + [id])])
  }

  /** reconcileVolumeLabel for a volume just created or found. */
  function ReconcileLabel(s: State, cluster: string, volume: string, f: Faults): Sub
    requires volume in s.volumes
  {
    var u := UpsertLabel(s, Label(LABEL_KEY, cluster), f);
    if u.id.None? then u
    else if u.id.value in s.volumes[volume].labels then u
    else if f.addLabel.NotApplied? then Sub(u.st, None)
    else Sub(AddLabel(u.st, volume, u.id.value), if f.addLabel.Applied? then u.id else None)
  }

  function ExecCreate(s: State, cluster: string, rpc: Rpc, f: Faults): Out
    requires rpc.CreateVolume?
  {
    var name, size, sharing := ToLower(rpc.name), VolumeSize(rpc.required, rpc.limit), NeedSharing(rpc.caps);
    if name == "" || size.None? || sharing.None? then Out(s, Failed) else
      var v := CreateVmVolume(s, name, size.value, sharing.value, f);
      if v.id.None? then Out(v.st, Failed) else
        var id := v.id.value;
        var l := ReconcileLabel(v.st, cluster, id, f);
        Out(l.st, if l.id.None? then Failed else Created(id, v.st.volumes[id].size))
  }

  // ---- The other RPCs ----

  function ExecPublish(s: State, volume: string, node: string, f: Faults): Out {
    match Lookup(WithId(s, volume), f.volumes)
    case Broken => Out(s, Failed)
    case Nothing => Out(s, Failed)
    case First(id) =>
      if DisksOf(s, volume) != {} then Out(s, Done) else
        var e := Creating(f.attach, f.newDisk !in s.disks);
        if !f.vm || e.NotApplied? then Out(s, Failed)
        else Out(s.(disks := s.disks[f.newDisk := Disk(volume, node)]), if e.Applied? then Done else Failed)
  }

  function ExecUnpublish(s: State, volume: string, node: string, f: Faults): Out {
    match Lookup(DisksOn(s, volume, node), f.disks)
    case Broken => Out(s, Failed)
    case Nothing => Out(s, Done)
    case First(d) =>
      if d == "" || f.detach.NotApplied? then Out(s, Failed)
      else Out(s.(disks := s.disks - {d}), if f.detach.Applied? then Done else Failed)
  }

  function ExecDelete(s: State, volume: string, f: Faults): Out {
    match Lookup(WithId(s, volume), f.volumes)
    case Broken => Out(s, Failed)
    case Nothing => Out(s, Failed)
    case First(id) =>
      if DisksOf(s, volume) != {} || f.delete.NotApplied? then Out(s, Failed)
      else Out(s.(volumes := s.volumes - {volume}), if f.delete.Applied? then Done else Failed)
  }

  function Exec(s: State, cluster: string, rpc: Rpc, f: Faults): Out {
    match rpc
    case CreateVolume(_, _, _, _) => ExecCreate(s, cluster, rpc, f)
    case DeleteVolume(volume) => if volume == "" then Out(s, Failed) else ExecDelete(s, volume, f)
    case PublishVolume(volume, node, readonly, hasCap) =>
      if volume == "" || readonly || node == "" || !hasCap || !f.reachable then Out(s, Failed)
      else ExecPublish(s, volume, node, f)
    case UnpublishVolume(volume, node) =>
      if volume == "" || node == "" then Out(s, Failed) else ExecUnpublish(s, volume, node, f)
  }

  // ---- Runs ----

  /** RPCs, and volumes that other users of the backend create. */
  datatype Event = Call(rpc: Rpc, faults: Faults) | Foreign(id: string, name: string, size: int)

  function Step(s: State, cluster: string, e: Event): State {
    match e
    case Call(rpc, f) => Exec(s, cluster, rpc, f).st
    case Foreign(id, name, size) =>
      if id in s.volumes then s else s.(volumes := s.volumes[id := Volume(name, size, false, [], false)])
  }

  function Run(s: State, cluster: string, es: seq<Event>): State {
    if es == [] then s else Step(Run(s, cluster, es[..|es| - 1]), cluster, es[|es| - 1])
  }
}
