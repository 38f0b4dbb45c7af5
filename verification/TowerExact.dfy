/**
 The controller's answers in the terms of the request and of what the backend does with
 it: exactly when each RPC succeeds, and what it leaves behind when it does not.
 */
module TowerExact {
  import opened Text
  import opened Sizes
  import opened Words
  import opened Tower
  import opened TowerRuns

  // ---- Unpublish ----

  predicate Attached(s: State, volume: string, node: string) {
    exists d :: d in s.disks && s.disks[d] == Disk(volume, node)
  }

  /** The disk query of an unpublish names a disk to remove. */
  predicate Names(s: State, volume: string, node: string, q: Query) {
    q.Returns? && q.first in s.disks && s.disks[q.first] == Disk(volume, node)
  }

  lemma AttachedIs(s: State, volume: string, node: string)
    ensures Attached(s, volume, node) <==> DisksOn(s, volume, node) != {}
  {
    if Attached(s, volume, node) {
      var d :| d in s.disks && s.disks[d] == Disk(volume, node);
      assert d in DisksOn(s, volume, node);
    }
  }

  /** An unpublish succeeds exactly when its arguments are valid, the disk query is answered, and the
      volume has no disk on the node or the disk named has an id and its removal is reported done. It
      removes that disk, if the removal takes effect, and changes nothing else. */
  lemma UnpublishSucceedsExactly(s: State, cluster: string, volume: string, node: string, f: Faults)
    ensures var o := Exec(s, cluster, UnpublishVolume(volume, node), f);
            var valid := volume != "" && node != "";
            && o.result in {Done, Failed}
            && (o.result == Done <==>
                && valid && f.disks.Returns?
                && (!Attached(s, volume, node)
                    || (Names(s, volume, node, f.disks) && f.disks.first != "" && f.detach == Applied)))
            && o.st == if valid && Names(s, volume, node, f.disks) && f.disks.first != "" && f.detach != NotApplied
                       then State(s.volumes, s.disks - {f.disks.first}, s.labels) else s
  {
    AttachedIs(s, volume, node);
  }

  /** Unpublishing a volume that has no disk on the node succeeds and changes nothing. */
  lemma UnpublishSkips(s: State, volume: string, node: string, f: Faults)
    requires f.disks.Returns? && forall d :: d in s.disks ==> s.disks[d] != Disk(volume, node)
    ensures ExecUnpublish(s, volume, node, f) == Out(s, Done)
  {
    assert DisksOn(s, volume, node) == {};
  }

  /** Repeating an unpublish that succeeded, with the query answered, succeeds and changes nothing,
      also after any number of RPCs that do not publish the volume again. */
  lemma RepeatUnpublish(s: State, cluster: string, volume: string, node: string, f: Faults, es: seq<Event>, f': Faults)
    requires Inv(s) && ExecUnpublish(s, volume, node, f).result.Done? && f'.disks.Returns?
    requires forall i :: 0 <= i < |es| && es[i].Call? && es[i].rpc.PublishVolume? ==> es[i].rpc.volume != volume
    ensures var t := Run(ExecUnpublish(s, volume, node, f).st, cluster, es);
            ExecUnpublish(t, volume, node, f') == Out(t, Done)
  {
    var s1 := ExecUnpublish(s, volume, node, f).st;
    DoneMeansDone(s, volume, node, f);
    AttachedIs(s1, volume, node);
    StaysDetached(s1, cluster, es, volume, node);
    UnpublishSkips(Run(s1, cluster, es), volume, node, f');
  }

  lemma {:induction false} StaysDetached(s: State, cluster: string, es: seq<Event>, volume: string, node: string)
    requires !Attached(s, volume, node)
    requires forall i :: 0 <= i < |es| && es[i].Call? && es[i].rpc.PublishVolume? ==> es[i].rpc.volume != volume
    ensures !Attached(Run(s, cluster, es), volume, node)
  {
    if es != [] {
      StaysDetached(s, cluster, es[..|es| - 1], volume, node);
      OldDisks(Run(s, cluster, es[..|es| - 1]), cluster, es[|es| - 1]);
    }
  }

  /** Only a publish adds a disk, and one of its own volume. */
  lemma OldDisks(s: State, cluster: string, e: Event)
    ensures var t := Step(s, cluster, e);
            forall d :: d in t.disks ==>
              || (d in s.disks && t.disks[d] == s.disks[d])
              || (e.Call? && e.rpc.PublishVolume? && t.disks[d] == Disk(e.rpc.volume, e.rpc.node))
  {
  }

  // ---- Publish ----

  predicate HasDisk(s: State, volume: string) { exists d :: d in s.disks && s.disks[d].volume == volume }

  lemma HasDiskIs(s: State, volume: string)
    ensures HasDisk(s, volume) <==> DisksOf(s, volume) != {}
  {
    if HasDisk(s, volume) {
      var d :| d in s.disks && s.disks[d].volume == volume;
      assert d in DisksOf(s, volume);
    }
  }

  lemma ListedIs(s: State, volume: string, q: Query)
    ensures Lookup(WithId(s, volume), q).First? <==> volume in s.volumes && q == Returns(volume)
  {
    assert volume in s.volumes ==> volume in WithId(s, volume);
  }

  /** A publish succeeds exactly when its arguments are valid, the node is reachable, the volume is
      listed, and it has a disk already or the VM is found and the attachment is reported done. It
      adds one disk of the volume on the node where there was none and the attachment takes effect,
      and changes nothing else. */
  lemma PublishSucceedsExactly(s: State, cluster: string, rpc: Rpc, f: Faults)
    requires rpc.PublishVolume?
    ensures var o := Exec(s, cluster, rpc, f);
            var listed := && rpc.volume != "" && rpc.node != "" && !rpc.readonly && rpc.hasCap && f.reachable
                          && rpc.volume in s.volumes && f.volumes == Returns(rpc.volume);
            var attaches := f.vm && f.newDisk !in s.disks && f.attach != NotApplied;
            && o.result in {Done, Failed}
            && (o.result == Done <==> listed && (HasDisk(s, rpc.volume) || (attaches && f.attach == Applied)))
            && o.st == if listed && !HasDisk(s, rpc.volume) && attaches
                       then State(s.volumes, s.disks[f.newDisk := Disk(rpc.volume, rpc.node)], s.labels) else s
  {
    HasDiskIs(s, rpc.volume);
    ListedIs(s, rpc.volume, f.volumes);
  }

  /** Repeating a publish that succeeded, with the volume still listed, succeeds and changes nothing. */
  lemma RepeatPublish(s: State, cluster: string, rpc: Rpc, f: Faults, f': Faults)
    requires rpc.PublishVolume? && Exec(s, cluster, rpc, f).result.Done?
    requires f'.reachable && f'.volumes == Returns(rpc.volume)
    ensures var t := Exec(s, cluster, rpc, f).st; Exec(t, cluster, rpc, f') == Out(t, Done)
  {
    var t := Exec(s, cluster, rpc, f).st;
    PublishSucceedsExactly(s, cluster, rpc, f);
    PublishSucceedsExactly(t, cluster, rpc, f');
    if !HasDisk(s, rpc.volume) {
      assert t.disks[f.newDisk].volume == rpc.volume;
    }
  }

  // ---- Delete ----

  /** A deletion succeeds exactly when the volume is listed, has no disk, and its removal is reported
      done; it removes the volume if the removal takes effect, and changes nothing else. */
  lemma DeleteSucceedsExactly(s: State, cluster: string, volume: string, f: Faults)
    ensures var o := Exec(s, cluster, DeleteVolume(volume), f);
            var free := && volume != "" && volume in s.volumes && f.volumes == Returns(volume)
                        && forall d :: d in s.disks ==> s.disks[d].volume != volume;
            && o.result in {Done, Failed}
            && (o.result == Done <==> free && f.delete == Applied)
            && o.st == if free && f.delete != NotApplied
                       then State(s.volumes - {volume}, s.disks, s.labels) else s
  {
    HasDiskIs(s, volume);
    ListedIs(s, volume, f.volumes);
  }

  // ---- Create ----

  /** A find-or-create query finds one of the matches, or finds none and the creation is done. */
  predicate Provided(matching: set<string>, q: Query, created: bool) {
    q.Returns? && if matching == {} then created else q.first in matching
  }

  /** What such a query gives: the match listed first, or the object made. */
  function Provider(matching: set<string>, q: Query, made: string): string {
    if matching != {} && q.Returns? then q.first else made
  }

  /** A creation succeeds exactly when its arguments are valid, the volume and the label are each
      found or made, and the volume is labelled already or its labelling is reported done; it
      reports the volume found or made. */
  lemma CreateSucceedsExactly(s: State, cluster: string, rpc: Rpc, f: Faults)
    requires rpc.CreateVolume?
    ensures var r := Exec(s, cluster, rpc, f).result;
            var named, labelled := Named(s, ToLower(rpc.name)), Labelled(s, Label("k8s-cluster-id", cluster));
            var id, tag := Provider(named, f.volumes, f.newVolume), Provider(labelled, f.labels, f.newLabel);
            && (r.Created? <==>
                && Valid(rpc)
                && Provided(named, f.volumes, f.cluster && f.create == Applied && f.newVolume !in s.volumes)
                && Provided(labelled, f.labels, f.createLabel == Applied && f.newLabel !in s.labels)
                && ((id in named && tag in s.volumes[id].labels) || f.addLabel == Applied))
            && (r.Created? ==> r.id == id)
  {
    if Valid(rpc) {
      var name, size, sharing := ToLower(rpc.name), VolumeSize(rpc.required, rpc.limit), NeedSharing(rpc.caps);
      var v := CreateVmVolume(s, name, size.value, sharing.value, f);
      assert Labelled(v.st, ClusterLabel(cluster)) == Labelled(s, ClusterLabel(cluster));
      if v.id.Some? {
        Reconciles(v.st, cluster, v.id.value, f);
      }
    }
  }

  lemma Reconciles(s: State, cluster: string, volume: string, f: Faults)
    requires volume in s.volumes
    ensures var labelled := Labelled(s, Label("k8s-cluster-id", cluster));
            ReconcileLabel(s, cluster, volume, f).id.Some? <==>
            && Provided(labelled, f.labels, f.createLabel == Applied && f.newLabel !in s.labels)
            && (Provider(labelled, f.labels, f.newLabel) in s.volumes[volume].labels || f.addLabel == Applied)
  {
  }

  /** Whatever fails, a creation leaves every volume it found with its name, size, sharing and owner,
      touches no disk, and adds at most the volume asked for, exactly when its creation takes effect. */
  lemma CreateLeaves(s: State, cluster: string, rpc: Rpc, f: Faults)
    requires rpc.CreateVolume?
    ensures var t := Exec(s, cluster, rpc, f).st;
            var makes := && Valid(rpc) && Named(s, ToLower(rpc.name)) == {} && f.volumes.Returns?
                         && f.cluster && f.create != NotApplied && f.newVolume !in s.volumes;
            && t.disks == s.disks
            && t.volumes.Keys == s.volumes.Keys + (if makes then {f.newVolume} else {})
            && (forall v :: v in s.volumes ==> Alike(t.volumes[v], s.volumes[v]))
            && (makes ==> t.volumes[f.newVolume].name == ToLower(rpc.name) && t.volumes[f.newVolume].ours)
  {
    if Valid(rpc) {
      var name, size, sharing := ToLower(rpc.name), VolumeSize(rpc.required, rpc.limit), NeedSharing(rpc.caps);
      var v := CreateVmVolume(s, name, size.value, sharing.value, f);
      VolumeLeaves(s, name, size.value, sharing.value, f);
      if v.id.Some? {
        LabelsOnly(v.st, cluster, v.id.value, f);
      }
      var t := if v.id.Some? then ReconcileLabel(v.st, cluster, v.id.value, f).st else v.st;
      assert Exec(s, cluster, rpc, f).st == t;
      VolumesAfter(s, v.st, t, f.newVolume, Volume(name, ToInt64(size.value), sharing.value, [], true));
    }
  }

  lemma VolumesAfter(s: State, u: State, t: State, id: string, v: Volume)
    requires u == s || (id !in s.volumes && u == s.(volumes := s.volumes[id := v]))
    requires SameButLabels(u, t)
    ensures t.disks == s.disks && t.volumes.Keys == s.volumes.Keys + (if u == s then {} else {id})
    ensures forall x :: x in s.volumes ==> Alike(t.volumes[x], s.volumes[x])
    ensures u != s ==> Alike(t.volumes[id], v)
  {
  }

  /** The same volume but for its labels. */
  predicate Alike(a: Volume, b: Volume) {
    a.name == b.name && a.size == b.size && a.sharing == b.sharing && a.ours == b.ours
  }

  ghost predicate SameButLabels(s: State, t: State) {
    && t.disks == s.disks && t.volumes.Keys == s.volumes.Keys
    && forall v :: v in s.volumes ==> Alike(t.volumes[v], s.volumes[v])
  }

  lemma LabelsOnly(s: State, cluster: string, volume: string, f: Faults)
    requires volume in s.volumes
    ensures SameButLabels(s, ReconcileLabel(s, cluster, volume, f).st)
  {
  }

  lemma VolumeLeaves(s: State, name: string, size: nat, sharing: bool, f: Faults)
    ensures var t := CreateVmVolume(s, name, size, sharing, f).st;
            t == if Named(s, name) == {} && f.volumes.Returns? && f.cluster && f.create != NotApplied
                    && f.newVolume !in s.volumes
                 then s.(volumes := s.volumes[f.newVolume := Volume(name, ToInt64(size), sharing, [], true)]) else s
  {
  }

  /** Labelling makes the cluster's label where there is none and its creation takes effect, puts the
      label on the volume where it is missing and the addition takes effect, and changes nothing else. */
  lemma LabelLeaves(s: State, cluster: string, volume: string, f: Faults)
    requires volume in s.volumes
    ensures var t := ReconcileLabel(s, cluster, volume, f).st;
            var mark := Label("k8s-cluster-id", cluster);
            var labelled := Labelled(s, mark);
            var makes := labelled == {} && f.labels.Returns? && f.createLabel != NotApplied && f.newLabel !in s.labels;
            var tag := Provider(labelled, f.labels, f.newLabel);
            var adds := && Provided(labelled, f.labels, f.createLabel == Applied && f.newLabel !in s.labels)
                        && tag !in s.volumes[volume].labels && f.addLabel != NotApplied;
            && t.disks == s.disks && t.volumes.Keys == s.volumes.Keys
            && (forall v :: v in s.volumes ==> t.volumes[v] == s.volumes[v].(labels := t.volumes[v].labels))
            && t.labels == (if makes then s.labels[f.newLabel := mark] else s.labels)
            && t.volumes == (if adds then s.volumes[volume :=
                               s.volumes[volume].(labels := s.volumes[volume].labels + [tag])] else s.volumes)
  {
  }

  /** A volume whose creation took effect behind a failed call is the one the next success reports. */
  lemma UnseenVolumeIsFound(s: State, cluster: string, rpc: Rpc, f: Faults, f': Faults)
    requires Valid(rpc) && Named(s, ToLower(rpc.name)) == {} && f.volumes.Returns? && f.cluster
    requires f.create == AppliedUnseen && f.newVolume !in s.volumes
    ensures var o := Exec(s, cluster, rpc, f);
            && o.result == Failed
            && var r := Exec(o.st, cluster, rpc, f').result; r.Created? ==> r.id == f.newVolume
  {
    CreateSucceedsExactly(s, cluster, rpc, f);
    CreateLeaves(s, cluster, rpc, f);
    var t := Exec(s, cluster, rpc, f).st;
    var name := ToLower(rpc.name);
    assert forall x :: x in s.volumes ==> (x in Named(t, name) <==> x in Named(s, name));
    assert Named(t, name) == {f.newVolume};
    CreateSucceedsExactly(t, cluster, rpc, f');
  }
}
