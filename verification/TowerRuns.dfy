/** What every sequential run of the controller keeps, and how CreateVolume converges. */
module TowerRuns {
  import opened Text
  import opened Sizes
  import opened Words
  import opened Tower

  // ---- The properties of a state ----

  ghost predicate DistinctNames(s: State) {
    forall a, b | a in s.volumes && b in s.volumes && s.volumes[a].ours && s.volumes[b].ours ::
      s.volumes[a].name == s.volumes[b].name ==> a == b
  }

  ghost predicate LowerNames(s: State) {
    forall a | a in s.volumes && s.volumes[a].ours :: s.volumes[a].name == ToLower(s.volumes[a].name)
  }

  ghost predicate OneDisk(s: State) {
    forall d, d' | d in s.disks && d' in s.disks :: s.disks[d].volume == s.disks[d'].volume ==> d == d'
  }

  ghost predicate NoOrphans(s: State) {
    forall d | d in s.disks :: s.disks[d].volume in s.volumes
  }

  /** The driver's volumes have distinct lower-case names, no volume has two disks, and no disk
      outlives its volume. */
  ghost predicate Inv(s: State) { DistinctNames(s) && LowerNames(s) && OneDisk(s) && NoOrphans(s) }

  function ClusterLabel(cluster: string): Label { Label(LABEL_KEY, cluster) }

  ghost predicate AtMostOne(xs: set<string>) {
    forall a, b :: a in xs && b in xs ==> a == b
  }

  /** At most one volume bears the name, and at most one label object marks the cluster. */
  ghost predicate Single(s: State, cluster: string, name: string) {
    AtMostOne(Named(s, name)) && AtMostOne(Labelled(s, ClusterLabel(cluster)))
  }

  /** Volume `id` is the one of its name, has this size, and carries the one cluster label. */
  ghost predicate Settled(s: State, cluster: string, name: string, id: string, size: int) {
    && Named(s, name) == {id} && id in s.volumes && s.volumes[id].size == size
    && exists l :: Labelled(s, ClusterLabel(cluster)) == {l} && l in s.volumes[id].labels
  }

  // ---- The three ways CreateVolume changes the backend ----

  function AddVolume(s: State, id: string, v: Volume): State { s.(volumes := s.volumes[id := v]) }
  function AddLabelObject(s: State, id: string, l: Label): State { s.(labels := s.labels[id := l]) }

  lemma AddVolumeNames(s: State, id: string, v: Volume, name: string)
    requires id !in s.volumes
    ensures Named(AddVolume(s, id, v), name) == Named(s, name) + if v.name == name then {id} else {}
  {
  }

  lemma AddVolumeKeeps(s: State, id: string, v: Volume, cluster: string, name: string, settled: string, size: int)
    requires id !in s.volumes && Named(s, v.name) == {}
    ensures var t := AddVolume(s, id, v);
            && (Inv(s) && v.name == ToLower(v.name) ==> Inv(t))
            && (Single(s, cluster, name) ==> Single(t, cluster, name))
            && (Settled(s, cluster, name, settled, size) ==> Settled(t, cluster, name, settled, size))
  {
    var t := AddVolume(s, id, v);
    AddVolumeNames(s, id, v, name);
    assert Labelled(t, ClusterLabel(cluster)) == Labelled(s, ClusterLabel(cluster));
    assert forall a :: a in s.volumes ==> a !in Named(s, v.name);
    if Settled(s, cluster, name, settled, size) {
      var l :| Labelled(s, ClusterLabel(cluster)) == {l} && l in s.volumes[settled].labels;
      assert settled in Named(s, name);
      assert Labelled(t, ClusterLabel(cluster)) == {l} && l in t.volumes[settled].labels;
    }
  }

  lemma AddLabelObjectKeeps(s: State, id: string, l: Label, cluster: string, name: string, settled: string, size: int)
    requires id !in s.labels && Labelled(s, l) == {}
    ensures var t := AddLabelObject(s, id, l);
            && (Inv(s) ==> Inv(t))
            && (Single(s, cluster, name) ==> Single(t, cluster, name))
            && (Settled(s, cluster, name, settled, size) ==> Settled(t, cluster, name, settled, size))
  {
    var t := AddLabelObject(s, id, l);
    assert Named(t, name) == Named(s, name);
    assert Labelled(t, ClusterLabel(cluster)) ==
           Labelled(s, ClusterLabel(cluster)) + if l == ClusterLabel(cluster) then {id} else {};
    if Settled(s, cluster, name, settled, size) {
      var m :| Labelled(s, ClusterLabel(cluster)) == {m} && m in s.volumes[settled].labels;
      assert m in Labelled(s, ClusterLabel(cluster));
      assert Labelled(t, ClusterLabel(cluster)) == {m};
    }
  }

  lemma AddLabelKeeps(s: State, volume: string, l: string, cluster: string, name: string, settled: string, size: int)
    requires volume in s.volumes
    ensures var t := AddLabel(s, volume, l);
            && (Inv(s) ==> Inv(t))
            && (Single(s, cluster, name) ==> Single(t, cluster, name))
            && (Settled(s, cluster, name, settled, size) ==> Settled(t, cluster, name, settled, size))
  {
    var t := AddLabel(s, volume, l);
    assert Named(t, name) == Named(s, name);
    assert Labelled(t, ClusterLabel(cluster)) == Labelled(s, ClusterLabel(cluster));
    if Settled(s, cluster, name, settled, size) {
      var m :| Labelled(s, ClusterLabel(cluster)) == {m} && m in s.volumes[settled].labels;
      assert m in t.volumes[settled].labels;
    }
  }

  lemma ToLowerIdempotent(s: string)
    ensures ToLower(ToLower(s)) == ToLower(s)
  {
  }

  /** Whatever fails inside it, CreateVolume keeps the invariant, adds no duplicate and leaves
      every settled volume settled. */
  lemma CreateKeeps(s: State, cluster: string, rpc: Rpc, f: Faults, name: string, settled: string, size: int)
    requires rpc.CreateVolume?
    ensures var t := ExecCreate(s, cluster, rpc, f).st;
            && (Inv(s) ==> Inv(t))
            && (Single(s, cluster, name) ==> Single(t, cluster, name))
            && (Settled(s, cluster, name, settled, size) ==> Settled(t, cluster, name, settled, size))
  {
    var n, sz, sharing := ToLower(rpc.name), VolumeSize(rpc.required, rpc.limit), NeedSharing(rpc.caps);
    if n != "" && sz.Some? && sharing.Some? {
      var v := CreateVmVolume(s, n, sz.value, sharing.value, f);
      if v.st != s {
        ToLowerIdempotent(rpc.name);
        var created := Volume(n, ToInt64(sz.value), sharing.value, [], true);
        AddVolumeKeeps(s, f.newVolume, created, cluster, name, settled, size);
      }
      if v.id.Some? {
        ReconcileKeeps(v.st, cluster, v.id.value, f, name, settled, size);
      }
    }
  }

  lemma ReconcileKeeps(s: State, cluster: string, volume: string, f: Faults, name: string, settled: string, size: int)
    requires volume in s.volumes
    ensures var t := ReconcileLabel(s, cluster, volume, f).st;
            && (Inv(s) ==> Inv(t))
            && (Single(s, cluster, name) ==> Single(t, cluster, name))
            && (Settled(s, cluster, name, settled, size) ==> Settled(t, cluster, name, settled, size))
  {
    var u := UpsertLabel(s, ClusterLabel(cluster), f);
    if u.st != s {
      AddLabelObjectKeeps(s, f.newLabel, ClusterLabel(cluster), cluster, name, settled, size);
    }
    if u.id.Some? {
      AddLabelKeeps(u.st, volume, u.id.value, cluster, name, settled, size);
    }
  }

  // ---- Lifecycle invariant ----

  lemma PublishKeepsInv(s: State, volume: string, node: string, f: Faults)
    requires Inv(s)
    ensures Inv(ExecPublish(s, volume, node, f).st)
  {
    var t := ExecPublish(s, volume, node, f).st;
    if t != s {
      assert forall d :: d in s.disks ==> d !in DisksOf(s, volume);
      assert volume in WithId(s, volume);
    }
  }

  lemma DeleteKeepsInv(s: State, volume: string, f: Faults)
    requires Inv(s)
    ensures Inv(ExecDelete(s, volume, f).st)
  {
    var t := ExecDelete(s, volume, f).st;
    if t != s {
      assert forall d :: d in s.disks ==> d !in DisksOf(s, volume);
    }
  }

  lemma UnpublishKeepsInv(s: State, volume: string, node: string, f: Faults)
    requires Inv(s)
    ensures Inv(ExecUnpublish(s, volume, node, f).st)
  {
  }

  lemma ForeignKeepsInv(s: State, id: string, v: Volume)
    requires Inv(s) && id !in s.volumes && !v.ours
    ensures Inv(AddVolume(s, id, v))
  {
  }

  lemma StepKeepsInv(s: State, cluster: string, e: Event)
    requires Inv(s)
    ensures Inv(Step(s, cluster, e))
  {
    match e
    case Call(rpc, f) =>
      match rpc {
        case CreateVolume(_, _, _, _) => CreateKeeps(s, cluster, rpc, f, "", "", 0);
        case DeleteVolume(volume) => DeleteKeepsInv(s, volume, f);
        case PublishVolume(volume, node, _, _) => PublishKeepsInv(s, volume, node, f);
        case UnpublishVolume(volume, node) => UnpublishKeepsInv(s, volume, node, f);
      }
    case Foreign(id, name, size) =>
      if id !in s.volumes {
        ForeignKeepsInv(s, id, Volume(name, size, false, [], false));
      }
  }

  /** In every sequential run, whatever fails: the driver's volumes have distinct lower-case
      names, no volume has two disks, and no disk outlives its volume. */
  lemma {:induction false} RunKeepsInv(s: State, cluster: string, es: seq<Event>)
    requires Inv(s)
    ensures Inv(Run(s, cluster, es))
  {
    if es != [] {
      RunKeepsInv(s, cluster, es[..|es| - 1]);
      StepKeepsInv(Run(s, cluster, es[..|es| - 1]), cluster, es[|es| - 1]);
    }
  }

  // ---- CreateVolume converges ----

  ghost predicate OnlyCalls(es: seq<Event>) {
    forall i :: 0 <= i < |es| ==> es[i].Call?
  }

  ghost predicate NeverDeletes(es: seq<Event>, id: string) {
    forall i :: 0 <= i < |es| && es[i].Call? ==> es[i].rpc != DeleteVolume(id)
  }

  lemma StepKeepsSingle(s: State, cluster: string, e: Event, name: string)
    requires Single(s, cluster, name) && e.Call?
    ensures Single(Step(s, cluster, e), cluster, name)
  {
    var t := Step(s, cluster, e);
    if e.rpc.CreateVolume? {
      CreateKeeps(s, cluster, e.rpc, e.faults, name, "", 0);
    } else {
      assert Named(t, name) <= Named(s, name);
      assert Labelled(t, ClusterLabel(cluster)) == Labelled(s, ClusterLabel(cluster));
    }
  }

  lemma {:induction false} RunKeepsSingle(s: State, cluster: string, es: seq<Event>, name: string)
    requires Single(s, cluster, name) && OnlyCalls(es)
    ensures Single(Run(s, cluster, es), cluster, name)
  {
    if es != [] {
      RunKeepsSingle(s, cluster, es[..|es| - 1], name);
      StepKeepsSingle(Run(s, cluster, es[..|es| - 1]), cluster, es[|es| - 1], name);
    }
  }

  /** A label that was reconciled is the cluster's and is on the volume. */
  lemma ReconcileLabels(s: State, cluster: string, volume: string, f: Faults)
    requires volume in s.volumes && ReconcileLabel(s, cluster, volume, f).id.Some?
    ensures var r := ReconcileLabel(s, cluster, volume, f);
            && r.id.value in Labelled(r.st, ClusterLabel(cluster))
            && volume in r.st.volumes && r.id.value in r.st.volumes[volume].labels
            && r.st.volumes[volume].name == s.volumes[volume].name
            && r.st.volumes[volume].size == s.volumes[volume].size
  {
  }

  /** A success settles the name, whatever half-done attempts came before. */
  lemma SuccessSettles(s: State, cluster: string, rpc: Rpc, f: Faults)
    requires rpc.CreateVolume? && Single(s, cluster, ToLower(rpc.name))
    requires ExecCreate(s, cluster, rpc, f).result.Created?
    ensures var o := ExecCreate(s, cluster, rpc, f);
            Settled(o.st, cluster, ToLower(rpc.name), o.result.id, o.result.size)
  {
    var o, name := ExecCreate(s, cluster, rpc, f), ToLower(rpc.name);
    var id := o.result.id;
    var v := CreateVmVolume(s, name, VolumeSize(rpc.required, rpc.limit).value, NeedSharing(rpc.caps).value, f);
    assert id in Named(v.st, name);
    ReconcileLabels(v.st, cluster, id, f);
    CreateKeeps(s, cluster, rpc, f, name, "", 0);
    assert id in Named(o.st, name);
    assert Named(o.st, name) == {id};
    var l := ReconcileLabel(v.st, cluster, id, f).id.value;
    assert Labelled(o.st, ClusterLabel(cluster)) == {l};
  }

  lemma StepKeepsSettled(s: State, cluster: string, e: Event, name: string, id: string, size: int)
    requires Settled(s, cluster, name, id, size) && e.Call? && e.rpc != DeleteVolume(id)
    ensures Settled(Step(s, cluster, e), cluster, name, id, size)
  {
    var t := Step(s, cluster, e);
    if e.rpc.CreateVolume? {
      CreateKeeps(s, cluster, e.rpc, e.faults, name, id, size);
    } else {
      assert id in Named(s, name);
      assert Labelled(t, ClusterLabel(cluster)) == Labelled(s, ClusterLabel(cluster));
      assert Named(t, name) == {id};
    }
  }

  lemma {:induction false} RunKeepsSettled(
    s: State, cluster: string, es: seq<Event>, name: string, id: string, size: int)
    requires Settled(s, cluster, name, id, size) && OnlyCalls(es) && NeverDeletes(es, id)
    ensures Settled(Run(s, cluster, es), cluster, name, id, size)
  {
    if es != [] {
      RunKeepsSettled(s, cluster, es[..|es| - 1], name, id, size);
      StepKeepsSettled(Run(s, cluster, es[..|es| - 1]), cluster, es[|es| - 1], name, id, size);
    }
  }

  /** Arguments CreateVolume accepts. */
  predicate Valid(rpc: Rpc) {
    && rpc.CreateVolume? && ToLower(rpc.name) != ""
    && VolumeSize(rpc.required, rpc.limit).Some? && NeedSharing(rpc.caps).Some?
  }

  /** A query that is answered: with one of the matches, if there are any. */
  predicate Answered(q: Query, matching: set<string>) {
    q.Returns? && (matching != {} ==> q.first in matching)
  }

  /** The two queries of CreateVolume are answered. */
  predicate QueriesAnswered(s: State, cluster: string, name: string, f: Faults) {
    Answered(f.volumes, Named(s, name)) && Answered(f.labels, Labelled(s, ClusterLabel(cluster)))
  }

  /** No backend call of CreateVolume fails. */
  predicate FaultFree(s: State, cluster: string, name: string, f: Faults) {
    && QueriesAnswered(s, cluster, name, f)
    && f.cluster && f.create.Applied? && f.newVolume !in s.volumes
    && f.createLabel.Applied? && f.newLabel !in s.labels && f.addLabel.Applied?
  }

  /** From any state, whatever failed attempts left behind, an attempt with valid arguments in
      which no backend call fails succeeds. */
  lemma FaultFreeSucceeds(s: State, cluster: string, rpc: Rpc, f: Faults)
    requires Valid(rpc) && FaultFree(s, cluster, ToLower(rpc.name), f)
    ensures ExecCreate(s, cluster, rpc, f).result.Created?
  {
    var size, sharing := VolumeSize(rpc.required, rpc.limit).value, NeedSharing(rpc.caps).value;
    var v := CreateVmVolume(s, ToLower(rpc.name), size, sharing, f);
    assert Labelled(v.st, ClusterLabel(cluster)) == Labelled(s, ClusterLabel(cluster));
  }

  /** Once settled, a repeat changes nothing; it reports the same volume exactly when its arguments
      are valid and its two queries are answered, and an error otherwise. */
  lemma RepeatChangesNothing(s: State, cluster: string, rpc: Rpc, f: Faults, id: string, size: int)
    requires rpc.CreateVolume? && Settled(s, cluster, ToLower(rpc.name), id, size)
    ensures ExecCreate(s, cluster, rpc, f) ==
            Out(s, if Valid(rpc) && QueriesAnswered(s, cluster, ToLower(rpc.name), f)
                   then Created(id, size) else Failed)
  {
    var l :| Labelled(s, ClusterLabel(cluster)) == {l} && l in s.volumes[id].labels;
    assert id in Named(s, ToLower(rpc.name)) && l in Labelled(s, ClusterLabel(cluster));
  }

  /** Convergence. From any state with no duplicates, after any RPCs failing anywhere, an attempt in
      which no call fails succeeds. The first success leaves exactly one volume of that name,
      carrying the one label object of the cluster. After any further RPCs short of deleting it, a
      repeat changes nothing, and returns the same identifier and size exactly when its arguments
      are valid and its queries are answered. */
  lemma CreateConverges(
    s: State, cluster: string, es: seq<Event>, rpc: Rpc, f: Faults, es': seq<Event>, again: Rpc, f': Faults)
    requires rpc.CreateVolume? && again.CreateVolume? && ToLower(again.name) == ToLower(rpc.name)
    requires Single(s, cluster, ToLower(rpc.name)) && OnlyCalls(es) && OnlyCalls(es')
    ensures var name := ToLower(rpc.name);
            var t := Run(s, cluster, es);
            var o := Exec(t, cluster, rpc, f);
            && (Valid(rpc) && FaultFree(t, cluster, name, f) ==> o.result.Created?)
            && (o.result.Created? ==> Settled(o.st, cluster, name, o.result.id, o.result.size))
            && (o.result.Created? && NeverDeletes(es', o.result.id) ==>
                  var t' := Run(o.st, cluster, es');
                  Exec(t', cluster, again, f') ==
                  Out(t', if Valid(again) && QueriesAnswered(t', cluster, name, f') then o.result else Failed))
  {
    var name, t := ToLower(rpc.name), Run(s, cluster, es);
    var o := ExecCreate(t, cluster, rpc, f);
    RunKeepsSingle(s, cluster, es, name);
    if Valid(rpc) && FaultFree(t, cluster, name, f) {
      FaultFreeSucceeds(t, cluster, rpc, f);
    }
    if o.result.Created? {
      SuccessSettles(t, cluster, rpc, f);
      if NeverDeletes(es', o.result.id) {
        RunKeepsSettled(o.st, cluster, es', name, o.result.id, o.result.size);
        RepeatChangesNothing(Run(o.st, cluster, es'), cluster, again, f', o.result.id, o.result.size);
      }
    }
  }

  /** A volume created by this call has the sharing its capabilities need, and at least the
      bytes requested whenever the rounded size fits a signed 64-bit number. */
  lemma CreatedAsRequested(s: State, cluster: string, rpc: Rpc, f: Faults)
    requires rpc.CreateVolume? && Named(s, ToLower(rpc.name)) == {} && ExecCreate(s, cluster, rpc, f).result.Created?
    requires Int64(rpc.required) && Int64(rpc.limit)
    ensures var o := ExecCreate(s, cluster, rpc, f);
            && o.result.id !in s.volumes && o.result.id in o.st.volumes
            && Some(o.st.volumes[o.result.id].sharing) == NeedSharing(rpc.caps)
            && o.result.size < Request(rpc.required, rpc.limit) + GB
            && (Request(rpc.required, rpc.limit) <= o.result.size
                <==> Request(rpc.required, rpc.limit) <= TWO63 - GB)
  {
    var name, size, sharing := ToLower(rpc.name), VolumeSize(rpc.required, rpc.limit), NeedSharing(rpc.caps);
    var v := CreateVmVolume(s, name, size.value, sharing.value, f);
    ReconcileSharing(v.st, cluster, v.id.value, f);
    SizeIsLeastMultiple(rpc.required, rpc.limit, 0);
    RoundUpFacts(Request(rpc.required, rpc.limit));
  }

  /** A success on a volume found by name reports that volume, and changes neither its size nor its
      sharing to what was asked for. */
  lemma FoundAsItIs(s: State, cluster: string, rpc: Rpc, f: Faults)
    requires rpc.CreateVolume? && Named(s, ToLower(rpc.name)) != {} && ExecCreate(s, cluster, rpc, f).result.Created?
    ensures var o := ExecCreate(s, cluster, rpc, f);
            && o.result.id in Named(s, ToLower(rpc.name)) && o.result.id in o.st.volumes
            && o.result.size == s.volumes[o.result.id].size
            && o.st.volumes[o.result.id].sharing == s.volumes[o.result.id].sharing
  {
    var size, sharing := VolumeSize(rpc.required, rpc.limit).value, NeedSharing(rpc.caps).value;
    var v := CreateVmVolume(s, ToLower(rpc.name), size, sharing, f);
    assert v.st == s;
    ReconcileSharing(s, cluster, v.id.value, f);
  }

  /** The size reported covers the request whenever the call succeeds. */
  ghost predicate AlwaysCovers(s: State, cluster: string, rpc: Rpc)
    requires rpc.CreateVolume?
  {
    forall f :: var r := ExecCreate(s, cluster, rpc, f).result;
      r.Created? ==> Request(rpc.required, rpc.limit) <= r.size
  }

  /** A request is covered by every success exactly when each volume that already bears the name is
      large enough, or there is none and the request is at most 2^63 - 2^30. */
  lemma CoveredExactly(s: State, cluster: string, rpc: Rpc)
    requires Valid(rpc) && Int64(rpc.required) && Int64(rpc.limit)
    ensures var matching, request := Named(s, ToLower(rpc.name)), Request(rpc.required, rpc.limit);
            AlwaysCovers(s, cluster, rpc) <==>
            if matching == {} then request <= TWO63 - GB
            else forall id :: id in matching ==> request <= s.volumes[id].size
  {
    var matching, request := Named(s, ToLower(rpc.name)), Request(rpc.required, rpc.limit);
    forall f | ExecCreate(s, cluster, rpc, f).result.Created?
      ensures matching == {} ==> (request <= ExecCreate(s, cluster, rpc, f).result.size <==> request <= TWO63 - GB)
      ensures matching != {} ==>
                var id := ExecCreate(s, cluster, rpc, f).result.id;
                id in matching && ExecCreate(s, cluster, rpc, f).result.size == s.volumes[id].size
    {
      if matching == {} {
        CreatedAsRequested(s, cluster, rpc, f);
      } else {
        FoundAsItIs(s, cluster, rpc, f);
      }
    }
    if matching == {} {
      var f := SomeSuccess(s, cluster, rpc, "");
      assert ExecCreate(s, cluster, rpc, f).result.Created?;
    } else {
      forall id | id in matching && AlwaysCovers(s, cluster, rpc) ensures request <= s.volumes[id].size {
        var f := SomeSuccess(s, cluster, rpc, id);
        assert ExecCreate(s, cluster, rpc, f).result.Created?;
      }
    }
  }

  /** A success without faults, on any volume the query may list first. */
  lemma SomeSuccess(s: State, cluster: string, rpc: Rpc, id: string) returns (f: Faults)
    requires Valid(rpc) && (Named(s, ToLower(rpc.name)) == {} || id in Named(s, ToLower(rpc.name)))
    ensures ExecCreate(s, cluster, rpc, f).result.Created?
    ensures Named(s, ToLower(rpc.name)) != {} ==> ExecCreate(s, cluster, rpc, f).result.id == id
  {
    var labels := Labelled(s, ClusterLabel(cluster));
    var l := "";
    if labels != {} {
      l :| l in labels;
    }
    var v := Unused(s.volumes.Keys, 0);
    var l' := Unused(s.labels.Keys, 0);
    f := Faults(true, Returns(id), true, Applied, v, Returns(l), Applied, l', Applied,
                true, NotApplied, "", QueryFails, NotApplied, NotApplied);
    FaultFreeSucceeds(s, cluster, rpc, f);
  }

  lemma ReconcileSharing(s: State, cluster: string, volume: string, f: Faults)
    requires volume in s.volumes
    ensures var t := ReconcileLabel(s, cluster, volume, f).st;
            volume in t.volumes && t.volumes[volume].sharing == s.volumes[volume].sharing
  {
  }

  // ---- Attachments ----

  /** A publish that reports success leaves the volume with exactly one disk. */
  lemma PublishAttaches(s: State, volume: string, node: string, f: Faults)
    requires Inv(s) && ExecPublish(s, volume, node, f).result.Done?
    ensures exists d :: DisksOf(ExecPublish(s, volume, node, f).st, volume) == {d}
  {
    var t := ExecPublish(s, volume, node, f).st;
    PublishKeepsInv(s, volume, node, f);
    if DisksOf(s, volume) == {} {
      assert f.newDisk in DisksOf(t, volume);
    }
    var d :| d in DisksOf(t, volume);
    assert DisksOf(t, volume) == {d};
  }

  /** That disk is on the node asked for exactly when the volume had no disk on another node: a
      volume attached elsewhere is reported as published, with no disk here. */
  lemma PublishReachesNodeExactly(s: State, volume: string, node: string, f: Faults)
    requires Inv(s) && ExecPublish(s, volume, node, f).result.Done?
    ensures DisksOn(ExecPublish(s, volume, node, f).st, volume, node) != {} <==>
            forall d :: d in s.disks && s.disks[d].volume == volume ==> s.disks[d].vm == node
  {
    var t := ExecPublish(s, volume, node, f).st;
    if DisksOf(s, volume) == {} {
      assert forall d :: d in s.disks ==> d !in DisksOf(s, volume);
      assert f.newDisk in DisksOn(t, volume, node);
    } else {
      var d :| d in DisksOf(s, volume);
      assert t == s;
      assert s.disks[d].vm == node <==> d in DisksOn(s, volume, node);
      assert forall x :: x in DisksOn(s, volume, node) ==> x == d;
    }
  }

  /** An unpublish that reports success leaves the volume without a disk on the node and touches
      no other disk; a delete that reports success removes that volume and no other. */
  lemma DoneMeansDone(s: State, volume: string, node: string, f: Faults)
    requires Inv(s)
    ensures var o := ExecUnpublish(s, volume, node, f);
            && (o.result.Done? ==> DisksOn(o.st, volume, node) == {})
            && forall d :: d in s.disks && s.disks[d] != Disk(volume, node) ==>
                 d in o.st.disks && o.st.disks[d] == s.disks[d]
    ensures var o := ExecDelete(s, volume, f);
            && (o.result.Done? ==> volume !in o.st.volumes)
            && forall v :: v in s.volumes && v != volume ==> v in o.st.volumes && o.st.volumes[v] == s.volumes[v]
  {
  }

  /** Unpublish undoes publish: after both report success, every disk of another volume is as
      before and the volume has none. */
  lemma UnpublishUndoesPublish(s: State, volume: string, node: string, f: Faults, f': Faults)
    requires Inv(s) && DisksOf(s, volume) == {}
    requires ExecPublish(s, volume, node, f).result.Done?
    requires node != "" && f.newDisk != ""
    requires ExecUnpublish(ExecPublish(s, volume, node, f).st, volume, node, f').result.Done?
    ensures ExecUnpublish(ExecPublish(s, volume, node, f).st, volume, node, f').st == s
  {
    var t := ExecPublish(s, volume, node, f).st;
    var u := ExecUnpublish(t, volume, node, f').st;
    assert f.newDisk in DisksOn(t, volume, node);
    assert DisksOn(t, volume, node) <= DisksOf(t, volume) == DisksOf(s, volume) + {f.newDisk};
    assert u.disks == s.disks;
  }
}
