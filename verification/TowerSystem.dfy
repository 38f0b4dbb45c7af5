/**
 The controller with overlapping RPCs. A policy says which requests may run at the same
 time; the driver enforces none. For each promise about volumes and labels this module
 proves under exactly which policies it holds in every interleaving, with failures anywhere.
 */
module TowerSystem {
  import opened Text
  import opened Tower
  import opened TowerRuns
  import opened TowerSteps

  datatype Work = Work(rpc: Rpc, faults: Faults, pc: Pc)

  datatype System = System(st: State, works: map<nat, Work>)

  /** RPC `t` begins or takes a step, or another user of the backend creates a volume. */
  datatype StepEvent =
    | Begin(t: nat, rpc: Rpc, faults: Faults) | Proceed(t: nat) | Foreign(id: string, name: string, size: int)

  /** Whether the first request may begin while the second is under way. */
  type Policy = (Rpc, Rpc) -> bool

  predicate AllAt(y: System) {
    forall t :: t in y.works ==> At(y.works[t].rpc, y.works[t].pc)
  }

  predicate MayBegin(may: Policy, y: System, t: nat, rpc: Rpc) {
    t !in y.works && forall u :: u in y.works && !y.works[u].pc.Ended? ==> may(rpc, y.works[u].rpc)
  }

  function SysStep(may: Policy, cluster: string, y: System, e: StepEvent): (r: System)
    requires AllAt(y)
    ensures AllAt(r)
  {
    match e
    case Begin(t, rpc, f) => if MayBegin(may, y, t, rpc) then y.(works := y.works[t := Work(rpc, f, Begun)]) else y
    case Proceed(t) =>
      if t !in y.works then y else
        var w := y.works[t];
        var n := Advance(y.st, cluster, w.rpc, w.faults, w.pc);
        System(n.st, y.works[t := w.(pc := n.pc)])
    case Foreign(id, name, size) =>
      if id in y.st.volumes then y else y.(st := AddVolume(y.st, id, Volume(name, size, false, [], false)))
  }

  function SysRun(may: Policy, cluster: string, y: System, es: seq<StepEvent>): (r: System)
    requires AllAt(y)
    ensures AllAt(r)
  {
    if es == [] then y else SysStep(may, cluster, SysRun(may, cluster, y, es[..|es| - 1]), es[|es| - 1])
  }

  lemma Snoc(may: Policy, cluster: string, y: System, es: seq<StepEvent>, e: StepEvent)
    requires AllAt(y)
    ensures SysRun(may, cluster, y, es + [e]) == SysStep(may, cluster, SysRun(may, cluster, y, es), e)
  {
    assert (es + [e])[..|es|] == es;
  }

  function Start(s: State): System { System(s, map[]) }

  /** RPCs under way at the same time are ones the policy lets overlap. */
  ghost predicate Overlaps(may: Policy, y: System) {
    forall t, u :: t in y.works && u in y.works && t != u && !y.works[t].pc.Ended? && !y.works[u].pc.Ended? ==>
      may(y.works[t].rpc, y.works[u].rpc) || may(y.works[u].rpc, y.works[t].rpc)
  }

  lemma StepKeepsOverlaps(may: Policy, cluster: string, y: System, e: StepEvent)
    requires AllAt(y) && Overlaps(may, y)
    ensures Overlaps(may, SysStep(may, cluster, y, e))
  {
    if e.Proceed? && e.t in y.works {
      var w := y.works[e.t];
      var n := Advance(y.st, cluster, w.rpc, w.faults, w.pc);
      assert w.pc.Ended? ==> n.pc.Ended?;
      TurnKeepsOverlaps(may, y, e.t, n);
    }
  }

  lemma TurnKeepsOverlaps(may: Policy, y: System, t: nat, n: Next)
    requires Overlaps(may, y) && t in y.works && (y.works[t].pc.Ended? ==> n.pc.Ended?)
    ensures Overlaps(may, System(n.st, y.works[t := y.works[t].(pc := n.pc)]))
  {
  }

  // ---- Names ----

  /** Two creations of one lower-cased name. */
  predicate SameName(a: Rpc, b: Rpc) { Valid(a) && Valid(b) && ToLower(a.name) == ToLower(b.name) }

  ghost predicate Unnamed(s: State, name: string) {
    forall a :: a in s.volumes && s.volumes[a].ours ==> s.volumes[a].name != name
  }

  /** A creation that saw no volume of its name would still see none of the driver's. */
  ghost predicate NamesInv(y: System)
    requires AllAt(y)
  {
    && DistinctNames(y.st)
    && (forall t :: t in y.works && y.works[t].pc.Absent? ==> Unnamed(y.st, ToLower(y.works[t].rpc.name)))
  }

  /** Every volume of the driver was one before, with the same name. */
  ghost predicate NoNewNames(s: State, s': State) {
    forall a :: a in s'.volumes && s'.volumes[a].ours ==>
      a in s.volumes && s.volumes[a].ours && s.volumes[a].name == s'.volumes[a].name
  }

  lemma AdvanceNames(s: State, cluster: string, w: Work)
    requires At(w.rpc, w.pc)
    ensures var n := Advance(s, cluster, w.rpc, w.faults, w.pc);
            && (!w.pc.Absent? ==> NoNewNames(s, n.st))
            && (n.pc.Absent? ==> Valid(w.rpc) && n.st == s && Unnamed(s, ToLower(w.rpc.name)))
  {
    if w.pc.Begun? && BeginStep(s, w.rpc, w.faults).Absent? {
      assert Named(s, ToLower(w.rpc.name)) == {};
      assert forall a :: a in s.volumes ==> a !in Named(s, ToLower(w.rpc.name));
    }
  }

  /** The step that creates a volume: no other creation has seen that name missing. */
  lemma CreateKeepsNames(may: Policy, cluster: string, y: System, t: nat)
    requires AllAt(y) && Overlaps(may, y) && NamesInv(y) && t in y.works && y.works[t].pc.Absent?
    requires forall a, b :: SameName(a, b) ==> !may(a, b)
    ensures NamesInv(SysStep(may, cluster, y, Proceed(t)))
  {
    var w, z := y.works[t], SysStep(may, cluster, y, Proceed(t));
    forall u | u in z.works && z.works[u].pc.Absent? ensures Unnamed(z.st, ToLower(z.works[u].rpc.name)) {
      assert u != t && y.works[u] == z.works[u];
    }
  }

  lemma StepKeepsNames(may: Policy, cluster: string, y: System, e: StepEvent)
    requires AllAt(y) && Overlaps(may, y) && NamesInv(y)
    requires forall a, b :: SameName(a, b) ==> !may(a, b)
    ensures NamesInv(SysStep(may, cluster, y, e))
  {
    if e.Proceed? && e.t in y.works {
      if y.works[e.t].pc.Absent? {
        CreateKeepsNames(may, cluster, y, e.t);
      } else {
        AdvanceNames(y.st, cluster, y.works[e.t]);
      }
    }
  }

  lemma {:induction false} RunKeepsNames(may: Policy, cluster: string, y: System, es: seq<StepEvent>)
    requires AllAt(y) && Overlaps(may, y) && NamesInv(y)
    requires forall a, b :: SameName(a, b) ==> !may(a, b)
    ensures var z := SysRun(may, cluster, y, es); Overlaps(may, z) && NamesInv(z)
  {
    if es != [] {
      var n := |es| - 1;
      RunKeepsNames(may, cluster, y, es[..n]);
      StepKeepsOverlaps(may, cluster, SysRun(may, cluster, y, es[..n]), es[n]);
      StepKeepsNames(may, cluster, SysRun(may, cluster, y, es[..n]), es[n]);
    }
  }

  // ---- Labels ----

  /** A creation that saw no label of the cluster would still see none. */
  ghost predicate LabelsInv(cluster: string, y: System) {
    && AtMostOne(Labelled(y.st, ClusterLabel(cluster)))
    && (forall t :: t in y.works && y.works[t].pc.Unlabelled? ==> Labelled(y.st, ClusterLabel(cluster)) == {})
  }

  lemma AdvanceLabels(s: State, cluster: string, w: Work)
    requires At(w.rpc, w.pc)
    ensures var n := Advance(s, cluster, w.rpc, w.faults, w.pc);
            && (!w.pc.Unlabelled? ==> n.st.labels == s.labels)
            && (n.pc.Unlabelled? ==> Labelled(s, ClusterLabel(cluster)) == {})
  {
  }

  lemma StepKeepsLabels(may: Policy, cluster: string, y: System, e: StepEvent)
    requires AllAt(y) && Overlaps(may, y) && LabelsInv(cluster, y)
    requires forall a, b :: Valid(a) && Valid(b) ==> !may(a, b)
    ensures LabelsInv(cluster, SysStep(may, cluster, y, e))
  {
    var z := SysStep(may, cluster, y, e);
    if e.Proceed? && e.t in y.works && y.works[e.t].pc.Unlabelled? {
      assert forall u :: u in y.works && u != e.t ==> !y.works[u].pc.Unlabelled?;
      assert forall x :: x in Labelled(z.st, ClusterLabel(cluster)) ==> x == y.works[e.t].faults.newLabel
        by {
          assert forall x :: x in y.st.labels ==> x !in Labelled(y.st, ClusterLabel(cluster));
        }
    } else {
      if e.Proceed? && e.t in y.works {
        AdvanceLabels(y.st, cluster, y.works[e.t]);
      }
      assert Labelled(z.st, ClusterLabel(cluster)) == Labelled(y.st, ClusterLabel(cluster));
    }
  }

  lemma {:induction false} RunKeepsLabels(may: Policy, cluster: string, y: System, es: seq<StepEvent>)
    requires AllAt(y) && Overlaps(may, y) && LabelsInv(cluster, y)
    requires forall a, b :: Valid(a) && Valid(b) ==> !may(a, b)
    ensures var z := SysRun(may, cluster, y, es); Overlaps(may, z) && LabelsInv(cluster, z)
  {
    if es != [] {
      var n := |es| - 1;
      RunKeepsLabels(may, cluster, y, es[..n]);
      StepKeepsOverlaps(may, cluster, SysRun(may, cluster, y, es[..n]), es[n]);
      StepKeepsLabels(may, cluster, SysRun(may, cluster, y, es[..n]), es[n]);
    }
  }

  // ---- Disks ----

  /** A deletion and a publish of one volume. */
  predicate DeletePublish(a: Rpc, b: Rpc) {
    a.DeleteVolume? && Publishing(b) && a.volume == b.volume
  }

  /** No deletion of a volume overlaps a publish of it. */
  ghost predicate KeepsApart(may: Policy) {
    forall a, b :: DeletePublish(a, b) ==> !may(a, b) && !may(b, a)
  }

  /** A deletion still has its volume without a disk, and a publish still has its volume. */
  ghost predicate DisksInv(y: System)
    requires AllAt(y)
  {
    && NoOrphans(y.st)
    && (forall t :: t in y.works && y.works[t].pc.Doomed? ==> DisksOf(y.st, y.works[t].rpc.volume) == {})
    && (forall t :: t in y.works && y.works[t].pc.Free? ==> y.works[t].rpc.volume in y.st.volumes)
  }

  lemma AdvanceDisks(s: State, cluster: string, w: Work)
    requires At(w.rpc, w.pc)
    ensures var n := Advance(s, cluster, w.rpc, w.faults, w.pc);
            && (!w.pc.Doomed? ==> s.volumes.Keys <= n.st.volumes.Keys)
            && (!w.pc.Free? ==> forall d :: d in n.st.disks ==> d in s.disks && n.st.disks[d] == s.disks[d])
            && (n.pc.Doomed? ==> DisksOf(s, w.rpc.volume) == {} && n.st == s)
            && (n.pc.Free? ==> w.rpc.volume in s.volumes && n.st == s)
  {
  }

  lemma DeleteKeepsDisks(may: Policy, cluster: string, y: System, t: nat)
    requires AllAt(y) && Overlaps(may, y) && DisksInv(y) && KeepsApart(may)
    requires t in y.works && y.works[t].pc.Doomed?
    ensures DisksInv(SysStep(may, cluster, y, Proceed(t)))
  {
    var w, z := y.works[t], SysStep(may, cluster, y, Proceed(t));
    assert forall d :: d in y.st.disks ==> d !in DisksOf(y.st, w.rpc.volume);
    assert z.st.disks == y.st.disks;
    forall u | u in z.works && z.works[u].pc.Doomed? ensures DisksOf(z.st, z.works[u].rpc.volume) == {} {
      assert DisksOf(z.st, z.works[u].rpc.volume) == DisksOf(y.st, z.works[u].rpc.volume);
    }
    forall u | u in z.works && z.works[u].pc.Free? ensures z.works[u].rpc.volume in z.st.volumes {
      assert u != t && y.works[u] == z.works[u];
      assert z.works[u].rpc.volume == w.rpc.volume ==> DeletePublish(w.rpc, z.works[u].rpc);
    }
  }

  lemma AttachKeepsDisks(may: Policy, cluster: string, y: System, t: nat)
    requires AllAt(y) && Overlaps(may, y) && DisksInv(y) && KeepsApart(may)
    requires t in y.works && y.works[t].pc.Free?
    ensures DisksInv(SysStep(may, cluster, y, Proceed(t)))
  {
    var w, z := y.works[t], SysStep(may, cluster, y, Proceed(t));
    forall u | u in z.works && z.works[u].pc.Doomed? ensures DisksOf(z.st, z.works[u].rpc.volume) == {} {
      assert u != t && y.works[u] == z.works[u];
      assert DisksOf(y.st, z.works[u].rpc.volume) == {};
      assert z.works[u].rpc.volume == w.rpc.volume ==> DeletePublish(z.works[u].rpc, w.rpc);
      assert DisksOf(z.st, z.works[u].rpc.volume) == DisksOf(y.st, z.works[u].rpc.volume);
    }
  }

  lemma OtherKeepsDisks(may: Policy, cluster: string, y: System, e: StepEvent)
    requires AllAt(y) && DisksInv(y)
    requires e.Proceed? && e.t in y.works ==> !y.works[e.t].pc.Doomed? && !y.works[e.t].pc.Free?
    ensures DisksInv(SysStep(may, cluster, y, e))
  {
    var z := SysStep(may, cluster, y, e);
    if e.Proceed? && e.t in y.works {
      AdvanceDisks(y.st, cluster, y.works[e.t]);
    }
    assert forall v :: DisksOf(z.st, v) <= DisksOf(y.st, v);
  }

  lemma {:induction false} RunKeepsDisks(may: Policy, cluster: string, y: System, es: seq<StepEvent>)
    requires AllAt(y) && Overlaps(may, y) && DisksInv(y) && KeepsApart(may)
    ensures var z := SysRun(may, cluster, y, es); Overlaps(may, z) && DisksInv(z)
  {
    if es != [] {
      var n := |es| - 1;
      var z, e := SysRun(may, cluster, y, es[..n]), es[n];
      RunKeepsDisks(may, cluster, y, es[..n]);
      StepKeepsOverlaps(may, cluster, z, e);
      if e.Proceed? && e.t in z.works && z.works[e.t].pc.Doomed? {
        DeleteKeepsDisks(may, cluster, z, e.t);
      } else if e.Proceed? && e.t in z.works && z.works[e.t].pc.Free? {
        AttachKeepsDisks(may, cluster, z, e.t);
      } else {
        OtherKeepsDisks(may, cluster, z, e);
      }
    }
  }
}
