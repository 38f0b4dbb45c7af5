/**
 Overlapping controller RPCs that break a promise, and with them the exact policies under
 which names are distinct, the cluster has one label and no disk outlives its volume.
 */
module TowerRace {
  import opened Text
  import opened Tower
  import opened TowerRuns
  import opened TowerSteps
  import opened TowerSystem

  const EMPTY := State(map[], map[], map[])

  /** No call fails; volume queries list `volume` first, and a change makes an object `id`. */
  function Clean(volume: string, id: string): Faults {
    Faults(true, Returns(volume), true, Applied, id, Returns(""), Applied, id, Applied,
           true, Applied, id, Returns(""), Applied, Applied)
  }

  // ---- Two RPCs under way ----

  /** The RPC that began first, and the one that began while it was under way. */
  function Pair(first: Work, second: Work): map<nat, Work> { map[0 := first, 1 := second] }

  function Both(a: Rpc, b: Rpc, fa: Faults, fb: Faults): seq<StepEvent> { [Begin(0, b, fb)] + [Begin(1, a, fa)] }

  lemma BothBegin(may: Policy, cluster: string, s: State, a: Rpc, b: Rpc, fa: Faults, fb: Faults)
    requires may(a, b)
    ensures SysRun(may, cluster, Start(s), Both(a, b, fa, fb)) ==
            System(s, Pair(Work(b, fb, Begun), Work(a, fa, Begun)))
  {
    Snoc(may, cluster, Start(s), [], Begin(0, b, fb));
    assert [] + [Begin(0, b, fb)] == [Begin(0, b, fb)];
    Snoc(may, cluster, Start(s), [Begin(0, b, fb)], Begin(1, a, fa));
  }

  lemma PairUpdate(a: Work, b: Work, c: Work)
    ensures Pair(a, b)[0 := c] == Pair(c, b) && Pair(a, b)[1 := c] == Pair(a, c)
  {
  }

  lemma StepFirst(may: Policy, cluster: string, s: State, a: Work, b: Work)
    requires At(a.rpc, a.pc) && At(b.rpc, b.pc)
    ensures var n := Advance(s, cluster, a.rpc, a.faults, a.pc);
            SysStep(may, cluster, System(s, Pair(a, b)), Proceed(0)) == System(n.st, Pair(a.(pc := n.pc), b))
  {
    PairUpdate(a, b, a.(pc := Advance(s, cluster, a.rpc, a.faults, a.pc).pc));
  }

  lemma StepSecond(may: Policy, cluster: string, s: State, a: Work, b: Work)
    requires At(a.rpc, a.pc) && At(b.rpc, b.pc)
    ensures var n := Advance(s, cluster, b.rpc, b.faults, b.pc);
            SysStep(may, cluster, System(s, Pair(a, b)), Proceed(1)) == System(n.st, Pair(a, b.(pc := n.pc)))
  {
    PairUpdate(a, b, b.(pc := Advance(s, cluster, b.rpc, b.faults, b.pc).pc));
  }

  /** The first of the two takes a step. */
  lemma FirstTurn(may: Policy, cluster: string, y: System, es: seq<StepEvent>, s: State, a: Work, b: Work)
    requires AllAt(y) && At(a.rpc, a.pc) && At(b.rpc, b.pc) && SysRun(may, cluster, y, es) == System(s, Pair(a, b))
    ensures var n := Advance(s, cluster, a.rpc, a.faults, a.pc);
            SysRun(may, cluster, y, es + [Proceed(0)]) == System(n.st, Pair(a.(pc := n.pc), b))
  {
    Snoc(may, cluster, y, es, Proceed(0));
    StepFirst(may, cluster, s, a, b);
  }

  /** The second of the two takes a step. */
  lemma SecondTurn(may: Policy, cluster: string, y: System, es: seq<StepEvent>, s: State, a: Work, b: Work)
    requires AllAt(y) && At(a.rpc, a.pc) && At(b.rpc, b.pc) && SysRun(may, cluster, y, es) == System(s, Pair(a, b))
    ensures var n := Advance(s, cluster, b.rpc, b.faults, b.pc);
            SysRun(may, cluster, y, es + [Proceed(1)]) == System(n.st, Pair(a, b.(pc := n.pc)))
  {
    Snoc(may, cluster, y, es, Proceed(1));
    StepSecond(may, cluster, s, a, b);
  }

  /** One step each, the first one's before the second one's. */
  lemma Turns(
    may: Policy, cluster: string, y: System, es: seq<StepEvent>, s: State, a: Work, b: Work, n: Next, n': Next)
    requires AllAt(y) && At(a.rpc, a.pc) && At(b.rpc, b.pc) && SysRun(may, cluster, y, es) == System(s, Pair(a, b))
    requires Advance(s, cluster, a.rpc, a.faults, a.pc) == n
    requires Advance(n.st, cluster, b.rpc, b.faults, b.pc) == n'
    ensures At(a.rpc, n.pc) && At(b.rpc, n'.pc)
    ensures SysRun(may, cluster, y, es + [Proceed(0)] + [Proceed(1)]) ==
            System(n'.st, Pair(a.(pc := n.pc), b.(pc := n'.pc)))
  {
    FirstTurn(may, cluster, y, es, s, a, b);
    SecondTurn(may, cluster, y, es + [Proceed(0)], n.st, a.(pc := n.pc), b);
  }

  // ---- Names ----

  lemma BeginsAbsent(a: Rpc, f: Faults)
    requires Valid(a) && f.volumes.Returns?
    ensures BeginStep(EMPTY, a, f) == Absent
  {
  }

  /** Two creations of one name that both query before either creates. */
  lemma NameRace(may: Policy, cluster: string, a: Rpc, b: Rpc) returns (es: seq<StepEvent>)
    requires SameName(a, b) && may(a, b)
    ensures !DistinctNames(SysRun(may, cluster, Start(EMPTY), es).st)
  {
    var fa, fb, y := Clean("", "v"), Clean("", "w"), Start(EMPTY);
    BothBegin(may, cluster, EMPTY, a, b, fa, fb);
    BeginsAbsent(a, fa);
    BeginsAbsent(b, fb);
    var es0 := Both(a, b, fa, fb);
    Turns(may, cluster, y, es0, EMPTY, Work(b, fb, Begun), Work(a, fa, Begun),
          Next(EMPTY, Absent), Next(EMPTY, Absent));
    var es1 := es0 + [Proceed(0)] + [Proceed(1)];
    var n := CreateStep(EMPTY, b, fb);
    var n' := CreateStep(n.st, a, fa);
    Turns(may, cluster, y, es1, EMPTY, Work(b, fb, Absent), Work(a, fa, Absent), n, n');
    es := es1 + [Proceed(0)] + [Proceed(1)];
    assert "v" != "w" && "v" in n'.st.volumes && "w" in n'.st.volumes;
    assert n'.st.volumes["v"].name == n'.st.volumes["w"].name;
  }

  /** The driver's volumes have distinct names in every interleaving from every such state. */
  ghost predicate NamesAlwaysDistinct(may: Policy, cluster: string) {
    forall s, es :: DistinctNames(s) ==> DistinctNames(SysRun(may, cluster, Start(s), es).st)
  }

  /** Names stay distinct in every interleaving exactly when no two creations of one lower-cased
      name overlap. */
  lemma NamesDistinctExactly(may: Policy, cluster: string)
    ensures NamesAlwaysDistinct(may, cluster) <==> forall a, b :: SameName(a, b) ==> !may(a, b)
  {
    if forall a, b :: SameName(a, b) ==> !may(a, b) {
      forall s, es | DistinctNames(s) ensures DistinctNames(SysRun(may, cluster, Start(s), es).st) {
        RunKeepsNames(may, cluster, Start(s), es);
      }
    } else {
      var a, b :| SameName(a, b) && may(a, b);
      var es := NameRace(may, cluster, a, b);
      assert DistinctNames(EMPTY);
    }
  }

  // ---- Labels ----

  /** A backend that holds a volume for each of the two creations. */
  function Shelf(a: Rpc, b: Rpc): State
    requires Valid(a) && Valid(b)
  {
    State(map["v" := Volume(ToLower(a.name), 0, false, [], false), "w" := Volume(ToLower(b.name), 0, false, [], false)],
          map[], map[])
  }

  lemma FindsShelved(s: State, a: Rpc, id: string, f: Faults)
    requires Valid(a) && id in s.volumes && s.volumes[id].name == ToLower(a.name) && f.volumes == Returns(id)
    ensures BeginStep(s, a, f) == Known(id, s.volumes[id])
  {
    assert id in Named(s, ToLower(a.name));
  }

  /** Two creations that both look for the cluster's label. */
  lemma LabelLooks(may: Policy, cluster: string, a: Rpc, b: Rpc) returns (es: seq<StepEvent>)
    requires Valid(a) && Valid(b) && may(a, b)
    ensures var s := Shelf(a, b);
            SysRun(may, cluster, Start(s), es) ==
            System(s, Pair(Work(b, Clean("w", "y"), Unlabelled("w", s.volumes["w"])),
                           Work(a, Clean("v", "x"), Unlabelled("v", s.volumes["v"]))))
  {
    var s, fa, fb := Shelf(a, b), Clean("v", "x"), Clean("w", "y");
    assert "v" != "w";
    var va, vb := s.volumes["v"], s.volumes["w"];
    BothBegin(may, cluster, s, a, b, fa, fb);
    FindsShelved(s, a, "v", fa);
    FindsShelved(s, b, "w", fb);
    var es0 := Both(a, b, fa, fb);
    Turns(may, cluster, Start(s), es0, s, Work(b, fb, Begun), Work(a, fa, Begun),
          Next(s, Known("w", vb)), Next(s, Known("v", va)));
    var es1 := es0 + [Proceed(0)] + [Proceed(1)];
    assert Labelled(s, ClusterLabel(cluster)) == {};
    Turns(may, cluster, Start(s), es1, s, Work(b, fb, Known("w", vb)), Work(a, fa, Known("v", va)),
          Next(s, Unlabelled("w", vb)), Next(s, Unlabelled("v", va)));
    es := es1 + [Proceed(0)] + [Proceed(1)];
  }

  /** Two creations that both look for the cluster's label before either makes it. */
  lemma LabelRace(may: Policy, cluster: string, a: Rpc, b: Rpc) returns (es: seq<StepEvent>)
    requires Valid(a) && Valid(b) && may(a, b)
    ensures !AtMostOne(Labelled(SysRun(may, cluster, Start(Shelf(a, b)), es).st, ClusterLabel(cluster)))
  {
    var s, fa, fb := Shelf(a, b), Clean("v", "x"), Clean("w", "y");
    assert "x" != "y";
    var va, vb := s.volumes["v"], s.volumes["w"];
    var es1 := LabelLooks(may, cluster, a, b);
    var n := LabelStep(s, cluster, "w", vb, fb);
    var n' := LabelStep(n.st, cluster, "v", va, fa);
    Turns(may, cluster, Start(s), es1, s, Work(b, fb, Unlabelled("w", vb)), Work(a, fa, Unlabelled("v", va)), n, n');
    es := es1 + [Proceed(0)] + [Proceed(1)];
    assert "x" in Labelled(n'.st, ClusterLabel(cluster)) && "y" in Labelled(n'.st, ClusterLabel(cluster));
  }

  ghost predicate LabelAlwaysOne(may: Policy, cluster: string) {
    forall s, es :: AtMostOne(Labelled(s, ClusterLabel(cluster))) ==>
      AtMostOne(Labelled(SysRun(may, cluster, Start(s), es).st, ClusterLabel(cluster)))
  }

  /** The cluster has at most one label in every interleaving exactly when no two creations overlap,
      whatever their names. */
  lemma OneLabelExactly(may: Policy, cluster: string)
    ensures LabelAlwaysOne(may, cluster) <==> forall a, b :: Valid(a) && Valid(b) ==> !may(a, b)
  {
    if forall a, b :: Valid(a) && Valid(b) ==> !may(a, b) {
      forall s, es | AtMostOne(Labelled(s, ClusterLabel(cluster)))
        ensures AtMostOne(Labelled(SysRun(may, cluster, Start(s), es).st, ClusterLabel(cluster)))
      {
        RunKeepsLabels(may, cluster, Start(s), es);
      }
    } else {
      var a, b :| Valid(a) && Valid(b) && may(a, b);
      var es := LabelRace(may, cluster, a, b);
      assert AtMostOne(Labelled(Shelf(a, b), ClusterLabel(cluster)));
    }
  }

  // ---- Disks ----

  /** A backend that holds one volume. */
  function Holding(volume: string): State { State(map[volume := Volume("", 0, false, [], false)], map[], map[]) }

  /** The deletion and the publish see the volume without a disk; the publish attaches it, and then
      the deletion removes it. */
  lemma OrphanSteps(cluster: string, a: Rpc, b: Rpc)
    requires DeletePublish(a, b)
    ensures var s, f := Holding(a.volume), Clean(a.volume, "d");
            var attached := Advance(s, cluster, b, f, Free).st;
            && BeginStep(s, a, f) == Doomed && BeginStep(s, b, f) == Free
            && !NoOrphans(Advance(attached, cluster, a, f, Doomed).st)
  {
    var s, f := Holding(a.volume), Clean(a.volume, "d");
    assert a.volume in WithId(s, a.volume);
    assert "d" in Advance(s, cluster, b, f, Free).st.disks;
  }

  lemma OrphanRace(may: Policy, cluster: string, a: Rpc, b: Rpc) returns (es: seq<StepEvent>)
    requires DeletePublish(a, b) && (may(a, b) || may(b, a))
    ensures !NoOrphans(SysRun(may, cluster, Start(Holding(a.volume)), es).st)
  {
    var s, f := Holding(a.volume), Clean(a.volume, "d");
    var y := Start(s);
    var wa, wb := Work(a, f, Begun), Work(b, f, Begun);
    OrphanSteps(cluster, a, b);
    var n := Advance(s, cluster, b, f, Free);
    if may(a, b) {
      BothBegin(may, cluster, s, a, b, f, f);
      var es0 := Both(a, b, f, f);
      Turns(may, cluster, y, es0, s, wb, wa, Next(s, Free), Next(s, Doomed));
      var es1 := es0 + [Proceed(0)] + [Proceed(1)];
      var n' := Advance(n.st, cluster, a, f, Doomed);
      Turns(may, cluster, y, es1, s, wb.(pc := Free), wa.(pc := Doomed), n, n');
      es := es1 + [Proceed(0)] + [Proceed(1)];
    } else {
      BothBegin(may, cluster, s, b, a, f, f);
      var es0 := Both(b, a, f, f);
      Turns(may, cluster, y, es0, s, wa, wb, Next(s, Doomed), Next(s, Free));
      var es1 := es0 + [Proceed(0)] + [Proceed(1)];
      SecondTurn(may, cluster, y, es1, s, wa.(pc := Doomed), wb.(pc := Free));
      FirstTurn(may, cluster, y, es1 + [Proceed(1)], n.st, wa.(pc := Doomed), wb.(pc := n.pc));
      es := es1 + [Proceed(1)] + [Proceed(0)];
    }
  }

  ghost predicate NeverOrphans(may: Policy, cluster: string) {
    forall s, es :: NoOrphans(s) ==> NoOrphans(SysRun(may, cluster, Start(s), es).st)
  }

  /** No disk outlives its volume in any interleaving exactly when no deletion overlaps a publish of
      the same volume. */
  lemma NoOrphansExactly(may: Policy, cluster: string)
    ensures NeverOrphans(may, cluster) <==> KeepsApart(may)
  {
    if KeepsApart(may) {
      forall s, es | NoOrphans(s) ensures NoOrphans(SysRun(may, cluster, Start(s), es).st) {
        RunKeepsDisks(may, cluster, Start(s), es);
      }
    } else {
      var a, b :| DeletePublish(a, b) && (may(a, b) || may(b, a));
      var es := OrphanRace(may, cluster, a, b);
      assert NoOrphans(Holding(a.volume));
    }
  }
}
