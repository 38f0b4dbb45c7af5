/**
 The race of two filesystem stages that found one device, and with it the exact condition
 under which formats are write-once and data is safe. The runs considered here are
 plausible ones: a workload writes through a mount that is not read-only, and mkfs leaves
 mounted devices alone, and also formatted ones where its type refuses them.
 */
module NodeRace {
  import opened Text
  import opened NodeModel
  import opened NodeRuns
  import opened NodeSteps
  import opened NodeSystem
  import opened NodeData

  // ---- Plausible runs ----

  predicate Writable(mounts: seq<Entry>, device: string) {
    exists e :: e in mounts && e.backing == device && "ro" !in e.opts
  }

  /** No mount reaches the device. */
  predicate Bare(mounts: seq<Entry>, device: string) {
    forall e :: e in mounts ==> e.backing != device
  }

  ghost predicate Plausible(y: System, e: StepEvent, refuses: iset<string>) {
    && Respects(y, e, refuses)
    && (e.UserWrite? ==> Writable(y.st.mounts, e.device))
    && (e.Proceed? && e.path in y.works ==> forall d :: Armed(y.works[e.path], d) ==> Bare(y.st.mounts, d))
  }

  ghost predicate AllPlausible(y: System, es: seq<StepEvent>, refuses: iset<string>)
    requires AllAt(y)
  {
    es == [] || (var n := |es| - 1; AllPlausible(y, es[..n], refuses) && Plausible(SysRun(y, es[..n]), es[n], refuses))
  }

  lemma {:induction false} PlausibleRespects(y: System, es: seq<StepEvent>, refuses: iset<string>)
    requires AllAt(y) && AllPlausible(y, es, refuses)
    ensures AllRespect(y, es, refuses)
  {
    if es != [] {
      PlausibleRespects(y, es[..|es| - 1], refuses);
    }
  }

  lemma {:induction false} PlausibleConcat(y: System, a: seq<StepEvent>, b: seq<StepEvent>, refuses: iset<string>)
    requires AllAt(y)
    ensures AllPlausible(y, a + b, refuses) <==> AllPlausible(y, a, refuses) && AllPlausible(SysRun(y, a), b, refuses)
  {
    if b == [] {
      assert a + b == a;
    } else {
      var n := |b| - 1;
      assert (a + b)[..|a + b| - 1] == a + b[..n];
      PlausibleConcat(y, a, b[..n], refuses);
      SysConcat(y, a, b[..n]);
    }
  }

  lemma PlausibleOne(y: System, e: StepEvent, refuses: iset<string>)
    requires AllAt(y)
    ensures AllPlausible(y, [e], refuses) <==> Plausible(y, e, refuses)
  {
    assert [e][..0] == [];
    assert SysRun(y, [e][..0]) == y;
  }

  // ---- One state ----

  ghost predicate SafeForever(y: System, inUse: iset<Path>, device: string, refuses: iset<string>)
    requires AllAt(y)
  {
    forall es :: AllEventsUse(es, inUse) && AllPlausible(y, es, refuses) ==>
      KeepsFormat(y, es, device) && KeepsData(y, es, device)
  }

  predicate HoldsData(s: State, device: string) { Data(s, device) !in {None, Some("")} }

  /** At any point of any interleaving: a formatted device keeps its format and its data in every
      plausible continuation if no stage is about to write over it; and only if, for a device that
      holds data and that no mount reaches. */
  lemma FormattedIsSafeExactly(y: System, inUse: iset<Path>, device: string, refuses: iset<string>)
    requires PrefixFree(inUse) && SysInv(y, inUse) && Format(y.st, device) != ""
    ensures !Pending(y, device, refuses) ==> SafeForever(y, inUse, device, refuses)
    ensures HoldsData(y.st, device) && Bare(y.st.mounts, device) ==>
              (SafeForever(y, inUse, device, refuses) <==> !Pending(y, device, refuses))
  {
    if !Pending(y, device, refuses) {
      forall es | AllEventsUse(es, inUse) && AllPlausible(y, es, refuses)
        ensures KeepsFormat(y, es, device) && KeepsData(y, es, device)
      {
        PlausibleRespects(y, es, refuses);
        InterleavedData(y, es, inUse, device, refuses);
      }
    } else if HoldsData(y.st, device) && Bare(y.st.mounts, device) {
      var p :| p in y.works && Armed(y.works[p], device) && MkfsType(y.works[p].rpc) !in refuses;
      LateMkfs(y, p, device, refuses);
      assert UserWrites([Proceed(p)], device, Data(y.st, device)) == UserWrites([], device, Data(y.st, device));
      assert !KeepsData(y, [Proceed(p)], device);
    }
  }

  /** An armed stage empties the device, and leaves the format its mkfs leaves. */
  lemma LateMkfs(y: System, p: Path, device: string, refuses: iset<string>)
    requires AllAt(y) && p in y.works && Armed(y.works[p], device)
    requires MkfsType(y.works[p].rpc) !in refuses && Bare(y.st.mounts, device)
    ensures AllPlausible(y, [Proceed(p)], refuses)
    ensures var z := SysRun(y, [Proceed(p)]).st;
            && Data(z, device) == Some("")
            && (y.works[p].faults.mkfs == MkfsPartial("") ==> Format(z, device) == "")
  {
    PlausibleOne(y, Proceed(p), refuses);
    SysCons(y, Proceed(p), []);
    assert [Proceed(p)] + [] == [Proceed(p)];
  }

  // ---- Calls in a row ----

  /** Nothing is on the device a filesystem stage found. */
  ghost predicate Fresh(s: State, w: Work) {
    FsStage(w.rpc) && w.faults.device.Some? ==>
      Format(s, w.faults.device.value) == "" && Bare(s.mounts, w.faults.device.value)
  }

  /** All turns in a row of an RPC that is no stage, or whose device nothing is on, are plausible. */
  lemma {:induction false} ProceedsPlausible(y: System, p: Path, n: nat, refuses: iset<string>)
    requires AllAt(y) && p in y.works
    requires y.works[p].pc in {Begun, Created, Unmounted, Blank} ==> Fresh(y.st, y.works[p])
    ensures AllPlausible(y, Proceeds(p, n), refuses)
    decreases n
  {
    if n > 0 {
      var w, y1 := y.works[p], SysStep(y, Proceed(p));
      PlausibleOne(y, Proceed(p), refuses);
      assert y1.works[p].pc in {Begun, Created, Unmounted, Blank} ==>
          y1.st == y.st.(files := y1.st.files) && w.pc in {Begun, Created, Unmounted, Blank};
      ProceedsPlausible(y1, p, n - 1, refuses);
      SysCons(y, Proceed(p), []);
      assert [Proceed(p)] + [] == [Proceed(p)];
      PlausibleConcat(y, [Proceed(p)], Proceeds(p, n - 1), refuses);
    }
  }

  lemma CallPlausible(y: System, rpc: Rpc, f: Faults, refuses: iset<string>)
    requires AllAt(y) && MayBegin(y, rpc) && Fresh(y.st, Work(rpc, f, Begun))
    ensures AllPlausible(y, Steps(Call(rpc, f)), refuses)
  {
    var p := PathOf(rpc).value;
    PlausibleOne(y, Begin(rpc, f), refuses);
    SysCons(y, Begin(rpc, f), []);
    assert [Begin(rpc, f)] + [] == [Begin(rpc, f)];
    ProceedsPlausible(SysStep(y, Begin(rpc, f)), p, 5, refuses);
    PlausibleConcat(y, [Begin(rpc, f)], Proceeds(p, 5), refuses);
  }

  // ---- The race ----

  function Clean(device: string, mkfs: MkfsOutcome): Faults {
    Faults(Some(device), false, false, {}, false, false, false, false, mkfs, MountOk, false, {})
  }

  predicate AllDirs(s: State) { forall p :: p in s.files ==> s.files[p].Dir? }

  /** The path is there, in a directory. */
  predicate HasDir(s: State, p: Path) {
    p in s.files && (p != [] ==> p[..|p| - 1] in s.files && s.files[p[..|p| - 1]].Dir?)
  }

  const EMPTY := State(map[], [], map[], map[])

  /** A stage request on `p`, and the requests that unstage it and that stage it as a raw device. */
  predicate StageOn(rpc: Rpc, p: Path) { Formatting(rpc) && PathOf(rpc) == Some(p) }

  function Undo(rpc: Rpc): Rpc
    requires rpc.Stage?
  { Unstage(rpc.volume, rpc.staging) }

  function Raw(rpc: Rpc): Rpc
    requires rpc.Stage?
  { Stage(rpc.volume, rpc.staging, Block) }

  /** The second stage comes to the point before its mkfs. */
  function Arm(b: Rpc, q: Path, device: string): seq<StepEvent> {
    [Begin(b, Clean(device, MkfsPartial("")))] + Proceeds(q, 3)
  }

  lemma ArmReaches(b: Rpc, q: Path, device: string)
    requires StageOn(b, q)
    ensures var z := SysRun(System(EMPTY, map[]), Arm(b, q, device));
            && z == System(EMPTY.(files := z.st.files), map[q := Work(b, Clean(device, MkfsPartial("")), Blank)])
            && z.st.files.Keys == Prefixes(q) && AllDirs(z.st)
  {
    var f := Clean(device, MkfsPartial(""));
    var y, y0 := System(EMPTY, map[]), System(EMPTY, map[q := Work(b, f, Begun)]);
    var c := CreateDir(EMPTY, q, f).st;
    assert c.files.Keys == Prefixes(q) && c.mounts == [] && Format(c, device) == "";
    SysCons(y, Begin(b, f), Proceeds(q, 3));
    assert SysStep(y, Begin(b, f)) == y0;
    ArmTurns(b, q, device, y0, c);
  }

  lemma ArmTurns(b: Rpc, q: Path, device: string, y: System, c: State)
    requires StageOn(b, q) && y == System(EMPTY, map[q := Work(b, Clean(device, MkfsPartial("")), Begun)])
    requires c == CreateDir(EMPTY, q, Clean(device, MkfsPartial(""))).st && c.mounts == [] && Format(c, device) == ""
    ensures SysRun(y, Proceeds(q, 3)) == System(c, map[q := Work(b, Clean(device, MkfsPartial("")), Blank)])
  {
    var f := Clean(device, MkfsPartial(""));
    var y1, y2 := System(c, map[q := Work(b, f, Created)]), System(c, map[q := Work(b, f, Unmounted)]);
    assert SysStep(y, Proceed(q)) == y1;
    assert SysStep(y1, Proceed(q)) == y2;
    assert SysStep(y2, Proceed(q)) == System(c, map[q := Work(b, f, Blank)]);
    SysCons(y, Proceed(q), Proceeds(q, 2));
    SysCons(y1, Proceed(q), Proceeds(q, 1));
    SysCons(y2, Proceed(q), Proceeds(q, 0));
  }

  lemma ArmPlausible(b: Rpc, q: Path, device: string, refuses: iset<string>)
    requires StageOn(b, q)
    ensures AllPlausible(System(EMPTY, map[]), Arm(b, q, device), refuses)
  {
    var f, y := Clean(device, MkfsPartial("")), System(EMPTY, map[]);
    PlausibleOne(y, Begin(b, f), refuses);
    SysCons(y, Begin(b, f), []);
    assert [Begin(b, f)] + [] == [Begin(b, f)];
    ProceedsPlausible(SysStep(y, Begin(b, f)), q, 3, refuses);
    PlausibleConcat(y, [Begin(b, f)], Proceeds(q, 3), refuses);
  }

  /** A clean stage of a blank device formats it and mounts it. */
  lemma StageExec(s: State, a: Rpc, p: Path, device: string)
    requires StageOn(a, p) && s.mounts == [] && Format(s, device) == "" && AllDirs(s) && p !in s.files
    ensures var o := Exec(s, a, Clean(device, MkfsOk));
            && o.status == Ok && o.st.mounts == [StageEntry(a, device, p)] && Format(o.st, device) == FsType(a.cap)
            && HasDir(o.st, p)
  {
    var f := Clean(device, MkfsOk);
    assert p == p[..|p|] && p in Prefixes(p) && (p != [] ==> p[..|p| - 1] in Prefixes(p));
    assert CreateDir(s, p, f) == Out(s.(files := AddDirs(s.files, Prefixes(p))), Ok);
  }

  /** A clean unstage of the one mount removes it and the path, and changes no device. */
  lemma UndoExec(s: State, a: Rpc, p: Path, device: string, e: Entry)
    requires StageOn(a, p) && s.mounts == [e] && e.path == p && p in s.files
    ensures var o := Exec(s, Undo(a), Clean(device, MkfsOk));
            && o.status == Ok && o.st == s.(mounts := [], files := o.st.files)
            && (forall x :: x in o.st.files <==> x in s.files && !(p <= x))
            && (forall x :: x in o.st.files ==> o.st.files[x] == s.files[x])
  {
    assert s.mounts[..0] == [];
    assert FirstAt(s.mounts, p) == Some(e) && Detach(s.mounts, p) == [];
    assert RemoveAll(s.(mounts := []), p, {}).st.contents == s.contents;
  }

  /** A clean stage as a raw device, where the path is free. */
  lemma RawExec(s: State, a: Rpc, p: Path, device: string)
    requires StageOn(a, p) && s.mounts == [] && p !in s.files && p != []
    requires p[..|p| - 1] in s.files && s.files[p[..|p| - 1]].Dir?
    ensures var o := Exec(s, Raw(a), Clean(device, MkfsOk));
            && o.status == Ok && o.st.mounts == [BlockEntry(device, p, ["bind"])]
            && o.st == s.(mounts := o.st.mounts, files := o.st.files) && p in o.st.files
  {
  }

  /** The first stage runs, and a workload gets to write: through its mount, or where that is
      read-only through the device staged raw in its place. */
  function Open(a: Rpc, device: string): seq<StepEvent>
    requires a.Stage?
  {
    var f := Clean(device, MkfsOk);
    if "ro" !in Flags(a.cap) then Steps(Call(a, f))
    else Steps(Call(a, f)) + (Steps(Call(Undo(a), f)) + Steps(Call(Raw(a), f)))
  }

  /** The workload can write to the formatted device, and the other stage is where it was. */
  ghost predicate Opened(y: System, z: System, a: Rpc, p: Path, device: string) {
    && a.Stage? && |z.st.mounts| == 1 && p in z.st.files
    && (var e := z.st.mounts[0]; e.path == p && e.backing == device && "ro" !in e.opts)
    && Format(z.st, device) == FsType(a.cap)
    && (forall q :: q in y.works && q != p ==> q in z.works && z.works[q] == y.works[q])
    && p in z.works && z.works[p].pc.Ended?
  }

  /** Plausible runs one after the other. */
  lemma Join(y: System, a: seq<StepEvent>, b: seq<StepEvent>, refuses: iset<string>)
    requires AllAt(y) && AllPlausible(y, a, refuses) && AllPlausible(SysRun(y, a), b, refuses)
    ensures AllPlausible(y, a + b, refuses) && SysRun(y, a + b) == SysRun(SysRun(y, a), b)
  {
    SysConcat(y, a, b);
    PlausibleConcat(y, a, b, refuses);
  }

  lemma StageAmid(y: System, a: Rpc, p: Path, device: string, refuses: iset<string>)
    requires AllAt(y) && StageOn(a, p) && p !in y.works
    requires y.st.mounts == [] && Format(y.st, device) == "" && AllDirs(y.st) && p !in y.st.files
    ensures var es := Steps(Call(a, Clean(device, MkfsOk)));
            var z := SysRun(y, es);
            && AllPlausible(y, es, refuses)
            && z.st.mounts == [StageEntry(a, device, p)] && Format(z.st, device) == FsType(a.cap)
            && HasDir(z.st, p)
            && z.works == y.works[p := Work(a, Clean(device, MkfsOk), Ended(Ok))]
  {
    var f := Clean(device, MkfsOk);
    CallAmid(y, a, f);
    CallPlausible(y, a, f, refuses);
    StageExec(y.st, a, p, device);
  }

  lemma UndoAmid(y: System, a: Rpc, p: Path, device: string, e: Entry, refuses: iset<string>)
    requires AllAt(y) && StageOn(a, p) && p in y.works && y.works[p].pc.Ended?
    requires y.st.mounts == [e] && e.path == p && p in y.st.files
    ensures var es := Steps(Call(Undo(a), Clean(device, MkfsOk)));
            var z := SysRun(y, es);
            && AllPlausible(y, es, refuses)
            && z == System(y.st.(mounts := [], files := z.st.files),
                           y.works[p := Work(Undo(a), Clean(device, MkfsOk), Ended(Ok))])
            && (forall x :: x in z.st.files <==> x in y.st.files && !(p <= x))
            && (forall x :: x in z.st.files ==> z.st.files[x] == y.st.files[x])
  {
    var f := Clean(device, MkfsOk);
    CallAmid(y, Undo(a), f);
    CallPlausible(y, Undo(a), f, refuses);
    UndoExec(y.st, a, p, device, e);
  }

  lemma RawAmid(y: System, a: Rpc, p: Path, device: string, refuses: iset<string>)
    requires AllAt(y) && StageOn(a, p) && p in y.works && y.works[p].pc.Ended?
    requires y.st.mounts == [] && p !in y.st.files && p != []
    requires p[..|p| - 1] in y.st.files && y.st.files[p[..|p| - 1]].Dir?
    ensures var es := Steps(Call(Raw(a), Clean(device, MkfsOk)));
            var z := SysRun(y, es);
            && AllPlausible(y, es, refuses) && z.st.mounts == [BlockEntry(device, p, ["bind"])]
            && p in z.st.files && z.st.format == y.st.format
            && z.works == y.works[p := Work(Raw(a), Clean(device, MkfsOk), Ended(Ok))]
  {
    var f := Clean(device, MkfsOk);
    CallAmid(y, Raw(a), f);
    CallPlausible(y, Raw(a), f, refuses);
    RawExec(y.st, a, p, device);
  }

  /** The stage's mount makes room for the raw device. */
  lemma OpenRaw(y: System, a: Rpc, p: Path, device: string, refuses: iset<string>)
    requires AllAt(y) && StageOn(a, p) && p in y.works && y.works[p].pc.Ended? && p != []
    requires y.st.mounts == [StageEntry(a, device, p)] && HasDir(y.st, p) && Format(y.st, device) == FsType(a.cap)
    ensures var es := Steps(Call(Undo(a), Clean(device, MkfsOk))) + Steps(Call(Raw(a), Clean(device, MkfsOk)));
            AllPlausible(y, es, refuses) && Opened(y, SysRun(y, es), a, p, device)
  {
    var first, second := Steps(Call(Undo(a), Clean(device, MkfsOk))), Steps(Call(Raw(a), Clean(device, MkfsOk)));
    UndoAmid(y, a, p, device, StageEntry(a, device, p), refuses);
    RawAmid(SysRun(y, first), a, p, device, refuses);
    Join(y, first, second, refuses);
  }

  lemma OpenDirect(y: System, a: Rpc, p: Path, device: string, refuses: iset<string>)
    requires AllAt(y) && StageOn(a, p) && p !in y.works && "ro" !in Flags(a.cap)
    requires y.st.mounts == [] && Format(y.st, device) == "" && AllDirs(y.st) && p !in y.st.files
    ensures var es := Steps(Call(a, Clean(device, MkfsOk)));
            AllPlausible(y, es, refuses) && Opened(y, SysRun(y, es), a, p, device)
  {
    StageAmid(y, a, p, device, refuses);
  }

  lemma OpenBoth(y: System, a: Rpc, p: Path, device: string, refuses: iset<string>)
    requires AllAt(y) && StageOn(a, p) && p !in y.works && p != []
    requires y.st.mounts == [] && Format(y.st, device) == "" && AllDirs(y.st) && p !in y.st.files
    ensures var f := Clean(device, MkfsOk);
            var es := Steps(Call(a, f)) + (Steps(Call(Undo(a), f)) + Steps(Call(Raw(a), f)));
            AllPlausible(y, es, refuses) && Opened(y, SysRun(y, es), a, p, device)
  {
    var f := Clean(device, MkfsOk);
    var first, rest := Steps(Call(a, f)), Steps(Call(Undo(a), f)) + Steps(Call(Raw(a), f));
    StageAmid(y, a, p, device, refuses);
    OpenRaw(SysRun(y, first), a, p, device, refuses);
    Join(y, first, rest, refuses);
  }

  lemma OpenReaches(y: System, a: Rpc, p: Path, device: string, refuses: iset<string>)
    requires AllAt(y) && StageOn(a, p) && p !in y.works && p != []
    requires y.st.mounts == [] && Format(y.st, device) == "" && AllDirs(y.st) && p !in y.st.files
    ensures AllPlausible(y, Open(a, device), refuses) && Opened(y, SysRun(y, Open(a, device)), a, p, device)
  {
    if "ro" in Flags(a.cap) {
      OpenBoth(y, a, p, device, refuses);
    } else {
      OpenDirect(y, a, p, device, refuses);
    }
  }

  /** A write, the unmount, and then the mkfs of the other stage. */
  function Lose(a: Rpc, q: Path, device: string): seq<StepEvent>
    requires a.Stage?
  {
    [UserWrite(device, "x")] + (Steps(Call(Undo(a), Clean(device, MkfsOk))) + [Proceed(q)])
  }

  lemma LoseReaches(y0: System, y: System, a: Rpc, p: Path, q: Path, device: string, refuses: iset<string>)
    requires AllAt(y) && StageOn(a, p) && Opened(y0, y, a, p, device) && p != q
    requires q in y.works && Armed(y.works[q], device) && y.works[q].faults.mkfs == MkfsPartial("")
    requires MkfsType(y.works[q].rpc) !in refuses
    ensures AllPlausible(y, Lose(a, q, device), refuses)
    ensures var z := SysRun(y, Lose(a, q, device)).st; Format(z, device) == "" && Data(z, device) == Some("")
  {
    var write, undo := UserWrite(device, "x"), Steps(Call(Undo(a), Clean(device, MkfsOk)));
    var y1 := SysStep(y, write);
    PlausibleOne(y, write, refuses);
    assert y.st.mounts[0] in y.st.mounts;
    SysCons(y, write, []);
    assert [write] + [] == [write];
    assert y1.st.mounts == [y1.st.mounts[0]];
    UndoAmid(y1, a, p, device, y1.st.mounts[0], refuses);
    LateMkfs(SysRun(y1, undo), q, device, refuses);
    Join(y1, undo, [Proceed(q)], refuses);
    Join(y, [write], undo + [Proceed(q)], refuses);
  }

  lemma LoseWrites(a: Rpc, q: Path, device: string, start: Option<string>)
    requires a.Stage?
    ensures UserWrites(Lose(a, q, device), device, start) == Some("x")
  {
    var rest := Steps(Call(Undo(a), Clean(device, MkfsOk))) + [Proceed(q)];
    UserWritesConcat([UserWrite(device, "x")], rest, device, start);
    assert [UserWrite(device, "x")][..0] == [];
    NoUserWrites(rest, device, Some("x"));
  }

  lemma StepsObey(rpc: Rpc, f: Faults, stages: iset<(Rpc, string)>, inUse: iset<Path>)
    requires Obeys(Begin(rpc, f), stages, inUse)
    ensures AllObey(Steps(Call(rpc, f)), stages, inUse)
  {
  }

  lemma ObeyConcat(a: seq<StepEvent>, b: seq<StepEvent>, stages: iset<(Rpc, string)>, inUse: iset<Path>)
    requires AllObey(a, stages, inUse) && AllObey(b, stages, inUse)
    ensures AllObey(a + b, stages, inUse)
  {
  }

  lemma RaceObeys(a: Rpc, b: Rpc, p: Path, q: Path, device: string, stages: iset<(Rpc, string)>, inUse: iset<Path>)
    requires StageOn(a, p) && StageOn(b, q) && p in inUse && q in inUse
    requires (a, device) in stages && (b, device) in stages
    ensures AllObey(Arm(b, q, device) + Open(a, device), stages, inUse)
    ensures AllObey(Lose(a, q, device), stages, inUse)
  {
    var f := Clean(device, MkfsOk);
    var stage, undo, raw := Steps(Call(a, f)), Steps(Call(Undo(a), f)), Steps(Call(Raw(a), f));
    StepsObey(a, f, stages, inUse);
    StepsObey(Undo(a), f, stages, inUse);
    StepsObey(Raw(a), f, stages, inUse);
    ObeyConcat([Begin(b, Clean(device, MkfsPartial("")))], Proceeds(q, 3), stages, inUse);
    ObeyConcat(undo, raw, stages, inUse);
    ObeyConcat(stage, undo + raw, stages, inUse);
    ObeyConcat(Arm(b, q, device), Open(a, device), stages, inUse);
    ObeyConcat(undo, [Proceed(q)], stages, inUse);
    ObeyConcat([UserWrite(device, "x")], undo + [Proceed(q)], stages, inUse);
  }

  lemma RaceBegins(a: Rpc, b: Rpc, p: Path, q: Path, device: string, refuses: iset<string>)
    requires StageOn(a, p) && StageOn(b, q) && !(p <= q)
    ensures var y, arm := System(EMPTY, map[]), Arm(b, q, device);
            var z := SysRun(y, arm + Open(a, device));
            && AllPlausible(y, arm + Open(a, device), refuses) && Opened(SysRun(y, arm), z, a, p, device)
            && q in z.works && z.works[q] == Work(b, Clean(device, MkfsPartial("")), Blank)
  {
    ArmReaches(b, q, device);
    ArmPlausible(b, q, device, refuses);
    assert p !in Prefixes(q) && p != [];
    OpenReaches(SysRun(System(EMPTY, map[]), Arm(b, q, device)), a, p, device, refuses);
    Join(System(EMPTY, map[]), Arm(b, q, device), Open(a, device), refuses);
  }

  lemma RaceLoses(a: Rpc, b: Rpc, p: Path, q: Path, device: string, refuses: iset<string>)
    requires StageOn(a, p) && StageOn(b, q) && !(p <= q) && MkfsType(b) !in refuses
    ensures var y, before, after := System(EMPTY, map[]), Arm(b, q, device) + Open(a, device), Lose(a, q, device);
            var z := SysRun(y, before);
            && AllPlausible(y, before + after, refuses) && Format(z.st, device) == FsType(a.cap)
            && Format(SysRun(z, after).st, device) == "" && Data(SysRun(z, after).st, device) == Some("")
  {
    var y, before := System(EMPTY, map[]), Arm(b, q, device) + Open(a, device);
    RaceBegins(a, b, p, q, device, refuses);
    LoseReaches(SysRun(y, Arm(b, q, device)), SysRun(y, before), a, p, q, device, refuses);
    Join(y, before, Lose(a, q, device), refuses);
  }

  /** For any two stage requests on different paths that can format and find one device, the second
      of a type that writes over a format: a plausible run in which the device's format is gone
      after it was set, and what the workload wrote through a mount is lost. */
  lemma FormatRace(
    a: Rpc, b: Rpc, device: string, stages: iset<(Rpc, string)>, inUse: iset<Path>, refuses: iset<string>)
    returns (before: seq<StepEvent>, after: seq<StepEvent>)
    requires Formatting(a) && Formatting(b) && PathOf(a) != PathOf(b) && MkfsType(b) !in refuses
    requires PrefixFree(inUse) && PathOf(a).value in inUse && PathOf(b).value in inUse
    requires (a, device) in stages && (b, device) in stages
    ensures AllObey(before, stages, inUse) && AllObey(after, stages, inUse)
    ensures AllPlausible(System(EMPTY, map[]), before + after, refuses)
    ensures !FormatKeptAfter(EMPTY, before, after, device) && !DataKeptAfter(EMPTY, before, after, device)
  {
    var p, q := PathOf(a).value, PathOf(b).value;
    before, after := Arm(b, q, device) + Open(a, device), Lose(a, q, device);
    RaceObeys(a, b, p, q, device, stages, inUse);
    RaceLoses(a, b, p, q, device, refuses);
    LoseWrites(a, q, device, Data(SysRun(System(EMPTY, map[]), before).st, device));
  }

  // ---- Over all runs ----

  /** Formats are write-once in every plausible run of these stages with any other RPCs and faults. */
  ghost predicate AlwaysWriteOnce(stages: iset<(Rpc, string)>, inUse: iset<Path>, refuses: iset<string>) {
    forall s, before, after, device
      | Inv(s, inUse) && AllObey(before, stages, inUse) && AllObey(after, stages, inUse)
        && AllPlausible(System(s, map[]), before + after, refuses) ::
      FormatKeptAfter(s, before, after, device)
  }

  /** Data of formatted devices belongs to the workloads in every such run. */
  ghost predicate AlwaysDataSafe(stages: iset<(Rpc, string)>, inUse: iset<Path>, refuses: iset<string>) {
    forall s, before, after, device
      | Inv(s, inUse) && AllObey(before, stages, inUse) && AllObey(after, stages, inUse)
        && AllPlausible(System(s, map[]), before + after, refuses) ::
      DataKeptAfter(s, before, after, device)
  }

  /** Formats are write-once, and the data of formatted devices is safe, over all plausible runs,
      exactly when of two filesystem stages on different paths that can format and find one device,
      neither has a type whose mkfs writes over a format. */
  lemma WriteOnceExactlyWhenApart(stages: iset<(Rpc, string)>, inUse: iset<Path>, refuses: iset<string>)
    requires PrefixFree(inUse)
    requires forall a :: a in stages && Formatting(a.0) ==> PathOf(a.0).value in inUse
    ensures AlwaysWriteOnce(stages, inUse, refuses) <==> Apart(stages, refuses)
    ensures AlwaysDataSafe(stages, inUse, refuses) <==> Apart(stages, refuses)
  {
    if Apart(stages, refuses) {
      forall s, before, after, device
        | Inv(s, inUse) && AllObey(before, stages, inUse) && AllObey(after, stages, inUse)
          && AllPlausible(System(s, map[]), before + after, refuses)
        ensures FormatKeptAfter(s, before, after, device) && DataKeptAfter(s, before, after, device)
      {
        PlausibleConcat(System(s, map[]), before, after, refuses);
        PlausibleRespects(SysRun(System(s, map[]), before), after, refuses);
        ApartIsSafe(s, before, after, stages, inUse, device, refuses);
      }
    } else {
      var a, b :| && a in stages && b in stages && Formatting(a.0) && Formatting(b.0)
                  && a.1 == b.1 && MkfsType(b.0) !in refuses && PathOf(a.0) != PathOf(b.0);
      assert a == (a.0, a.1) && b == (b.0, a.1);
      var before, after := FormatRace(a.0, b.0, a.1, stages, inUse, refuses);
      assert Inv(EMPTY, inUse);
    }
  }
}
