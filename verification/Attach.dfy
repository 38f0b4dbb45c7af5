/**
 Concurrent ControllerPublishVolume and ControllerUnpublishVolume calls
 (pkg/driver/controller.go). Each call takes the lock its node name hashes to, queries the
 backend, sends one change, waits for its task and releases the lock; the steps of any
 number of calls interleave. A change that was sent takes effect before its wait returns,
 or never.
 */
module Attach {
  import opened Text
  import T = Tower

  type Disk = T.Disk

  datatype Op = Publish(volume: string, node: string) | Unpublish(volume: string, node: string)

  datatype Pc =
    | Blocked                     // in LockKey
    | Locked                      // about to query
    | Cleared                     // publish that saw no disk of its volume
    | Chosen(disk: string)        // unpublish that saw a disk of its volume on its node
    | Adding(pending: bool)       // AddVMDisk sent, task awaited
    | Removing(disk: string, pending: bool)
    | Leaving                     // about to unlock
    | Finished

  datatype Thread = Thread(op: Op, pc: Pc)

  datatype State = State(disks: map<string, Disk>, locks: map<nat, nat>, threads: map<nat, Thread>)

  datatype Event =
    | Spawn(t: nat, op: Op)
    | Acquire(t: nat)
    | Look(t: nat, found: Option<string>)  // the query; `found` is the disk an unpublish is shown first
    | Send(t: nat)
    | Effect(t: nat, newDisk: string)
    | Return(t: nat)                       // an error, or the end of the wait
    | Release(t: nat)

  function Goto(s: State, t: nat, pc: Pc): State
    requires t in s.threads
  {
    s.(threads := s.threads[t := s.threads[t].(pc := pc)])
  }

  predicate HasDisk(s: State, volume: string) { exists d :: d in s.disks && s.disks[d].volume == volume }

  function StepThread(hash: string -> nat, s: State, e: Event): State
    requires e.t in s.threads
  {
    var t, th := e.t, s.threads[e.t];
    var key := hash(th.op.node);
    match e
    case Spawn(_, _) => s
    case Acquire(_) =>
      if th.pc.Blocked? && key !in s.locks then Goto(s.(locks := s.locks[key := t]), t, Locked) else s
    case Look(_, found) =>
      if !th.pc.Locked? then s
      else if th.op.Publish? then Goto(s, t, if HasDisk(s, th.op.volume) then Leaving else Cleared)
      else if found.Some? && found.value in s.disks && s.disks[found.value] == T.Disk(th.op.volume, th.op.node) then
        Goto(s, t, Chosen(found.value))
      else Goto(s, t, Leaving)
    case Send(_) =>
      if th.pc.Cleared? then Goto(s, t, Adding(true))
      else if th.pc.Chosen? then Goto(s, t, Removing(th.pc.disk, true)) else s
    case Effect(_, d) =>
      if th.pc == Adding(true) && d !in s.disks then
        Goto(s.(disks := s.disks[d := T.Disk(th.op.volume, th.op.node)]), t, Adding(false))
      else if th.pc.Removing? && th.pc.pending then
        Goto(s.(disks := s.disks - {th.pc.disk}), t, Removing(th.pc.disk, false))
      else s
    case Return(_) =>
      if Critical(th.pc) && !th.pc.Leaving? then Goto(s, t, Leaving) else s
    case Release(_) =>
      if th.pc.Leaving? then Goto(s.(locks := s.locks - {key}), t, Finished) else s
  }

  function Step(hash: string -> nat, s: State, e: Event): State {
    if e.t in s.threads then StepThread(hash, s, e)
    else if e.Spawn? then s.(threads := s.threads[e.t := Thread(e.op, Blocked)])
    else s
  }

  function Run(hash: string -> nat, s: State, es: seq<Event>): State {
    if es == [] then s else Step(hash, Run(hash, s, es[..|es| - 1]), es[|es| - 1])
  }

  /** No call under way and no lock held. */
  predicate Idle(s: State) { s.locks == map[] && s.threads == map[] }

  // ---- Invariant ----

  predicate Critical(pc: Pc) { !pc.Blocked? && !pc.Finished? }

  /** A call between its query and its effect. */
  predicate Armed(th: Thread) { th.op.Publish? && (th.pc.Cleared? || th.pc == Adding(true)) }

  /** Among `nodes`, the ones related by `same` share a lock. */
  ghost predicate Coarser(hash: string -> nat, same: (string, string) -> bool, nodes: iset<string>) {
    && (forall a, b :: a in nodes && b in nodes && same(a, b) ==> hash(a) == hash(b))
    && (forall a, b :: same(a, b) ==> same(b, a))
  }

  /** A volume has at most one disk among related nodes. */
  ghost predicate OnePer(same: (string, string) -> bool, disks: map<string, Disk>) {
    forall d, d' | d in disks && d' in disks && disks[d].volume == disks[d'].volume ::
      same(disks[d].vm, disks[d'].vm) ==> d == d'
  }

  ghost predicate HoldsLock(hash: string -> nat, s: State, t: nat) {
    t in s.threads && var key := hash(s.threads[t].op.node); key in s.locks && s.locks[key] == t
  }

  ghost predicate NoDisk(same: (string, string) -> bool, disks: map<string, Disk>, volume: string, node: string) {
    forall d :: d in disks && disks[d].volume == volume ==> !same(disks[d].vm, node)
  }

  ghost predicate ThreadInv(hash: string -> nat, same: (string, string) -> bool, s: State, t: nat) {
    t in s.threads ==>
      var th := s.threads[t];
      && (Critical(th.pc) ==> HoldsLock(hash, s, t))
      && (Armed(th) ==> NoDisk(same, s.disks, th.op.volume, th.op.node))
      && (th.pc.Adding? || th.pc.Cleared? ==> th.op.Publish?)
  }

  ghost predicate UsesNodes(es: seq<Event>, nodes: iset<string>) {
    forall i :: 0 <= i < |es| && es[i].Spawn? ==> es[i].op.node in nodes
  }

  ghost predicate OnNodes(s: State, nodes: iset<string>) {
    forall t :: t in s.threads ==> s.threads[t].op.node in nodes
  }

  ghost predicate Inv(hash: string -> nat, same: (string, string) -> bool, nodes: iset<string>, s: State) {
    OnePer(same, s.disks) && OnNodes(s, nodes) && forall t :: t in s.threads ==> ThreadInv(hash, same, s, t)
  }

  /** Two calls inside the section of one lock are the same call. */
  lemma MutualExclusion(
    hash: string -> nat, same: (string, string) -> bool, nodes: iset<string>, s: State, t: nat, t': nat)
    requires Inv(hash, same, nodes, s) && t in s.threads && t' in s.threads
    requires Critical(s.threads[t].pc) && Critical(s.threads[t'].pc)
    requires hash(s.threads[t].op.node) == hash(s.threads[t'].op.node)
    ensures t == t'
  {
  }

  /** The step that adds a disk: no other call between query and effect can be upset by it. */
  lemma AddKeepsInv(hash: string -> nat, same: (string, string) -> bool, nodes: iset<string>, s: State, e: Event)
    requires Coarser(hash, same, nodes) && Inv(hash, same, nodes, s)
    requires e.Effect? && e.t in s.threads && s.threads[e.t].pc == Adding(true) && e.newDisk !in s.disks
    ensures Inv(hash, same, nodes, Step(hash, s, e))
  {
    var th, s' := s.threads[e.t], Step(hash, s, e);
    assert ThreadInv(hash, same, s, e.t);
    assert OnePer(same, s'.disks);
    forall x | x in s'.threads ensures ThreadInv(hash, same, s', x) {
      assert ThreadInv(hash, same, s, x);
      if x != e.t && Armed(s.threads[x]) && hash(s.threads[x].op.node) == hash(th.op.node) {
        MutualExclusion(hash, same, nodes, s, x, e.t);
      }
    }
  }

  lemma StepOnNodes(hash: string -> nat, s: State, e: Event, nodes: iset<string>)
    requires OnNodes(s, nodes) && (e.Spawn? ==> e.op.node in nodes)
    ensures OnNodes(Step(hash, s, e), nodes)
  {
  }

  lemma StepKeepsInv(hash: string -> nat, same: (string, string) -> bool, nodes: iset<string>, s: State, e: Event)
    requires Coarser(hash, same, nodes) && Inv(hash, same, nodes, s) && (e.Spawn? ==> e.op.node in nodes)
    ensures Inv(hash, same, nodes, Step(hash, s, e))
  {
    var s' := Step(hash, s, e);
    if e.Effect? && e.t in s.threads && s.threads[e.t].pc == Adding(true) && e.newDisk !in s.disks {
      AddKeepsInv(hash, same, nodes, s, e);
    } else {
      NoNewDisk(hash, s, e);
      StepOnNodes(hash, s, e, nodes);
      forall x | x in s'.threads ensures ThreadInv(hash, same, s', x) {
        if x in s.threads {
          OtherKeeps(hash, same, nodes, s, e, x);
        }
      }
    }
  }

  lemma NoNewDisk(hash: string -> nat, s: State, e: Event)
    requires !(e.Effect? && e.t in s.threads && s.threads[e.t].pc == Adding(true) && e.newDisk !in s.disks)
    ensures var s' := Step(hash, s, e); forall d :: d in s'.disks ==> d in s.disks && s'.disks[d] == s.disks[d]
  {
  }

  lemma OtherKeeps(hash: string -> nat, same: (string, string) -> bool, nodes: iset<string>, s: State, e: Event, x: nat)
    requires Inv(hash, same, nodes, s) && x in s.threads
    requires !(e.Effect? && e.t in s.threads && s.threads[e.t].pc == Adding(true))
             || Step(hash, s, e) == s
    ensures ThreadInv(hash, same, Step(hash, s, e), x)
  {
    assert ThreadInv(hash, same, s, x);
    if e.t in s.threads {
      assert ThreadInv(hash, same, s, e.t);
      if e.Release? && x != e.t && Critical(s.threads[x].pc) && Critical(s.threads[e.t].pc)
         && hash(s.threads[x].op.node) == hash(s.threads[e.t].op.node) {
        MutualExclusion(hash, same, nodes, s, x, e.t);
      }
    }
  }

  lemma {:induction false} RunKeepsInv(
    hash: string -> nat, same: (string, string) -> bool, nodes: iset<string>, s: State, es: seq<Event>)
    requires Coarser(hash, same, nodes) && Inv(hash, same, nodes, s) && UsesNodes(es, nodes)
    ensures Inv(hash, same, nodes, Run(hash, s, es))
  {
    if es != [] {
      RunKeepsInv(hash, same, nodes, s, es[..|es| - 1]);
      StepKeepsInv(hash, same, nodes, Run(hash, s, es[..|es| - 1]), es[|es| - 1]);
    }
  }

  // ---- A call that nothing interrupts ----

  /** The events of one call alone, when the backend behaves as in `f`. */
  function Script(s: State, backend: T.State, t: nat, op: Op, f: T.Faults): seq<Event> {
    var begin, end := [Spawn(t, op), Acquire(t)], [Return(t), Release(t)];
    match op
    case Publish(volume, node) =>
      if !T.Lookup(T.WithId(backend, volume), f.volumes).First? then begin + end
      else if f.vm && !T.Creating(f.attach, f.newDisk !in s.disks).NotApplied? then
        begin + [Look(t, None), Send(t), Effect(t, f.newDisk)] + end
      else begin + [Look(t, None)] + end
    case Unpublish(volume, node) =>
      match T.Lookup(T.DisksOn(backend, volume, node), f.disks)
      case Broken => begin + end
      case Nothing => begin + [Look(t, None)] + end
      case First(d) =>
        if d != "" && !f.detach.NotApplied? then begin + [Look(t, Some(d)), Send(t), Effect(t, "")] + end
        else begin + [Look(t, Some(d))] + end
  }

  function Before(hash: string -> nat, s: State, t: nat, op: Op, disks: map<string, Disk>, pc: Pc): State {
    State(disks, s.locks[hash(op.node) := t], s.threads[t := Thread(op, pc)])
  }

  lemma {:induction false} RunConcat(hash: string -> nat, s: State, a: seq<Event>, b: seq<Event>)
    ensures Run(hash, s, a + b) == Run(hash, Run(hash, s, a), b)
  {
    if b == [] {
      assert a + b == a;
    } else {
      assert (a + b)[..|a + b| - 1] == a + b[..|b| - 1];
      RunConcat(hash, s, a, b[..|b| - 1]);
    }
  }

  lemma Two(hash: string -> nat, s: State, a: Event, b: Event)
    ensures Run(hash, s, [a, b]) == Step(hash, Step(hash, s, a), b)
  {
    assert [a, b][..1] == [a] && [a][..0] == [];
    assert Run(hash, s, [a]) == Step(hash, Run(hash, s, []), a);
  }

  /** The call takes its lock at the beginning. */
  lemma Opens(hash: string -> nat, s: State, t: nat, op: Op)
    requires t !in s.threads && hash(op.node) !in s.locks
    ensures Run(hash, s, [Spawn(t, op), Acquire(t)]) == Before(hash, s, t, op, s.disks, Locked)
  {
    Two(hash, s, Spawn(t, op), Acquire(t));
  }

  /** It gives the lock back at the end. */
  lemma Closes(hash: string -> nat, s: State, t: nat, op: Op, disks: map<string, Disk>, pc: Pc)
    requires t !in s.threads && hash(op.node) !in s.locks && Critical(pc)
    ensures Run(hash, Before(hash, s, t, op, disks, pc), [Return(t), Release(t)]) ==
            State(disks, s.locks, s.threads[t := Thread(op, Finished)])
  {
    var y, z := Before(hash, s, t, op, disks, pc), Before(hash, s, t, op, disks, Leaving);
    Two(hash, y, Return(t), Release(t));
    assert Step(hash, y, Return(t)) == z by {
      assert s.threads[t := Thread(op, pc)][t := Thread(op, Leaving)] == s.threads[t := Thread(op, Leaving)];
    }
    assert s.locks[hash(op.node) := t] - {hash(op.node)} == s.locks;
    assert s.threads[t := Thread(op, Leaving)][t := Thread(op, Finished)] == s.threads[t := Thread(op, Finished)];
  }

  /** The middle of a call: its query, and the change it sends. */
  lemma Middle(hash: string -> nat, s: State, t: nat, op: Op, found: Option<string>, d: string)
    requires t !in s.threads
    ensures var y := Before(hash, s, t, op, s.disks, Locked);
            var looked := Step(hash, y, Look(t, found));
            && Run(hash, y, [Look(t, found)]) == looked
            && Run(hash, y, [Look(t, found), Send(t), Effect(t, d)]) ==
               Step(hash, Step(hash, looked, Send(t)), Effect(t, d))
  {
    var y := Before(hash, s, t, op, s.disks, Locked);
    var es := [Look(t, found), Send(t), Effect(t, d)];
    assert es[..2] == [Look(t, found), Send(t)] && [Look(t, found)][..0] == [];
    Two(hash, y, Look(t, found), Send(t));
    assert Run(hash, y, [Look(t, found)]) == Step(hash, Run(hash, y, []), Look(t, found));
  }

  lemma PublishMiddle(hash: string -> nat, s: State, t: nat, op: Op, d: string)
    requires t !in s.threads && op.Publish?
    ensures var y := Before(hash, s, t, op, s.disks, Locked);
            var looked := Step(hash, y, Look(t, None));
            if HasDisk(s, op.volume) then
              && looked == Before(hash, s, t, op, s.disks, Leaving)
              && Step(hash, Step(hash, looked, Send(t)), Effect(t, d)) == looked
            else
              && looked == Before(hash, s, t, op, s.disks, Cleared)
              && (d !in s.disks ==>
                    Step(hash, Step(hash, looked, Send(t)), Effect(t, d)) ==
                    Before(hash, s, t, op, s.disks[d := T.Disk(op.volume, op.node)], Adding(false)))
  {
  }

  lemma UnpublishMiddle(hash: string -> nat, s: State, t: nat, op: Op, d: string)
    requires t !in s.threads && op.Unpublish?
    ensures var y := Before(hash, s, t, op, s.disks, Locked);
            && Step(hash, y, Look(t, None)) == Before(hash, s, t, op, s.disks, Leaving)
            && (d in s.disks && s.disks[d] == T.Disk(op.volume, op.node) ==>
                  var looked := Step(hash, y, Look(t, Some(d)));
                  && looked == Before(hash, s, t, op, s.disks, Chosen(d))
                  && Step(hash, Step(hash, looked, Send(t)), Effect(t, "")) ==
                     Before(hash, s, t, op, s.disks - {d}, Removing(d, false)))
  {
  }

  /** A call in three parts. */
  lemma Parts(hash: string -> nat, s: State, t: nat, op: Op, mid: seq<Event>, disks: map<string, Disk>, pc: Pc)
    requires t !in s.threads && hash(op.node) !in s.locks && Critical(pc)
    requires Run(hash, Before(hash, s, t, op, s.disks, Locked), mid) == Before(hash, s, t, op, disks, pc)
    ensures Run(hash, s, [Spawn(t, op), Acquire(t)] + mid + [Return(t), Release(t)]) ==
            State(disks, s.locks, s.threads[t := Thread(op, Finished)])
  {
    Opens(hash, s, t, op);
    Closes(hash, s, t, op, disks, pc);
    RunConcat(hash, s, [Spawn(t, op), Acquire(t)], mid);
    RunConcat(hash, s, [Spawn(t, op), Acquire(t)] + mid, [Return(t), Release(t)]);
  }

  lemma PublishAlone(hash: string -> nat, s: State, backend: T.State, t: nat, op: Op, f: T.Faults)
    requires t !in s.threads && hash(op.node) !in s.locks && op.Publish? && backend.disks == s.disks
    ensures Run(hash, s, Script(s, backend, t, op, f)) ==
            State(T.ExecPublish(backend, op.volume, op.node, f).st.disks, s.locks,
                  s.threads[t := Thread(op, Finished)])
  {
    var begin, end := [Spawn(t, op), Acquire(t)], [Return(t), Release(t)];
    assert HasDisk(s, op.volume) <==> T.DisksOf(backend, op.volume) != {} by {
      assert forall d :: d in s.disks && s.disks[d].volume == op.volume ==> d in T.DisksOf(backend, op.volume);
    }
    PublishMiddle(hash, s, t, op, f.newDisk);
    Middle(hash, s, t, op, None, f.newDisk);
    if !T.Lookup(T.WithId(backend, op.volume), f.volumes).First? {
      assert begin + end == begin + [] + end;
      Parts(hash, s, t, op, [], s.disks, Locked);
    } else if f.vm && !T.Creating(f.attach, f.newDisk !in s.disks).NotApplied? {
      var mid := [Look(t, None), Send(t), Effect(t, f.newDisk)];
      if HasDisk(s, op.volume) {
        Parts(hash, s, t, op, mid, s.disks, Leaving);
      } else {
        Parts(hash, s, t, op, mid, s.disks[f.newDisk := T.Disk(op.volume, op.node)], Adding(false));
      }
    } else {
      Parts(hash, s, t, op, [Look(t, None)], s.disks, if HasDisk(s, op.volume) then Leaving else Cleared);
    }
  }

  lemma UnpublishAlone(hash: string -> nat, s: State, backend: T.State, t: nat, op: Op, f: T.Faults)
    requires t !in s.threads && hash(op.node) !in s.locks && op.Unpublish? && backend.disks == s.disks
    ensures Run(hash, s, Script(s, backend, t, op, f)) ==
            State(T.ExecUnpublish(backend, op.volume, op.node, f).st.disks, s.locks,
                  s.threads[t := Thread(op, Finished)])
  {
    var begin, end := [Spawn(t, op), Acquire(t)], [Return(t), Release(t)];
    match T.Lookup(T.DisksOn(backend, op.volume, op.node), f.disks)
    case Broken =>
      assert begin + end == begin + [] + end;
      Parts(hash, s, t, op, [], s.disks, Locked);
    case Nothing =>
      UnpublishMiddle(hash, s, t, op, "");
      Middle(hash, s, t, op, None, "");
      Parts(hash, s, t, op, [Look(t, None)], s.disks, Leaving);
    case First(d) =>
      UnpublishMiddle(hash, s, t, op, d);
      Middle(hash, s, t, op, Some(d), "");
      if d != "" && !f.detach.NotApplied? {
        Parts(hash, s, t, op, [Look(t, Some(d)), Send(t), Effect(t, "")], s.disks - {d}, Removing(d, false));
      } else {
        Parts(hash, s, t, op, [Look(t, Some(d))], s.disks, Chosen(d));
      }
  }

  /** Refinement: a call that nothing interrupts does to the disks what its transition in Tower does,
      for every behaviour of the backend, and leaves the locks as they were. */
  lemma AloneIsExec(hash: string -> nat, s: State, backend: T.State, t: nat, op: Op, f: T.Faults)
    requires t !in s.threads && hash(op.node) !in s.locks && backend.disks == s.disks
    ensures var r := Run(hash, s, Script(s, backend, t, op, f));
            && r.locks == s.locks && r.threads == s.threads[t := Thread(op, Finished)]
            && r.disks == (if op.Publish? then T.ExecPublish(backend, op.volume, op.node, f)
                           else T.ExecUnpublish(backend, op.volume, op.node, f)).st.disks
  {
    if op.Publish? {
      PublishAlone(hash, s, backend, t, op, f);
    } else {
      UnpublishAlone(hash, s, backend, t, op, f);
    }
  }

  // ---- Theorems ----

  /** No volume has two disks on one node. */
  ghost predicate OnePerNode(disks: map<string, Disk>) {
    forall d, d' :: d in disks && d' in disks && disks[d] == disks[d'] ==> d == d'
  }

  /** A volume has at most one disk among the nodes that share a lock. */
  ghost predicate OnePerLock(hash: string -> nat, disks: map<string, Disk>) {
    forall d, d' | d in disks && d' in disks && disks[d].volume == disks[d'].volume ::
      hash(disks[d].vm) == hash(disks[d'].vm) ==> d == d'
  }

  ghost function AllNodes(): iset<string> { iset x: string | |x| >= 0 }

  /** In every interleaving and for every hash, from any state without two disks of one volume on
      one node, no volume gets two disks on one node. */
  lemma AtMostOneDiskPerNode(hash: string -> nat, s: State, es: seq<Event>)
    requires Idle(s) && OnePerNode(s.disks)
    ensures OnePerNode(Run(hash, s, es).disks)
  {
    var same := (a: string, b: string) => a == b;
    RunKeepsInv(hash, same, AllNodes(), s, es);
    assert OnePer(same, Run(hash, s, es).disks);
  }

  /** From a state where it holds, a volume keeps having at most one disk among the nodes that
      share a lock. */
  lemma AtMostOneDiskPerLock(hash: string -> nat, s: State, es: seq<Event>)
    requires Idle(s) && OnePerLock(hash, s.disks)
    ensures OnePerLock(hash, Run(hash, s, es).disks)
  {
    var same := (a: string, b: string) => hash(a) == hash(b);
    RunKeepsInv(hash, same, AllNodes(), s, es);
    assert OnePer(same, Run(hash, s, es).disks);
  }

  ghost predicate OneDisk(disks: map<string, Disk>) {
    forall d, d' | d in disks && d' in disks :: disks[d].volume == disks[d'].volume ==> d == d'
  }

  /** No run of calls for these nodes, from `s` on, ever gives a volume two disks. */
  ghost predicate NeverTwoDisks(hash: string -> nat, s: State, nodes: iset<string>) {
    forall es :: UsesNodes(es, nodes) ==> OneDisk(Run(hash, s, es).disks)
  }

  // ---- The race ----

  lemma Snoc(hash: string -> nat, s: State, es: seq<Event>, e: Event)
    ensures Run(hash, s, es + [e]) == Step(hash, Run(hash, s, es), e)
  {
  }

  /** Two publishes of one volume at one program point. */
  function Racers(v: string, a: string, b: string, pc: Pc): map<nat, Thread> {
    map[0 := Thread(Publish(v, a), pc), 1 := Thread(Publish(v, b), pc)]
  }

  /** A call begins and takes its lock. */
  lemma Enter(hash: string -> nat, s: State, es: seq<Event>, t: nat, op: Op)
    requires var r := Run(hash, s, es); t !in r.threads && hash(op.node) !in r.locks
    ensures var r := Run(hash, s, es);
            Run(hash, s, es + [Spawn(t, op)] + [Acquire(t)]) ==
            State(r.disks, r.locks[hash(op.node) := t], r.threads[t := Thread(op, Locked)])
  {
    var r := Run(hash, s, es);
    Snoc(hash, s, es, Spawn(t, op));
    Snoc(hash, s, es + [Spawn(t, op)], Acquire(t));
  }

  /** Both publishes take their locks. */
  lemma RaceBegins(hash: string -> nat, s: State, v: string, a: string, b: string) returns (es: seq<Event>)
    requires Idle(s) && hash(a) != hash(b)
    ensures UsesNodes(es, iset{a, b})
    ensures Run(hash, s, es).disks == s.disks && Run(hash, s, es).threads == Racers(v, a, b, Locked)
  {
    var es0: seq<Event> := [];
    Enter(hash, s, es0, 0, Publish(v, a));
    var es1 := es0 + [Spawn(0, Publish(v, a))] + [Acquire(0)];
    assert Run(hash, s, es1) == State(s.disks, map[hash(a) := 0], map[0 := Thread(Publish(v, a), Locked)]);
    Enter(hash, s, es1, 1, Publish(v, b));
    es := es1 + [Spawn(1, Publish(v, b))] + [Acquire(1)];
    assert UsesNodes(es1, iset{a, b});
  }

  lemma RacersUpdate(v: string, a: string, b: string, pc: Pc, pc': Pc)
    ensures Racers(v, a, b, pc)[0 := Thread(Publish(v, a), pc')][1 := Thread(Publish(v, b), pc')] ==
            Racers(v, a, b, pc')
  {
  }

  /** Both calls query, and see no disk. */
  lemma BothLook(hash: string -> nat, s: State, v: string, a: string, b: string, es: seq<Event>)
    requires var t := Run(hash, s, es); t.threads == Racers(v, a, b, Locked) && !HasDisk(t, v)
    ensures Run(hash, s, es + [Look(0, None)] + [Look(1, None)]) ==
            Run(hash, s, es).(threads := Racers(v, a, b, Cleared))
  {
    Snoc(hash, s, es, Look(0, None));
    Snoc(hash, s, es + [Look(0, None)], Look(1, None));
    RacersUpdate(v, a, b, Locked, Cleared);
  }

  /** Both calls send their change. */
  lemma BothSend(hash: string -> nat, s: State, v: string, a: string, b: string, es: seq<Event>)
    requires Run(hash, s, es).threads == Racers(v, a, b, Cleared)
    ensures Run(hash, s, es + [Send(0)] + [Send(1)]) == Run(hash, s, es).(threads := Racers(v, a, b, Adding(true)))
  {
    Snoc(hash, s, es, Send(0));
    Snoc(hash, s, es + [Send(0)], Send(1));
    RacersUpdate(v, a, b, Cleared, Adding(true));
  }

  /** Both changes take effect. */
  lemma RaceEnds(
    hash: string -> nat, s: State, v: string, a: string, b: string, es: seq<Event>, d: string, d': string)
    requires var t := Run(hash, s, es); t.threads == Racers(v, a, b, Adding(true)) && d !in t.disks && d' !in t.disks
    requires d != d'
    ensures !OneDisk(Run(hash, s, es + [Effect(0, d)] + [Effect(1, d')]).disks)
  {
    var t := Run(hash, s, es);
    var es1 := es + [Effect(0, d)];
    Snoc(hash, s, es, Effect(0, d));
    assert Run(hash, s, es1).disks == t.disks[d := T.Disk(v, a)];
    assert Run(hash, s, es1).threads[1] == Thread(Publish(v, b), Adding(true));
    Snoc(hash, s, es1, Effect(1, d'));
    var disks := Run(hash, s, es1 + [Effect(1, d')]).disks;
    assert disks[d] == T.Disk(v, a) && disks[d'] == T.Disk(v, b);
  }

  /** Both publishes query and send. */
  lemma RaceSends(hash: string -> nat, s: State, v: string, a: string, b: string) returns (es: seq<Event>)
    requires Idle(s) && !HasDisk(s, v) && hash(a) != hash(b)
    ensures UsesNodes(es, iset{a, b})
    ensures Run(hash, s, es).disks == s.disks && Run(hash, s, es).threads == Racers(v, a, b, Adding(true))
  {
    var es1 := RaceBegins(hash, s, v, a, b);
    BothLook(hash, s, v, a, b, es1);
    var es2 := es1 + [Look(0, None)] + [Look(1, None)];
    BothSend(hash, s, v, a, b, es2);
    es := es2 + [Send(0)] + [Send(1)];
  }

  /** Two publishes of any volume without a disk, to nodes with different locks, both of which query
      before either takes effect, leave it with two. */
  lemma Race(hash: string -> nat, s: State, v: string, a: string, b: string) returns (es: seq<Event>)
    requires Idle(s) && !HasDisk(s, v) && hash(a) != hash(b)
    ensures UsesNodes(es, iset{a, b}) && !OneDisk(Run(hash, s, es).disks)
  {
    var es1 := RaceSends(hash, s, v, a, b);
    var d := Unused(s.disks.Keys, 0);
    var d' := Unused(s.disks.Keys + {d}, 0);
    RaceEnds(hash, s, v, a, b, es1, d, d');
    es := es1 + [Effect(0, d)] + [Effect(1, d')];
  }

  /** From every idle state in which no volume has two disks, on whatever VMs its disks are: the
      sequential promise of one disk per volume survives concurrency exactly when all the nodes
      called for share one lock. */
  lemma OneDiskExactlyWhenOneLock(hash: string -> nat, s: State, nodes: iset<string>)
    requires Idle(s) && OneDisk(s.disks)
    ensures NeverTwoDisks(hash, s, nodes) <==> forall a, b :: a in nodes && b in nodes ==> hash(a) == hash(b)
  {
    if forall a, b :: a in nodes && b in nodes ==> hash(a) == hash(b) {
      var same := (a: string, b: string) => true;
      forall es | UsesNodes(es, nodes) ensures OneDisk(Run(hash, s, es).disks) {
        RunKeepsInv(hash, same, nodes, s, es);
        assert OnePer(same, Run(hash, s, es).disks);
      }
    } else {
      var a, b :| a in nodes && b in nodes && hash(a) != hash(b);
      var v := Unused(set d | d in s.disks :: s.disks[d].volume, 0);
      var es := Race(hash, s, v, a, b);
      assert UsesNodes(es, nodes);
    }
  }
}
