/**
 The node registry (pkg/driver/node_map.go, registerNodeEntry in pkg/driver/node.go,
 Retry in pkg/utils/utils.go): every node reads one shared ConfigMap, sets its own key in
 its copy and writes the whole copy back, relying on the API server to refuse a write
 whose resource version is stale. Runs interleave the reads and writes of any number of
 nodes, with failed reads, lost writes and applied but unacknowledged writes.
 */
module Registry {
  import opened Text

  type Bytes = string

  datatype Entry = Entry(name: string, ip: string, port: int)

  /** The JSON codec, known only by its round trip. */
  datatype Codec = Codec(enc: Entry -> Bytes, dec: Bytes -> Option<Entry>)

  ghost predicate Faithful(c: Codec) {
    forall e :: c.dec(c.enc(e)) == Some(e)
  }

  datatype ConfigMap = ConfigMap(version: nat, data: map<string, Bytes>)

  /** One write the API server applied, in the order applied. */
  datatype Commit = Commit(node: string, key: string, value: Bytes)

  /** `Fetched` holds the copy read and how many commits it covers. */
  datatype Phase = Ready | Fetched(copy: ConfigMap, seen: nat) | Done(ok: bool)

  /** One registration: `start` commits had been applied when it began; `conflicts` and
      `errors` count its attempts refused for a stale version and failed otherwise. */
  datatype Node = Node(key: string, entry: Entry, start: nat, conflicts: nat, errors: nat, phase: Phase)

  /** `log` is the history of commits. */
  datatype System = System(store: ConfigMap, nodes: map<string, Node>, log: seq<Commit>)

  datatype Outcome = Answered | Lost | Unacknowledged

  /** `bump` is how far a changing write moves the resource version past the next one. */
  datatype Event =
    | Start(node: string, key: string, entry: Entry)
    | Fetch(node: string, fails: bool)
    | Update(node: string, outcome: Outcome, bump: nat)

  const RETRY_LIMIT: nat := 5

  // ---- Transitions ----

  /** The API server's write: a no-op write keeps its version. */
  function Written(store: ConfigMap, data: map<string, Bytes>, bump: nat): ConfigMap {
    if data == store.data then store else ConfigMap(store.version + 1 + bump, data)
  }

  /** A write that changes the data moves the version forward; one that does not keeps it. */
  lemma VersionsMove(store: ConfigMap, data: map<string, Bytes>, bump: nat)
    ensures var t := Written(store, data, bump);
            t.data == data && (data != store.data ==> t.version > store.version) && (data == store.data ==> t == store)
  {
  }

  /** The end of a failed attempt: Retry tries again below its limit. */
  function Failed(n: Node, conflict: bool): Node {
    var conflicts, errors := n.conflicts + (if conflict then 1 else 0), n.errors + (if conflict then 0 else 1);
    n.(conflicts := conflicts, errors := errors,
       phase := if conflicts + errors < RETRY_LIMIT then Ready else Done(false))
  }

  /** The first half of Put: Get, and the check that an old entry decodes. */
  function FetchStep(c: Codec, s: System, id: string, fails: bool): System
    requires id in s.nodes
  {
    var n := s.nodes[id];
    if fails || (n.key in s.store.data && c.dec(s.store.data[n.key]).None?) then
      s.(nodes := s.nodes[id := Failed(n, false)])
    else s.(nodes := s.nodes[id := n.(phase := Fetched(s.store, |s.log|))])
  }

  /** The second half of Put: the whole copy, with one key set, is written back. */
  function UpdateStep(c: Codec, s: System, id: string, outcome: Outcome, bump: nat): System
    requires id in s.nodes && s.nodes[id].phase.Fetched?
  {
    var n := s.nodes[id];
    if outcome.Lost? then s.(nodes := s.nodes[id := Failed(n, false)])
    else if n.phase.copy.version != s.store.version then
      s.(nodes := s.nodes[id := Failed(n, outcome.Answered?)])
    else
      var value := c.enc(n.entry);
      System(Written(s.store, n.phase.copy.data[n.key := value], bump),
             s.nodes[id := if outcome.Answered? then n.(phase := Done(true)) else Failed(n, false)],
             s.log + [Commit(id, n.key, value)])
  }

  function Step(c: Codec, s: System, e: Event): System {
    match e
    case Start(id, key, entry) =>
      if id in s.nodes && !s.nodes[id].phase.Done? then s
      else s.(nodes := s.nodes[id := Node(key, entry, |s.log|, 0, 0, Ready)])
    case Fetch(id, fails) =>
      if id in s.nodes && s.nodes[id].phase.Ready? then FetchStep(c, s, id, fails) else s
    case Update(id, outcome, bump) =>
      if id in s.nodes && s.nodes[id].phase.Fetched? then UpdateStep(c, s, id, outcome, bump) else s
  }

  function Run(c: Codec, s: System, es: seq<Event>): System {
    if es == [] then s else Step(c, Run(c, s, es[..|es| - 1]), es[|es| - 1])
  }

  /** No registration under way. */
  predicate Initial(s: System) { s.nodes == map[] && s.log == [] }

  // ---- The reference: one atomic write after another ----

  /** What the map would hold if every commit had set its own key atomically. */
  function Replay(base: map<string, Bytes>, log: seq<Commit>): map<string, Bytes> {
    if log == [] then base else
      var c := log[|log| - 1];
      Replay(base, log[..|log| - 1])[c.key := c.value]
  }

  ghost function Others(log: seq<Commit>, id: string): nat {
    if log == [] then 0 else
      Others(log[..|log| - 1], id) + if log[|log| - 1].node != id then 1 else 0
  }

  // ---- Invariant ----

  /** A copy read earlier: equal versions mean equal data, and its owner has not committed since. */
  ghost predicate CopyInv(s: System, id: string, copy: ConfigMap, seen: nat, base: map<string, Bytes>) {
    && seen <= |s.log|
    && copy.version <= s.store.version
    && (copy.version == s.store.version ==> copy.data == s.store.data)
    && (seen == |s.log| ==> copy == s.store)
    && copy.data == Replay(base, s.log[..seen])
    && forall i :: seen <= i < |s.log| ==> s.log[i].node != id
  }

  /** Commit `i` of the log is `w`, made at or after `start`, and is its node's last one. */
  ghost predicate LastCommit(log: seq<Commit>, start: nat, w: Commit, i: int) {
    start <= i < |log| && log[i] == w && forall j :: i < j < |log| ==> log[j].node != w.node
  }

  ghost predicate Committed(log: seq<Commit>, start: nat, w: Commit) {
    exists i :: LastCommit(log, start, w, i)
  }

  /** The conflicts met are covered by commits of others among the first `upto` ones. */
  ghost predicate Covered(log: seq<Commit>, id: string, n: Node, upto: nat) {
    n.start <= upto <= |log| && n.conflicts <= Others(log[n.start..upto], id)
  }

  ghost predicate NodeInv(s: System, id: string, n: Node, base: map<string, Bytes>, c: Codec) {
    match n.phase
    case Ready => n.conflicts + n.errors < RETRY_LIMIT && Covered(s.log, id, n, |s.log|)
    case Fetched(copy, seen) =>
      && n.conflicts + n.errors < RETRY_LIMIT
      && CopyInv(s, id, copy, seen, base) && Covered(s.log, id, n, seen)
    case Done(ok) =>
      if ok then Committed(s.log, n.start, Commit(id, n.key, c.enc(n.entry)))
      else n.conflicts + n.errors == RETRY_LIMIT && Covered(s.log, id, n, |s.log|)
  }

  ghost predicate Inv(s: System, base: map<string, Bytes>, c: Codec) {
    && s.store.data == Replay(base, s.log)
    && forall id :: id in s.nodes ==> NodeInv(s, id, s.nodes[id], base, c)
  }

  lemma ReplaySnoc(base: map<string, Bytes>, log: seq<Commit>, e: Commit)
    ensures Replay(base, log + [e]) == Replay(base, log)[e.key := e.value]
  {
  }

  lemma {:induction false} OthersGrow(log: seq<Commit>, more: seq<Commit>, id: string)
    ensures Others(log + more, id) >= Others(log, id)
    ensures more != [] && more[|more| - 1].node != id ==> Others(log + more, id) > Others(log, id)
  {
    if more != [] {
      var n := |more| - 1;
      OthersGrow(log, more[..n], id);
      assert (log + more)[..|log + more| - 1] == log + more[..n];
    } else {
      assert log + more == log;
    }
  }

  lemma CoveredGrows(log: seq<Commit>, id: string, n: Node, upto: nat, w: Commit)
    requires Covered(log, id, n, upto)
    ensures Covered(log + [w], id, n, upto)
    ensures upto == |log| ==> Covered(log + [w], id, n, upto + 1)
  {
    assert (log + [w])[n.start..upto] == log[n.start..upto];
    if upto == |log| {
      assert (log + [w])[n.start..upto + 1] == log[n.start..upto] + [w];
      OthersGrow(log[n.start..upto], [w], id);
    }
  }

  /** Commits by others since the read cover one more conflict. */
  lemma CoveredByConflict(s: System, id: string, n: Node, seen: nat)
    requires Covered(s.log, id, n, seen)
    requires forall i :: seen <= i < |s.log| ==> s.log[i].node != id
    ensures Covered(s.log, id, n, |s.log|)
    ensures seen < |s.log| ==> n.conflicts < Others(s.log[n.start..|s.log|], id)
  {
    assert s.log[n.start..|s.log|] == s.log[n.start..seen] + s.log[seen..];
    OthersGrow(s.log[n.start..seen], s.log[seen..], id);
  }

  function Committing(s: System, w: Commit, bump: nat): System {
    s.(store := Written(s.store, s.store.data[w.key := w.value], bump), log := s.log + [w])
  }

  /** A node keeps its part of the invariant while another one commits. */
  lemma NodeFrame(s: System, w: Commit, bump: nat, id: string, n: Node, base: map<string, Bytes>, c: Codec)
    requires NodeInv(s, id, n, base, c) && w.node != id
    ensures NodeInv(Committing(s, w, bump), id, n, base, c)
  {
    var t := Committing(s, w, bump);
    match n.phase
    case Ready => CoveredGrows(s.log, id, n, |s.log|, w);
    case Fetched(copy, seen) =>
      CoveredGrows(s.log, id, n, seen, w);
      assert t.log[..seen] == s.log[..seen];
    case Done(ok) =>
      if ok {
        var i :| LastCommit(s.log, n.start, Commit(id, n.key, c.enc(n.entry)), i);
        assert LastCommit(t.log, n.start, Commit(id, n.key, c.enc(n.entry)), i);
      } else {
        CoveredGrows(s.log, id, n, |s.log|, w);
      }
  }

  lemma FetchKeepsInv(c: Codec, s: System, id: string, fails: bool, base: map<string, Bytes>)
    requires Inv(s, base, c) && id in s.nodes && s.nodes[id].phase.Ready?
    ensures Inv(FetchStep(c, s, id, fails), base, c)
  {
    var t := FetchStep(c, s, id, fails);
    assert s.log[..|s.log|] == s.log;
    forall x | x in t.nodes ensures NodeInv(t, x, t.nodes[x], base, c) {
      assert NodeInv(s, x, s.nodes[x], base, c);
    }
  }

  lemma RefusedKeepsInv(c: Codec, s: System, id: string, conflict: bool, base: map<string, Bytes>)
    requires Inv(s, base, c) && id in s.nodes && s.nodes[id].phase.Fetched?
    requires conflict ==> s.nodes[id].phase.copy.version != s.store.version
    ensures Inv(s.(nodes := s.nodes[id := Failed(s.nodes[id], conflict)]), base, c)
  {
    var t := s.(nodes := s.nodes[id := Failed(s.nodes[id], conflict)]);
    assert NodeInv(s, id, s.nodes[id], base, c);
    CoveredByConflict(s, id, s.nodes[id], s.nodes[id].phase.seen);
    forall x | x in t.nodes ensures NodeInv(t, x, t.nodes[x], base, c) {
      assert NodeInv(s, x, s.nodes[x], base, c);
    }
  }

  lemma CommitOwnNode(c: Codec, s: System, id: string, n: Node, outcome: Outcome, bump: nat, base: map<string, Bytes>)
    requires NodeInv(s, id, n, base, c) && n.phase.Fetched? && !outcome.Lost?
    ensures var w := Commit(id, n.key, c.enc(n.entry));
            var n' := if outcome.Answered? then n.(phase := Done(true)) else Failed(n, false);
            NodeInv(Committing(s, w, bump), id, n', base, c)
  {
    var w := Commit(id, n.key, c.enc(n.entry));
    CoveredByConflict(s, id, n, n.phase.seen);
    CoveredGrows(s.log, id, n, |s.log|, w);
    assert LastCommit(s.log + [w], n.start, w, |s.log|);
  }

  /** The heart of the protocol: an accepted write puts back a copy of exactly what is stored. */
  lemma CommitKeepsInv(c: Codec, s: System, id: string, outcome: Outcome, bump: nat, base: map<string, Bytes>)
    requires Inv(s, base, c) && id in s.nodes && s.nodes[id].phase.Fetched? && !outcome.Lost?
    requires s.nodes[id].phase.copy.version == s.store.version
    ensures Inv(UpdateStep(c, s, id, outcome, bump), base, c)
  {
    var n, t := s.nodes[id], UpdateStep(c, s, id, outcome, bump);
    var w := Commit(id, n.key, c.enc(n.entry));
    var u := Committing(s, w, bump);
    assert n.phase.copy.data == s.store.data by {
      assert NodeInv(s, id, n, base, c);
    }
    assert t == u.(nodes := t.nodes);
    ReplaySnoc(base, s.log, w);
    forall x | x in t.nodes ensures NodeInv(t, x, t.nodes[x], base, c) {
      if x == id {
        CommitOwnNode(c, s, id, n, outcome, bump, base);
      } else {
        NodeFrame(s, w, bump, x, s.nodes[x], base, c);
      }
      SameNode(u, t, x, t.nodes[x], base, c);
    }
  }

  /** The invariant of a node does not look at the other nodes. */
  lemma SameNode(u: System, t: System, x: string, n: Node, base: map<string, Bytes>, c: Codec)
    requires NodeInv(u, x, n, base, c) && t.store == u.store && t.log == u.log
    ensures NodeInv(t, x, n, base, c)
  {
  }

  lemma StepKeepsInv(c: Codec, s: System, e: Event, base: map<string, Bytes>)
    requires Inv(s, base, c)
    ensures Inv(Step(c, s, e), base, c)
    ensures s.log <= Step(c, s, e).log
  {
    var s' := Step(c, s, e);
    if s' != s {
      match e
      case Start(id, _, _) =>
        forall x | x in s'.nodes ensures NodeInv(s', x, s'.nodes[x], base, c) {
          if x != id {
            assert NodeInv(s, x, s.nodes[x], base, c);
          }
        }
      case Fetch(id, fails) => FetchKeepsInv(c, s, id, fails, base);
      case Update(id, outcome, bump) =>
        if outcome.Lost? {
          RefusedKeepsInv(c, s, id, false, base);
        } else if s.nodes[id].phase.copy.version != s.store.version {
          RefusedKeepsInv(c, s, id, outcome.Answered?, base);
        } else {
          CommitKeepsInv(c, s, id, outcome, bump, base);
        }
    }
  }

  lemma {:induction false} RunKeepsInv(c: Codec, s: System, es: seq<Event>, base: map<string, Bytes>)
    requires Inv(s, base, c)
    ensures Inv(Run(c, s, es), base, c)
    ensures s.log <= Run(c, s, es).log
  {
    if es != [] {
      RunKeepsInv(c, s, es[..|es| - 1], base);
      StepKeepsInv(c, Run(c, s, es[..|es| - 1]), es[|es| - 1], base);
    }
  }

  // ---- Theorems ----

  /** Serialisability: whatever the interleaving and the failures, the stored map is what the
      committed writes, each touching its own key only, would have left one after another. */
  lemma Serialisable(c: Codec, s: System, es: seq<Event>)
    requires Initial(s)
    ensures var t := Run(c, s, es); t.store.data == Replay(s.store.data, t.log)
  {
    RunKeepsInv(c, s, es, s.store.data);
  }

  lemma {:induction false} ReplayKeeps(base: map<string, Bytes>, log: seq<Commit>, n: nat, key: string)
    requires n <= |log| && forall i :: n <= i < |log| ==> log[i].key != key
    ensures key in Replay(base, log) <==> key in Replay(base, log[..n])
    ensures key in Replay(base, log) ==> Replay(base, log)[key] == Replay(base, log[..n])[key]
  {
    if n < |log| {
      assert log[..|log| - 1][..n] == log[..n];
      ReplayKeeps(base, log[..|log| - 1], n, key);
    } else {
      assert log[..n] == log;
    }
  }

  /** A key changes only when a registration of that key commits. */
  lemma OtherKeysKept(c: Codec, s: System, before: seq<Event>, after: seq<Event>, key: string)
    requires Initial(s)
    requires var s1 := Run(c, s, before); var s2 := Run(c, s1, after);
             forall i :: |s1.log| <= i < |s2.log| ==> s2.log[i].key != key
    ensures var s1 := Run(c, s, before); var s2 := Run(c, s1, after);
            && (key in s2.store.data <==> key in s1.store.data)
            && (key in s1.store.data ==> s2.store.data[key] == s1.store.data[key])
  {
    var s1 := Run(c, s, before);
    var s2 := Run(c, s1, after);
    RunKeepsInv(c, s, before, s.store.data);
    RunKeepsInv(c, s1, after, s.store.data);
    assert s2.log[..|s1.log|] == s1.log;
    ReplayKeeps(s.store.data, s2.log, |s1.log|, key);
  }

  /** No update is lost: the last commit of a registration that reported success is its entry, also
      when earlier attempts went through unacknowledged, and in every later state its key still
      decodes to that entry unless the key was committed again after that. */
  lemma NoLostUpdate(c: Codec, s: System, before: seq<Event>, after: seq<Event>, id: string)
    requires Initial(s) && Faithful(c)
    requires id in Run(c, s, before).nodes && Run(c, s, before).nodes[id].phase == Done(true)
    ensures var s1 := Run(c, s, before); var n := s1.nodes[id]; var s2 := Run(c, s1, after);
            exists i :: LastCommit(s1.log, n.start, Commit(id, n.key, c.enc(n.entry)), i) && s1.log <= s2.log
              && ((forall j :: i < j < |s2.log| ==> s2.log[j].key != n.key) ==>
                    n.key in s2.store.data && c.dec(s2.store.data[n.key]) == Some(n.entry))
  {
    var s1 := Run(c, s, before);
    var s2 := Run(c, s1, after);
    RunKeepsInv(c, s, before, s.store.data);
    RunKeepsInv(c, s1, after, s.store.data);
    var n := s1.nodes[id];
    var w := Commit(id, n.key, c.enc(n.entry));
    assert Committed(s1.log, n.start, w) by {
      assert NodeInv(s1, id, n, s.store.data, c);
    }
    var i :| LastCommit(s1.log, n.start, w, i);
    LastCommitWins(s.store.data, s2.log, i);
  }

  lemma LastCommitWins(base: map<string, Bytes>, log: seq<Commit>, i: nat)
    requires i < |log|
    ensures (forall j :: i < j < |log| ==> log[j].key != log[i].key) ==>
              log[i].key in Replay(base, log) && Replay(base, log)[log[i].key] == log[i].value
  {
  }

  /** A read hands over what is stored, unless it fails or an old entry of the key does not decode;
      that ends the attempt as an error. */
  lemma FetchExactly(c: Codec, s: System, id: string, fails: bool)
    requires id in s.nodes && s.nodes[id].phase.Ready?
    ensures var n, t := s.nodes[id], Step(c, s, Fetch(id, fails));
            var good := !fails && (n.key in s.store.data ==> c.dec(s.store.data[n.key]).Some?);
            && t.store == s.store && t.log == s.log && id in t.nodes
            && (good ==> t.nodes[id] == n.(phase := Fetched(s.store, |s.log|)))
            && (!good ==> t.nodes[id].errors == n.errors + 1 && t.nodes[id].conflicts == n.conflicts
                          && !t.nodes[id].phase.Fetched?)
  {
  }

  /** A write is applied exactly when it is not lost and its version is the stored one, and reports
      success exactly when it is then acknowledged; a stale version that is answered is counted as a
      conflict, every other failure as an error. */
  lemma UpdateExactly(c: Codec, s: System, id: string, outcome: Outcome, bump: nat)
    requires id in s.nodes && s.nodes[id].phase.Fetched?
    ensures var n, t := s.nodes[id], Step(c, s, Update(id, outcome, bump));
            var applied := outcome != Lost && n.phase.copy.version == s.store.version;
            && id in t.nodes
            && (t.nodes[id].phase == Done(true) <==> applied && outcome == Answered)
            && t.log == (if applied then s.log + [Commit(id, n.key, c.enc(n.entry))] else s.log)
            && (applied ==> t.store.data == n.phase.copy.data[n.key := c.enc(n.entry)])
            && (!applied ==> t.store == s.store)
            && t.nodes[id].conflicts == n.conflicts + (if outcome == Answered && !applied then 1 else 0)
            && t.nodes[id].errors == n.errors + (if outcome == Answered then 0 else 1)
  {
  }

  ghost predicate Leaves(es: seq<Event>, id: string) {
    forall i :: 0 <= i < |es| ==> es[i].node != id
  }

  /** Events of other nodes leave a registration as it is. */
  lemma {:induction false} NodeUntouched(c: Codec, s: System, es: seq<Event>, id: string)
    requires Leaves(es, id) && id in s.nodes
    ensures id in Run(c, s, es).nodes && Run(c, s, es).nodes[id] == s.nodes[id]
  {
    if es != [] {
      NodeUntouched(c, s, es[..|es| - 1], id);
    }
  }

  lemma RunCons(c: Codec, s: System, es: seq<Event>, e: Event)
    ensures Run(c, s, es + [e]) == Step(c, Run(c, s, es), e)
  {
  }

  lemma {:induction false} RunConcat(c: Codec, s: System, a: seq<Event>, b: seq<Event>)
    ensures Run(c, s, a + b) == Run(c, Run(c, s, a), b)
  {
    if b == [] {
      assert a + b == a;
    } else {
      assert (a + b)[..|a + b| - 1] == a + b[..|b| - 1];
      RunConcat(c, s, a, b[..|b| - 1]);
    }
  }

  /** Whoever reads in peace succeeds. From any reachable state in which the node is about to read
      and an old entry of its key decodes: when the read works, no other node commits before its
      write, and the write is answered, the registration ends with success and its key holds the
      entry, whatever it met before. */
  lemma PeaceSucceeds(c: Codec, s: System, before: seq<Event>, between: seq<Event>, id: string, bump: nat)
    requires Initial(s) && Faithful(c) && Leaves(between, id)
    requires var s1 := Run(c, s, before);
             && id in s1.nodes && s1.nodes[id].phase.Ready?
             && (s1.nodes[id].key in s1.store.data ==> c.dec(s1.store.data[s1.nodes[id].key]).Some?)
             && Run(c, Step(c, s1, Fetch(id, false)), between).log == s1.log
    ensures var n := Run(c, s, before).nodes[id];
            var t := Run(c, s, before + [Fetch(id, false)] + between + [Update(id, Answered, bump)]);
            && id in t.nodes && t.nodes[id] == n.(phase := Done(true))
            && n.key in t.store.data && c.dec(t.store.data[n.key]) == Some(n.entry)
            && t.log == Run(c, s, before).log + [Commit(id, n.key, c.enc(n.entry))]
  {
    var s1 := Run(c, s, before);
    var s2 := Step(c, s1, Fetch(id, false));
    var s3 := Run(c, s2, between);
    RunCons(c, s, before, Fetch(id, false));
    RunConcat(c, s, before + [Fetch(id, false)], between);
    RunCons(c, s, before + [Fetch(id, false)] + between, Update(id, Answered, bump));
    NodeUntouched(c, s2, between, id);
    RunKeepsInv(c, s, before + [Fetch(id, false)] + between, s.store.data);
    assert NodeInv(s3, id, s3.nodes[id], s.store.data, c);
  }

  /** A registration starts at its first attempt, whatever an earlier one of that node ended with. */
  lemma StartIsReady(c: Codec, s: System, id: string, key: string, entry: Entry)
    requires id in s.nodes ==> s.nodes[id].phase.Done?
    ensures var t := Step(c, s, Start(id, key, entry));
            && id in t.nodes && t.nodes[id].key == key && t.nodes[id].entry == entry && t.nodes[id].phase == Ready
            && t.nodes[id].conflicts == 0 && t.nodes[id].errors == 0 && t.store == s.store
  {
  }

  /** A failed attempt is followed by another one, up to the fifth. */
  lemma FailedAttempts(n: Node, conflict: bool)
    ensures var m := Failed(n, conflict);
            && m.conflicts + m.errors == n.conflicts + n.errors + 1
            && m.phase == if n.conflicts + n.errors < 4 then Ready else Done(false)
  {
  }

  /** A stale version is never a false alarm: some other node committed since the read. */
  lemma ConflictMeansProgress(c: Codec, s: System, es: seq<Event>, id: string)
    requires Initial(s)
    requires id in Run(c, s, es).nodes && Run(c, s, es).nodes[id].phase.Fetched?
    requires var t := Run(c, s, es); t.nodes[id].phase.copy.version != t.store.version
    ensures var t := Run(c, s, es); exists i :: t.nodes[id].phase.seen <= i < |t.log| && t.log[i].node != id
  {
    RunKeepsInv(c, s, es, s.store.data);
    var t := Run(c, s, es);
    assert NodeInv(t, id, t.nodes[id], s.store.data, c);
    assert t.log[t.nodes[id].phase.seen].node != id;
  }

  /** A registration that gave up met five failures, and other nodes committed at least as
      often since it began as it was refused for a stale version: conflicts alone cannot stop
      the whole system. */
  lemma GivingUp(c: Codec, s: System, es: seq<Event>, id: string)
    requires Initial(s)
    requires id in Run(c, s, es).nodes && Run(c, s, es).nodes[id].phase == Done(false)
    ensures var t := Run(c, s, es); var n := t.nodes[id];
            && n.start <= |t.log| && n.conflicts + n.errors == 5
            && Others(t.log[n.start..], id) >= 5 - n.errors
  {
    RunKeepsInv(c, s, es, s.store.data);
    var t := Run(c, s, es);
    assert NodeInv(t, id, t.nodes[id], s.store.data, c);
    assert t.log[t.nodes[id].start..] == t.log[t.nodes[id].start..|t.log|];
  }

  // ---- Put and Get as methods ----

  /** The writes `ws` of other nodes, applied in order. */
  function Apply(store: ConfigMap, ws: seq<Commit>): ConfigMap {
    if ws == [] then store else
      var prior := Apply(store, ws[..|ws| - 1]);
      var w := ws[|ws| - 1];
      Written(prior, prior.data[w.key := w.value], 0)
  }

  lemma {:induction false} ApplyFacts(store: ConfigMap, ws: seq<Commit>)
    ensures Apply(store, ws).data == Replay(store.data, ws)
    ensures Apply(store, ws).version >= store.version
    ensures Apply(store, ws).version == store.version ==> Apply(store, ws) == store
  {
    if ws != [] {
      ApplyFacts(store, ws[..|ws| - 1]);
    }
  }

  /** What meets one attempt: a failing read, the writes of other nodes between its read and its
      write, and the fate of the write. */
  datatype Try = Try(fails: bool, between: seq<Commit>, outcome: Outcome)

  /** An attempt succeeds exactly when the read works, an old entry of the key decodes, no write in
      between changes the map, and its own write is answered. */
  predicate Succeeds(c: Codec, store: ConfigMap, key: string, t: Try) {
    && !t.fails && t.outcome == Answered && Apply(store, t.between) == store
    && (key in store.data ==> c.dec(store.data[key]).Some?)
  }

  /** What an attempt leaves: the other nodes' writes, and its own unless it was not sent, was lost
      or was refused. */
  function AfterTry(c: Codec, store: ConfigMap, key: string, entry: Entry, t: Try): ConfigMap {
    var now := Apply(store, t.between);
    if t.fails || t.outcome.Lost? || now.version != store.version
       || (key in store.data && c.dec(store.data[key]).None?) then now
    else Written(now, now.data[key := c.enc(entry)], 0)
  }

  function AfterTries(c: Codec, store: ConfigMap, key: string, entry: Entry, tries: seq<Try>, n: nat): ConfigMap
    requires n <= |tries|
  {
    if n == 0 then store else
      AfterTry(c, AfterTries(c, store, key, entry, tries, n - 1), key, entry, tries[n - 1])
  }

  /** The i-th attempt succeeds, after what the ones before it left. */
  predicate AttemptWorks(c: Codec, store: ConfigMap, key: string, entry: Entry, tries: seq<Try>, i: int) {
    0 <= i < |tries| && Succeeds(c, AfterTries(c, store, key, entry, tries, i), key, tries[i])
  }

  class NodeMap {
    var store: ConfigMap
    const codec: Codec

    constructor (store: ConfigMap, codec: Codec)
      ensures this.store == store && this.codec == codec
    {
      this.store, this.codec := store, codec;
    }

    /** Put, while the writes `between` of other nodes land between its read and its write.
        Success adds the key to what is stored at that moment; failure adds nothing, unless the
        write went through unacknowledged. No write of another node is undone. */
    method Put(key: string, entry: Entry, fails: bool, between: seq<Commit>, outcome: Outcome) returns (ok: bool)
      modifies this`store
      ensures ok ==> store.data == Replay(old(store).data, between)[key := codec.enc(entry)]
      ensures !ok ==> store.data == Replay(old(store).data, between)
                      || (outcome == Unacknowledged
                          && store.data == Replay(old(store).data, between)[key := codec.enc(entry)])
      ensures ok <==> !fails && outcome == Answered && Apply(old(store), between) == old(store)
                      && (key in old(store).data ==> codec.dec(old(store).data[key]).Some?)
      ensures store == AfterTry(codec, old(store), key, entry, Try(fails, between, outcome))
    {
      var copy := store;
      store := Apply(store, between);
      ApplyFacts(old(store), between);
      if fails {
        return false;
      }
      var data := copy.data;
      if key in data && codec.dec(data[key]).None? {
        return false;
      }
      data := data[key := codec.enc(entry)];
      if outcome.Lost? || copy.version != store.version {
        return false;
      }
      store := Written(store, data, 0);
      return outcome.Answered?;
    }

    /** Get: the entry, or `None` for a failed read, an absent key or undecodable bytes. */
    method Get(key: string, fails: bool) returns (r: Option<Entry>)
      ensures r.Some? <==> !fails && key in store.data && codec.dec(store.data[key]).Some?
      ensures r.Some? ==> r == codec.dec(store.data[key])
    {
      if fails || key !in store.data {
        return None;
      }
      return codec.dec(store.data[key]);
    }

    /** registerNodeEntry: Put under Retry. `tries[i]` is what meets the i-th attempt. It succeeds
        exactly when one of the first five attempts does, stops at the first that does, and then the
        key decodes to the entry; in either case every other key is as the other nodes' writes left
        it. */
    method Register(key: string, entry: Entry, tries: seq<Try>) returns (ok: bool, made: nat)
      requires |tries| >= 5 && Faithful(codec)
      modifies this`store
      ensures ok ==> key in store.data && codec.dec(store.data[key]) == Some(entry)
      ensures 1 <= made <= 5 && (!ok ==> made == 5)
      ensures ok <==> exists i :: 0 <= i < 5 && AttemptWorks(codec, old(store), key, entry, tries, i)
      ensures ok <==> AttemptWorks(codec, old(store), key, entry, tries, made - 1)
      ensures forall i :: 0 <= i < made - 1 ==> !AttemptWorks(codec, old(store), key, entry, tries, i)
      ensures SameBut(store.data, Replay(old(store).data, Landed(tries, made)), key)
    {
      ok, made := false, 0;
      while made < RETRY_LIMIT && !ok
        invariant made <= RETRY_LIMIT && (ok ==> made >= 1)
        invariant ok ==> key in store.data && codec.dec(store.data[key]) == Some(entry)
        invariant ok ==> AttemptWorks(codec, old(store), key, entry, tries, made - 1)
        invariant forall i :: 0 <= i < (if ok then made - 1 else made) ==>
                    !AttemptWorks(codec, old(store), key, entry, tries, i)
        invariant store == AfterTries(codec, old(store), key, entry, tries, made)
        invariant SameBut(store.data, Replay(old(store).data, Landed(tries, made)), key)
        decreases RETRY_LIMIT - made
      {
        ghost var before := store.data;
        ok := Put(key, entry, tries[made].fails, tries[made].between, tries[made].outcome);
        ReplaySameBut(before, Replay(old(store).data, Landed(tries, made)), tries[made].between, key);
        ReplayConcat(old(store).data, Landed(tries, made), tries[made].between);
        made := made + 1;
      }
    }
  }

  /** The writes of other nodes that land during the first `n` attempts. */
  function Landed(tries: seq<Try>, n: nat): seq<Commit>
    requires n <= |tries|
  {
    if n == 0 then [] else Landed(tries, n - 1) + tries[n - 1].between
  }

  /** The two maps agree on every key but one. */
  ghost predicate SameBut(a: map<string, Bytes>, b: map<string, Bytes>, key: string) {
    forall k :: k != key ==> (k in a <==> k in b) && (k in a ==> a[k] == b[k])
  }

  lemma {:induction false} ReplaySameBut(a: map<string, Bytes>, b: map<string, Bytes>, log: seq<Commit>, key: string)
    requires SameBut(a, b, key)
    ensures SameBut(Replay(a, log), Replay(b, log), key)
  {
    if log != [] {
      ReplaySameBut(a, b, log[..|log| - 1], key);
    }
  }

  lemma {:induction false} ReplayConcat(base: map<string, Bytes>, a: seq<Commit>, b: seq<Commit>)
    ensures Replay(base, a + b) == Replay(Replay(base, a), b)
  {
    if b == [] {
      assert a + b == a;
    } else {
      assert (a + b)[..|a + b| - 1] == a + b[..|b| - 1];
      ReplayConcat(base, a, b[..|b| - 1]);
    }
  }
}
