/**
 * The values the aggregator keeps in its queues, and the specification of one
 * aggregation attempt as functions of the queue store: the watermark, which
 * heads are aligned with it, which snapshot is emitted and what every queue
 * holds afterwards.
 */
module SnapshotModel {
  import opened Wrappers

  /** One node's sample; its metrics are opaque to the aggregator. */
  datatype NodeData = NodeData(nodeName: string, ms: nat)

  /** One cluster-wide sample. */
  datatype ClusterData = ClusterData(ms: nat)

  /** A merged, time-aligned record: the watermark, one cluster sample, the node samples. */
  datatype Snapshot = Snapshot(ms: nat, cluster: ClusterData, nodes: seq<NodeData>)

  /** What a queue slot holds once deserialized; `Null` is a null byte array. */
  datatype Payload = Null | Node(node: NodeData) | Cluster(cluster: ClusterData) | Snap(snapshot: Snapshot)

  /** Reserved key of the cluster-data queue (ClusterData.QueueName). */
  const ClusterQueue: string := "ClusterData"

  /** Reserved key of the snapshot history queue (Snapshot.queueName). */
  const SnapshotQueue: string := "Snapshot"

  /** long.MaxValue, the start value of the minimum-count scan. */
  const LongMax: int := 0x7FFF_FFFF_FFFF_FFFF

  /** The queue store: queue name to contents, oldest first. */
  type Store = map<string, seq<Payload>>

  /** The contents of a queue; a queue that does not exist yet reads as empty. */
  function Get(s: Store, name: string): seq<Payload>
  {
    if name in s then s[name] else []
  }

  /** What a peek returns: the head, or `Null` for an empty queue. */
  function Head(q: seq<Payload>): Payload
  {
    if q == [] then Null else q[0]
  }

  /** A payload has the type the reader of queue `name` casts it to (or is null). */
  predicate Fits(name: string, p: Payload)
  {
    p.Null? || (if name == SnapshotQueue then p.Snap? else if name == ClusterQueue then p.Cluster? else p.Node?)
  }

  ghost predicate WellTyped(s: Store)
  {
    forall name, i {:trigger s[name][i]} :: name in s && 0 <= i < |s[name]| ==> Fits(name, s[name][i])
  }

  /** Node names are distinct and never one of the two reserved queue keys. */
  predicate DistinctNodes(nodes: seq<string>)
  {
    && (forall i, j :: 0 <= i < j < |nodes| ==> nodes[i] != nodes[j])
    && (forall i :: 0 <= i < |nodes| ==> nodes[i] != ClusterQueue && nodes[i] != SnapshotQueue)
  }

  /** The drain gate: the cluster queue and every node queue hold more than one item. */
  predicate GateOpen(s: Store, nodes: seq<string>)
  {
    |Get(s, ClusterQueue)| > 1 && forall i :: 0 <= i < |nodes| ==> |Get(s, nodes[i])| > 1
  }

  /** The timestamp of a queue's head, if it has a non-null head. */
  function HeadTime(q: seq<Payload>): Option<nat>
  {
    match Head(q)
    case Node(d) => Some(d.ms)
    case Cluster(c) => Some(c.ms)
    case _ => None
  }

  /** One step of the watermark scan, with -1 meaning "nothing seen yet". */
  function MinStep(ts: int, h: Option<nat>): int
  {
    match h
    case None => ts
    case Some(t) => if t < ts || ts == -1 then t else ts
  }

  /** The watermark scan over a sequence of head timestamps, left to right from -1. */
  function MinHead(hs: seq<Option<nat>>): (w: int)
    ensures w >= -1
    ensures w == -1 <==> forall i :: 0 <= i < |hs| ==> hs[i].None?
    ensures w != -1 ==> exists i :: 0 <= i < |hs| && hs[i] == Some(w)
    ensures forall i :: 0 <= i < |hs| && hs[i].Some? ==> w <= hs[i].value
  {
    if hs == [] then -1
    else
      var w0 := MinHead(hs[..|hs| - 1]);
      var w := MinStep(w0, hs[|hs| - 1]);
      assert forall i :: 0 <= i < |hs| - 1 ==> hs[i] == hs[..|hs| - 1][i];
      w
  }

  /** Head timestamps of the named queues, in order. */
  function HeadTimes(s: Store, names: seq<string>): (hs: seq<Option<nat>>)
    ensures |hs| == |names|
  {
    seq(|names|, i requires 0 <= i < |names| => HeadTime(Get(s, names[i])))
  }

  /** Extending the scanned prefix of the node list by one node is one more MinStep. */
  lemma WatermarkScanStep(s: Store, nodes: seq<string>, i: nat)
    requires i < |nodes|
    ensures MinHead(HeadTimes(s, nodes[..i + 1]))
         == MinStep(MinHead(HeadTimes(s, nodes[..i])), HeadTime(Get(s, nodes[i])))
  {
    var hs := HeadTimes(s, nodes[..i + 1]);
    assert hs[..i] == HeadTimes(s, nodes[..i]);
  }

  /** The whole scan: all node heads, then the cluster head. */
  lemma WatermarkScanLast(s: Store, nodes: seq<string>)
    ensures Watermark(s, nodes) == MinStep(MinHead(HeadTimes(s, nodes)), HeadTime(Get(s, ClusterQueue)))
  {
    var hs := Heads(s, nodes);
    assert hs[..|hs| - 1] == HeadTimes(s, nodes);
  }

  /** The head timestamps MinTimeStampInQueueAsync visits: every node queue, then the cluster queue. */
  function Heads(s: Store, nodes: seq<string>): seq<Option<nat>>
  {
    HeadTimes(s, nodes) + [HeadTime(Get(s, ClusterQueue))]
  }

  /** The watermark of an attempt: -1, or the minimum head timestamp. */
  function Watermark(s: Store, nodes: seq<string>): int
  {
    MinHead(Heads(s, nodes))
  }

  /** The head of `q` exists, is non-null and passes CheckTime against `w`. */
  predicate Passes(q: seq<Payload>, w: int, check: (int, int) -> bool)
  {
    HeadTime(q).Some? && check(w, HeadTime(q).value)
  }

  /** A queue after the attempt looked at it: its head is taken iff it passed. */
  function Consume(q: seq<Payload>, w: int, check: (int, int) -> bool): seq<Payload>
  {
    if Passes(q, w, check) then q[1..] else q
  }

  /** The node samples an attempt collects: the passing heads, in node-list order. */
  function Aligned(s: Store, nodes: seq<string>, w: int, check: (int, int) -> bool): seq<NodeData>
  {
    if nodes == [] then []
    else
      var q := Get(s, nodes[|nodes| - 1]);
      Aligned(s, nodes[..|nodes| - 1], w, check)
        + (if Passes(q, w, check) && Head(q).Node? then [Head(q).node] else [])
  }

  /** Visiting one more node of the list extends the collected samples by that node's passing head. */
  lemma AlignedStep(s: Store, nodes: seq<string>, i: nat, w: int, check: (int, int) -> bool)
    requires i < |nodes|
    ensures var q := Get(s, nodes[i]);
      Aligned(s, nodes[..i + 1], w, check)
        == Aligned(s, nodes[..i], w, check) + (if Passes(q, w, check) && Head(q).Node? then [Head(q).node] else [])
  {
    assert nodes[..i + 1][..i] == nodes[..i];
  }

  /** What queue `name` holds after one attempt on store `s`. */
  function AfterAttempt(s: Store, nodes: seq<string>, check: (int, int) -> bool, name: string): seq<Payload>
  {
    var w := Watermark(s, nodes);
    if w != -1 && (name == ClusterQueue || name in nodes) then Consume(Get(s, name), w, check) else Get(s, name)
  }

  /**
   * Progress of an attempt part-way through: the cluster queue and the node
   * queues `names` have been consumed against `w`, every other queue is as in `s0`.
   */
  ghost predicate ConsumedThrough(s0: Store, s: Store, names: seq<string>, w: int, check: (int, int) -> bool)
  {
    forall name {:trigger Get(s, name)} ::
      Get(s, name) == if name == ClusterQueue || name in names then Consume(Get(s0, name), w, check) else Get(s0, name)
  }

  /** Taking the cluster head iff it passes starts the attempt. */
  lemma ConsumeClusterFirst(s0: Store, s: Store, w: int, check: (int, int) -> bool)
    requires Passes(Get(s0, ClusterQueue), w, check) ==> s == s0[ClusterQueue := Get(s0, ClusterQueue)[1..]]
    requires !Passes(Get(s0, ClusterQueue), w, check) ==> s == s0
    ensures ConsumedThrough(s0, s, [], w, check)
  {
  }

  /** Node `nodes[i]` has not been visited yet: its queue is as it was. */
  lemma NodeAhead(s0: Store, s: Store, nodes: seq<string>, i: nat, w: int, check: (int, int) -> bool)
    requires i < |nodes| && DistinctNodes(nodes)
    requires ConsumedThrough(s0, s, nodes[..i], w, check)
    ensures Get(s, nodes[i]) == Get(s0, nodes[i])
    ensures nodes[i] != ClusterQueue && nodes[i] != SnapshotQueue
  {
    assert nodes[i] !in nodes[..i];
  }

  /** Taking node `nodes[i]`'s head iff it passes extends the consumed prefix by that node. */
  lemma ConsumeNodeStep(s0: Store, s: Store, s': Store, nodes: seq<string>, i: nat, w: int, check: (int, int) -> bool)
    requires i < |nodes| && DistinctNodes(nodes)
    requires ConsumedThrough(s0, s, nodes[..i], w, check)
    requires Passes(Get(s, nodes[i]), w, check) ==> s' == s[nodes[i] := Get(s, nodes[i])[1..]]
    requires !Passes(Get(s, nodes[i]), w, check) ==> s' == s
    ensures ConsumedThrough(s0, s', nodes[..i + 1], w, check)
  {
    var names, n := nodes[..i], nodes[i];
    assert nodes[..i + 1] == names + [n];
    assert n !in names;
    forall name
      ensures Get(s', name) ==
        if name == ClusterQueue || name in names + [n] then Consume(Get(s0, name), w, check) else Get(s0, name)
    {
      assert Get(s, name) ==
        if name == ClusterQueue || name in names then Consume(Get(s0, name), w, check) else Get(s0, name);
    }
  }

  /** An attempt that went through every node is the specified attempt, and it collected `Aligned`. */
  lemma ConsumedAll(s0: Store, s: Store, nodes: seq<string>, check: (int, int) -> bool)
    requires Watermark(s0, nodes) != -1
    requires ConsumedThrough(s0, s, nodes[..|nodes|], Watermark(s0, nodes), check)
    ensures forall name {:trigger Get(s, name)} :: Get(s, name) == AfterAttempt(s0, nodes, check, name)
    ensures Aligned(s0, nodes[..|nodes|], Watermark(s0, nodes), check) == Aligned(s0, nodes, Watermark(s0, nodes), check)
  {
    assert nodes[..|nodes|] == nodes;
    forall name
      ensures Get(s, name) == AfterAttempt(s0, nodes, check, name)
    {
      assert Get(s, name) ==
        if name == ClusterQueue || name in nodes then Consume(Get(s0, name), Watermark(s0, nodes), check) else Get(s0, name);
    }
  }

  /** The snapshot one attempt on `s` emits, if any. */
  function SnapshotOf(s: Store, nodes: seq<string>, check: (int, int) -> bool): (r: Option<Snapshot>)
    ensures r.Some? <==>
      && Watermark(s, nodes) != -1
      && Head(Get(s, ClusterQueue)).Cluster?
      && check(Watermark(s, nodes), Head(Get(s, ClusterQueue)).cluster.ms)
      && exists i :: 0 <= i < |nodes| && Head(Get(s, nodes[i])).Node?
           && check(Watermark(s, nodes), Head(Get(s, nodes[i])).node.ms)
    ensures r.Some? ==>
      && r.value.ms == Watermark(s, nodes)
      && Head(Get(s, ClusterQueue)) == Cluster(r.value.cluster)
      && check(r.value.ms, r.value.cluster.ms)
      && r.value.nodes != []
      && forall k :: 0 <= k < |r.value.nodes| ==> check(r.value.ms, r.value.nodes[k].ms)
  {
    var w := Watermark(s, nodes);
    var c := Get(s, ClusterQueue);
    var nodeData := Aligned(s, nodes, w, check);
    AlignedNonEmpty(s, nodes, w, check);
    AlignedBounds(s, nodes, w, check);
    if w != -1 && Passes(c, w, check) && Head(c).Cluster? && nodeData != [] then
      Some(Snapshot(w, Head(c).cluster, nodeData))
    else
      None
  }

  /** An attempt collects at most one sample per node, and every one it collects passed CheckTime. */
  lemma {:induction false} AlignedBounds(s: Store, nodes: seq<string>, w: int, check: (int, int) -> bool)
    ensures |Aligned(s, nodes, w, check)| <= |nodes|
    ensures forall k :: 0 <= k < |Aligned(s, nodes, w, check)| ==> check(w, Aligned(s, nodes, w, check)[k].ms)
  {
    if nodes != [] {
      AlignedBounds(s, nodes[..|nodes| - 1], w, check);
    }
  }

  /** An attempt collects at least one node sample iff some node head passes. */
  lemma {:induction false} AlignedNonEmpty(s: Store, nodes: seq<string>, w: int, check: (int, int) -> bool)
    ensures Aligned(s, nodes, w, check) != [] <==>
      exists i :: 0 <= i < |nodes| && Head(Get(s, nodes[i])).Node? && check(w, Head(Get(s, nodes[i])).node.ms)
  {
    if nodes != [] {
      var init := nodes[..|nodes| - 1];
      AlignedNonEmpty(s, init, w, check);
      assert forall i :: 0 <= i < |init| ==> init[i] == nodes[i];
    }
  }

  /** A node sample is collected iff it is the passing head of one of the listed node queues. */
  lemma {:induction false} AlignedMembers(s: Store, nodes: seq<string>, w: int, check: (int, int) -> bool, d: NodeData)
    ensures d in Aligned(s, nodes, w, check) <==>
      exists i :: 0 <= i < |nodes| && Head(Get(s, nodes[i])) == Node(d) && check(w, d.ms)
  {
    if nodes != [] {
      var init := nodes[..|nodes| - 1];
      AlignedMembers(s, init, w, check, d);
      assert forall i :: 0 <= i < |init| ==> init[i] == nodes[i];
    }
  }

  /** The watermark in terms of the queues: -1 iff no queue has a non-null head, else the least head timestamp. */
  lemma WatermarkMeaning(s: Store, nodes: seq<string>)
    ensures var w := Watermark(s, nodes);
      && (w == -1 <==>
            HeadTime(Get(s, ClusterQueue)).None? && forall i :: 0 <= i < |nodes| ==> HeadTime(Get(s, nodes[i])).None?)
      && (w != -1 ==>
            && (HeadTime(Get(s, ClusterQueue)) == Some(w) || exists i :: 0 <= i < |nodes| && HeadTime(Get(s, nodes[i])) == Some(w))
            && (HeadTime(Get(s, ClusterQueue)).Some? ==> w <= HeadTime(Get(s, ClusterQueue)).value)
            && forall i :: 0 <= i < |nodes| && HeadTime(Get(s, nodes[i])).Some? ==> w <= HeadTime(Get(s, nodes[i])).value)
  {
    var hs := Heads(s, nodes);
    assert forall i :: 0 <= i < |nodes| ==> hs[i] == HeadTime(Get(s, nodes[i]));
    assert hs[|nodes|] == HeadTime(Get(s, ClusterQueue));
  }

  /**
   * With a reflexive CheckTime, every attempt that finds any data removes at
   * least one item: the queue whose head is the watermark loses it. This is what
   * makes the drain loop progress.
   */
  lemma ReflexiveCheckConsumes(s: Store, nodes: seq<string>, check: (int, int) -> bool)
    requires forall t :: check(t, t)
    requires Watermark(s, nodes) != -1
    ensures exists name :: (name == ClusterQueue || name in nodes)
              && |AfterAttempt(s, nodes, check, name)| < |Get(s, name)|
  {
    WatermarkMeaning(s, nodes);
    var w := Watermark(s, nodes);
    if HeadTime(Get(s, ClusterQueue)) == Some(w) {
      assert |AfterAttempt(s, nodes, check, ClusterQueue)| < |Get(s, ClusterQueue)|;
    } else {
      var i :| 0 <= i < |nodes| && HeadTime(Get(s, nodes[i])) == Some(w);
      assert |AfterAttempt(s, nodes, check, nodes[i])| < |Get(s, nodes[i])|;
    }
  }

  /**
   * With a reflexive CheckTime, a snapshot's timestamp is the least timestamp
   * among the samples it merged, and every merged sample is at or after it.
   */
  lemma SnapshotTimestampIsMergedMinimum(s: Store, nodes: seq<string>, check: (int, int) -> bool)
    requires forall t :: check(t, t)
    requires WellTyped(s)
    requires SnapshotOf(s, nodes, check).Some?
    ensures var snap := SnapshotOf(s, nodes, check).value;
      && snap.ms <= snap.cluster.ms
      && (forall k :: 0 <= k < |snap.nodes| ==> snap.ms <= snap.nodes[k].ms)
      && (snap.ms == snap.cluster.ms || exists k :: 0 <= k < |snap.nodes| && snap.nodes[k].ms == snap.ms)
  {
    var snap := SnapshotOf(s, nodes, check).value;
    var w := Watermark(s, nodes);
    WatermarkMeaning(s, nodes);
    assert HeadTime(Get(s, ClusterQueue)) == Some(snap.cluster.ms);
    forall k | 0 <= k < |snap.nodes|
      ensures w <= snap.nodes[k].ms
    {
      AlignedMembers(s, nodes, w, check, snap.nodes[k]);
      var i :| 0 <= i < |nodes| && Head(Get(s, nodes[i])) == Node(snap.nodes[k]) && check(w, snap.nodes[k].ms);
      assert HeadTime(Get(s, nodes[i])) == Some(snap.nodes[k].ms);
    }
    if snap.cluster.ms != w {
      var i :| 0 <= i < |nodes| && HeadTime(Get(s, nodes[i])) == Some(w);
      var q := Get(s, nodes[i]);
      assert q != [] && q[0] in s[nodes[i]];
      assert Fits(nodes[i], q[0]);
      assert Head(q).Node?;
      var d := Head(q).node;
      assert d.ms == w;
      AlignedMembers(s, nodes, w, check, d);
      var k :| 0 <= k < |snap.nodes| && snap.nodes[k] == d;
    }
  }

  /**
   * An attempt that finds the cluster queue empty emits nothing, yet still
   * takes every node head that passes CheckTime: those samples are lost.
   */
  lemma ClusterlessAttemptConsumesNodes(s: Store, nodes: seq<string>, check: (int, int) -> bool, i: nat)
    requires Get(s, ClusterQueue) == []
    requires i < |nodes|
    requires Passes(Get(s, nodes[i]), Watermark(s, nodes), check)
    ensures SnapshotOf(s, nodes, check) == None
    ensures AfterAttempt(s, nodes, check, nodes[i]) == Get(s, nodes[i])[1..]
  {
    WatermarkMeaning(s, nodes);
  }

  /**
   * A worked attempt: cluster samples at 100 and 200, node "n1" at 110, node
   * "n2" at 150, and a CheckTime that accepts samples less than 50 after the
   * watermark. The snapshot is taken at 100 with the first cluster sample and
   * n1's sample; n2's sample stays queued for a later round.
   */
  lemma WindowedAttemptExample()
    ensures var s: Store := map[
        ClusterQueue := [Cluster(ClusterData(100)), Cluster(ClusterData(200))],
        "n1" := [Node(NodeData("n1", 110))],
        "n2" := [Node(NodeData("n2", 150))]];
      var check := (w: int, t: int) => t < w + 50;
      && SnapshotOf(s, ["n1", "n2"], check) == Some(Snapshot(100, ClusterData(100), [NodeData("n1", 110)]))
      && AfterAttempt(s, ["n1", "n2"], check, ClusterQueue) == [Cluster(ClusterData(200))]
      && AfterAttempt(s, ["n1", "n2"], check, "n1") == []
      && AfterAttempt(s, ["n1", "n2"], check, "n2") == [Node(NodeData("n2", 150))]
  {
    var s: Store := map[
        ClusterQueue := [Cluster(ClusterData(100)), Cluster(ClusterData(200))],
        "n1" := [Node(NodeData("n1", 110))],
        "n2" := [Node(NodeData("n2", 150))]];
    var nodes := ["n1", "n2"];
    var check := (w: int, t: int) => t < w + 50;
    assert Heads(s, nodes) == [Some(110), Some(150), Some(100)];
    assert Watermark(s, nodes) == 100;
    assert Aligned(s, nodes[..1], 100, check) == [NodeData("n1", 110)];
    assert nodes[..2] == nodes;
    assert Aligned(s, nodes, 100, check) == [NodeData("n1", 110)];
    assert SnapshotOf(s, nodes, check) == Some(Snapshot(100, ClusterData(100), [NodeData("n1", 110)]));
    assert AfterAttempt(s, nodes, check, ClusterQueue) == [Cluster(ClusterData(200))];
    assert AfterAttempt(s, nodes, check, "n1") == [];
    assert AfterAttempt(s, nodes, check, "n2") == [Node(NodeData("n2", 150))];
  }

  /** Two stores with the same queue names and the same contents everywhere are the same store. */
  lemma SameStore(s: Store, t: Store)
    requires s.Keys == t.Keys
    requires forall name {:trigger Get(s, name)} :: Get(s, name) == Get(t, name)
    ensures s == t
  {
    forall name | name in s
      ensures s[name] == t[name]
    {
      assert Get(s, name) == Get(t, name);
    }
  }

  /** The whole store after one attempt: no queue is created, each is as AfterAttempt leaves it. */
  function Attempted(s: Store, nodes: seq<string>, check: (int, int) -> bool): (a: Store)
    ensures a.Keys == s.Keys
    ensures forall name {:trigger Get(a, name)} :: Get(a, name) == AfterAttempt(s, nodes, check, name)
  {
    map name | name in s :: AfterAttempt(s, nodes, check, name)
  }

  /** The store after ProduceSnapshotAsync: the attempt, then the emitted snapshot (if any) appended to the history. */
  function Produced(s: Store, nodes: seq<string>, check: (int, int) -> bool): Store
  {
    var a := Attempted(s, nodes, check);
    match SnapshotOf(s, nodes, check)
    case Some(x) => a[SnapshotQueue := Get(a, SnapshotQueue) + [Snap(x)]]
    case None => a
  }

  /**
   * What ProduceSnapshotAsync leaves: the history extended by exactly the
   * emitted snapshot, if any; every other queue as the attempt leaves it.
   */
  lemma ProducedQueues(s: Store, nodes: seq<string>, check: (int, int) -> bool)
    requires DistinctNodes(nodes)
    ensures Get(Produced(s, nodes, check), SnapshotQueue) ==
      Get(s, SnapshotQueue) + (match SnapshotOf(s, nodes, check) case Some(x) => [Snap(x)] case None => [])
    ensures forall name {:trigger Get(Produced(s, nodes, check), name)} :: name != SnapshotQueue ==>
      Get(Produced(s, nodes, check), name) == AfterAttempt(s, nodes, check, name)
  {
    assert SnapshotQueue !in nodes;
    assert AfterAttempt(s, nodes, check, SnapshotQueue) == Get(s, SnapshotQueue);
  }

  /** The store after TryPruneAsync: the oldest snapshot evicted iff the history is over capacity. */
  function Prune(s: Store, cap: nat): Store
  {
    var h := Get(s, SnapshotQueue);
    if |h| > cap then s[SnapshotQueue := h[1..]] else s
  }

  /** One round of the drain loop: produce, then prune. */
  function Round(s: Store, nodes: seq<string>, check: (int, int) -> bool, cap: nat): Store
  {
    Prune(Produced(s, nodes, check), cap)
  }

  /**
   * What one round leaves: every queue but the history as the attempt leaves
   * it; the history extended by the emitted snapshot, then cut back by its
   * oldest entry when that takes it over capacity.
   */
  lemma RoundQueues(s: Store, nodes: seq<string>, check: (int, int) -> bool, cap: nat, name: string)
    requires DistinctNodes(nodes)
    ensures var h := Get(s, SnapshotQueue) + (match SnapshotOf(s, nodes, check) case Some(x) => [Snap(x)] case None => []);
      && (name != SnapshotQueue ==> Get(Round(s, nodes, check, cap), name) == AfterAttempt(s, nodes, check, name))
      && (name == SnapshotQueue ==> Get(Round(s, nodes, check, cap), name) == if |h| > cap then h[1..] else h)
  {
    ProducedQueues(s, nodes, check);
  }

  /** A round never takes the history over capacity, and never lengthens a history already over it. */
  lemma RoundHistoryBound(s: Store, nodes: seq<string>, check: (int, int) -> bool, cap: nat)
    ensures |Get(Round(s, nodes, check, cap), SnapshotQueue)| <= cap
         || |Get(Round(s, nodes, check, cap), SnapshotQueue)| <= |Get(s, SnapshotQueue)|
  {
    assert |AfterAttempt(s, nodes, check, SnapshotQueue)| <= |Get(s, SnapshotQueue)|;
  }

  /** The node lists one round of the drain loop reads: one for the gate check, one for the attempt. */
  datatype RoundLists = RoundLists(gate: seq<string>, attempt: seq<string>)

  /** What one round does to the store, given the attempt's node list. */
  type Step = (Store, seq<string>) -> Store

  /** The round of a service with alignment predicate `check` and history capacity `cap`. */
  function RoundStep(check: (int, int) -> bool, cap: nat): Step
  {
    (s: Store, nodes: seq<string>) => Round(s, nodes, check, cap)
  }

  /** The store after the given rounds, run one after another whatever the gate says. */
  function Rounds(s: Store, ls: seq<RoundLists>, step: Step): Store
    decreases |ls|
  {
    if ls == [] then s else Rounds(step(s, ls[0].attempt), ls[1..], step)
  }

  /**
   * The store after one drain: a round runs while the gate, checked against
   * that round's own node list, is open; the drain ends at the first closed
   * gate or when the lists run out.
   */
  function DrainOf(s: Store, ls: seq<RoundLists>, step: Step): Store
    decreases |ls|
  {
    if ls == [] || !GateOpen(s, ls[0].gate) then s
    else DrainOf(step(s, ls[0].attempt), ls[1..], step)
  }

  /** The store after a run: one drain per wake-up, in order. */
  function Run(s: Store, wakes: seq<seq<RoundLists>>, step: Step): Store
  {
    if wakes == [] then s
    else DrainOf(Run(s, wakes[..|wakes| - 1], step), wakes[|wakes| - 1], step)
  }

  /** One more round is one more step after the rounds before it. */
  lemma {:induction false} RoundsSnoc(s: Store, ls: seq<RoundLists>, k: nat, step: Step)
    requires k < |ls|
    ensures Rounds(s, ls[..k + 1], step) == step(Rounds(s, ls[..k], step), ls[k].attempt)
    decreases k
  {
    if k == 0 {
      assert ls[..1][1..] == [];
    } else {
      RoundsSnoc(step(s, ls[0].attempt), ls[1..], k - 1, step);
      assert ls[..k + 1][1..] == ls[1..][..k];
      assert ls[..k][1..] == ls[1..][..k - 1];
    }
  }

  /** The gate was open before each of the first `r` rounds. */
  predicate GatesOpen(s: Store, ls: seq<RoundLists>, r: nat, step: Step)
    requires r <= |ls|
  {
    forall j :: 0 <= j < r ==> GateOpen(Rounds(s, ls[..j], step), ls[j].gate)
  }

  /** An open gate before round `r` extends the open gates by one round. */
  lemma GatesOpenSnoc(s: Store, ls: seq<RoundLists>, r: nat, step: Step)
    requires r < |ls|
    requires GatesOpen(s, ls, r, step)
    requires GateOpen(Rounds(s, ls[..r], step), ls[r].gate)
    ensures GatesOpen(s, ls, r + 1, step)
  {
  }

  /** The first `j + 1` rounds from `s` are the first `j` rounds from the store after round one. */
  lemma RoundsCons(s: Store, ls: seq<RoundLists>, j: nat, step: Step)
    requires j < |ls|
    ensures Rounds(s, ls[..j + 1], step) == Rounds(step(s, ls[0].attempt), ls[1..][..j], step)
  {
    assert ls[..j + 1][1..] == ls[1..][..j];
  }

  /**
   * A drain is the rounds up to its first closed gate: if the gate was open
   * before each of the first `r` rounds, and closed after them unless the
   * lists ran out, the drain leaves exactly the store those `r` rounds leave.
   */
  lemma {:induction false} DrainOfRounds(s: Store, ls: seq<RoundLists>, r: nat, step: Step)
    requires r <= |ls|
    requires forall j :: 0 <= j < r ==> GateOpen(Rounds(s, ls[..j], step), ls[j].gate)
    requires r < |ls| ==> !GateOpen(Rounds(s, ls[..r], step), ls[r].gate)
    ensures DrainOf(s, ls, step) == Rounds(s, ls[..r], step)
    decreases r
  {
    assert ls[..0] == [];
    if r > 0 {
      assert GateOpen(s, ls[0].gate);
      var s' := step(s, ls[0].attempt);
      var tail := ls[1..];
      forall j | 0 <= j < r - 1
        ensures GateOpen(Rounds(s', tail[..j], step), tail[j].gate)
      {
        RoundsCons(s, ls, j, step);
        assert tail[j] == ls[j + 1];
        assert GateOpen(Rounds(s, ls[..j + 1], step), ls[j + 1].gate);
      }
      RoundsCons(s, ls, r - 1, step);
      DrainOfRounds(s', tail, r - 1, step);
    }
  }

  /** A step that never takes the history over `cap`, nor lengthens one already over it. */
  ghost predicate KeepsHistoryBound(step: Step, cap: nat)
  {
    forall s, nodes :: |Get(step(s, nodes), SnapshotQueue)| <= cap || |Get(step(s, nodes), SnapshotQueue)| <= |Get(s, SnapshotQueue)|
  }

  /** The aggregator's round keeps the history bound. */
  lemma RoundStepKeepsHistoryBound(check: (int, int) -> bool, cap: nat)
    ensures KeepsHistoryBound(RoundStep(check, cap), cap)
  {
    forall s, nodes
      ensures |Get(Round(s, nodes, check, cap), SnapshotQueue)| <= cap
           || |Get(Round(s, nodes, check, cap), SnapshotQueue)| <= |Get(s, SnapshotQueue)|
    {
      RoundHistoryBound(s, nodes, check, cap);
    }
  }

  /** Any number of such rounds keeps the same bound. */
  lemma {:induction false} RoundsHistoryBound(s: Store, ls: seq<RoundLists>, step: Step, cap: nat)
    requires KeepsHistoryBound(step, cap)
    ensures |Get(Rounds(s, ls, step), SnapshotQueue)| <= cap
         || |Get(Rounds(s, ls, step), SnapshotQueue)| <= |Get(s, SnapshotQueue)|
    decreases |ls|
  {
    if ls != [] {
      RoundsHistoryBound(step(s, ls[0].attempt), ls[1..], step, cap);
    }
  }

  /** The non-null payloads of a queue, oldest first: what a full read returns. */
  function NonNull(q: seq<Payload>): (r: seq<Payload>)
    ensures |r| <= |q|
    ensures forall p :: p in r <==> p in q && p != Null
  {
    if q == [] then []
    else NonNull(q[..|q| - 1]) + (if q[|q| - 1] == Null then [] else [q[|q| - 1]])
  }

  /** The snapshots of the history queue whose timestamp lies in [lo, hi], in queue order. */
  function InRange(q: seq<Payload>, lo: int, hi: int): (r: seq<Snapshot>)
    ensures |r| <= |q|
    ensures forall x :: x in r <==> Snap(x) in q && lo <= x.ms <= hi
  {
    if q == [] then []
    else
      InRange(q[..|q| - 1], lo, hi)
        + (match q[|q| - 1]
           case Snap(x) => if lo <= x.ms <= hi then [x] else []
           case _ => [])
  }
}
