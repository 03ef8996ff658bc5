/**
 * The aggregation service: a store of named FIFO queues (one per node, one for
 * cluster data, one for the snapshot history), the queue primitives, one
 * aggregation attempt, retention, the drain loop and the remote API.
 * Each queue operation is one atomic step on `store`.
 */
module Aggregation {
  import opened Wrappers
  import opened SnapshotModel

  /** The stateful service: the reliable store of queues and the two fixed settings it runs with. */
  class Aggregator {
    /** The reliable-queue store, queue name to contents, oldest first. */
    var store: Store
    /** Snapshot.queueCapacity. */
    const capacity: nat
    /** Snapshot.CheckTime(watermark, timestamp), the alignment predicate. */
    const checkTime: (int, int) -> bool

    ghost predicate Valid()
      reads this
    {
      WellTyped(store)
    }

    constructor (capacity: nat, checkTime: (int, int) -> bool)
      ensures Valid()
      ensures store == map[] && this.capacity == capacity && this.checkTime == checkTime
    {
      store := map[];
      this.capacity := capacity;
      this.checkTime := checkTime;
    }

    /** AddDataAsync: enqueue `data` at the tail of queue `name`, creating it if absent. */
    method AddData(name: string, data: Payload)
      requires Valid() && Fits(name, data)
      modifies this
      ensures Valid()
      ensures store == old(store)[name := old(Get(store, name)) + [data]]
    {
      store := store[name := Get(store, name) + [data]];
    }

    /** PeekFirstAsync: the head of queue `name`, or `Null`; nothing changes. */
    method PeekFirst(name: string) returns (p: Payload)
      ensures p == Null <==> Get(store, name) == [] || Get(store, name)[0] == Null
      ensures p != Null ==> p == Get(store, name)[0]
      ensures p != Null && Valid() ==> Fits(name, p)
    {
      var q := Get(store, name);
      if q != [] {
        p := q[0];
      } else {
        p := Null;
      }
    }

    /** DequeueAsync: remove and return the head of queue `name`, or return `Null` for an empty queue. */
    method Dequeue(name: string) returns (p: Payload)
      requires Valid()
      modifies this
      ensures Valid()
      ensures p == Head(old(Get(store, name)))
      ensures old(Get(store, name)) == [] ==> store == old(store)
      ensures old(Get(store, name)) != [] ==> store == old(store)[name := old(Get(store, name))[1..]]
      ensures store.Keys == old(store).Keys
    {
      var q := Get(store, name);
      if q != [] {
        p := q[0];
        store := store[name := q[1..]];
        assert forall i :: 0 <= i < |q| - 1 ==> q[1..][i] == q[i + 1];
      } else {
        p := Null;
      }
    }

    /** GetQueueCountAsync: the number of items in queue `name`. */
    method GetQueueCount(name: string) returns (count: nat)
      ensures count == |Get(store, name)|
    {
      count := |Get(store, name)|;
    }

    /** GetDataAsync: `None` for a null name; otherwise every non-null item of the queue, oldest first. */
    method GetData(name: Option<string>) returns (r: Option<seq<Payload>>)
      ensures name.None? ==> r.None?
      ensures name.Some? ==> r == Some(NonNull(Get(store, name.value)))
    {
      if name.None? {
        return None;
      }
      var q := Get(store, name.value);
      var list: seq<Payload> := [];
      var i := 0;
      while i < |q|
        invariant 0 <= i <= |q|
        invariant list == NonNull(q[..i])
      {
        var data := q[i];
        if data != Null {
          list := list + [data];
        }
        assert q[..i + 1][..i] == q[..i];
        i := i + 1;
      }
      assert q[..i] == q;
      r := Some(list);
    }

    /** PutDataRemote: append `data` to queue `name`. */
    method PutDataRemote(name: string, data: Payload)
      requires Valid() && Fits(name, data)
      modifies this
      ensures Valid()
      ensures Get(store, name) == old(Get(store, name)) + [data]
      ensures forall other :: other != name ==> Get(store, other) == old(Get(store, other))
    {
      AddData(name, data);
    }

    /** GetDataRemote: the full non-null contents of queue `name`. */
    method GetDataRemote(name: Option<string>) returns (r: Option<seq<Payload>>)
      ensures name.None? ==> r.None?
      ensures name.Some? ==> r == Some(NonNull(Get(store, name.value)))
    {
      r := GetData(name);
    }

    /** A put on an empty queue followed by a full read returns exactly the item put. */
    method PutThenGet(name: string, data: Payload) returns (r: Option<seq<Payload>>)
      requires Valid() && Fits(name, data) && data != Null
      requires Get(store, name) == []
      modifies this
      ensures r == Some([data])
    {
      PutDataRemote(name, data);
      assert Get(store, name) == [data];
      r := GetDataRemote(Some(name));
      assert NonNull([data]) == NonNull([]) + [data];
    }

    /** GetSnapshotsRemote: the snapshots with lo <= ms <= hi, in queue order; the queue is not changed. */
    method GetSnapshotsRemote(lo: int, hi: int) returns (list: seq<Snapshot>)
      requires Valid()
      ensures list == InRange(Get(store, SnapshotQueue), lo, hi)
    {
      var q := Get(store, SnapshotQueue);
      list := [];
      var i := 0;
      while i < |q|
        invariant 0 <= i <= |q|
        invariant list == InRange(q[..i], lo, hi)
      {
        var data := q[i];
        if data != Null {
          assert data in store[SnapshotQueue] && Fits(SnapshotQueue, data);
          var s := data.snapshot;
          if lo <= s.ms <= hi {
            list := list + [s];
          }
        }
        assert q[..i + 1][..i] == q[..i];
        i := i + 1;
      }
      assert q[..i] == q;
    }

    /** DeleteAllSnapshotsRemote: clear the snapshot history; no other queue changes. */
    method DeleteAllSnapshotsRemote()
      requires Valid()
      modifies this
      ensures Valid()
      ensures Get(store, SnapshotQueue) == []
      ensures forall name :: name != SnapshotQueue ==> Get(store, name) == old(Get(store, name))
    {
      store := store[SnapshotQueue := []];
    }

    /** GetMinQueueCountAsync: the least item count over the node queues and the cluster queue, starting from long.MaxValue. */
    method GetMinQueueCount(nodes: seq<string>) returns (minCount: int)
      ensures minCount <= LongMax
      ensures minCount <= |Get(store, ClusterQueue)|
      ensures forall i :: 0 <= i < |nodes| ==> minCount <= |Get(store, nodes[i])|
      ensures minCount == LongMax || minCount == |Get(store, ClusterQueue)|
              || exists i :: 0 <= i < |nodes| && minCount == |Get(store, nodes[i])|
      ensures minCount > 1 <==> GateOpen(store, nodes)
    {
      minCount := LongMax;
      for i := 0 to |nodes|
        invariant minCount <= LongMax
        invariant forall k :: 0 <= k < i ==> minCount <= |Get(store, nodes[k])|
        invariant minCount == LongMax || exists k :: 0 <= k < i && minCount == |Get(store, nodes[k])|
      {
        var count := GetQueueCount(nodes[i]);
        if count < minCount {
          minCount := count;
        }
      }
      var count := GetQueueCount(ClusterQueue);
      if count < minCount {
        minCount := count;
      }
    }

    /** MinTimeStampInQueueAsync: the watermark, -1 when no queue has a head; nothing changes. */
    method MinTimeStampInQueue(nodes: seq<string>) returns (timeStamp: int)
      requires Valid() && DistinctNodes(nodes)
      ensures timeStamp == Watermark(store, nodes)
    {
      timeStamp := -1;
      for i := 0 to |nodes|
        invariant timeStamp == MinHead(HeadTimes(store, nodes[..i]))
      {
        WatermarkScanStep(store, nodes, i);
        var hw := PeekFirst(nodes[i]);
        if hw != Null {
          assert hw in store[nodes[i]] && Fits(nodes[i], hw);
          var data := hw.node;
          if data.ms < timeStamp || timeStamp == -1 {
            timeStamp := data.ms;
          }
        }
      }
      assert nodes[..|nodes|] == nodes;
      WatermarkScanLast(store, nodes);
      var sf := PeekFirst(ClusterQueue);
      if sf != Null {
        assert sf in store[ClusterQueue] && Fits(ClusterQueue, sf);
        var data := sf.cluster;
        if data.ms < timeStamp || timeStamp == -1 {
          timeStamp := data.ms;
        }
      }
    }

    /**
     * CreateSnapshot: one aggregation attempt. The cluster head and each node
     * head is taken iff it passes CheckTime against the watermark, even when the
     * attempt then emits nothing; a snapshot is emitted only with cluster data
     * and at least one node sample.
     */
    method CreateSnapshot(nodes: seq<string>) returns (snap: Option<Snapshot>)
      requires Valid() && DistinctNodes(nodes)
      modifies this
      ensures Valid()
      ensures snap == SnapshotOf(old(store), nodes, checkTime)
      ensures forall name {:trigger Get(store, name)} ::
                Get(store, name) == AfterAttempt(old(store), nodes, checkTime, name)
      ensures Watermark(old(store), nodes) == -1 ==> store == old(store)
      ensures store == Attempted(old(store), nodes, checkTime)
    {
      var nodeDataList: seq<NodeData> := [];
      var clusterData: Option<ClusterData> := None;
      var minTime := MinTimeStampInQueue(nodes);
      var success := true;

      if minTime == -1 {
        SameStore(store, Attempted(old(store), nodes, checkTime));
        return None;
      }

      var clusterDataBytes := PeekFirst(ClusterQueue);
      if clusterDataBytes != Null {
        clusterData := Some(clusterDataBytes.cluster);
        var checkOk := checkTime(minTime, clusterDataBytes.cluster.ms);
        if !checkOk {
          success := false;
        } else {
          var _ := Dequeue(ClusterQueue);
        }
      } else {
        success := false;
      }
      ConsumeClusterFirst(old(store), store, minTime, checkTime);

      for i := 0 to |nodes|
        invariant Valid() && store.Keys == old(store).Keys
        invariant nodeDataList == Aligned(old(store), nodes[..i], minTime, checkTime)
        invariant ConsumedThrough(old(store), store, nodes[..i], minTime, checkTime)
      {
        ghost var before := store;
        AlignedStep(old(store), nodes, i, minTime, checkTime);
        NodeAhead(old(store), store, nodes, i, minTime, checkTime);
        var nodeDataBytes := PeekFirst(nodes[i]);
        if nodeDataBytes != Null {
          var nodeData := nodeDataBytes.node;
          var checkOk := checkTime(minTime, nodeData.ms);
          if checkOk {
            nodeDataList := nodeDataList + [nodeData];
            var _ := Dequeue(nodes[i]);
          }
        }
        ConsumeNodeStep(old(store), before, store, nodes, i, minTime, checkTime);
      }
      ConsumedAll(old(store), store, nodes, checkTime);
      SameStore(store, Attempted(old(store), nodes, checkTime));

      if |nodeDataList| == 0 {
        success := false;
      }
      if success {
        snap := Some(Snapshot(minTime, clusterData.value, nodeDataList));
      } else {
        snap := None;
      }
    }

    /** ProduceSnapshotAsync: one attempt, and the emitted snapshot (if any) appended to the history. */
    method ProduceSnapshot(nodes: seq<string>)
      requires Valid() && DistinctNodes(nodes)
      modifies this
      ensures Valid()
      ensures Get(store, SnapshotQueue) ==
        old(Get(store, SnapshotQueue))
          + (match SnapshotOf(old(store), nodes, checkTime) case Some(x) => [Snap(x)] case None => [])
      ensures forall name {:trigger Get(store, name)} :: name != SnapshotQueue ==>
        Get(store, name) == AfterAttempt(old(store), nodes, checkTime, name)
      ensures store == Produced(old(store), nodes, checkTime)
    {
      var snap := CreateSnapshot(nodes);
      if snap.Some? {
        AddData(SnapshotQueue, Snap(snap.value));
      }
      ProducedQueues(old(store), nodes, checkTime);
    }

    /** TryPruneAsync: evict exactly the oldest snapshot iff the history is over capacity. */
    method TryPrune()
      requires Valid()
      modifies this
      ensures Valid()
      ensures Get(store, SnapshotQueue) ==
        if |old(Get(store, SnapshotQueue))| > capacity then old(Get(store, SnapshotQueue))[1..]
        else old(Get(store, SnapshotQueue))
      ensures forall name {:trigger Get(store, name)} :: name != SnapshotQueue ==> Get(store, name) == old(Get(store, name))
      ensures |old(Get(store, SnapshotQueue))| <= capacity + 1 ==> |Get(store, SnapshotQueue)| <= capacity
      ensures store == Prune(old(store), capacity)
    {
      var count := GetQueueCount(SnapshotQueue);
      if count > capacity {
        var _ := Dequeue(SnapshotQueue);
      }
    }

    /** The body of the drain loop: one attempt with its snapshot recorded, then retention. */
    method ProduceAndPrune(nodes: seq<string>)
      requires Valid() && DistinctNodes(nodes)
      modifies this
      ensures Valid()
      ensures store == RoundStep(checkTime, capacity)(old(store), nodes)
    {
      ProduceSnapshot(nodes);
      TryPrune();
    }

    /**
     * The inner loop of RunAsync: check the gate, then produce and prune, while
     * the gate is open. Round `j` reads the node lists `lists[j]`, one for its
     * gate check and one for its attempt; the drain also ends when the lists
     * run out. `rounds` rounds ran, each behind an open gate, and the store is
     * what they leave.
     */
    method Drain(lists: seq<RoundLists>) returns (rounds: nat)
      requires Valid()
      requires forall j :: 0 <= j < |lists| ==> DistinctNodes(lists[j].attempt)
      modifies this
      ensures Valid()
      ensures rounds <= |lists|
      ensures forall j :: 0 <= j < rounds ==>
        GateOpen(Rounds(old(store), lists[..j], RoundStep(checkTime, capacity)), lists[j].gate)
      ensures store == Rounds(old(store), lists[..rounds], RoundStep(checkTime, capacity))
      ensures rounds < |lists| ==> !GateOpen(store, lists[rounds].gate)
      ensures store == DrainOf(old(store), lists, RoundStep(checkTime, capacity))
      ensures |Get(store, SnapshotQueue)| <= capacity || |Get(store, SnapshotQueue)| <= |old(Get(store, SnapshotQueue))|
    {
      ghost var step := RoundStep(checkTime, capacity);
      rounds := 0;
      while rounds < |lists|
        invariant rounds <= |lists|
        invariant Valid()
        invariant GatesOpen(old(store), lists, rounds, step)
        invariant store == Rounds(old(store), lists[..rounds], step)
      {
        var minCount := GetMinQueueCount(lists[rounds].gate);
        if minCount <= 1 {
          break;
        }
        GatesOpenSnoc(old(store), lists, rounds, step);
        ProduceAndPrune(lists[rounds].attempt);
        RoundsSnoc(old(store), lists, rounds, step);
        rounds := rounds + 1;
      }
      DrainOfRounds(old(store), lists, rounds, step);
      RoundStepKeepsHistoryBound(checkTime, capacity);
      RoundsHistoryBound(old(store), lists[..rounds], step, capacity);
    }

    /**
     * RunAsync: one drain per wake-up until cancellation; `wakes[k]` holds the
     * node lists the drain of wake-up `k` reads. The store is what the run of
     * those drains leaves; a history within capacity stays within it.
     */
    method RunAsync(wakes: seq<seq<RoundLists>>)
      requires Valid()
      requires forall k, j :: 0 <= k < |wakes| && 0 <= j < |wakes[k]| ==> DistinctNodes(wakes[k][j].attempt)
      modifies this
      ensures Valid()
      ensures store == Run(old(store), wakes, RoundStep(checkTime, capacity))
      ensures |Get(store, SnapshotQueue)| <= capacity || |Get(store, SnapshotQueue)| <= |old(Get(store, SnapshotQueue))|
    {
      for k := 0 to |wakes|
        invariant Valid()
        invariant store == Run(old(store), wakes[..k], RoundStep(checkTime, capacity))
        invariant |Get(store, SnapshotQueue)| <= capacity || |Get(store, SnapshotQueue)| <= |old(Get(store, SnapshotQueue))|
      {
        var _ := Drain(wakes[k]);
        assert wakes[..k + 1][..k] == wakes[..k];
      }
      assert wakes[..|wakes|] == wakes;
    }
  }
}
