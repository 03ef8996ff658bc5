/**
 * Cluster-query helpers: grouping the replicas deployed on a node by host
 * process, and counting the ready replicas and instances of deployed services.
 * The query results are inputs; the queries themselves are not modelled.
 */
module SFUtilities {
  import opened Wrappers

  datatype ServiceKind = InvalidKind | Stateless | Stateful

  datatype ReplicaRole = UnknownRole | NoneRole | Primary | IdleSecondary | ActiveSecondary

  datatype ChildProcess = ChildProcess(procName: string, procId: int)

  /** One deployed replica or instance, as the deployed-replica query reports it. */
  datatype Replica = Replica(
    serviceKind: ServiceKind,
    replicaRole: ReplicaRole,
    hostProcessId: int,
    childProcesses: Option<seq<ChildProcess>>,
    serviceName: string)

  /** The four counters kept per host process and for the whole cluster. */
  datatype Counts = Counts(primaryCount: int, replicaCount: int, instanceCount: int, count: int)

  /** Everything gathered about one host process. */
  datatype ProcessData = ProcessData(
    id: int,
    childProcesses: seq<ChildProcess>,
    serviceUris: seq<string>,
    allCounts: Counts)

  /** A fresh record for process `id`: zero counters, empty lists. */
  function NewProcessData(id: int): ProcessData
  {
    ProcessData(id, [], [], Counts(0, 0, 0, 0))
  }

  /** The C# cast `(int)` of a long: keep the low 32 bits, as a signed value. */
  function ToInt32(x: int): (r: int)
    ensures -0x8000_0000 <= r < 0x8000_0000
    ensures -0x8000_0000 <= x < 0x8000_0000 ==> r == x
    ensures (x - r) % 0x1_0000_0000 == 0
  {
    var m := x % 0x1_0000_0000;
    if m >= 0x8000_0000 then m - 0x1_0000_0000 else m
  }

  /** The dictionary key a replica is filed under. */
  function Pid(r: Replica): int
  {
    ToInt32(r.hostProcessId)
  }

  /** The keys of the grouping: every distinct process id in the replica list. */
  function Pids(rs: seq<Replica>): set<int>
  {
    set i | 0 <= i < |rs| :: Pid(rs[i])
  }

  /** The replicas hosted in process `p`, in list order. */
  function Hosted(rs: seq<Replica>, p: int): (h: seq<Replica>)
    ensures |h| <= |rs|
  {
    if rs == [] then []
    else Hosted(rs[..|rs| - 1], p) + (if Pid(rs[|rs| - 1]) == p then [rs[|rs| - 1]] else [])
  }

  /** The replicas filed under `p` are exactly the listed replicas whose key is `p`. */
  lemma {:induction false} HostedMembers(rs: seq<Replica>, p: int)
    ensures forall r :: r in Hosted(rs, p) <==> r in rs && Pid(r) == p
  {
    if rs != [] {
      var init := rs[..|rs| - 1];
      HostedMembers(init, p);
      assert rs == init + [rs[|rs| - 1]];
    }
  }

  /** Appending a replica adds its key to the key set. */
  lemma PidsSnoc(rs: seq<Replica>, r: Replica)
    ensures Pids(rs + [r]) == Pids(rs) + {Pid(r)}
  {
    var rs' := rs + [r];
    assert rs'[|rs|] == r;
    forall k | 0 <= k < |rs| ensures rs'[k] == rs[k] { }
  }

  /** A process has a record exactly when some replica is hosted in it. */
  lemma {:induction false} HostedNonEmpty(rs: seq<Replica>, p: int)
    ensures Hosted(rs, p) != [] <==> p in Pids(rs)
  {
    if rs != [] {
      var init := rs[..|rs| - 1];
      HostedNonEmpty(init, p);
      assert rs == init + [rs[|rs| - 1]];
      PidsSnoc(init, rs[|rs| - 1]);
    }
  }

  function StatefulCount(rs: seq<Replica>): nat
  {
    if rs == [] then 0
    else StatefulCount(rs[..|rs| - 1]) + (if rs[|rs| - 1].serviceKind == Stateful then 1 else 0)
  }

  function StatelessCount(rs: seq<Replica>): nat
  {
    if rs == [] then 0
    else StatelessCount(rs[..|rs| - 1]) + (if rs[|rs| - 1].serviceKind != Stateful then 1 else 0)
  }

  function PrimaryCount(rs: seq<Replica>): nat
  {
    if rs == [] then 0
    else
      var r := rs[|rs| - 1];
      PrimaryCount(rs[..|rs| - 1]) + (if r.serviceKind == Stateful && r.replicaRole == Primary then 1 else 0)
  }

  /** The service names of a replica list, one per replica, in order. */
  function Uris(rs: seq<Replica>): (u: seq<string>)
    ensures |u| == |rs|
  {
    if rs == [] then [] else Uris(rs[..|rs| - 1]) + [rs[|rs| - 1].serviceName]
  }

  /** The child processes of the first replica of a list; none for an empty list or a null list. */
  function FirstChildren(rs: seq<Replica>): seq<ChildProcess>
  {
    if rs == [] then []
    else match rs[0].childProcesses
      case Some(c) => c
      case None => []
  }

  /** The record of process `p` described directly from the replicas it hosts. */
  function Expected(rs: seq<Replica>, p: int): ProcessData
  {
    var h := Hosted(rs, p);
    ProcessData(p, FirstChildren(h), Uris(h),
      Counts(PrimaryCount(h), StatefulCount(h), StatelessCount(h), |h|))
  }

  /** Every replica is stateful or not: the two role counters add up to the replica count. */
  lemma {:induction false} RoleSplit(rs: seq<Replica>)
    ensures StatefulCount(rs) + StatelessCount(rs) == |rs|
  {
    if rs != [] {
      RoleSplit(rs[..|rs| - 1]);
    }
  }

  /** Only stateful replicas can be counted as primaries. */
  lemma {:induction false} PrimariesAreStateful(rs: seq<Replica>)
    ensures PrimaryCount(rs) <= StatefulCount(rs)
  {
    if rs != [] {
      PrimariesAreStateful(rs[..|rs| - 1]);
    }
  }

  /**
   * The counters of every process record: Count is the number of replicas it
   * hosts, split into ReplicaCount and InstanceCount; PrimaryCount never exceeds
   * ReplicaCount; there is one service URI per replica.
   */
  lemma ProcessCountsConsistent(rs: seq<Replica>, p: int)
    ensures var e := Expected(rs, p);
      && e.allCounts.count == |Hosted(rs, p)|
      && e.allCounts.replicaCount + e.allCounts.instanceCount == e.allCounts.count
      && e.allCounts.primaryCount <= e.allCounts.replicaCount
      && |e.serviceUris| == e.allCounts.count
  {
    RoleSplit(Hosted(rs, p));
    PrimariesAreStateful(Hosted(rs, p));
  }

  /** The service name of every listed replica appears among the URIs. */
  lemma {:induction false} UrisMembers(rs: seq<Replica>, r: Replica)
    requires r in rs
    ensures r.serviceName in Uris(rs)
  {
    var init := rs[..|rs| - 1];
    assert rs == init + [rs[|rs| - 1]];
    if r != rs[|rs| - 1] {
      UrisMembers(init, r);
    }
  }

  /**
   * No replica is lost: each one's process has a record, and that record lists
   * the replica's service.
   */
  lemma ReplicaFiled(rs: seq<Replica>, r: Replica)
    requires r in rs
    ensures Pid(r) in Pids(rs)
    ensures r.serviceName in Expected(rs, Pid(r)).serviceUris
  {
    HostedMembers(rs, Pid(r));
    HostedNonEmpty(rs, Pid(r));
    UrisMembers(Hosted(rs, Pid(r)), r);
  }

  /** A process with no replicas yet has the fresh record. */
  lemma ExpectedAbsent(rs: seq<Replica>, p: int)
    requires p !in Pids(rs)
    ensures Expected(rs, p) == NewProcessData(p)
  {
    HostedNonEmpty(rs, p);
  }

  /** A replica of another process leaves the record of `p` as it was. */
  lemma ExpectedOther(rs: seq<Replica>, r: Replica, p: int)
    requires Pid(r) != p
    ensures Expected(rs + [r], p) == Expected(rs, p)
  {
    assert (rs + [r])[..|rs|] == rs;
    assert Hosted(rs + [r], p) == Hosted(rs, p);
  }

  /** Appending a replica extends the hosted list of its own process only. */
  lemma HostedSnoc(rs: seq<Replica>, r: Replica, p: int)
    ensures Hosted(rs + [r], p) == Hosted(rs, p) + (if Pid(r) == p then [r] else [])
  {
    assert (rs + [r])[..|rs|] == rs;
  }

  /** The counters, the URI list and the child list of a hosted list extended by one replica. */
  lemma HostedListSnoc(h: seq<Replica>, r: Replica)
    ensures PrimaryCount(h + [r]) == PrimaryCount(h) + (if r.serviceKind == Stateful && r.replicaRole == Primary then 1 else 0)
    ensures StatefulCount(h + [r]) == StatefulCount(h) + (if r.serviceKind == Stateful then 1 else 0)
    ensures StatelessCount(h + [r]) == StatelessCount(h) + (if r.serviceKind == Stateful then 0 else 1)
    ensures Uris(h + [r]) == Uris(h) + [r.serviceName]
    ensures FirstChildren(h + [r]) == if h == [] then FirstChildren([r]) else FirstChildren(h)
  {
    assert (h + [r])[..|h|] == h;
    if h != [] {
      assert (h + [r])[0] == h[0];
    }
  }

  /**
   * A replica of process `p` adds its service name and its role to the record
   * of `p`; the child processes come from it only when it is the first one.
   */
  lemma ExpectedSnoc(rs: seq<Replica>, r: Replica)
    ensures var p := Pid(r);
      var e := Expected(rs, p);
      var e' := Expected(rs + [r], p);
      && e'.id == p
      && e'.childProcesses ==
           (if Hosted(rs, p) == [] then (match r.childProcesses case Some(c) => c case None => []) else e.childProcesses)
      && e'.serviceUris == e.serviceUris + [r.serviceName]
      && e'.allCounts == Counts(
           e.allCounts.primaryCount + (if r.serviceKind == Stateful && r.replicaRole == Primary then 1 else 0),
           e.allCounts.replicaCount + (if r.serviceKind == Stateful then 1 else 0),
           e.allCounts.instanceCount + (if r.serviceKind == Stateful then 0 else 1),
           e.allCounts.count + 1)
  {
    var p := Pid(r);
    HostedSnoc(rs, r, p);
    HostedListSnoc(Hosted(rs, p), r);
  }

  /**
   * The record the loop builds for the key of `r`: the earlier record, or a fresh
   * one carrying the child processes of `r`, extended by the service name and
   * the role of `r`.
   */
  lemma RecordSnoc(rs: seq<Replica>, r: Replica, id: int, before: ProcessData,
                   primary: int, replica: int, instance: int)
    requires id == Pid(r)
    requires id in Pids(rs) ==> before == Expected(rs, id)
    requires id !in Pids(rs) ==> before == NewProcessData(id).(childProcesses :=
      match r.childProcesses case Some(c) => c case None => [])
    requires primary == (if r.serviceKind == Stateful && r.replicaRole == Primary then 1 else 0)
    requires replica == (if r.serviceKind == Stateful then 1 else 0)
    requires instance == (if r.serviceKind == Stateful then 0 else 1)
    ensures before.(
      serviceUris := before.serviceUris + [r.serviceName],
      allCounts := Counts(
        before.allCounts.primaryCount + primary,
        before.allCounts.replicaCount + replica,
        before.allCounts.instanceCount + instance,
        before.allCounts.count + 1)) == Expected(rs + [r], id)
  {
    ExpectedSnoc(rs, r);
    HostedNonEmpty(rs, id);
    if id !in Pids(rs) {
      ExpectedAbsent(rs, id);
    }
  }

  /** `pid` holds one record per process of `rs`, each as `Expected` describes it. */
  predicate Grouped(pid: map<int, ProcessData>, rs: seq<Replica>)
  {
    && pid.Keys == Pids(rs)
    && forall p :: p in pid ==> pid[p] == Expected(rs, p)
  }

  /** Filing one more replica under its process keeps the grouping exact. */
  lemma GroupedSnoc(pid: map<int, ProcessData>, rs: seq<Replica>, r: Replica, id: int, d: ProcessData)
    requires Grouped(pid, rs)
    requires id == Pid(r) && d == Expected(rs + [r], id)
    ensures Grouped(pid[id := d], rs + [r])
  {
    PidsSnoc(rs, r);
    forall p | p in pid && p != Pid(r)
      ensures pid[p] == Expected(rs + [r], p)
    {
      ExpectedOther(rs, r, p);
    }
  }

  /** GetDeployedProcesses: group the deployed replicas by host process id. */
  method GetDeployedProcesses(replicaList: seq<Replica>) returns (pid: map<int, ProcessData>)
    ensures pid.Keys == Pids(replicaList)
    ensures forall p :: p in pid ==> pid[p] == Expected(replicaList, p)
  {
    pid := map[];
    for i := 0 to |replicaList|
      invariant Grouped(pid, replicaList[..i])
    {
      var replica := replicaList[i];
      assert replicaList[..i + 1] == replicaList[..i] + [replica];
      // each counter starts at zero and is raised to one exactly on its branch of the source
      var instanceCount := if replica.serviceKind == Stateful then 0 else 1;
      var replicaCount := if replica.serviceKind == Stateful then 1 else 0;
      var primaryCount := if replica.serviceKind == Stateful && replica.replicaRole == Primary then 1 else 0;

      var id := ToInt32(replica.hostProcessId);
      var processData: ProcessData;
      ghost var prefix := replicaList[..i];

      if id in pid {
        processData := pid[id];
      } else {
        processData := NewProcessData(id);
        // the child-process list is extended only once, for the first replica of a process
        if replica.childProcesses.Some? {
          processData := processData.(childProcesses := processData.childProcesses + replica.childProcesses.value);
        }
      }
      ghost var before := processData;
      RecordSnoc(prefix, replica, id, before, primaryCount, replicaCount, instanceCount);
      processData := processData.(
        serviceUris := processData.serviceUris + [replica.serviceName],
        allCounts := Counts(
          processData.allCounts.primaryCount + primaryCount,
          processData.allCounts.replicaCount + replicaCount,
          processData.allCounts.instanceCount + instanceCount,
          processData.allCounts.count + 1));
      GroupedSnoc(pid, prefix, replica, id, processData);
      pid := pid[id := processData];
    }
    assert replicaList[..|replicaList|] == replicaList;
  }

  // ---- GetDeployedCountsAsync ----

  datatype ReplicaStatus = InvalidStatus | InBuild | Standby | Ready | Down | Dropped

  /** One service of an application: its kind and, per partition, the status of each replica. */
  datatype Service = Service(isStateful: bool, partitions: seq<seq<ReplicaStatus>>)

  /** The replicas of one partition whose status is Ready. */
  function ReadyCount(statuses: seq<ReplicaStatus>): (n: nat)
    ensures n <= |statuses|
  {
    if statuses == [] then 0
    else ReadyCount(statuses[..|statuses| - 1]) + (if statuses[|statuses| - 1] == Ready then 1 else 0)
  }

  /** Ready replicas summed over partitions. */
  function PartitionsReady(parts: seq<seq<ReplicaStatus>>): nat
  {
    if parts == [] then 0 else PartitionsReady(parts[..|parts| - 1]) + ReadyCount(parts[|parts| - 1])
  }

  /** The services of all applications, in query order. */
  function Flatten(apps: seq<seq<Service>>): seq<Service>
  {
    if apps == [] then [] else Flatten(apps[..|apps| - 1]) + apps[|apps| - 1]
  }

  /** Partitions of stateful services: each is counted as having one primary. */
  function StatefulPartitions(svcs: seq<Service>): nat
  {
    if svcs == [] then 0
    else
      var s := svcs[|svcs| - 1];
      StatefulPartitions(svcs[..|svcs| - 1]) + (if s.isStateful then |s.partitions| else 0)
  }

  /** Ready replicas of the services of one kind. */
  function ReadyOfKind(svcs: seq<Service>, stateful: bool): nat
  {
    if svcs == [] then 0
    else
      var s := svcs[|svcs| - 1];
      ReadyOfKind(svcs[..|svcs| - 1], stateful) + (if s.isStateful == stateful then PartitionsReady(s.partitions) else 0)
  }

  /** Ready replicas of every service, whatever its kind. */
  function AllReady(svcs: seq<Service>): nat
  {
    if svcs == [] then 0 else AllReady(svcs[..|svcs| - 1]) + PartitionsReady(svcs[|svcs| - 1].partitions)
  }

  /** Stateful and stateless ready replicas together are all the ready replicas. */
  lemma {:induction false} ReadyKindsSplit(svcs: seq<Service>)
    ensures ReadyOfKind(svcs, true) + ReadyOfKind(svcs, false) == AllReady(svcs)
  {
    if svcs != [] {
      ReadyKindsSplit(svcs[..|svcs| - 1]);
    }
  }

  /** Adding one service to the visited prefix adds its share to each counter. */
  lemma ServiceSnoc(done: seq<Service>, svcs: seq<Service>, j: nat)
    requires j < |svcs|
    ensures var s, before, after := svcs[j], done + svcs[..j], done + svcs[..j + 1];
      && StatefulPartitions(after) == StatefulPartitions(before) + (if s.isStateful then |s.partitions| else 0)
      && ReadyOfKind(after, true) == ReadyOfKind(before, true) + (if s.isStateful then PartitionsReady(s.partitions) else 0)
      && ReadyOfKind(after, false) == ReadyOfKind(before, false) + (if s.isStateful then 0 else PartitionsReady(s.partitions))
  {
    var after := done + svcs[..j + 1];
    assert after[..|after| - 1] == done + svcs[..j];
  }

  /** The services seen after one more application. */
  lemma FlattenSnoc(apps: seq<seq<Service>>, a: nat)
    requires a < |apps|
    ensures Flatten(apps[..a + 1]) == Flatten(apps[..a]) + apps[a]
  {
    assert apps[..a + 1][..a] == apps[..a];
  }

  /** The ready replicas seen after one more partition. */
  lemma PartitionsSnoc(parts: seq<seq<ReplicaStatus>>, k: nat)
    requires k < |parts|
    ensures PartitionsReady(parts[..k + 1]) == PartitionsReady(parts[..k]) + ReadyCount(parts[k])
  {
    assert parts[..k + 1][..k] == parts[..k];
  }

  /**
   * GetDeployedCountsAsync: PrimaryCount is the number of partitions of stateful
   * services, ReplicaCount the ready replicas of stateful services, InstanceCount
   * the ready replicas of stateless ones, and Count all ready replicas.
   */
  method GetDeployedCounts(appList: seq<seq<Service>>) returns (c: Counts)
    ensures c.primaryCount == StatefulPartitions(Flatten(appList))
    ensures c.replicaCount == ReadyOfKind(Flatten(appList), true)
    ensures c.instanceCount == ReadyOfKind(Flatten(appList), false)
    ensures c.count == c.replicaCount + c.instanceCount == AllReady(Flatten(appList))
  {
    var primaryCount := 0;
    var replicaCount := 0;
    var instanceCount := 0;

    for a := 0 to |appList|
      invariant primaryCount == StatefulPartitions(Flatten(appList[..a]))
      invariant replicaCount == ReadyOfKind(Flatten(appList[..a]), true)
      invariant instanceCount == ReadyOfKind(Flatten(appList[..a]), false)
    {
      var servicesList := appList[a];
      ghost var done := Flatten(appList[..a]);
      assert done + servicesList[..0] == done;
      for j := 0 to |servicesList|
        invariant primaryCount == StatefulPartitions(done + servicesList[..j])
        invariant replicaCount == ReadyOfKind(done + servicesList[..j], true)
        invariant instanceCount == ReadyOfKind(done + servicesList[..j], false)
      {
        var service := servicesList[j];
        var partitionList := service.partitions;
        var isStateful := service.isStateful;
        ServiceSnoc(done, servicesList, j);
        ghost var primary0, replica0, instance0 := primaryCount, replicaCount, instanceCount;
        primaryCount := primaryCount + (if isStateful then |partitionList| else 0);

        for k := 0 to |partitionList|
          invariant primaryCount == primary0 + (if isStateful then |partitionList| else 0)
          invariant replicaCount == replica0 + (if isStateful then PartitionsReady(partitionList[..k]) else 0)
          invariant instanceCount == instance0 + (if isStateful then 0 else PartitionsReady(partitionList[..k]))
        {
          var cnt := ReadyCount(partitionList[k]);
          PartitionsSnoc(partitionList, k);
          if isStateful {
            replicaCount := replicaCount + cnt;
          } else {
            instanceCount := instanceCount + cnt;
          }
        }
        assert partitionList[..|partitionList|] == partitionList;
      }
      assert servicesList[..|servicesList|] == servicesList;
      FlattenSnoc(appList, a);
    }
    assert appList[..|appList|] == appList;
    ReadyKindsSplit(Flatten(appList));
    c := Counts(primaryCount, replicaCount, instanceCount, instanceCount + replicaCount);
  }
}
