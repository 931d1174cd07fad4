/**
 Pod reconciliation (pkg/job_controller/pod.go) and the replica counters it fills (pkg/job_controller/status.go),
 for one replica type.

 As for services, the cluster is a map from index to pod and a deletion removes the pod at once.
 */
module Pods {
  import opened Common
  import opened Buckets

  datatype InitState = InitWaiting | InitRunning | InitTerminated

  /** State of one container: whether it is the job's default container, and its exit code once terminated. */
  datatype ContainerStatus = ContainerStatus(isDefault: bool, terminated: Option<int>)

  datatype Pod = Pod(
    phase: Phase,
    reason: string,
    scheduled: bool,
    initContainers: seq<InitState>,
    containers: seq<ContainerStatus>,
    generation: Option<int>)

  datatype ReplicaSpec = ReplicaSpec(replicas: nat, restartOnExitCode: bool)

  datatype ReplicaStatus = ReplicaStatus(active: nat, succeeded: nat, failed: nat)

  /** Exit code used while the default container has not terminated (0xbeef). */
  const NOT_EXITED := 48879

  predicate IsRetryableExitCode(exitCode: int) {
    exitCode in {130, 137, 143, 138}
  }

  predicate IsRetryableReason(reason: string) {
    reason in {"OOMKilled", "Killed", "Evicted", "UnexpectedAdmissionError"}
  }

  function ExitCode(containers: seq<ContainerStatus>): int {
    if containers == [] then NOT_EXITED
    else if containers[0].isDefault && containers[0].terminated.Some? then containers[0].terminated.value
    else ExitCode(containers[1..])
  }

  predicate FailsOver(spec: ReplicaSpec, pod: Pod) {
    && (pod.phase == Failed || ExitCode(pod.containers) != NOT_EXITED)
    && spec.restartOnExitCode
    && (IsRetryableExitCode(ExitCode(pod.containers)) || IsRetryableReason(pod.reason))
  }

  /** A pending pod counts as active once it is scheduled and all its init containers run or have ended. */
  predicate CountsActive(pod: Pod) {
    || pod.phase == Running
    || (pod.phase == Pending && pod.scheduled && InitWaiting !in pod.initContainers)
  }

  class JobReplicas {
    var statuses: map<ReplicaType, ReplicaStatus>

    method InitializeReplicaStatuses(rtype: ReplicaType)
      modifies this
      ensures statuses == old(statuses)[rtype := ReplicaStatus(0, 0, 0)]
    {
      statuses := statuses[rtype := ReplicaStatus(0, 0, 0)];
    }

    method UpdateJobReplicaStatuses(rtype: ReplicaType, pod: Pod)
      requires rtype in statuses
      modifies this
      ensures statuses == old(statuses)[rtype := Counted(old(statuses)[rtype], pod)]
    {
      var s := statuses[rtype];
      match pod.phase
      case Pending =>
        var passed := AllInitContainersPassed(pod);
        if pod.scheduled && passed {
          statuses := statuses[rtype := s.(active := s.active + 1)];
        }
      case Running =>
        statuses := statuses[rtype := s.(active := s.active + 1)];
      case Succeeded =>
        statuses := statuses[rtype := s.(succeeded := s.succeeded + 1)];
      case Failed =>
        statuses := statuses[rtype := s.(failed := s.failed + 1)];
      case UnknownPhase =>
    }
  }

  method AllInitContainersPassed(pod: Pod) returns (passed: bool)
    ensures passed == (InitWaiting !in pod.initContainers)
  {
    for i := 0 to |pod.initContainers|
      invariant InitWaiting !in pod.initContainers[..i]
    {
      if pod.initContainers[i] == InitWaiting {
        return false;
      }
    }
    return true;
  }

  function Counted(s: ReplicaStatus, pod: Pod): ReplicaStatus {
    if CountsActive(pod) then s.(active := s.active + 1)
    else if pod.phase == Succeeded then s.(succeeded := s.succeeded + 1)
    else if pod.phase == Failed then s.(failed := s.failed + 1)
    else s
  }

  /** Counts over the pods with index below `n`, each index counted once. */
  function Tally(pods: map<int, Pod>, n: nat): ReplicaStatus {
    if n == 0 then ReplicaStatus(0, 0, 0)
    else if n - 1 in pods then Counted(Tally(pods, n - 1), pods[n - 1])
    else Tally(pods, n - 1)
  }

  class PodCluster {
    var pods: map<int, Pod>

    constructor (pods: map<int, Pod>)
      ensures this.pods == pods
    {
      this.pods := pods;
    }

    method CreatePod(index: int, pod: Pod, apiFails: bool) returns (err: bool)
      modifies this
      ensures err == (apiFails || index in old(pods))
      ensures pods == if err then old(pods) else old(pods)[index := pod]
    {
      err := apiFails || index in pods;
      if !err {
        pods := pods[index := pod];
      }
    }

    method DeletePod(index: int, apiFails: bool) returns (err: bool)
      modifies this
      ensures err == (apiFails || index !in old(pods))
      ensures pods == if err then old(pods) else old(pods) - {index}
    {
      err := apiFails || index !in pods;
      if !err {
        pods := pods - {index};
      }
    }
  }

  /** A pod with a negative index is skipped here, unlike a service. */
  method GetPodSlices(pods: seq<Labelled<Pod>>, replicas: nat) returns (podSlices: seq<seq<Pod>>)
    ensures podSlices == Slices(pods, replicas)
  {
    podSlices := seq(replicas, _ => []);
    for i := 0 to |pods|
      invariant podSlices == Slices(pods[..i], replicas)
    {
      assert pods[..i + 1][..i] == pods[..i];
      var tag := pods[i].tag;
      if tag.Missing? || tag.Malformed? {
        continue;
      }
      var index := tag.value;
      if index < 0 {
        continue;
      } else if index >= replicas {
        var newPodSlices := Resize(podSlices, index + 1);
        podSlices := newPodSlices;
      }
      podSlices := podSlices[index := podSlices[index] + [pods[i].obj]];
    }
    assert pods[..|pods|] == pods;
  }

  /** The label part of createNewPod: only elastic jobs stamp the job's generation on the pod. */
  function NewPod(elasticGeneration: Option<int>): Pod {
    Pod(Pending, "", false, [], [], elasticGeneration)
  }

  ghost predicate IsListing(pods: map<int, Pod>, items: seq<Labelled<Pod>>) {
    && OnePerIndex(items)
    && Indices(items) == pods.Keys
    && forall p :: 0 <= p < |items| && items[p].tag.Index? ==> pods[items[p].tag.value] == items[p].obj
  }

  method ReconcileOnePod(cluster: PodCluster, status: JobReplicas, spec: ReplicaSpec, pod: Pod, index: int,
                         rtype: ReplicaType, apiFails: bool)
    returns (failOver: bool, exitCode: int, err: bool)
    requires rtype in status.statuses
    modifies cluster, status
    ensures var inRange := 0 <= index < spec.replicas;
      && failOver == (inRange && FailsOver(spec, pod))
      && err == (!inRange && (apiFails || index !in old(cluster.pods)))
      && cluster.pods == (if inRange || err then old(cluster.pods) else old(cluster.pods) - {index})
      && status.statuses == (if inRange
           then old(status.statuses)[rtype := Counted(old(status.statuses)[rtype], pod)] else old(status.statuses))
    ensures exitCode == if 0 <= index < spec.replicas then ExitCode(pod.containers) else NOT_EXITED
  {
    exitCode, failOver := NOT_EXITED, false;
    if index < 0 || index >= spec.replicas {
      err := cluster.DeletePod(index, apiFails);
      return;
    }
    for i := 0 to |pod.containers|
      invariant exitCode == NOT_EXITED && ExitCode(pod.containers) == ExitCode(pod.containers[i..])
    {
      if pod.containers[i].isDefault && pod.containers[i].terminated.Some? {
        exitCode := pod.containers[i].terminated.value;
        break;
      }
    }
    if pod.phase == Failed || exitCode != NOT_EXITED {
      if spec.restartOnExitCode && (IsRetryableExitCode(exitCode) || IsRetryableReason(pod.reason)) {
        failOver := true;
      }
    }
    status.UpdateJobReplicaStatuses(rtype, pod);
    err := false;
  }

  /** Whether index `j` exists once the buckets below `upto` are handled. */
  ghost predicate PresentAfter(pods: map<int, Pod>, items: seq<Labelled<Pod>>, replicas: nat, apiFails: set<int>, upto: nat, j: int) {
    if j < replicas then j in pods || 0 <= j < upto
    else j in pods && !(j < upto && Kept(items, replicas, j) && j !in apiFails)
  }

  ghost predicate SelectedForFailOver(pods: map<int, Pod>, spec: ReplicaSpec, upto: nat, j: int) {
    0 <= j < upto && j < spec.replicas && j in pods && FailsOver(spec, pods[j])
  }

  /** One round of the loop: what happens to the bucket at `index`. */
  method ReconcileBucket(cluster: PodCluster, status: JobReplicas, podSlice: seq<Pod>, index: nat, rtype: ReplicaType,
                         spec: ReplicaSpec, elasticGeneration: Option<int>, apiFails: bool)
    returns (err: bool, failOver: bool)
    requires rtype in status.statuses
    requires podSlice == [] && index < spec.replicas ==> index !in cluster.pods
    requires |podSlice| == 1 ==> index in cluster.pods && cluster.pods[index] == podSlice[0]
    modifies cluster, status
    ensures err <==> podSlice == [] && index < spec.replicas && apiFails
    ensures failOver <==> |podSlice| == 1 && index < spec.replicas && FailsOver(spec, podSlice[0])
    ensures cluster.pods ==
      if podSlice == [] && index < spec.replicas && !apiFails then old(cluster.pods)[index := NewPod(elasticGeneration)]
      else if |podSlice| == 1 && index >= spec.replicas && !apiFails then old(cluster.pods) - {index}
      else old(cluster.pods)
    ensures status.statuses ==
      if |podSlice| == 1 && index < spec.replicas
      then old(status.statuses)[rtype := Counted(old(status.statuses)[rtype], podSlice[0])] else old(status.statuses)
  {
    err, failOver := false, false;
    if |podSlice| > 1 {
      // too many pods: warn and go on
    } else if |podSlice| == 0 {
      if index < spec.replicas {
        err := cluster.CreatePod(index, NewPod(elasticGeneration), apiFails);
      }
    } else {
      var selected, _, _ := ReconcileOnePod(cluster, status, spec, podSlice[0], index, rtype, apiFails);
      failOver := selected;
    }
  }

  /** The cluster once the buckets below `upto` are handled, bucket by bucket. */
  ghost function PodsAfter(before: map<int, Pod>, items: seq<Labelled<Pod>>, replicas: nat, added: Pod,
                           apiFails: set<int>, upto: nat): map<int, Pod>
  {
    if upto == 0 then before
    else
      var m, j := PodsAfter(before, items, replicas, added, apiFails, upto - 1), upto - 1;
      if j < replicas then if j in before then m else m[j := added]
      else if Kept(items, replicas, j) && j !in apiFails then m - {j} else m
  }

  lemma {:induction false} PodsAfterMeaning(before: map<int, Pod>, items: seq<Labelled<Pod>>, replicas: nat, added: Pod,
                                            apiFails: set<int>, upto: nat)
    ensures var after := PodsAfter(before, items, replicas, added, apiFails, upto);
      && (forall j :: j in after <==> PresentAfter(before, items, replicas, apiFails, upto, j))
      && (forall j :: j in after ==> after[j] == if j in before then before[j] else added)
  {
    if upto > 0 {
      PodsAfterMeaning(before, items, replicas, added, apiFails, upto - 1);
    }
  }

  function SelectedList(pods: map<int, Pod>, spec: ReplicaSpec, upto: nat): seq<int> {
    if upto == 0 then []
    else
      var rest, j := SelectedList(pods, spec, upto - 1), upto - 1;
      if j < spec.replicas && j in pods && FailsOver(spec, pods[j]) then rest + [j] else rest
  }

  lemma {:induction false} SelectedListMeaning(pods: map<int, Pod>, spec: ReplicaSpec, upto: nat)
    ensures forall j :: j in SelectedList(pods, spec, upto) <==> SelectedForFailOver(pods, spec, upto, j)
  {
    if upto > 0 {
      SelectedListMeaning(pods, spec, upto - 1);
    }
  }

  /** What round `j` of the bucket loop finds, and what it leaves. */
  lemma AtBucket(before: map<int, Pod>, items: seq<Labelled<Pod>>, replicas: nat, added: Pod, apiFails: set<int>, j: nat)
    requires IsListing(before, items) && j < Width(items, replicas)
    ensures var m, m', slices := PodsAfter(before, items, replicas, added, apiFails, j),
                PodsAfter(before, items, replicas, added, apiFails, j + 1), Slices(items, replicas);
      && |slices| == Width(items, replicas) && |slices[j]| <= 1
      && (slices[j] != [] ==> j in m && j in before && slices[j] == [before[j]] && m[j] == before[j])
      && (slices[j] == [] && j < replicas ==> j !in m && j !in before)
      && m' == if slices[j] == [] && j < replicas then m[j := added]
               else if slices[j] != [] && j >= replicas && j !in apiFails then m - {j}
               else m
  {
    BucketOf(before, items, replicas, j);
    PodsAfterMeaning(before, items, replicas, added, apiFails, j);
  }

  /** One round of the loop, in terms of the pods that existed before it. */
  method ReconcileBucketAt(cluster: PodCluster, status: JobReplicas, items: seq<Labelled<Pod>>, podSlice: seq<Pod>, index: nat,
                           rtype: ReplicaType, spec: ReplicaSpec, elasticGeneration: Option<int>, apiFails: set<int>,
                           ghost before: map<int, Pod>, ghost statuses: map<ReplicaType, ReplicaStatus>)
    returns (err: bool, failOver: bool)
    requires IsListing(before, items) && index < Width(items, spec.replicas) == |Slices(items, spec.replicas)|
    requires podSlice == Slices(items, spec.replicas)[index]
    requires cluster.pods == PodsAfter(before, items, spec.replicas, NewPod(elasticGeneration), apiFails, index)
    requires status.statuses == statuses[rtype := Tally(before, Min(index, spec.replicas))]
    modifies cluster, status
    ensures err <==> index < spec.replicas && index !in before && index in apiFails
    ensures err ==> cluster.pods == old(cluster.pods) && status.statuses == old(status.statuses)
    ensures !err ==>
      && cluster.pods == PodsAfter(before, items, spec.replicas, NewPod(elasticGeneration), apiFails, index + 1)
      && status.statuses == statuses[rtype := Tally(before, Min(index + 1, spec.replicas))]
      && (failOver <==> index < spec.replicas && index in before && FailsOver(spec, before[index]))
  {
    AtBucket(before, items, spec.replicas, NewPod(elasticGeneration), apiFails, index);
    err, failOver := ReconcileBucket(cluster, status, podSlice, index, rtype, spec, elasticGeneration, index in apiFails);
  }

  /** The bucket loop. */
  method ReconcileBuckets(cluster: PodCluster, status: JobReplicas, items: seq<Labelled<Pod>>, podSlices: seq<seq<Pod>>,
                          rtype: ReplicaType, spec: ReplicaSpec, elasticGeneration: Option<int>, apiFails: set<int>)
    returns (err: bool, podsToFailover: seq<int>, ghost stop: nat)
    requires IsListing(cluster.pods, items) && podSlices == Slices(items, spec.replicas)
    requires rtype in status.statuses && status.statuses[rtype] == ReplicaStatus(0, 0, 0)
    modifies cluster, status
    ensures err ==> stop < spec.replicas && stop !in old(cluster.pods) && stop in apiFails
    ensures !err ==> stop == Width(items, spec.replicas)
    ensures forall j :: 0 <= j < stop && j < spec.replicas && j !in old(cluster.pods) ==> j !in apiFails
    ensures cluster.pods == PodsAfter(old(cluster.pods), items, spec.replicas, NewPod(elasticGeneration), apiFails, stop)
    ensures status.statuses == old(status.statuses)[rtype := Tally(old(cluster.pods), Min(stop, spec.replicas))]
    ensures podsToFailover == SelectedList(old(cluster.pods), spec, stop)
  {
    ghost var before, statuses, added := cluster.pods, status.statuses, NewPod(elasticGeneration);
    SlicesWidth(items, spec.replicas);
    podsToFailover, err, stop := [], false, 0;
    for index := 0 to |podSlices|
      invariant stop == index && !err
      invariant forall j :: 0 <= j < index && j < spec.replicas && j !in before ==> j !in apiFails
      invariant cluster.pods == PodsAfter(before, items, spec.replicas, added, apiFails, index)
      invariant status.statuses == statuses[rtype := Tally(before, Min(index, spec.replicas))]
      invariant podsToFailover == SelectedList(before, spec, index)
    {
      var failOver;
      err, failOver := ReconcileBucketAt(cluster, status, items, podSlices[index], index, rtype, spec, elasticGeneration,
                                         apiFails, before, statuses);
      if err {
        return;
      }
      if failOver {
        podsToFailover := podsToFailover + [index];
      }
      stop := stop + 1;
    }
  }

  function Min(a: int, b: int): int {
    if a < b then a else b
  }

  /**
   One pass. `monitored` says that AIMaster analyses errors for this job, which empties the fail-over list.
   Deletion errors are collected and then dropped, so only a failed creation is returned.
   */
  method ReconcilePods(cluster: PodCluster, status: JobReplicas, pods: seq<Labelled<Pod>>, rtype: ReplicaType,
                       spec: ReplicaSpec, elasticGeneration: Option<int>, monitored: bool, restartIn: bool,
                       apiFails: set<int>, failOverFails: set<int>)
    returns (err: bool, restart: bool, ghost stop: nat)
    requires IsListing(cluster.pods, OfType(pods, rtype))
    modifies cluster, status
    ensures err ==> stop < spec.replicas && stop !in old(cluster.pods) && stop in apiFails
    ensures !err ==> stop == Width(OfType(pods, rtype), spec.replicas)
    ensures forall j :: 0 <= j < stop && j < spec.replicas && j !in old(cluster.pods) ==> j !in apiFails
    ensures forall j :: j in cluster.pods <==>
              && PresentAfter(old(cluster.pods), OfType(pods, rtype), spec.replicas, apiFails, stop, j)
              && !(!err && !monitored && SelectedForFailOver(old(cluster.pods), spec, stop, j) && j !in failOverFails)
    ensures forall j :: j in cluster.pods && j in old(cluster.pods) ==> cluster.pods[j] == old(cluster.pods)[j]
    ensures forall j :: j in cluster.pods && j !in old(cluster.pods) ==>
              cluster.pods[j].generation == elasticGeneration && cluster.pods[j].phase == Pending && !cluster.pods[j].scheduled
    ensures status.statuses == old(status.statuses)[rtype := Tally(old(cluster.pods), Min(stop, spec.replicas))]
    ensures !err ==>
      restart == (restartIn || (monitored && rtype != AIMaster)
                  || exists j :: SelectedForFailOver(old(cluster.pods), spec, stop, j))
  {
    var items := FilterForReplicaType(pods, rtype);
    var podSlices := GetPodSlices(items, spec.replicas);
    status.InitializeReplicaStatuses(rtype);
    var podsToFailover;
    err, podsToFailover, stop := ReconcileBuckets(cluster, status, items, podSlices, rtype, spec, elasticGeneration, apiFails);
    restart := restartIn;
    PodsAfterMeaning(old(cluster.pods), items, spec.replicas, NewPod(elasticGeneration), apiFails, stop);
    SelectedListMeaning(old(cluster.pods), spec, stop);
    if err {
      return;
    }
    assert podsToFailover != [] ==> SelectedForFailOver(old(cluster.pods), spec, stop, podsToFailover[0]);
    restart := restart || |podsToFailover| > 0;
    if monitored {
      podsToFailover := [];
      if rtype != AIMaster {
        restart := true;
      }
    }
    if restart && |podsToFailover| > 0 {
      RecreatePods(cluster, podsToFailover, failOverFails);
    }
  }

  /** DoFailOver: the listed pods are deleted; a failed deletion is only logged. */
  method RecreatePods(cluster: PodCluster, indices: seq<int>, failOverFails: set<int>)
    modifies cluster
    ensures forall j :: j in cluster.pods <==> j in old(cluster.pods) && !(j in indices && j !in failOverFails)
    ensures forall j :: j in cluster.pods ==> cluster.pods[j] == old(cluster.pods)[j]
  {
    for i := 0 to |indices|
      invariant forall j :: j in cluster.pods <==> j in old(cluster.pods) && !(j in indices[..i] && j !in failOverFails)
      invariant forall j :: j in cluster.pods ==> cluster.pods[j] == old(cluster.pods)[j]
    {
      var _ := cluster.DeletePod(indices[i], indices[i] in failOverFails);
      assert indices[..i + 1] == indices[..i] + [indices[i]];
    }
  }

  lemma BucketOf(pods: map<int, Pod>, items: seq<Labelled<Pod>>, replicas: nat, j: nat)
    requires IsListing(pods, items) && j < Width(items, replicas)
    ensures |Slices(items, replicas)| == Width(items, replicas)
    ensures Slices(items, replicas)[j] == if Kept(items, replicas, j) && j in pods then [pods[j]] else []
    ensures Kept(items, replicas, j) ==> j in pods
    ensures j < replicas && j in pods ==> Kept(items, replicas, j)
  {
    KeptBounds(items, replicas, j);
    if Kept(items, replicas, j) {
      var p: nat :| KeptAt(items, replicas, j, p);
      KeptBucket(items, replicas, j, p);
    } else {
      LostBucket(items, replicas, j);
    }
  }

  /** What the counters mean. */

  /** The counters never exceed the replicas, and "all succeeded" means one succeeded pod at every index. */
  lemma {:induction false} TallyMeaning(pods: map<int, Pod>, n: nat)
    ensures var t := Tally(pods, n);
      && t.active + t.succeeded + t.failed <= n
      && (t.succeeded == n <==> forall j :: 0 <= j < n ==> j in pods && pods[j].phase == Succeeded)
      && (t.failed > 0 <==> exists j :: 0 <= j < n && j in pods && pods[j].phase == Failed)
      && (t.active == n <==> forall j :: 0 <= j < n ==> j in pods && CountsActive(pods[j]))
  {
    if n > 0 {
      TallyMeaning(pods, n - 1);
    }
  }

  /** The indices below `n` whose pod is in phase `phase`. */
  ghost function InPhase(pods: map<int, Pod>, n: nat, phase: Phase): set<int> {
    set j | 0 <= j < n && j in pods && pods[j].phase == phase
  }

  /** The pending pods that count as active: scheduled, and no init container is still waiting. */
  ghost function Starting(pods: map<int, Pod>, n: nat): set<int> {
    set j | 0 <= j < n && j in pods && pods[j].phase == Pending && pods[j].scheduled
            && InitWaiting !in pods[j].initContainers
  }

  /** The counters are exact counts by phase; pods of unknown phase, and pending ones not yet starting, count nowhere. */
  lemma {:induction false} TallyCounts(pods: map<int, Pod>, n: nat)
    ensures var t := Tally(pods, n);
      && t.succeeded == |InPhase(pods, n, Succeeded)|
      && t.failed == |InPhase(pods, n, Failed)|
      && t.active == |InPhase(pods, n, Running)| + |Starting(pods, n)|
  {
    if n > 0 {
      TallyCounts(pods, n - 1);
      PhaseStep(pods, n, Succeeded);
      PhaseStep(pods, n, Failed);
      PhaseStep(pods, n, Running);
      StartingStep(pods, n);
    }
  }

  lemma PhaseStep(pods: map<int, Pod>, n: nat, phase: Phase)
    requires n > 0
    ensures |InPhase(pods, n, phase)| == |InPhase(pods, n - 1, phase)| + if n - 1 in pods && pods[n - 1].phase == phase then 1 else 0
  {
    assert InPhase(pods, n, phase)
        == InPhase(pods, n - 1, phase) + if n - 1 in pods && pods[n - 1].phase == phase then {n - 1} else {};
  }

  lemma StartingStep(pods: map<int, Pod>, n: nat)
    requires n > 0
    ensures |Starting(pods, n)| == |Starting(pods, n - 1)|
              + if n - 1 in pods && pods[n - 1].phase == Pending && CountsActive(pods[n - 1]) then 1 else 0
  {
    assert Starting(pods, n) == Starting(pods, n - 1)
        + if n - 1 in pods && pods[n - 1].phase == Pending && CountsActive(pods[n - 1]) then {n - 1} else {};
  }

  /** Which pods a pass recreates. */

  /** The default container, the first of its name that has terminated, exited with `code`. */
  ghost predicate ExitedWith(containers: seq<ContainerStatus>, code: int) {
    exists i :: 0 <= i < |containers| && TerminatedAt(containers, i, code)
  }

  predicate TerminatedAt(containers: seq<ContainerStatus>, i: nat, code: int)
    requires i < |containers|
  {
    && containers[i].isDefault && containers[i].terminated == Some(code)
    && forall k :: 0 <= k < i ==> !(containers[k].isDefault && containers[k].terminated.Some?)
  }

  lemma {:induction false} ExitCodeMeaning(containers: seq<ContainerStatus>)
    ensures ExitedWith(containers, ExitCode(containers)) || ExitCode(containers) == 0xbeef
    ensures forall code :: ExitedWith(containers, code) ==> code == ExitCode(containers)
  {
    if containers != [] {
      if containers[0].isDefault && containers[0].terminated.Some? {
        assert TerminatedAt(containers, 0, ExitCode(containers));
      } else {
        var rest := containers[1..];
        ExitCodeMeaning(rest);
        if i :| 0 <= i < |rest| && TerminatedAt(rest, i, ExitCode(rest)) {
          assert forall k :: 0 < k <= i ==> containers[k] == rest[k - 1];
          assert TerminatedAt(containers, i + 1, ExitCode(rest));
        }
        forall code | ExitedWith(containers, code) ensures code == ExitCode(rest) {
          var i :| 0 <= i < |containers| && TerminatedAt(containers, i, code);
          assert forall k :: 0 <= k < i - 1 ==> rest[k] == containers[k + 1];
          assert TerminatedAt(rest, i - 1, code);
          assert ExitedWith(rest, code);
        }
      }
    }
  }

  /**
   Under the exit-code policy alone, a pod is recreated if its default container exited with one of four codes (or it
   failed or exited for one of four reasons); without an exit only a failed pod can be. (An exit with 0xbeef looks
   like none.)
   */
  lemma FailsOverMeaning(spec: ReplicaSpec, pod: Pod)
    ensures !spec.restartOnExitCode ==> !FailsOver(spec, pod)
    ensures forall code :: ExitedWith(pod.containers, code) && code != 0xbeef && spec.restartOnExitCode ==>
              (FailsOver(spec, pod) <==>
                 code == 130 || code == 137 || code == 138 || code == 143
                 || pod.reason in {"OOMKilled", "Killed", "Evicted", "UnexpectedAdmissionError"})
    ensures (forall code :: !ExitedWith(pod.containers, code)) && spec.restartOnExitCode ==>
              (FailsOver(spec, pod) <==>
                 pod.phase == Failed && pod.reason in {"OOMKilled", "Killed", "Evicted", "UnexpectedAdmissionError"})
  {
    ExitCodeMeaning(pod.containers);
  }

  /** Convergence, on sets of indices. */

  ghost predicate PodPass<T>(s: set<int>, items: seq<Labelled<T>>, replicas: nat, s': set<int>) {
    && OnePerIndex(items) && Indices(items) == s
    && s' == UpTo(replicas) + set j | j in s && j >= replicas && !Kept(items, replicas, j)
  }

  /** What the method does when no API call fails and no pod fails over. */
  lemma PassWithoutFailures(before: map<int, Pod>, after: map<int, Pod>, items: seq<Labelled<Pod>>, spec: ReplicaSpec)
    requires IsListing(before, items)
    requires forall j :: j in before && 0 <= j < spec.replicas ==> !FailsOver(spec, before[j])
    requires forall j :: j in after <==> PresentAfter(before, items, spec.replicas, {}, Width(items, spec.replicas), j)
    ensures PodPass(before.Keys, items, spec.replicas, after.Keys)
  {
    forall j | j in before ensures j >= 0 && (Kept(items, spec.replicas, j) ==> j < Width(items, spec.replicas)) {
      var p :| 0 <= p < |items| && items[p].tag.Index? && items[p].tag.value == j;
      KeptBounds(items, spec.replicas, j);
    }
    forall j ensures j in after.Keys <==>
        j in UpTo(spec.replicas) + set k | k in before.Keys && k >= spec.replicas && !Kept(items, spec.replicas, k) {
      assert Below(j, spec.replicas) <==> j in UpTo(spec.replicas);
    }
  }

  ghost function OutOfRange(s: set<int>, replicas: nat): set<int> {
    set j | j in s && j >= replicas
  }

  lemma PassRemoves<T>(s: set<int>, items: seq<Labelled<T>>, replicas: nat, s': set<int>)
    requires PodPass(s, items, replicas, s')
    ensures UpTo(replicas) <= s'
    ensures OutOfRange(s', replicas) <= OutOfRange(s, replicas)
    ensures forall j :: j in s' ==> j in UpTo(replicas) || j in OutOfRange(s', replicas)
    ensures OutOfRange(s, replicas) != {} ==> |OutOfRange(s', replicas)| < |OutOfRange(s, replicas)|
  {
    assert forall j :: j in UpTo(replicas) ==> Below(j, replicas);
    if j :| j in OutOfRange(s, replicas) {
      LastOutOfRangeIsKept(items, replicas);
      var last := Width(items, replicas) - 1;
      assert last in OutOfRange(s, replicas) && last !in OutOfRange(s', replicas);
      assert OutOfRange(s', replicas) <= OutOfRange(s, replicas) - {last};
      SubsetSize(OutOfRange(s', replicas), OutOfRange(s, replicas) - {last});
    }
  }

  lemma {:induction false} SubsetSize<T>(a: set<T>, b: set<T>)
    requires a <= b
    ensures |a| <= |b|
    ensures |a| == |b| ==> a == b
  {
    if a != {} {
      var x :| x in a;
      SubsetSize(a - {x}, b - {x});
    }
  }

  ghost predicate PodRun<T>(states: seq<set<int>>, listings: seq<seq<Labelled<T>>>, replicas: nat) {
    && |states| == |listings| + 1
    && forall i :: 0 <= i < |listings| ==> PodPass(states[i], listings[i], replicas, states[i + 1])
  }

  lemma {:induction false} RunRemoves<T>(states: seq<set<int>>, listings: seq<seq<Labelled<T>>>, replicas: nat)
    requires PodRun(states, listings, replicas)
    ensures var final := OutOfRange(states[|listings|], replicas);
      && (final == {} || |final| + |listings| <= |OutOfRange(states[0], replicas)|)
      && (|listings| >= 1 ==>
            && UpTo(replicas) <= states[|listings|]
            && forall j :: j in states[|listings|] ==> j in UpTo(replicas) || j in final)
  {
    if |listings| > 0 {
      var m := |listings| - 1;
      assert PodRun(states[..m + 1], listings[..m], replicas);
      RunRemoves(states[..m + 1], listings[..m], replicas);
      assert PodPass(states[m], listings[m], replicas, states[m + 1]);
      PassRemoves(states[m], listings[m], replicas, states[m + 1]);
    }
  }

  /**
   Repeated passes reach exactly the indices 0 .. replicas-1 within as many passes as there are
   out-of-range pods (at least one), whatever order each pass lists the pods in.
   */
  lemma PodsConverge<T>(states: seq<set<int>>, listings: seq<seq<Labelled<T>>>, replicas: nat)
    requires PodRun(states, listings, replicas)
    requires |listings| >= 1 && |listings| >= |OutOfRange(states[0], replicas)|
    ensures states[|listings|] == UpTo(replicas)
  {
    RunRemoves(states, listings, replicas);
  }

  /** From there on a pass changes nothing. */
  lemma PodTargetIsStable<T>(items: seq<Labelled<T>>, replicas: nat, s': set<int>)
    requires PodPass(UpTo(replicas), items, replicas, s')
    ensures s' == UpTo(replicas)
  {
    assert forall j :: j in UpTo(replicas) ==> Below(j, replicas);
  }

  /** The bound is tight: when the smallest out-of-range index is listed last, the pass removes that pod alone. */
  lemma DescendingRemovesOne<T>(s: set<int>, items: seq<Labelled<T>>, replicas: nat, s': set<int>)
    requires PodPass(s, items, replicas, s')
    requires OutOfRange(s, replicas) != {}
    requires forall j :: j in OutOfRange(s, replicas) ==> j >= Width(items, replicas) - 1
    ensures OutOfRange(s', replicas) == OutOfRange(s, replicas) - {Width(items, replicas) - 1}
  {
    assert forall j :: j in UpTo(replicas) ==> Below(j, replicas);
    LastOutOfRangeIsKept(items, replicas);
    forall j | j in OutOfRange(s, replicas) && j != Width(items, replicas) - 1 ensures !Kept(items, replicas, j) {
      KeptBounds(items, replicas, j);
    }
  }
}
