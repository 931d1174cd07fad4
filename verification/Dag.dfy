/**
 DAG scheduling of replica types (pkg/job_controller/dag_sched.go) and the ordered loop that it gates
 (pkg/job_controller/job.go).
 */
module Dag {
  import opened Common
  import opened Buckets
  import opened Pods

  datatype DagCondition = DagCondition(upstream: ReplicaType, onPhase: Phase)

  datatype GatedSpec = GatedSpec(replica: ReplicaSpec, dependOn: seq<DagCondition>)

  type Specs = map<ReplicaType, GatedSpec>

  function PhaseCode(p: Phase): int {
    match p
    case Pending => 0
    case Running => 1
    case Succeeded => 2
    case Failed => 2
    case UnknownPhase => -1
  }

  function PhaseComparator(p1: Phase, p2: Phase): int {
    PhaseCode(p1) - PhaseCode(p2)
  }

  /** The upstream type has as many pods as replicas, and none of its pods is behind the required phase. */
  ghost predicate UpstreamReady(specs: Specs, pods: seq<Labelled<Pod>>, c: DagCondition) {
    var upstream := OfType(pods, c.upstream);
    c.upstream in specs ==>
      && |upstream| >= specs[c.upstream].replica.replicas
      && forall i :: 0 <= i < |upstream| ==> PhaseCode(upstream[i].obj.phase) >= PhaseCode(c.onPhase)
  }

  /** A pod whose phase is enough for a condition on `wanted`: the phases in their order, finished pods being ahead of all. */
  predicate Reached(phase: Phase, wanted: Phase) {
    match wanted
    case UnknownPhase => true
    case Pending => phase != UnknownPhase
    case Running => phase == Running || phase == Succeeded || phase == Failed
    case Succeeded => phase == Succeeded || phase == Failed
    case Failed => phase == Succeeded || phase == Failed
  }

  /**
   The gate on phases. A type that waits for Running is never opened by a pending pod or by one of unknown phase, and
   a failed pod opens it as well as a succeeded one.
   */
  lemma ReadyOnPhases(specs: Specs, pods: seq<Labelled<Pod>>, t: ReplicaType)
    ensures Ready(specs, pods, t) <==>
              t in specs && forall d, upstream :: d in specs[t].dependOn && upstream == OfType(pods, d.upstream)
                                                  && d.upstream in specs ==>
                && |upstream| >= specs[d.upstream].replica.replicas
                && forall x :: x in upstream ==> Reached(x.obj.phase, d.onPhase)
    ensures Ready(specs, pods, t) ==>
              forall d, x :: d in specs[t].dependOn && d.upstream in specs && d.onPhase == Running
                             && x in pods && x.rtype == d.upstream ==>
                x.obj.phase in {Running, Succeeded, Failed}
  {
    forall x: Labelled<Pod>, u: ReplicaType ensures x in OfType(pods, u) <==> x in pods && x.rtype == u {
      OfTypeMeaning(pods, [], x, u);
    }
    forall p: Phase, q: Phase ensures Reached(p, q) <==> PhaseCode(p) >= PhaseCode(q) {
    }
  }

  ghost predicate Ready(specs: Specs, pods: seq<Labelled<Pod>>, t: ReplicaType) {
    t in specs && forall i :: 0 <= i < |specs[t].dependOn| ==> UpstreamReady(specs, pods, specs[t].dependOn[i])
  }

  /** `sorted` holds the pods of each listed type; a type without pods has no entry. */
  ghost predicate SortedBy(sorted: map<ReplicaType, seq<Labelled<Pod>>>, pods: seq<Labelled<Pod>>, rtypes: set<ReplicaType>) {
    forall t :: if t in rtypes && OfType(pods, t) != [] then t in sorted && sorted[t] == OfType(pods, t) else t !in sorted
  }

  method SortPodsByReplicaType(pods: seq<Labelled<Pod>>, rtypes: set<ReplicaType>)
    returns (sorted: map<ReplicaType, seq<Labelled<Pod>>>)
    ensures SortedBy(sorted, pods, rtypes)
  {
    sorted := map[];
    for i := 0 to |pods|
      invariant SortedBy(sorted, pods[..i], rtypes)
    {
      assert pods[..i + 1][..i] == pods[..i];
      var rt := pods[i].rtype;
      if rt in rtypes {
        var collected := if rt in sorted then sorted[rt] else [];
        sorted := sorted[rt := collected + [pods[i]]];
      }
    }
    assert pods[..|pods|] == pods;
  }

  method UpstreamReplicasReady(replicaPods: map<ReplicaType, seq<Labelled<Pod>>>, specs: Specs, dagCondition: DagCondition,
                               ghost pods: seq<Labelled<Pod>>)
    returns (ready: bool)
    requires SortedBy(replicaPods, pods, specs.Keys)
    ensures ready <==> UpstreamReady(specs, pods, dagCondition)
  {
    if dagCondition.upstream !in specs {
      return true;
    }
    var upstream := if dagCondition.upstream in replicaPods then replicaPods[dagCondition.upstream] else [];
    if |upstream| < specs[dagCondition.upstream].replica.replicas {
      return false;
    }
    for i := 0 to |upstream|
      invariant forall k :: 0 <= k < i ==> PhaseCode(upstream[k].obj.phase) >= PhaseCode(dagCondition.onPhase)
    {
      if PhaseComparator(upstream[i].obj.phase, dagCondition.onPhase) < 0 {
        return false;
      }
    }
    return true;
  }

  method DagConditionsReady(specs: Specs, pods: seq<Labelled<Pod>>, dagConditions: seq<DagCondition>) returns (ready: bool)
    ensures ready <==> forall i :: 0 <= i < |dagConditions| ==> UpstreamReady(specs, pods, dagConditions[i])
  {
    if |dagConditions| == 0 {
      return true;
    }
    var replicaPods := SortPodsByReplicaType(pods, specs.Keys);
    for i := 0 to |dagConditions|
      invariant forall k :: 0 <= k < i ==> UpstreamReady(specs, pods, dagConditions[k])
    {
      var upstreamReady := UpstreamReplicasReady(replicaPods, specs, dagConditions[i], pods);
      if !upstreamReady {
        return false;
      }
    }
    return true;
  }

  /** The pods of one type, before and after a pass; `open` says that the gate let the type through. */
  ghost predicate TypePass(before: map<int, Pod>, after: map<int, Pod>, spec: ReplicaSpec, open: bool, err: bool) {
    && (!open ==> after == before)
    && (forall j :: j in before && 0 <= j < spec.replicas && !FailsOver(spec, before[j]) ==> j in after)
    && (open && !err ==> forall j :: 0 <= j < spec.replicas && j !in before ==> j in after)
    && (forall j :: j in after && j !in before ==> 0 <= j < spec.replicas)
  }

  /** All pods of a job, by type and index. */
  type Cluster = map<ReplicaType, map<int, Pod>>

  class JobPods {
    var byType: Cluster
  }

  /** One type that passed its gate. */
  method ReconcileType(cluster: PodCluster, status: JobReplicas, pods: seq<Labelled<Pod>>, rtype: ReplicaType,
                       spec: ReplicaSpec, monitored: bool, restartIn: bool, apiFails: set<int>)
    returns (err: bool, restart: bool)
    requires IsListing(cluster.pods, OfType(pods, rtype))
    modifies cluster, status
    ensures TypePass(old(cluster.pods), cluster.pods, spec, true, err)
  {
    ghost var stop;
    err, restart, stop := ReconcilePods(cluster, status, pods, rtype, spec, None, monitored, restartIn, apiFails, {});
    SlicesWidth(OfType(pods, rtype), spec.replicas);
  }

  /** What the ordered loop owes to type `t` once it is through with the types in `done`. */
  ghost predicate TypeOutcome(specs: Specs, pods: seq<Labelled<Pod>>, done: seq<ReplicaType>, t: ReplicaType,
                              before: map<int, Pod>, after: map<int, Pod>, err: bool)
  {
    if t in done && t in specs then TypePass(before, after, specs[t].replica, Ready(specs, pods, t), err)
    else after == before
  }

  /** One round of the loop: the gate, and the pods of the type if it is open. */
  method ReconcileGated(cluster: PodCluster, status: JobReplicas, specs: Specs, pods: seq<Labelled<Pod>>,
                        rtype: ReplicaType, monitored: bool, restartIn: bool, apiFails: set<int>)
    returns (err: bool, restart: bool, open: bool)
    requires rtype in specs && IsListing(cluster.pods, OfType(pods, rtype))
    modifies cluster, status
    ensures open <==> Ready(specs, pods, rtype)
    ensures TypePass(old(cluster.pods), cluster.pods, specs[rtype].replica, open, err)
  {
    var spec := specs[rtype];
    open := true;
    if |spec.dependOn| > 0 {
      open := DagConditionsReady(specs, pods, spec.dependOn);
      if !open {
        return false, restartIn, open;
      }
    }
    err, restart := ReconcileType(cluster, status, pods, rtype, spec.replica, monitored, restartIn, apiFails);
  }

  /** The same on the pods of a whole job. */
  method ReconcileOf(cluster: JobPods, status: JobReplicas, specs: Specs, pods: seq<Labelled<Pod>>, rtype: ReplicaType,
                     monitored: bool, restartIn: bool, apiFails: set<int>)
    returns (err: bool, restart: bool, open: bool)
    requires rtype in specs && rtype in cluster.byType && IsListing(cluster.byType[rtype], OfType(pods, rtype))
    modifies status, cluster
    ensures open <==> Ready(specs, pods, rtype)
    ensures rtype in cluster.byType && cluster.byType == old(cluster.byType)[rtype := cluster.byType[rtype]]
    ensures TypePass(old(cluster.byType)[rtype], cluster.byType[rtype], specs[rtype].replica, open, err)
  {
    var ofType := new PodCluster(cluster.byType[rtype]);
    err, restart, open := ReconcileGated(ofType, status, specs, pods, rtype, monitored, restartIn, apiFails);
    cluster.byType := cluster.byType[rtype := ofType.pods];
  }

  ghost predicate Outcome(specs: Specs, pods: seq<Labelled<Pod>>, done: seq<ReplicaType>,
                          before: Cluster, after: Cluster, err: bool)
  {
    && before.Keys == after.Keys
    && forall t :: t in before ==> TypeOutcome(specs, pods, done, t, before[t], after[t], err)
  }

  lemma OutcomeStep(specs: Specs, pods: seq<Labelled<Pod>>, order: seq<ReplicaType>, i: nat,
                    before: Cluster, mid: Cluster,
                    after: Cluster, err: bool)
    requires i < |order| && Distinct(order) && Outcome(specs, pods, order[..i], before, mid, false)
    requires order[i] in before && order[i] in after && after == mid[order[i] := after[order[i]]]
    requires TypeOutcome(specs, pods, [order[i]], order[i], before[order[i]], after[order[i]], err)
    ensures Outcome(specs, pods, order[..i + 1], before, after, false) || err
    ensures err ==> Outcome(specs, pods, order, before, after, true)
  {
    assert order[i] !in order[..i];
    assert forall t :: t in order[..i + 1] <==> t in order[..i] || t == order[i];
    forall t | t in before
      ensures TypeOutcome(specs, pods, order[..i + 1], t, before[t], after[t], false) || err
      ensures err ==> TypeOutcome(specs, pods, order, t, before[t], after[t], true)
    {
      assert TypeOutcome(specs, pods, order[..i], t, before[t], mid[t], false);
      assert t in order[..i] ==> t in order;
    }
  }

  /** A loop that ends early has not touched the types still to come. */
  lemma StopHere(specs: Specs, pods: seq<Labelled<Pod>>, order: seq<ReplicaType>, i: nat, before: Cluster, mid: Cluster)
    requires i <= |order| && Outcome(specs, pods, order[..i], before, mid, false)
    ensures Outcome(specs, pods, order, before, mid, true)
  {
    forall t | t in before ensures TypeOutcome(specs, pods, order, t, before[t], mid[t], true) {
      assert TypeOutcome(specs, pods, order[..i], t, before[t], mid[t], false);
      assert t in order[..i] ==> t in order;
    }
  }

  /**
   The ordered loop of ReconcileJobs: every gate looks at the pods listed before the loop, not at newly created ones.
   `serviceFails` holds the types whose services cannot be reconciled, which ends the loop after their pods.
   */
  method ReconcileReplicas(order: seq<ReplicaType>, specs: Specs, pods: seq<Labelled<Pod>>,
                           cluster: JobPods, status: JobReplicas, monitored: bool, aimasterReady: bool,
                           apiFails: ReplicaType -> set<int>, serviceFails: set<ReplicaType>)
    returns (err: bool, frozen: bool, restart: bool, ghost stop: nat)
    requires Distinct(order) && specs.Keys <= cluster.byType.Keys
    requires forall t :: t in cluster.byType ==> IsListing(cluster.byType[t], OfType(pods, t))
    modifies status, cluster
    ensures Outcome(specs, pods, order, old(cluster.byType), cluster.byType, err || frozen)
    ensures !(err && frozen) && stop <= |order| && (!err && !frozen ==> stop == |order|)
    ensures forall k :: stop <= k < |order| && order[k] in cluster.byType ==>
              order[k] in old(cluster.byType) && cluster.byType[order[k]] == old(cluster.byType)[order[k]]
    ensures frozen ==> stop < |order| && order[stop] in specs && order[stop] != AIMaster
    ensures frozen ==> AIMaster in specs && !aimasterReady && exists t :: t in order && t in specs && t != AIMaster
    ensures !err && !frozen ==> forall t :: t in order ==>
              && (t in specs && t != AIMaster && AIMaster in specs ==> aimasterReady)
              && !(t in serviceFails && Ready(specs, pods, t))
  {
    restart, err, frozen, stop := false, false, false, 0;
    ghost var before := cluster.byType;
    for i := 0 to |order|
      invariant !err && !frozen && stop == i && Outcome(specs, pods, order[..i], before, cluster.byType, false)
      invariant forall k :: 0 <= k < i ==>
        && (order[k] in specs && order[k] != AIMaster && AIMaster in specs ==> aimasterReady)
        && !(order[k] in serviceFails && Ready(specs, pods, order[k]))
    {
      var rtype := order[i];
      ghost var mid := cluster.byType;
      if rtype !in specs {
        SkipStep(specs, pods, order, i, before, mid);
        stop := i + 1;
        continue;
      }
      if AIMaster in specs && rtype != AIMaster && !aimasterReady {
        StopHere(specs, pods, order, i, before, mid);
        LaterUntouched(specs, pods, order, i, before, mid, mid);
        assert order[i] in order;
        frozen := true;
        return;
      }
      assert TypeOutcome(specs, pods, order[..i], rtype, before[rtype], mid[rtype], false);
      assert rtype !in order[..i];
      var open;
      err, restart, open := ReconcileOf(cluster, status, specs, pods, rtype, monitored, restart, apiFails(rtype));
      OutcomeStep(specs, pods, order, i, before, mid, cluster.byType, err);
      stop := i + 1;
      LaterUntouched(specs, pods, order, i, before, mid, cluster.byType);
      if err {
        return;
      }
      if open && rtype in serviceFails {
        StopHere(specs, pods, order, i + 1, before, cluster.byType);
        err := true;
        return;
      }
    }
    assert order[..|order|] == order;
  }

  /** Types still to come are as they were, whatever happens to the i-th one. */
  lemma LaterUntouched(specs: Specs, pods: seq<Labelled<Pod>>, order: seq<ReplicaType>, i: nat, before: Cluster, mid: Cluster,
                       after: Cluster)
    requires i < |order| && Distinct(order) && Outcome(specs, pods, order[..i], before, mid, false)
    requires after == mid || (order[i] in after && after == mid[order[i] := after[order[i]]])
    ensures forall k :: i < k < |order| && order[k] in after ==> order[k] in before && after[order[k]] == before[order[k]]
    ensures after == mid && order[i] in after ==> order[i] in before && after[order[i]] == before[order[i]]
  {
    forall k | i <= k < |order| && order[k] in mid ensures order[k] in before && mid[order[k]] == before[order[k]] {
      assert order[k] !in order[..i];
      assert TypeOutcome(specs, pods, order[..i], order[k], before[order[k]], mid[order[k]], false);
    }
  }

  lemma SkipStep(specs: Specs, pods: seq<Labelled<Pod>>, order: seq<ReplicaType>, i: nat,
                 before: Cluster, mid: Cluster)
    requires i < |order| && order[i] !in specs && Outcome(specs, pods, order[..i], before, mid, false)
    ensures Outcome(specs, pods, order[..i + 1], before, mid, false)
  {
    assert forall t :: t in order[..i + 1] <==> t in order[..i] || t == order[i];
    forall t | t in before ensures TypeOutcome(specs, pods, order[..i + 1], t, before[t], mid[t], false) {
      assert TypeOutcome(specs, pods, order[..i], t, before[t], mid[t], false);
    }
  }

  lemma LastIndexIsNew(items: seq<Labelled<Pod>>)
    requires items != [] && OnePerIndex(items) && forall p :: 0 <= p < |items| ==> items[p].tag.Index?
    ensures var front, last := items[..|items| - 1], items[|items| - 1];
      Indices(items) == Indices(front) + {last.tag.value} && last.tag.value !in Indices(front)
  {
    var front, last := items[..|items| - 1], items[|items| - 1];
    forall j | j in Indices(items) ensures j in Indices(front) + {last.tag.value} {
      var p :| 0 <= p < |items| && items[p].tag == Index(j);
      assert p < |front| ==> front[p].tag == Index(j);
    }
    forall j | j in Indices(front) ensures j in Indices(items) && j != last.tag.value {
      var p :| 0 <= p < |front| && front[p].tag == Index(j);
      assert items[p] == front[p];
    }
    assert items[|front|] == last;
  }

  lemma {:induction false} IndicesCount(items: seq<Labelled<Pod>>)
    requires OnePerIndex(items) && forall p :: 0 <= p < |items| ==> items[p].tag.Index?
    ensures |items| == |Indices(items)|
  {
    if items != [] {
      var front, last := items[..|items| - 1], items[|items| - 1];
      IndicesCount(front);
      LastIndexIsNew(items);
    }
  }

  /** A listing is complete if it shows each pod of the type once, all with an index. */
  lemma ListingCount(pods: map<int, Pod>, items: seq<Labelled<Pod>>)
    requires IsListing(pods, items) && forall p :: 0 <= p < |items| ==> items[p].tag.Index?
    ensures |items| == |pods|
  {
    IndicesCount(items);
    assert |pods| == |pods.Keys|;
  }

  /** Runs: passes over the whole cluster. */

  ghost predicate AtPhase(pods: map<int, Pod>, phase: Phase) {
    forall j :: j in pods ==> PhaseCode(pods[j].phase) >= PhaseCode(phase)
  }

  ghost predicate UpstreamReadyIn(specs: Specs, c: Cluster, d: DagCondition) {
    d.upstream in specs ==>
      && d.upstream in c && |c[d.upstream]| >= specs[d.upstream].replica.replicas
      && AtPhase(c[d.upstream], d.onPhase)
  }

  ghost predicate ReadyIn(specs: Specs, c: Cluster, t: ReplicaType) {
    t in specs && forall i :: 0 <= i < |specs[t].dependOn| ==> UpstreamReadyIn(specs, c, specs[t].dependOn[i])
  }

  ghost predicate CompleteListing(c: Cluster, pods: seq<Labelled<Pod>>) {
    forall t :: t in c ==> IsListing(c[t], OfType(pods, t)) && AllIndexed(OfType(pods, t))
  }

  ghost predicate AllIndexed(items: seq<Labelled<Pod>>) {
    forall p :: 0 <= p < |items| ==> items[p].tag.Index?
  }

  /** On a complete listing the code's gate is the gate on the cluster. */
  lemma ListedReady(specs: Specs, c: Cluster, pods: seq<Labelled<Pod>>, t: ReplicaType)
    requires CompleteListing(c, pods) && specs.Keys <= c.Keys
    ensures Ready(specs, pods, t) <==> ReadyIn(specs, c, t)
  {
    if t in specs {
      forall i | 0 <= i < |specs[t].dependOn|
        ensures UpstreamReady(specs, pods, specs[t].dependOn[i]) <==> UpstreamReadyIn(specs, c, specs[t].dependOn[i])
      {
        var d := specs[t].dependOn[i];
        if d.upstream in specs {
          ListingCount(c[d.upstream], OfType(pods, d.upstream));
          ListedPhases(c[d.upstream], OfType(pods, d.upstream), d.onPhase);
        }
      }
    }
  }

  lemma ListedPhases(pods: map<int, Pod>, items: seq<Labelled<Pod>>, phase: Phase)
    requires IsListing(pods, items) && AllIndexed(items)
    ensures AtPhase(pods, phase) <==> forall i :: 0 <= i < |items| ==> PhaseCode(items[i].obj.phase) >= PhaseCode(phase)
  {
    if AtPhase(pods, phase) {
      forall i | 0 <= i < |items| ensures PhaseCode(items[i].obj.phase) >= PhaseCode(phase) {
        assert items[i].tag.value in Indices(items);
      }
    }
    if forall i :: 0 <= i < |items| ==> PhaseCode(items[i].obj.phase) >= PhaseCode(phase) {
      forall j | j in pods ensures PhaseCode(pods[j].phase) >= PhaseCode(phase) {
        assert j in Indices(items);
        var i :| 0 <= i < |items| && items[i].tag.Index? && items[i].tag.value == j;
        assert pods[j] == items[i].obj;
      }
    }
  }

  /** One type over one round: a pass, and whatever happens to pod phases until the next one. */
  ghost predicate TypeRound(before: set<int>, after: set<int>, replicas: nat, open: bool) {
    && (!open ==> after == before)
    && (forall j :: j in before && 0 <= j < replicas ==> j in after)
    && (open ==> UpTo(replicas) <= after)
    && (forall j :: j in after && j !in before ==> 0 <= j < replicas)
  }

  ghost predicate Round(specs: Specs, c: Cluster, c': Cluster) {
    && specs.Keys <= c.Keys && specs.Keys <= c'.Keys
    && forall t :: t in specs ==> TypeRound(c[t].Keys, c'[t].Keys, specs[t].replica.replicas, ReadyIn(specs, c, t))
  }

  /** The ordered loop is such a round if it orders all types, no pod fails over and no call fails. */
  lemma LoopIsRound(specs: Specs, order: seq<ReplicaType>, pods: seq<Labelled<Pod>>, c: Cluster, after: Cluster, c': Cluster)
    requires CompleteListing(c, pods) && specs.Keys <= c.Keys && specs.Keys <= set t | t in order
    requires Outcome(specs, pods, order, c, after, false)
    requires forall t, j :: t in specs && j in c[t] ==> !FailsOver(specs[t].replica, c[t][j])
    requires c'.Keys == after.Keys && forall t :: t in after ==> c'[t].Keys == after[t].Keys
    ensures Round(specs, c, c')
  {
    forall t | t in specs
      ensures TypeRound(c[t].Keys, c'[t].Keys, specs[t].replica.replicas, ReadyIn(specs, c, t))
    {
      ListedReady(specs, c, pods, t);
      var n := specs[t].replica.replicas;
      assert forall j :: j in UpTo(n) ==> Below(j, n);
      assert TypePass(c[t], after[t], specs[t].replica, Ready(specs, pods, t), false);
    }
  }

  ghost predicate FullIn(specs: Specs, c: Cluster, t: ReplicaType) {
    t in specs && t in c && UpTo(specs[t].replica.replicas) <= c[t].Keys
  }

  /** All pods have come to the phases that other types wait for. */
  ghost predicate Settled(specs: Specs, c: Cluster) {
    forall t, i :: t in specs && 0 <= i < |specs[t].dependOn| && specs[t].dependOn[i].upstream in c ==>
      AtPhase(c[specs[t].dependOn[i].upstream], specs[t].dependOn[i].onPhase)
  }

  ghost predicate RoundAt(specs: Specs, states: seq<Cluster>, k: nat) {
    k + 1 < |states| ==> Round(specs, states[k], states[k + 1]) && Settled(specs, states[k])
  }

  ghost predicate Rounds(specs: Specs, states: seq<Cluster>) {
    states != [] && forall k: nat :: RoundAt(specs, states, k)
  }

  lemma RoundsPrefix(specs: Specs, states: seq<Cluster>)
    requires Rounds(specs, states) && |states| >= 2
    ensures Rounds(specs, states[..|states| - 1])
    ensures RoundAt(specs, states, |states| - 2)
  {
    var front := states[..|states| - 1];
    forall k: nat ensures RoundAt(specs, front, k) {
      assert RoundAt(specs, states, k);
    }
  }

  /** `t` really waits for `u`: a specified upstream with at least one replica. */
  ghost predicate Waits(specs: Specs, t: ReplicaType, u: ReplicaType) {
    && t in specs && u in specs && specs[u].replica.replicas > 0
    && exists i :: 0 <= i < |specs[t].dependOn| && specs[t].dependOn[i].upstream == u
  }

  /** The longest chain of types that `t` waits for is at most `r` long. */
  ghost predicate RankAtMost(specs: Specs, t: ReplicaType, r: nat)
    decreases r
  {
    forall u :: Waits(specs, t, u) ==> r > 0 && RankAtMost(specs, u, r - 1)
  }

  lemma UpToSize(n: nat)
    ensures |UpTo(n)| == n
  {
    if n > 0 {
      UpToSize(n - 1);
      assert UpTo(n) == UpTo(n - 1) + {n - 1} by {
        assert Below(n - 1, n) && forall j :: Below(j, n - 1) ==> Below(j, n);
      }
    }
  }

  /**
   In every pass of the ordered loop, also one that fails or meets failing pods, a pod is created only for a type in
   the order whose conditions all hold in the listing taken before, and only within its replicas.
   */
  lemma CreatedOnlyWhenReady(specs: Specs, pods: seq<Labelled<Pod>>, order: seq<ReplicaType>, before: Cluster,
                             after: Cluster, err: bool, t: ReplicaType, j: int)
    requires Outcome(specs, pods, order, before, after, err) && t in after && j in after[t] && j !in before[t]
    ensures t in order && t in specs && Ready(specs, pods, t) && 0 <= j < specs[t].replica.replicas
    ensures CompleteListing(before, pods) && specs.Keys <= before.Keys ==> ReadyIn(specs, before, t)
  {
    assert TypeOutcome(specs, pods, order, t, before[t], after[t], err);
    if CompleteListing(before, pods) && specs.Keys <= before.Keys {
      ListedReady(specs, before, pods, t);
    }
  }

  lemma FullUpstreamsAreReady(specs: Specs, c: Cluster, t: ReplicaType)
    requires t in specs && specs.Keys <= c.Keys && Settled(specs, c)
    requires forall u :: Waits(specs, t, u) ==> FullIn(specs, c, u)
    ensures ReadyIn(specs, c, t)
  {
    forall i | 0 <= i < |specs[t].dependOn| ensures UpstreamReadyIn(specs, c, specs[t].dependOn[i]) {
      var d := specs[t].dependOn[i];
      if d.upstream in specs && specs[d.upstream].replica.replicas > 0 {
        assert Waits(specs, t, d.upstream);
        FullCount(specs, c, d.upstream);
      }
    }
  }

  lemma FullCount(specs: Specs, c: Cluster, u: ReplicaType)
    requires FullIn(specs, c, u)
    ensures |c[u]| >= specs[u].replica.replicas
  {
    UpToSize(specs[u].replica.replicas);
    SubsetSize(UpTo(specs[u].replica.replicas), c[u].Keys);
    assert |c[u]| == |c[u].Keys|;
  }

  /** No deadlock: a type of rank r is complete after r + 1 rounds, and stays so. */
  lemma {:induction false} RankedIsFull(specs: Specs, states: seq<Cluster>, t: ReplicaType, r: nat)
    requires Rounds(specs, states) && |states| >= r + 2
    requires t in specs && RankAtMost(specs, t, r)
    ensures FullIn(specs, states[|states| - 1], t)
    decreases r
  {
    var front := states[..|states| - 1];
    RoundsPrefix(specs, states);
    forall u | Waits(specs, t, u) ensures FullIn(specs, front[|front| - 1], u) {
      RankedIsFull(specs, front, u, r - 1);
    }
    FullUpstreamsAreReady(specs, front[|front| - 1], t);
    OpenIsFull(specs, front[|front| - 1], states[|states| - 1], t);
  }

  lemma OpenIsFull(specs: Specs, c: Cluster, c': Cluster, t: ReplicaType)
    requires Round(specs, c, c') && ReadyIn(specs, c, t)
    ensures FullIn(specs, c', t)
  {
    assert TypeRound(c[t].Keys, c'[t].Keys, specs[t].replica.replicas, ReadyIn(specs, c, t));
  }

  lemma {:induction false} RankGrows(specs: Specs, t: ReplicaType, r: nat)
    requires RankAtMost(specs, t, r)
    ensures RankAtMost(specs, t, r + 1)
    decreases r
  {
    forall u | Waits(specs, t, u) ensures RankAtMost(specs, u, r) {
      RankGrows(specs, u, r - 1);
    }
  }

  ghost predicate EmptyIn(specs: Specs, c: Cluster) {
    forall t :: t in specs && t in c ==> c[t] == map[]
  }

  /** Starting from nothing, a type has its first pod only when its rank allows it. */
  lemma {:induction false} StartedIsRanked(specs: Specs, states: seq<Cluster>, t: ReplicaType)
    requires Rounds(specs, states) && EmptyIn(specs, states[0])
    requires t in specs && t in states[|states| - 1] && states[|states| - 1][t] != map[]
    ensures |states| >= 2 && RankAtMost(specs, t, |states| - 2)
    decreases |states|, 0
  {
    var n := |states| - 1;
    if n > 0 {
      var front := states[..n];
      LastRound(specs, states, t);
      if states[n - 1][t] != map[] {
        StartedIsRanked(specs, front, t);
        RankGrows(specs, t, n - 2);
      } else {
        OpenIsRanked(specs, front, t);
      }
    }
  }

  /** What the last of several rounds says about one type. */
  lemma LastRound(specs: Specs, states: seq<Cluster>, t: ReplicaType)
    requires Rounds(specs, states) && |states| >= 2 && t in specs
    ensures Rounds(specs, states[..|states| - 1])
    ensures var before, after := states[|states| - 2], states[|states| - 1];
      && t in before && t in after
      && (before[t] == map[] && after[t] != map[] ==> ReadyIn(specs, before, t))
  {
    RoundsPrefix(specs, states);
    var before, after := states[|states| - 2], states[|states| - 1];
    if before[t] == map[] && after[t] != map[] {
      OpenedBy(specs, before, after, t);
    }
  }

  lemma {:induction false} OpenIsRanked(specs: Specs, states: seq<Cluster>, t: ReplicaType)
    requires Rounds(specs, states) && EmptyIn(specs, states[0]) && ReadyIn(specs, states[|states| - 1], t)
    ensures RankAtMost(specs, t, |states| - 1)
    decreases |states|, 1
  {
    forall u | Waits(specs, t, u) ensures |states| - 1 > 0 && RankAtMost(specs, u, |states| - 2) {
      StartedUpstream(specs, states[|states| - 1], t, u);
      StartedIsRanked(specs, states, u);
    }
  }

  lemma OpenedBy(specs: Specs, c: Cluster, c': Cluster, t: ReplicaType)
    requires Round(specs, c, c') && t in specs && c[t] == map[] && c'[t] != map[]
    ensures ReadyIn(specs, c, t)
  {
    assert c[t].Keys == {};
    assert c'[t].Keys != {};
    assert TypeRound(c[t].Keys, c'[t].Keys, specs[t].replica.replicas, ReadyIn(specs, c, t));
  }

  lemma StartedUpstream(specs: Specs, c: Cluster, t: ReplicaType, u: ReplicaType)
    requires ReadyIn(specs, c, t) && Waits(specs, t, u)
    ensures u in c && c[u] != map[]
  {
    var i :| 0 <= i < |specs[t].dependOn| && specs[t].dependOn[i].upstream == u;
    assert UpstreamReadyIn(specs, c, specs[t].dependOn[i]);
  }

  /** Exactly the types of rank below the number of rounds are complete. */
  lemma FullIffRanked(specs: Specs, states: seq<Cluster>, t: ReplicaType)
    requires Rounds(specs, states) && |states| >= 2 && EmptyIn(specs, states[0])
    requires t in specs && specs[t].replica.replicas > 0
    ensures FullIn(specs, states[|states| - 1], t) <==> RankAtMost(specs, t, |states| - 2)
  {
    if RankAtMost(specs, t, |states| - 2) {
      RankedIsFull(specs, states, t, |states| - 2);
    }
    if FullIn(specs, states[|states| - 1], t) {
      assert Below(0, specs[t].replica.replicas) && 0 in UpTo(specs[t].replica.replicas);
      assert 0 in states[|states| - 1][t];
      StartedIsRanked(specs, states, t);
    }
  }

  ghost predicate WaitsIn(specs: Specs, t: ReplicaType, s: set<ReplicaType>) {
    exists u :: u in s && Waits(specs, t, u)
  }

  /** Each member waits for another member. */
  ghost predicate WaitsInside(specs: Specs, s: set<ReplicaType>) {
    forall t {:trigger WaitsIn(specs, t, s)} :: t in s ==> WaitsIn(specs, t, s)
  }

  ghost predicate Acyclic(specs: Specs) {
    forall s :: WaitsInside(specs, s) ==> s == {}
  }

  lemma {:induction false} CycleHasNoRank(specs: Specs, s: set<ReplicaType>, t: ReplicaType, r: nat)
    requires WaitsInside(specs, s) && t in s
    ensures !RankAtMost(specs, t, r)
    decreases r
  {
    assert WaitsIn(specs, t, s);
    var u :| u in s && Waits(specs, t, u);
    if r > 0 {
      CycleHasNoRank(specs, s, u, r - 1);
    }
  }

  /** Types that wait for each other in a circle never get a pod. */
  lemma CycleStarves(specs: Specs, states: seq<Cluster>, s: set<ReplicaType>, t: ReplicaType)
    requires Rounds(specs, states) && EmptyIn(specs, states[0]) && WaitsInside(specs, s) && t in s
    requires t in states[|states| - 1]
    ensures states[|states| - 1][t] == map[]
  {
    assert WaitsIn(specs, t, s);
    if states[|states| - 1][t] != map[] {
      StartedIsRanked(specs, states, t);
      CycleHasNoRank(specs, s, t, |states| - 2);
    }
  }

  ghost function Unranked(specs: Specs, r: nat): set<ReplicaType> {
    set t | t in specs && !RankAtMost(specs, t, r)
  }

  lemma StuckIsCycle(specs: Specs, r: nat)
    requires r > 0 ==> Unranked(specs, r) == Unranked(specs, r - 1)
    requires r == 0 ==> Unranked(specs, r) == specs.Keys
    ensures WaitsInside(specs, Unranked(specs, r))
  {
    var s := Unranked(specs, r);
    forall t | t in s ensures WaitsIn(specs, t, s) {
      var u :| Waits(specs, t, u) && !(r > 0 && RankAtMost(specs, u, r - 1));
      assert u in s;
    }
  }

  lemma {:induction false} UnrankedShrinks(specs: Specs, r: nat)
    requires Acyclic(specs)
    ensures Unranked(specs, r) == {} || |Unranked(specs, r)| + r < |specs|
  {
    var now := Unranked(specs, r);
    var before := if r == 0 then specs.Keys else Unranked(specs, r - 1);
    if r > 0 {
      UnrankedShrinks(specs, r - 1);
      forall t | t in now ensures t in before {
        if RankAtMost(specs, t, r - 1) {
          RankGrows(specs, t, r - 1);
        }
      }
    }
    if now == before {
      StuckIsCycle(specs, r);
    } else {
      SubsetSize(now, before);
    }
    assert |specs| == |specs.Keys|;
  }

  /** Without a circle every type is complete after as many rounds as there are types. */
  lemma AcyclicCompletes(specs: Specs, states: seq<Cluster>, t: ReplicaType)
    requires Acyclic(specs) && Rounds(specs, states) && |states| > |specs| && t in specs
    ensures FullIn(specs, states[|states| - 1], t)
  {
    assert |specs| > 0 by {
      assert t in specs.Keys;
      assert |specs| == |specs.Keys|;
    }
    UnrankedShrinks(specs, |specs| - 1);
    assert Unranked(specs, |specs| - 1) == {};
    assert t !in Unranked(specs, |specs| - 1);
    RankedIsFull(specs, states, t, |specs| - 1);
  }
}
