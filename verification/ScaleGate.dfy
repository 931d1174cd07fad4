/**
 When a scaling pass happens at all (the scaling gate of ReconcileJobs in pkg/job_controller/job.go), and which
 rounds are marked done: scaling is called only in a running elastic job without an outstanding checkpoint, while the
 number of pods labelled with the current generation differs from the total of replicas.
 */
module ScaleGate {
  import opened Common
  import opened Refresh
  import opened Scale
  import opened ScaleCounter

  /** The sum over the replica map. */
  ghost function Total(replicas: map<ReplicaType, nat>): nat
    decreases |replicas|
  {
    if replicas == map[] then 0
    else
      var t :| t in replicas;
      Smaller(replicas, t);
      replicas[t] + Total(replicas - {t})
  }

  lemma Smaller(replicas: map<ReplicaType, nat>, t: ReplicaType)
    requires t in replicas
    ensures |replicas - {t}| < |replicas|
  {
    var rest := replicas - {t};
    assert rest.Keys + {t} == replicas.Keys;
    assert |rest| == |rest.Keys| && |replicas| == |replicas.Keys|;
  }

  lemma {:induction false} TotalTake(replicas: map<ReplicaType, nat>, t: ReplicaType)
    requires t in replicas
    ensures Total(replicas) == replicas[t] + Total(replicas - {t})
    decreases |replicas|, 1
  {
    var u :| u in replicas && Total(replicas) == replicas[u] + Total(replicas - {u});
    if u != t {
      TakeTwo(replicas, t, u);
    }
  }

  lemma {:induction false} TakeTwo(replicas: map<ReplicaType, nat>, t: ReplicaType, u: ReplicaType)
    requires t in replicas && u in replicas && t != u
    ensures replicas[u] + Total(replicas - {u}) == replicas[t] + Total(replicas - {t})
    decreases |replicas|, 0
  {
    var a, b := replicas - {u}, replicas - {t};
    Smaller(replicas, u);
    Smaller(replicas, t);
    TotalTake(a, t);
    TotalTake(b, u);
    assert a - {t} == b - {u};
  }

  /** The loop ranges over the map in any order. */
  method GetTotalReplicas(replicas: map<ReplicaType, nat>) returns (total: nat)
    ensures total == Total(replicas)
  {
    total := 0;
    var rest := replicas;
    while rest != map[]
      invariant total + Total(rest) == Total(replicas)
      decreases |rest|
    {
      var t :| t in rest;
      TotalTake(rest, t);
      Smaller(rest, t);
      total := total + rest[t];
      rest := rest - {t};
    }
  }

  predicate HasLabel(slots: map<PodId, Slot>, p: Listed, generation: int) {
    p.id in slots && slots[p.id].pod.Some? && slots[p.id].pod.value.generation == Gen(generation)
  }

  function Labelled(slots: map<PodId, Slot>, pods: seq<Listed>, generation: int): nat {
    if pods == [] then 0
    else Labelled(slots, pods[..|pods| - 1], generation) + if HasLabel(slots, pods[|pods| - 1], generation) then 1 else 0
  }

  method GetNumReplicasForLatestGeneration(slots: map<PodId, Slot>, pods: seq<Listed>, generation: int)
    returns (replicas: nat)
    ensures replicas == Labelled(slots, pods, generation)
  {
    replicas := 0;
    for i := 0 to |pods|
      invariant replicas == Labelled(slots, pods[..i], generation)
    {
      assert pods[..i + 1][..i] == pods[..i];
      if HasLabel(slots, pods[i], generation) {
        replicas := replicas + 1;
      }
    }
    assert pods[..|pods|] == pods;
  }

  /** The count is that of the listed places whose pod is labelled with the number of the generation. */
  lemma {:induction false} LabelledCounts(slots: map<PodId, Slot>, pods: seq<Listed>, generation: int)
    ensures Labelled(slots, pods, generation) == |LabelledPlaces(slots, pods, generation)|
  {
    if pods != [] {
      var n, front := |pods| - 1, pods[..|pods| - 1];
      LabelledCounts(slots, front, generation);
      assert forall i :: 0 <= i < n ==> pods[i] == front[i];
      if HasLabel(slots, pods[n], generation) {
        assert LabelledPlaces(slots, pods, generation) == LabelledPlaces(slots, front, generation) + {n};
      } else {
        assert LabelledPlaces(slots, pods, generation) == LabelledPlaces(slots, front, generation);
      }
    }
  }

  ghost function LabelledPlaces(slots: map<PodId, Slot>, pods: seq<Listed>, generation: int): set<int> {
    set i | 0 <= i < |pods| && pods[i].id in slots && slots[pods[i].id].pod.Some?
            && slots[pods[i].id].pod.value.generation == Gen(generation)
  }

  /** All pairs of a type and an index below its replicas. */
  ghost function Places(replicas: map<ReplicaType, nat>): set<(ReplicaType, int)> {
    set t, i | t in replicas && 0 <= i < replicas[t] :: (t, i)
  }

  lemma {:induction false} TotalCounts(replicas: map<ReplicaType, nat>)
    ensures Total(replicas) == |Places(replicas)|
    decreases |replicas|
  {
    if t :| t in replicas {
      Smaller(replicas, t);
      TotalTake(replicas, t);
      TotalCounts(replicas - {t});
      PlacesOfSize(t, replicas[t]);
      assert Places(replicas) == Places(replicas - {t}) + PlacesOf(t, replicas[t]);
    } else {
      assert Places(replicas) == {};
    }
  }

  ghost function PlacesOf(t: ReplicaType, n: nat): set<(ReplicaType, int)> {
    set i | 0 <= i < n :: (t, i)
  }

  lemma {:induction false} PlacesOfSize(t: ReplicaType, n: nat)
    ensures |PlacesOf(t, n)| == n
  {
    if n > 0 {
      PlacesOfSize(t, n - 1);
      assert PlacesOf(t, n) == PlacesOf(t, n - 1) + {(t, n - 1)};
    }
  }

  lemma {:induction false} AllLabelled(slots: map<PodId, Slot>, pods: seq<Listed>, generation: int)
    ensures Labelled(slots, pods, generation) <= |pods|
    ensures Labelled(slots, pods, generation) == |pods| <==> forall p :: p in pods ==> HasLabel(slots, p, generation)
  {
    if pods != [] {
      var front, last := pods[..|pods| - 1], pods[|pods| - 1];
      AllLabelled(slots, front, generation);
      assert forall p :: p in pods <==> p in front || p == last;
    }
  }

  /** The pods whose index is in range, in list order. */
  function InRange(pods: seq<Listed>, outOfRange: set<PodId>): (r: seq<Listed>)
    ensures forall p :: p in r <==> p in pods && p.id !in outOfRange
  {
    if pods == [] then []
    else
      var rest, p := InRange(pods[..|pods| - 1], outOfRange), pods[|pods| - 1];
      if p.id in outOfRange then rest else rest + [p]
  }

  lemma {:induction false} InRangeDistinct(pods: seq<Listed>, outOfRange: set<PodId>)
    requires DistinctIds(pods)
    ensures DistinctIds(InRange(pods, outOfRange))
  {
    if pods != [] {
      var front, last := pods[..|pods| - 1], pods[|pods| - 1];
      InRangeDistinct(front, outOfRange);
      forall i | 0 <= i < |InRange(front, outOfRange)| ensures InRange(front, outOfRange)[i].id != last.id {
        assert InRange(front, outOfRange)[i] in front;
      }
    }
  }

  /** ScaleIn works on the pods whose index is in range. */
  method FilterInRange(pods: seq<Listed>, outOfRange: set<PodId>) returns (filtered: seq<Listed>)
    ensures filtered == InRange(pods, outOfRange)
  {
    filtered := [];
    for i := 0 to |pods|
      invariant filtered == InRange(pods[..i], outOfRange)
    {
      assert pods[..i + 1][..i] == pods[..i];
      if pods[i].id !in outOfRange {
        filtered := filtered + [pods[i]];
      }
    }
    assert pods[..|pods|] == pods;
  }

  /** What a pass is given: the job and its pods as read, the desired replicas, and which patches of job and service fail. */
  datatype Input = Input(
    running: bool,
    elastic: bool,
    checkpointed: bool,
    pods: seq<Listed>,
    outOfRange: set<PodId>,
    replicas: map<ReplicaType, nat>,
    ctx: PassContext,
    faults: JobFaults)

  /** No checkpoint is outstanding in a running elastic job whose spec has changed. */
  predicate MayScale(x: Input) {
    x.running && x.elastic && x.checkpointed && x.ctx.generation > 1
  }

  ghost predicate Open(slots: map<PodId, Slot>, x: Input) {
    MayScale(x) && Labelled(slots, x.pods, x.ctx.generation) != Total(x.replicas)
  }

  /** The listing that scaling out or scaling in works on. */
  ghost function InPlay(slots: map<PodId, Slot>, x: Input): seq<Listed> {
    if Total(x.replicas) > Labelled(slots, x.pods, x.ctx.generation) then x.pods else InRange(x.pods, x.outOfRange)
  }

  ghost predicate NoStale(slots: map<PodId, Slot>, pods: seq<Listed>, generation: int) {
    forall p :: !StaleListed(slots, pods, generation, p)
  }

  /** All that marking a round done takes besides its flags; `race` says that two goroutines raced for the counter. */
  ghost predicate Meets(before: View, x: Input, race: bool) {
    && Open(before.slots, x)
    && Patched(before, x.ctx.generation, x.faults)
    && AllStaleComplete(before.slots, InPlay(before.slots, x), x.ctx)
    && !race
  }

  /** One pass through the gate. */
  ghost predicate GatePass(before: View, x: Input, race: bool, after: View, finished: bool) {
    && (finished <==> before.Flagged() && Meets(before, x, race))
    && (!Open(before.slots, x) ==> after == before)
    && OnlyStaleChange(before.slots, after.slots, InPlay(before.slots, x), x.ctx.generation)
    && (race ==> CanRace(before.slots, InPlay(before.slots, x), x.ctx))
    && FlagsAfter(before, after, finished)
  }

  lemma GateOf(before: View, x: Input, after: View, finished: bool, run: seq<Counter>, schedule: seq<nat>)
    requires Open(before.slots, x)
    requires PassDid(before, after, InPlay(before.slots, x), x.ctx, x.faults, finished, run, schedule)
    ensures GatePass(before, x, Races(run), after, finished)
    ensures run == [] || FanOutRun(run, schedule, before.slots, InPlay(before.slots, x), x.ctx)
  {
    if Races(run) {
      RaceNeedsTwo(run, schedule, before.slots, InPlay(before.slots, x), x.ctx);
    }
  }

  method ScaleOut(job: ElasticJob, cluster: Cluster, x: Input)
    returns (finished: bool, err: bool, ghost run: seq<Counter>, ghost schedule: seq<nat>)
    requires DistinctIds(x.pods) && x.ctx.immediate == job.immediatelyStartWorker
    modifies job, cluster
    ensures PassDid(old(ViewOf(job, cluster)), ViewOf(job, cluster), x.pods, x.ctx, x.faults, finished, run, schedule)
  {
    finished, err, run, schedule := ScalePass(job, cluster, x.pods, x.ctx, x.faults);
  }

  method ScaleIn(job: ElasticJob, cluster: Cluster, x: Input)
    returns (finished: bool, err: bool, ghost run: seq<Counter>, ghost schedule: seq<nat>)
    requires DistinctIds(x.pods) && x.ctx.immediate == job.immediatelyStartWorker
    modifies job, cluster
    ensures PassDid(old(ViewOf(job, cluster)), ViewOf(job, cluster), InRange(x.pods, x.outOfRange), x.ctx, x.faults, finished,
                    run, schedule)
  {
    var filteredPods := FilterInRange(x.pods, x.outOfRange);
    InRangeDistinct(x.pods, x.outOfRange);
    finished, err, run, schedule := ScalePass(job, cluster, filteredPods, x.ctx, x.faults);
  }

  /** The gate of a pass; `run` records the counter of its goroutines, if it got that far. */
  method ScaleIfNecessary(job: ElasticJob, cluster: Cluster, x: Input)
    returns (called: bool, finished: bool, err: bool, ghost run: seq<Counter>, ghost schedule: seq<nat>)
    requires DistinctIds(x.pods) && x.ctx.immediate == job.immediatelyStartWorker
    modifies job, cluster
    ensures GatePass(old(ViewOf(job, cluster)), x, Races(run), ViewOf(job, cluster), finished)
    ensures run == [] || FanOutRun(run, schedule, old(cluster.slots), InPlay(old(cluster.slots), x), x.ctx)
    ensures called <==> x.running && x.elastic && x.checkpointed && x.ctx.generation > 1
                        && Labelled(old(cluster.slots), x.pods, x.ctx.generation) != Total(x.replicas)
    ensures !called ==>
              !finished && !err && run == [] && ViewOf(job, cluster) == old(ViewOf(job, cluster))
    ensures Labelled(old(cluster.slots), x.pods, x.ctx.generation) > Total(x.replicas) ==>
              forall id :: id in old(cluster.slots) && id in x.outOfRange ==> cluster.slots[id] == old(cluster.slots)[id]
    ensures x.running && x.elastic && x.checkpointed && x.ctx.generation > 1
            && Labelled(old(cluster.slots), x.pods, x.ctx.generation) < Total(x.replicas)
            && (old(job.readyToStartWorker) || old(job.immediatelyStartWorker)) && x.faults == JobFaults(false, false, false)
            && MastersComplete(old(cluster.slots), x.pods, x.ctx) ==>
              StaleAsResults(old(cluster.slots), cluster.slots, x.pods, x.ctx)
  {
    called, finished, err, run, schedule := false, false, false, [], [];
    ghost var before := ViewOf(job, cluster);
    var totalReplicas := GetTotalReplicas(x.replicas);
    if MayScale(x) {
      var active := GetNumReplicasForLatestGeneration(cluster.slots, x.pods, x.ctx.generation);
      called := totalReplicas != active;
      if totalReplicas > active {
        finished, err, run, schedule := ScaleOut(job, cluster, x);
        FlagsMeaning(before, ViewOf(job, cluster), x.pods, x.ctx, x.faults, finished, run, schedule);
        GateOf(before, x, ViewOf(job, cluster), finished, run, schedule);
      } else if totalReplicas < active {
        finished, err, run, schedule := ScaleIn(job, cluster, x);
        GateOf(before, x, ViewOf(job, cluster), finished, run, schedule);
      }
    }
  }

  /** Whole rounds. */

  datatype Pass = Pass(before: View, input: Input, race: bool, after: View, finished: bool)

  /**
   Passes of a round whose flags are set. Between two of them anything may happen to pods, replicas, generation,
   conditions and checkpoints; only, nobody but a finishing pass takes the flags back.
   */
  ghost predicate Round(passes: seq<Pass>) {
    && passes != [] && passes[0].before.Flagged()
    && (forall k :: 0 <= k < |passes| ==>
          GatePass(passes[k].before, passes[k].input, passes[k].race, passes[k].after, passes[k].finished))
    && (forall k :: 0 < k < |passes| && passes[k - 1].after.Flagged() ==> passes[k].before.Flagged())
  }

  ghost predicate PassMeets(p: Pass) {
    Meets(p.before, p.input, p.race)
  }

  lemma {:induction false} FlaggedUntilFinished(passes: seq<Pass>, k: nat)
    requires Round(passes) && k < |passes|
    ensures passes[k].before.Flagged() || exists i :: 0 <= i < k && passes[i].finished
  {
    if k > 0 {
      FlaggedUntilFinished(passes, k - 1);
    }
  }

  /**
   A round is finished if and only if some pass meets an open gate, no patch fails it, and it completes every stale
   pod in play without a race for the counter.
   */
  lemma RoundFinishesIff(passes: seq<Pass>)
    requires Round(passes)
    ensures (exists k :: 0 <= k < |passes| && passes[k].finished) <==> exists k :: 0 <= k < |passes| && PassMeets(passes[k])
  {
    if k :| 0 <= k < |passes| && passes[k].finished {
      assert PassMeets(passes[k]);
    }
    if k :| 0 <= k < |passes| && PassMeets(passes[k]) {
      FlaggedUntilFinished(passes, k);
    }
  }

  ghost predicate Unstale(p: Pass) {
    NoStale(p.before.slots, InPlay(p.before.slots, p.input), p.input.ctx.generation)
  }

  ghost predicate MeetsGate(p: Pass) {
    Open(p.before.slots, p.input) && Patched(p.before, p.input.ctx.generation, p.input.faults)
  }

  lemma UnstaleMeets(p: Pass)
    requires GatePass(p.before, p.input, p.race, p.after, p.finished) && Unstale(p)
    ensures PassMeets(p) <==> MeetsGate(p)
  {
    UnstaleNeverRaces(p.before.slots, InPlay(p.before.slots, p.input), p.input.ctx);
  }

  /**
   If every pass over stale pods fell short of finishing the round, by a race, a failed patch or an incomplete
   attempt, then it is finished if and only if some pass with nothing stale in play meets the gate open.
   */
  lemma UnfinishedRoundFinishesIff(passes: seq<Pass>)
    requires Round(passes)
    requires forall k :: 0 <= k < |passes| && !Unstale(passes[k]) ==> !passes[k].finished
    ensures (exists k :: 0 <= k < |passes| && passes[k].finished) <==>
              exists k :: 0 <= k < |passes| && Unstale(passes[k]) && MeetsGate(passes[k])
  {
    if k :| 0 <= k < |passes| && passes[k].finished {
      UnstaleMeets(passes[k]);
    }
    if k :| 0 <= k < |passes| && Unstale(passes[k]) && MeetsGate(passes[k]) {
      UnstaleMeets(passes[k]);
      RoundFinishesIff(passes);
    }
  }

  /** When the listing does not change. */

  /** Every replica has its pod, and all of them but AIMaster carry the label of the generation. */
  ghost predicate Settled(slots: map<PodId, Slot>, pods: seq<Listed>, replicas: map<ReplicaType, nat>, generation: int) {
    && |pods| == Total(replicas)
    && forall p :: p in pods && p.rtype != AIMaster ==> HasLabel(slots, p, generation)
  }

  ghost predicate OldAIMaster(slots: map<PodId, Slot>, pods: seq<Listed>, generation: int) {
    exists p :: p in pods && p.rtype == AIMaster && !HasLabel(slots, p, generation)
  }

  /** Once all other pods are refreshed, the gate is open exactly because of an AIMaster pod without the new label. */
  lemma SettledGate(slots: map<PodId, Slot>, x: Input)
    requires Settled(slots, x.pods, x.replicas, x.ctx.generation) && MayScale(x)
    ensures Open(slots, x) <==> OldAIMaster(slots, x.pods, x.ctx.generation)
  {
    AllLabelled(slots, x.pods, x.ctx.generation);
  }

  /** And nothing is stale for the pass. */
  lemma SettledUnstale(slots: map<PodId, Slot>, x: Input)
    requires Settled(slots, x.pods, x.replicas, x.ctx.generation)
    ensures NoStale(slots, InPlay(slots, x), x.ctx.generation)
  {
    forall p ensures !StaleListed(slots, InPlay(slots, x), x.ctx.generation, p) {
      if p in x.pods && p.rtype != AIMaster {
        assert HasLabel(slots, p, x.ctx.generation);
      }
    }
  }

  /**
   How a job gets there: a pass that completes every stale pod and leaves each of them alive. Whether it then marks
   the round done depends on the counter and on its last patch.
   */
  lemma CompletedPassSettles(before: map<PodId, Slot>, after: map<PodId, Slot>, pods: seq<Listed>,
                             replicas: map<ReplicaType, nat>, ctx: PassContext)
    requires |pods| == Total(replicas) && after.Keys == before.Keys
    requires forall p :: p in pods && p.rtype != AIMaster ==>
               HasLabel(before, p, ctx.generation) || StaleListed(before, pods, ctx.generation, p)
    requires forall p :: StaleListed(before, pods, ctx.generation, p) ==>
               && Result(before, p.id, ctx).completed && after[p.id] == Result(before, p.id, ctx).slot
               && after[p.id].pod.Some? && !after[p.id].pod.value.terminating
    requires forall p :: p in pods && p.id in before && !StaleListed(before, pods, ctx.generation, p) ==>
               after[p.id] == before[p.id]
    ensures Settled(after, pods, replicas, ctx.generation)
  {
    forall p | p in pods && p.rtype != AIMaster ensures HasLabel(after, p, ctx.generation) {
      if StaleListed(before, pods, ctx.generation, p) {
        AttemptResult(before[p.id], ctx, ctx.faults(p.id));
      }
    }
  }

  /** Pods, replicas and generation stay as the first pass finds them; conditions, checkpoints and faults need not. */
  ghost predicate Unchanged(passes: seq<Pass>) {
    && (forall k :: 0 < k < |passes| ==>
          && passes[k].input.pods == passes[0].input.pods
          && passes[k].input.replicas == passes[0].input.replicas
          && passes[k].input.ctx.generation == passes[0].input.ctx.generation)
    && (forall k :: 0 < k < |passes| ==> passes[k].before.slots == passes[k - 1].after.slots)
  }

  ghost predicate SettledPass(p: Pass) {
    Settled(p.before.slots, p.input.pods, p.input.replicas, p.input.ctx.generation)
  }

  /** With nothing stale, passes change no pod. */
  lemma {:induction false} SettledStays(passes: seq<Pass>, k: nat)
    requires Round(passes) && Unchanged(passes) && SettledPass(passes[0]) && k < |passes|
    ensures SettledPass(passes[k]) && passes[k].before.slots == passes[0].before.slots
  {
    if k > 0 {
      SettledStays(passes, k - 1);
      SettledUnstale(passes[k - 1].before.slots, passes[k - 1].input);
      assert passes[k - 1].after.slots == passes[k - 1].before.slots;
    }
  }

  ghost predicate Ready(p: Pass) {
    MayScale(p.input) && Patched(p.before, p.input.ctx.generation, p.input.faults)
  }

  /**
   When all pods were refreshed but the round was not marked done, because a decrement was lost or the last patch
   failed, and the listing stays as it is: some later pass finishes the round if and only if an AIMaster pod lacks the
   new label and some pass may scale and is not stopped by a failing patch.
   */
  lemma LaterPassFinishesIff(passes: seq<Pass>)
    requires Round(passes) && Unchanged(passes) && SettledPass(passes[0])
    ensures (exists k :: 0 <= k < |passes| && passes[k].finished) <==>
              && OldAIMaster(passes[0].before.slots, passes[0].input.pods, passes[0].input.ctx.generation)
              && exists k :: 0 <= k < |passes| && Ready(passes[k])
  {
    forall k | 0 <= k < |passes|
      ensures PassMeets(passes[k]) <==>
        Ready(passes[k]) && OldAIMaster(passes[0].before.slots, passes[0].input.pods, passes[0].input.ctx.generation)
    {
      SettledStays(passes, k);
      SettledUnstale(passes[k].before.slots, passes[k].input);
      UnstaleMeets(passes[k]);
      if MayScale(passes[k].input) {
        SettledGate(passes[k].before.slots, passes[k].input);
      }
    }
    RoundFinishesIff(passes);
  }

  /** Without such a pod the gate stays shut while the listing stays as it is: no pass changes a pod or finishes the round. */
  lemma ClosedGateStays(passes: seq<Pass>, k: nat)
    requires Round(passes) && Unchanged(passes) && SettledPass(passes[0]) && k < |passes|
    requires !OldAIMaster(passes[0].before.slots, passes[0].input.pods, passes[0].input.ctx.generation)
    ensures !passes[k].finished && passes[k].after == passes[k].before
    ensures passes[k].before.slots == passes[0].before.slots
  {
    SettledStays(passes, k);
    if MayScale(passes[k].input) {
      SettledGate(passes[k].before.slots, passes[k].input);
    }
  }

  lemma {:induction false} LabelledWithout(slots: map<PodId, Slot>, pods: seq<Listed>, generation: int, i: nat)
    requires i < |pods|
    ensures Labelled(slots, pods[..i] + pods[i + 1..], generation)
         == Labelled(slots, pods, generation) - if HasLabel(slots, pods[i], generation) then 1 else 0
  {
    var rest := pods[..i] + pods[i + 1..];
    if i == |pods| - 1 {
      assert rest == pods[..|pods| - 1];
    } else {
      var front := pods[..|pods| - 1];
      LabelledWithout(slots, front, generation, i);
      assert rest[..|rest| - 1] == front[..i] + front[i + 1..];
      assert rest[|rest| - 1] == pods[|pods| - 1];
    }
  }

  /** A pod that is lost opens the shut gate again, and a pass that may scale then marks the round done. */
  lemma LostPodFinishes(p: Pass, x: Input, i: nat)
    requires GatePass(p.before, p.input, p.race, p.after, p.finished) && p.before.Flagged() && Ready(p)
    requires Settled(p.before.slots, x.pods, x.replicas, x.ctx.generation)
    requires !OldAIMaster(p.before.slots, x.pods, x.ctx.generation)
    requires i < |x.pods| && p.input.pods == x.pods[..i] + x.pods[i + 1..]
    requires p.input.replicas == x.replicas && p.input.ctx.generation == x.ctx.generation
    ensures p.finished
  {
    AllLabelled(p.before.slots, x.pods, x.ctx.generation);
    assert x.pods[i] in x.pods;
    LabelledWithout(p.before.slots, x.pods, x.ctx.generation, i);
    forall q ensures !StaleListed(p.before.slots, InPlay(p.before.slots, p.input), x.ctx.generation, q) {
      if q in x.pods {
        assert HasLabel(p.before.slots, q, x.ctx.generation);
      }
    }
    UnstaleMeets(p);
  }
}
