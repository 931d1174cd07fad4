/**
 One pass of elastic scaling (scale in controllers/pytorch/elastic_scale.go, with FilterStalePodsByReplicaType of
 pkg/util/k8sutil/k8sutil.go): masters are refreshed first, then the workers concurrently, with a counter that
 the goroutines decrement without synchronisation.
 */
module Scale {
  import opened Common
  import opened Refresh
  import opened ScaleCounter

  /** The scaling pass. */

  /** A listed pod with its replica type. */
  datatype Listed = Listed(id: PodId, rtype: ReplicaType)

  predicate DistinctIds(pods: seq<Listed>) {
    forall i, j :: 0 <= i < j < |pods| ==> pods[i].id != pods[j].id
  }

  predicate StaleIn(slots: map<PodId, Slot>, p: Listed, generation: int) {
    && p.id in slots && slots[p.id].pod.Some?
    && IsStale(slots[p.id].pod.value, generation)
    && p.rtype != AIMaster
  }

  /** The stale pods of one type, in list order. */
  function StaleOf(slots: map<PodId, Slot>, pods: seq<Listed>, generation: int, rtype: ReplicaType): (r: seq<PodId>)
    ensures forall id :: id in r <==> Listed(id, rtype) in pods && StaleIn(slots, Listed(id, rtype), generation)
  {
    if pods == [] then []
    else
      var rest, p := StaleOf(slots, pods[..|pods| - 1], generation, rtype), pods[|pods| - 1];
      if p.rtype == rtype && StaleIn(slots, p, generation) then rest + [p.id] else rest
  }

  function StaleTotal(slots: map<PodId, Slot>, pods: seq<Listed>, generation: int): (n: nat)
    ensures n == 0 ==> forall p :: p in pods ==> !StaleIn(slots, p, generation)
  {
    if pods == [] then 0
    else StaleTotal(slots, pods[..|pods| - 1], generation) + if StaleIn(slots, pods[|pods| - 1], generation) then 1 else 0
  }

  /** Stale pods are masters, workers, or of a type the protocol never refreshes. */
  lemma {:induction false} StaleTotalSplits(slots: map<PodId, Slot>, pods: seq<Listed>, generation: int)
    ensures StaleTotal(slots, pods, generation)
         >= |StaleOf(slots, pods, generation, Master)| + |StaleOf(slots, pods, generation, Worker)|
    ensures (StaleTotal(slots, pods, generation)
             == |StaleOf(slots, pods, generation, Master)| + |StaleOf(slots, pods, generation, Worker)|) <==>
              forall p :: p in pods && StaleIn(slots, p, generation) ==> p.rtype == Master || p.rtype == Worker
  {
    if pods != [] {
      StaleTotalSplits(slots, pods[..|pods| - 1], generation);
    }
  }

  /** Stale is a pod without label or with a smaller number in it, unless it is AIMaster's; a malformed label counts as fresh. */
  lemma {:induction false} StaleMeaning(slots: map<PodId, Slot>, pods: seq<Listed>, generation: int, rtype: ReplicaType, id: PodId)
    ensures id in StaleOf(slots, pods, generation, rtype) <==>
              && Listed(id, rtype) in pods && rtype != AIMaster && id in slots && slots[id].pod.Some?
              && (slots[id].pod.value.generation == NoLabel
                  || exists g :: g < generation && slots[id].pod.value.generation == Gen(g))
    ensures StaleTotal(slots, pods, generation) == 0 <==>
              forall p :: p in pods ==> p.id !in StaleOf(slots, pods, generation, p.rtype)
  {
    if pods != [] {
      var front, last := pods[..|pods| - 1], pods[|pods| - 1];
      StaleMeaning(slots, front, generation, rtype, id);
      assert forall p :: p in pods <==> p in front || p == last;
    }
  }

  lemma {:induction false} StaleOfDistinct(slots: map<PodId, Slot>, pods: seq<Listed>, generation: int, rtype: ReplicaType)
    requires DistinctIds(pods)
    ensures Distinct(StaleOf(slots, pods, generation, rtype))
  {
    if pods != [] {
      StaleOfDistinct(slots, pods[..|pods| - 1], generation, rtype);
    }
  }

  method FilterStalePodsByReplicaType(slots: map<PodId, Slot>, pods: seq<Listed>, generation: int)
    returns (total: nat, masters: seq<PodId>, workers: seq<PodId>)
    ensures total == StaleTotal(slots, pods, generation)
    ensures masters == StaleOf(slots, pods, generation, Master)
    ensures workers == StaleOf(slots, pods, generation, Worker)
  {
    total, masters, workers := 0, [], [];
    for i := 0 to |pods|
      invariant total == StaleTotal(slots, pods[..i], generation)
      invariant masters == StaleOf(slots, pods[..i], generation, Master)
      invariant workers == StaleOf(slots, pods[..i], generation, Worker)
    {
      assert pods[..i + 1][..i] == pods[..i];
      var p := pods[i];
      if StaleIn(slots, p, generation) {
        total := total + 1;
        if p.rtype == Master {
          masters := masters + [p.id];
        } else if p.rtype == Worker {
          workers := workers + [p.id];
        }
      }
    }
    assert pods[..|pods|] == pods;
  }

  datatype ScaleState = Idle | Inflight | Done

  /** Generation in the master service's labels and in its selector. */
  datatype MasterService = MasterService(tag: GenerationLabel, selector: GenerationLabel)

  datatype JobFaults = JobFaults(service: bool, inflight: bool, done: bool)

  class ElasticJob {
    var readyToStartWorker: bool
    var immediatelyStartWorker: bool
    var scaleState: ScaleState
    var service: Option<MasterService>
  }

  /** What a pass fixes for all its attempts: the expected world size and generation, and which API calls fail. */
  datatype PassContext = PassContext(worldSize: int, generation: int, immediate: bool, faults: PodId -> Faults)

  /** How the attempt on `id` ends if it starts from `slots`. */
  ghost function Result(slots: map<PodId, Slot>, id: PodId, ctx: PassContext): Outcome
    requires id in slots && slots[id].pod.Some?
  {
    Attempt(slots[id], ctx.worldSize, ctx.generation, ctx.immediate, ctx.faults(id))
  }

  ghost predicate AllPresent(slots: map<PodId, Slot>, ids: seq<PodId>) {
    forall i :: 0 <= i < |ids| ==> ids[i] in slots && slots[ids[i]].pod.Some?
  }

  /** The attempts on all of `ids` complete. */
  ghost predicate AllComplete(slots: map<PodId, Slot>, ids: seq<PodId>, ctx: PassContext)
    requires AllPresent(slots, ids)
  {
    forall i :: 0 <= i < |ids| ==> Result(slots, ids[i], ctx).completed
  }

  ghost predicate NoneFails(slots: map<PodId, Slot>, ids: seq<PodId>, ctx: PassContext)
    requires AllPresent(slots, ids)
  {
    forall i :: 0 <= i < |ids| ==> !Result(slots, ids[i], ctx).err
  }

  /** `after` is `before` with the attempts on `ids` made, and nothing else. */
  ghost predicate Attempted(before: map<PodId, Slot>, after: map<PodId, Slot>, ids: seq<PodId>, ctx: PassContext)
    requires AllPresent(before, ids)
  {
    && after.Keys == before.Keys
    && (forall id :: id in before && id !in ids ==> after[id] == before[id])
    && (forall i :: 0 <= i < |ids| ==> after[ids[i]] == Result(before, ids[i], ctx).slot)
  }

  /** An attempt never both completes and fails; a completed one leaves no live pod of an older generation. */
  lemma AttemptResult(slot: Slot, ctx: PassContext, f: Faults)
    requires slot.pod.Some?
    ensures var r := Attempt(slot, ctx.worldSize, ctx.generation, ctx.immediate, f);
      && !(r.completed && r.err)
      && (r.completed && r.slot.pod.Some? && !r.slot.pod.value.terminating ==> r.slot.pod.value.generation == Gen(ctx.generation))
  {
  }

  method RestartOne(cluster: Cluster, id: PodId, ctx: PassContext) returns (completed: bool, err: bool)
    requires id in cluster.slots && cluster.slots[id].pod.Some?
    modifies cluster
    ensures var r := Result(old(cluster.slots), id, ctx);
      cluster.slots == old(cluster.slots)[id := r.slot] && completed == r.completed && err == r.err && !(completed && err)
  {
    AttemptResult(cluster.slots[id], ctx, ctx.faults(id));
    completed, err := cluster.RestartStalePod(id, ctx.worldSize, ctx.generation, ctx.immediate, ctx.faults(id));
    assert Outcome(cluster.slots[id], completed, err) == Result(old(cluster.slots), id, ctx);
  }

  lemma AttemptedStep(before: map<PodId, Slot>, now: map<PodId, Slot>, ids: seq<PodId>, k: nat, ctx: PassContext)
    requires k < |ids| && Distinct(ids) && AllPresent(before, ids) && AllPresent(before, ids[..k])
    requires Attempted(before, now, ids[..k], ctx)
    ensures now[ids[k]] == before[ids[k]] && AllPresent(before, ids[..k + 1])
    ensures Attempted(before, now[ids[k] := Result(before, ids[k], ctx).slot], ids[..k + 1], ctx)
  {
    assert ids[k] !in ids[..k];
    assert ids[..k + 1] == ids[..k] + [ids[k]];
  }

  lemma CompleteStep(before: map<PodId, Slot>, ids: seq<PodId>, k: nat, ctx: PassContext)
    requires k < |ids| && AllPresent(before, ids) && AllPresent(before, ids[..k]) && AllPresent(before, ids[..k + 1])
    ensures AllComplete(before, ids[..k + 1], ctx) <==> AllComplete(before, ids[..k], ctx) && Result(before, ids[k], ctx).completed
    ensures !Result(before, ids[k], ctx).completed ==> !AllComplete(before, ids, ctx)
    ensures NoneFails(before, ids[..k + 1], ctx) <==> NoneFails(before, ids[..k], ctx) && !Result(before, ids[k], ctx).err
    ensures Result(before, ids[k], ctx).err ==> !Result(before, ids[k], ctx).completed
  {
    assert ids[..k + 1] == ids[..k] + [ids[k]];
    AttemptResult(before[ids[k]], ctx, ctx.faults(ids[k]));
  }

  /** The attempts on the ones before the k-th of `ids` do not fail. */
  ghost predicate FirstFails(slots: map<PodId, Slot>, ids: seq<PodId>, k: nat, ctx: PassContext)
    requires k < |ids| && AllPresent(slots, ids)
  {
    NoneFails(slots, ids[..k], ctx)
  }

  /** The attempt on the k-th of `ids`, after those on the ones before it. */
  method RestartNext(cluster: Cluster, ids: seq<PodId>, k: nat, ctx: PassContext, ghost before: map<PodId, Slot>)
    returns (completed: bool, err: bool)
    requires k < |ids| && Distinct(ids) && AllPresent(before, ids) && AllPresent(before, ids[..k])
    requires Attempted(before, cluster.slots, ids[..k], ctx)
    modifies cluster
    ensures AllPresent(before, ids[..k + 1]) && Attempted(before, cluster.slots, ids[..k + 1], ctx)
    ensures !(completed && err)
    ensures AllComplete(before, ids[..k + 1], ctx) <==> AllComplete(before, ids[..k], ctx) && completed
    ensures NoneFails(before, ids[..k + 1], ctx) <==> NoneFails(before, ids[..k], ctx) && !err
  {
    AttemptedStep(before, cluster.slots, ids, k, ctx);
    CompleteStep(before, ids, k, ctx);
    completed, err := RestartOne(cluster, ids[k], ctx);
  }

  /** A failed attempt among the first ones leaves the whole list incomplete. */
  lemma TriedAll(slots: map<PodId, Slot>, ids: seq<PodId>, tried: nat, ctx: PassContext)
    requires tried <= |ids| && AllPresent(slots, ids) && AllPresent(slots, ids[..tried])
    ensures tried == |ids| ==> ids[..tried] == ids
    ensures !NoneFails(slots, ids[..tried], ctx) ==> !AllComplete(slots, ids, ctx)
  {
    if i :| 0 <= i < tried && Result(slots, ids[..tried][i], ctx).err {
      AttemptResult(slots[ids[i]], ctx, ctx.faults(ids[i]));
      assert !Result(slots, ids[i], ctx).completed;
    }
  }

  /** The stale masters, one after the other; an error ends the attempts. `tried` is how many of them were made. */
  method RefreshMasters(cluster: Cluster, masters: seq<PodId>, ctx: PassContext)
    returns (masterCompleted: bool, err: bool, ghost tried: nat)
    requires Distinct(masters) && AllPresent(cluster.slots, masters)
    modifies cluster
    ensures tried <= |masters| && AllPresent(old(cluster.slots), masters[..tried])
    ensures Attempted(old(cluster.slots), cluster.slots, masters[..tried], ctx)
    ensures err <==> !NoneFails(old(cluster.slots), masters[..tried], ctx)
    ensures if err then tried > 0 && FirstFails(old(cluster.slots), masters, tried - 1, ctx) else tried == |masters|
    ensures masterCompleted && !err <==> AllComplete(old(cluster.slots), masters[..tried], ctx)
  {
    ghost var before := cluster.slots;
    masterCompleted, err, tried := true, false, 0;
    for k := 0 to |masters|
      invariant !err && tried == k && AllPresent(before, masters[..k])
      invariant NoneFails(before, masters[..k], ctx)
      invariant masterCompleted <==> AllComplete(before, masters[..k], ctx)
      invariant Attempted(before, cluster.slots, masters[..k], ctx)
    {
      var completed;
      completed, err := RestartNext(cluster, masters, k, ctx, before);
      tried := k + 1;
      if err {
        return;
      }
      masterCompleted := masterCompleted && completed;
    }
  }

  /** Where each worker stands while the goroutines run. */
  ghost predicate FanOut(before: map<PodId, Slot>, now: map<PodId, Slot>, workers: seq<PodId>, gs: seq<Goroutine>, ctx: PassContext)
    requires AllPresent(before, workers) && |gs| == |workers|
  {
    && now.Keys == before.Keys
    && (forall id :: id in before && id !in workers ==> now[id] == before[id])
    && (forall i :: 0 <= i < |gs| ==>
          now[workers[i]] == if gs[i] == NotStarted then before[workers[i]] else Result(before, workers[i], ctx).slot)
    && (forall i :: 0 <= i < |gs| && gs[i] != NotStarted ==>
          (Result(before, workers[i], ctx).completed <==> gs[i] != Exited(false)))
  }

  /** Which workers' attempts complete. */
  ghost function Completes(slots: map<PodId, Slot>, ids: seq<PodId>, ctx: PassContext): (r: seq<bool>)
    requires AllPresent(slots, ids)
    ensures |r| == |ids| && forall i :: 0 <= i < |r| ==> r[i] == Result(slots, ids[i], ctx).completed
  {
    seq(|ids|, i requires 0 <= i < |ids| => Result(slots, ids[i], ctx).completed)
  }

  /** One step of the i-th goroutine: the restart of its worker, or half of `total--`. */
  method AdvanceWorker(cluster: Cluster, workers: seq<PodId>, gs: seq<Goroutine>, i: nat, ctx: PassContext, total: int,
                       ghost before: map<PodId, Slot>)
    returns (next: Goroutine, total': int)
    requires Distinct(workers) && AllPresent(before, workers) && |gs| == |workers| && i < |gs| && !gs[i].Exited?
    requires FanOut(before, cluster.slots, workers, gs, ctx)
    modifies cluster
    ensures FanOut(before, cluster.slots, workers, gs[i := next], ctx)
    ensures CounterStep(Counter(total, gs), Counter(total', gs[i := next]), i)
  {
    total' := total;
    match gs[i] {
      case NotStarted =>
        FanOutNext(before, cluster.slots, workers, gs, ctx, i);
        var completed, err := RestartOne(cluster, workers[i], ctx);
        next := if !err && completed then Restarted else Exited(false);
      case Restarted =>
        next := Loaded(total);
        FanOutMoved(before, cluster.slots, workers, gs, ctx, i, next);
      case Loaded(value) =>
        total' := value - 1;
        next := Exited(true);
        FanOutMoved(before, cluster.slots, workers, gs, ctx, i, next);
    }
  }

  /** Starting the i-th goroutine makes its attempt and no other. */
  lemma FanOutNext(before: map<PodId, Slot>, now: map<PodId, Slot>, workers: seq<PodId>, gs: seq<Goroutine>,
                   ctx: PassContext, i: nat)
    requires AllPresent(before, workers) && |gs| == |workers| && Distinct(workers) && i < |gs|
    requires FanOut(before, now, workers, gs, ctx) && gs[i] == NotStarted
    ensures workers[i] in now && now[workers[i]] == before[workers[i]]
    ensures var result := Result(before, workers[i], ctx);
      FanOut(before, now[workers[i] := result.slot], workers, gs[i := if result.completed then Restarted else Exited(false)], ctx)
  {
    assert forall k :: 0 <= k < |workers| && k != i ==> workers[k] != workers[i];
  }

  lemma FanOutMoved(before: map<PodId, Slot>, now: map<PodId, Slot>, workers: seq<PodId>, gs: seq<Goroutine>,
                    ctx: PassContext, i: nat, next: Goroutine)
    requires AllPresent(before, workers) && |gs| == |workers| && i < |gs| && FanOut(before, now, workers, gs, ctx)
    requires gs[i] == Restarted || gs[i].Loaded?
    requires next.Loaded? || next == Exited(true)
    ensures FanOut(before, now, workers, gs[i := next], ctx)
  {
  }

  lemma FanOutEnded(before: map<PodId, Slot>, now: map<PodId, Slot>, workers: seq<PodId>, gs: seq<Goroutine>, ctx: PassContext)
    requires AllPresent(before, workers) && |gs| == |workers| && FanOut(before, now, workers, gs, ctx)
    requires forall i :: 0 <= i < |gs| ==> gs[i].Exited?
    ensures Attempted(before, now, workers, ctx) && Ends(gs, Completes(before, workers, ctx))
  {
  }

  /**
   The worker fan-out: a scheduler lets any unfinished goroutine that the semaphore has admitted take its next step,
   until all have exited. `run` records the counter after each step.
   */
  method RefreshWorkers(cluster: Cluster, workers: seq<PodId>, ctx: PassContext, initial: int)
    returns (total: int, ghost run: seq<Counter>, ghost schedule: seq<nat>)
    requires Distinct(workers) && AllPresent(cluster.slots, workers)
    modifies cluster
    ensures Attempted(old(cluster.slots), cluster.slots, workers, ctx)
    ensures CompleteRun(run, schedule, initial, Completes(old(cluster.slots), workers, ctx))
    ensures Admitted(run, schedule, Tickets(|workers|))
    ensures total == Last(run).total
  {
    total := initial;
    var tickets := Tickets(|workers|);
    var gs := Start(initial, |workers|).goroutines;
    run, schedule := [Start(initial, |workers|)], [];
    ghost var before := cluster.slots;
    while exists i :: 0 <= i < |gs| && !gs[i].Exited?
      invariant |gs| == |workers|
      invariant Recorded(run, schedule, initial, Counter(total, gs), tickets)
      invariant FanOut(before, cluster.slots, workers, gs, ctx)
      decreases Remaining(gs)
    {
      SomeAdmitted(gs, tickets);
      var i :| 0 <= i < |gs| && !gs[i].Exited? && Unfinished(gs, i) < tickets;
      ghost var c := Counter(total, gs);
      var next;
      next, total := AdvanceWorker(cluster, workers, gs, i, ctx, total, before);
      RemainingFalls(gs, i, next);
      gs := gs[i := next];
      RecordedStep(run, schedule, initial, c, Counter(total, gs), i, tickets);
      run, schedule := run + [Counter(total, gs)], schedule + [i];
    }
    FanOutEnded(before, cluster.slots, workers, gs, ctx);
  }

  /** The master service selects pods of one generation; it is moved to the new one before anything else. */
  method RefreshStaleService(job: ElasticJob, generation: int, fails: bool) returns (err: bool)
    requires job.service.Some?
    modifies job`service
    ensures err <==> fails && old(job.service) != Some(MasterService(Gen(generation), Gen(generation)))
    ensures err ==> job.service == old(job.service)
    ensures !err ==> job.service == Some(MasterService(Gen(generation), Gen(generation)))
  {
    var svc := job.service.value;
    if svc.tag == Gen(generation) && svc.selector == Gen(generation) {
      return false;
    }
    if fails {
      return true;
    }
    job.service := Some(svc.(tag := Gen(generation), selector := Gen(generation)));
    return false;
  }

  /** The stale pods of a listing, as the pass sees them. */
  ghost predicate StaleListed(slots: map<PodId, Slot>, pods: seq<Listed>, generation: int, p: Listed) {
    p in pods && StaleIn(slots, p, generation)
  }

  /** Every stale pod is of a refreshed type, and its attempt completes. */
  ghost predicate AllStaleComplete(slots: map<PodId, Slot>, pods: seq<Listed>, ctx: PassContext) {
    forall p :: StaleListed(slots, pods, ctx.generation, p) ==>
      (p.rtype == Master || p.rtype == Worker) && Result(slots, p.id, ctx).completed
  }

  /** All attempts on stale masters and workers were made. */
  ghost predicate StaleAsResults(before: map<PodId, Slot>, after: map<PodId, Slot>, pods: seq<Listed>, ctx: PassContext)
    requires before.Keys == after.Keys
  {
    forall p :: StaleListed(before, pods, ctx.generation, p) && (p.rtype == Master || p.rtype == Worker) ==>
      after[p.id] == Result(before, p.id, ctx).slot
  }

  /** Each stale pod is gone, being deleted, or labelled with the generation. */
  ghost predicate StaleAreRefreshed(before: map<PodId, Slot>, after: map<PodId, Slot>, pods: seq<Listed>, generation: int)
    requires before.Keys == after.Keys
  {
    forall p :: StaleListed(before, pods, generation, p) ==>
      var slot := after[p.id];
      slot.pod == None || slot.pod.value.terminating || slot.pod.value.generation == Gen(generation)
  }

  lemma ResultsAreRefreshed(before: map<PodId, Slot>, after: map<PodId, Slot>, pods: seq<Listed>, ctx: PassContext)
    requires before.Keys == after.Keys && AllStaleComplete(before, pods, ctx) && StaleAsResults(before, after, pods, ctx)
    ensures StaleAreRefreshed(before, after, pods, ctx.generation)
  {
    forall p | StaleListed(before, pods, ctx.generation, p)
      ensures var slot := after[p.id];
        slot.pod == None || slot.pod.value.terminating || slot.pod.value.generation == Gen(ctx.generation)
    {
      AttemptResult(before[p.id], ctx, ctx.faults(p.id));
    }
  }

  /** The last patch of a round. */
  method MarkDone(job: ElasticJob, fails: bool) returns (err: bool)
    modifies job`readyToStartWorker, job`immediatelyStartWorker, job`scaleState
    ensures err == fails
    ensures err ==>
      && job.readyToStartWorker == old(job.readyToStartWorker)
      && job.immediatelyStartWorker == old(job.immediatelyStartWorker)
      && job.scaleState == old(job.scaleState)
    ensures !err ==> !job.readyToStartWorker && !job.immediatelyStartWorker && job.scaleState == Done
  {
    err := fails;
    if !err {
      job.readyToStartWorker := false;
      job.scaleState := Done;
      if job.immediatelyStartWorker {
        job.immediatelyStartWorker := false;
      }
    }
  }

  /** No pod but the stale masters and workers is touched. */
  ghost predicate OnlyStaleChange(before: map<PodId, Slot>, after: map<PodId, Slot>, pods: seq<Listed>, generation: int) {
    && after.Keys == before.Keys
    && forall id :: id in before && after[id] != before[id] ==>
         StaleListed(before, pods, generation, Listed(id, Master)) || StaleListed(before, pods, generation, Listed(id, Worker))
  }

  ghost predicate MastersComplete(slots: map<PodId, Slot>, pods: seq<Listed>, ctx: PassContext) {
    forall id :: StaleListed(slots, pods, ctx.generation, Listed(id, Master)) ==> Result(slots, id, ctx).completed
  }

  /** `run` is a schedule of the goroutines of the stale workers, starting once the masters are counted off. */
  ghost predicate FanOutRun(run: seq<Counter>, schedule: seq<nat>, slots: map<PodId, Slot>, pods: seq<Listed>, ctx: PassContext) {
    var workers := StaleOf(slots, pods, ctx.generation, Worker);
    && AllPresent(slots, workers)
    && CompleteRun(run, schedule, StaleTotal(slots, pods, ctx.generation) - |StaleOf(slots, pods, ctx.generation, Master)|,
                   Completes(slots, workers, ctx))
    && Admitted(run, schedule, Tickets(|workers|))
  }

  /** The counter reaches zero exactly if every stale pod is completed and no two goroutines raced for the counter. */
  lemma ReachesZero(run: seq<Counter>, schedule: seq<nat>, slots: map<PodId, Slot>, pods: seq<Listed>, ctx: PassContext)
    requires FanOutRun(run, schedule, slots, pods, ctx) && MastersComplete(slots, pods, ctx)
    ensures Last(run).total >= 0
    ensures Last(run).total == 0 <==> AllStaleComplete(slots, pods, ctx) && !Races(run)
  {
    var workers := StaleOf(slots, pods, ctx.generation, Worker);
    var completes := Completes(slots, workers, ctx);
    ExactIffNoOverlap(run, schedule, run[0].total, completes);
    AllCompletions(completes);
    StaleTotalSplits(slots, pods, ctx.generation);
    CompleteIds(slots, pods, workers, Worker, ctx);
    assert AllComplete(slots, workers, ctx) <==> Completions(completes) == |workers|;
  }

  /** Two workers complete in the same pass. */
  ghost predicate CanRace(slots: map<PodId, Slot>, pods: seq<Listed>, ctx: PassContext) {
    var workers := StaleOf(slots, pods, ctx.generation, Worker);
    AllPresent(slots, workers) && Completions(Completes(slots, workers, ctx)) >= 2
  }

  lemma RaceNeedsTwo(run: seq<Counter>, schedule: seq<nat>, slots: map<PodId, Slot>, pods: seq<Listed>, ctx: PassContext)
    requires FanOutRun(run, schedule, slots, pods, ctx) && Races(run)
    ensures CanRace(slots, pods, ctx)
  {
    var completes := Completes(slots, StaleOf(slots, pods, ctx.generation, Worker), ctx);
    if Completions(completes) <= 1 {
      FewNeverRace(run, schedule, run[0].total, completes);
    }
  }

  /** The goroutines of a pass can race for the counter exactly if two workers complete in it. */
  lemma RacesIffTwoComplete(slots: map<PodId, Slot>, pods: seq<Listed>, ctx: PassContext)
    ensures (exists run, schedule :: FanOutRun(run, schedule, slots, pods, ctx) && Races(run)) <==> CanRace(slots, pods, ctx)
  {
    if run, schedule :| FanOutRun(run, schedule, slots, pods, ctx) && Races(run) {
      RaceNeedsTwo(run, schedule, slots, pods, ctx);
    }
    if CanRace(slots, pods, ctx) {
      var completes := Completes(slots, StaleOf(slots, pods, ctx.generation, Worker), ctx);
      var initial := StaleTotal(slots, pods, ctx.generation) - |StaleOf(slots, pods, ctx.generation, Master)|;
      var i := FindOne(completes);
      var j := FindOne(completes[i + 1..]);
      var run, schedule := LosingSchedule(initial, completes, i, i + 1 + j);
      ExactIffNoOverlap(run, schedule, initial, completes);
      assert FanOutRun(run, schedule, slots, pods, ctx) && Races(run);
    }
  }

  lemma UnstaleNeverRaces(slots: map<PodId, Slot>, pods: seq<Listed>, ctx: PassContext)
    requires forall p :: !StaleListed(slots, pods, ctx.generation, p)
    ensures !CanRace(slots, pods, ctx)
  {
    var workers := StaleOf(slots, pods, ctx.generation, Worker);
    if workers != [] {
      assert workers[0] in workers;
      assert StaleListed(slots, pods, ctx.generation, Listed(workers[0], Worker));
    }
  }

  /**
   All masters are attempted first. If all of them complete, all workers are attempted by a schedule of goroutines
   that `run` records; otherwise no worker changes.
   */
  ghost predicate PodsRefreshed(before: map<PodId, Slot>, after: map<PodId, Slot>, pods: seq<Listed>, ctx: PassContext,
                                run: seq<Counter>, schedule: seq<nat>)
  {
    && OnlyStaleChange(before, after, pods, ctx.generation)
    && if MastersComplete(before, pods, ctx)
       then run != [] && FanOutRun(run, schedule, before, pods, ctx) && StaleAsResults(before, after, pods, ctx)
       else run == [] && WorkersKept(before, after, pods, ctx.generation)
  }

  ghost predicate WorkersKept(before: map<PodId, Slot>, after: map<PodId, Slot>, pods: seq<Listed>, generation: int)
    requires after.Keys == before.Keys
  {
    forall id :: StaleListed(before, pods, generation, Listed(id, Worker)) ==> after[id] == before[id]
  }

  /** After the attempts on the first `tried` stale masters; only those can have changed. */
  lemma MastersTried(before: map<PodId, Slot>, now: map<PodId, Slot>, pods: seq<Listed>, masters: seq<PodId>, tried: nat,
                     ctx: PassContext)
    requires masters == StaleOf(before, pods, ctx.generation, Master) && AllPresent(before, masters)
    requires forall id :: id in StaleOf(before, pods, ctx.generation, Worker) ==> id !in masters
    requires tried <= |masters| && AllPresent(before, masters[..tried]) && Attempted(before, now, masters[..tried], ctx)
    ensures tried == |masters| ==> masters[..tried] == masters
    ensures !NoneFails(before, masters[..tried], ctx) ==> !AllComplete(before, masters, ctx)
    ensures AllComplete(before, masters, ctx) <==> MastersComplete(before, pods, ctx)
    ensures OnlyStaleChange(before, now, pods, ctx.generation) && WorkersKept(before, now, pods, ctx.generation)
  {
    TriedAll(before, masters, tried, ctx);
    CompleteIds(before, pods, masters, Master, ctx);
    assert forall id :: id !in masters ==> id !in masters[..tried];
  }

  /** The part of a pass that refreshes pods; `total` is what the counter ends with. */
  method RefreshStalePods(cluster: Cluster, pods: seq<Listed>, ctx: PassContext)
    returns (total: int, masterCompleted: bool, err: bool, ghost run: seq<Counter>, ghost schedule: seq<nat>)
    requires DistinctIds(pods)
    modifies cluster
    ensures PodsRefreshed(old(cluster.slots), cluster.slots, pods, ctx, run, schedule)
    ensures masterCompleted && !err <==> MastersComplete(old(cluster.slots), pods, ctx)
    ensures masterCompleted && !err ==> (total == 0 <==> AllStaleComplete(old(cluster.slots), pods, ctx) && !Races(run))
  {
    ghost var before := cluster.slots;
    run, schedule := [], [];
    var masters, workers;
    total, masters, workers := FilterStalePodsByReplicaType(cluster.slots, pods, ctx.generation);
    StaleLists(before, pods, ctx.generation);
    ghost var tried;
    masterCompleted, err, tried := RefreshMasters(cluster, masters, ctx);
    MastersTried(before, cluster.slots, pods, masters, tried, ctx);
    if err || !masterCompleted {
      return;
    }
    ghost var middle := cluster.slots;
    assert AllPresent(middle, workers);
    SameResults(before, middle, workers, ctx);
    assert Completes(middle, workers, ctx) == Completes(before, workers, ctx);
    total, run, schedule := RefreshWorkers(cluster, workers, ctx, total - |masters|);
    ReachesZero(run, schedule, before, pods, ctx);
    BothStages(before, middle, cluster.slots, pods, ctx);
  }

  lemma BothStages(before: map<PodId, Slot>, middle: map<PodId, Slot>, after: map<PodId, Slot>, pods: seq<Listed>, ctx: PassContext)
    requires var masters := StaleOf(before, pods, ctx.generation, Master);
      AllPresent(before, masters) && Attempted(before, middle, masters, ctx)
    requires var workers := StaleOf(before, pods, ctx.generation, Worker);
      && AllPresent(before, workers) && AllPresent(middle, workers) && Attempted(middle, after, workers, ctx)
      && (forall id :: id in workers ==> id !in StaleOf(before, pods, ctx.generation, Master))
      && (forall i :: 0 <= i < |workers| ==> Result(middle, workers[i], ctx) == Result(before, workers[i], ctx))
    ensures OnlyStaleChange(before, after, pods, ctx.generation) && StaleAsResults(before, after, pods, ctx)
  {
    var masters, workers := StaleOf(before, pods, ctx.generation, Master), StaleOf(before, pods, ctx.generation, Worker);
    assert forall id :: id in before && after[id] != before[id] ==> id in masters || id in workers;
    forall p | StaleListed(before, pods, ctx.generation, p) && (p.rtype == Master || p.rtype == Worker)
      ensures after[p.id] == Result(before, p.id, ctx).slot
    {
      if p.rtype == Master {
        var i :| 0 <= i < |masters| && masters[i] == p.id;
        assert middle[p.id] == Result(before, p.id, ctx).slot;
      } else {
        var i :| 0 <= i < |workers| && workers[i] == p.id;
      }
    }
  }

  /** Stale pods of a type exist. */
  lemma StalePresent(slots: map<PodId, Slot>, pods: seq<Listed>, generation: int, rtype: ReplicaType)
    ensures AllPresent(slots, StaleOf(slots, pods, generation, rtype))
  {
    var ids := StaleOf(slots, pods, generation, rtype);
    forall i | 0 <= i < |ids| ensures ids[i] in slots && slots[ids[i]].pod.Some? {
      assert ids[i] in ids;
    }
  }

  /** A pod listed once has one type. */
  lemma StaleLists(slots: map<PodId, Slot>, pods: seq<Listed>, generation: int)
    requires DistinctIds(pods)
    ensures var masters, workers := StaleOf(slots, pods, generation, Master), StaleOf(slots, pods, generation, Worker);
      && Distinct(masters) && AllPresent(slots, masters) && Distinct(workers) && AllPresent(slots, workers)
      && forall id :: id in workers ==> id !in masters
  {
    StaleOfDistinct(slots, pods, generation, Master);
    StaleOfDistinct(slots, pods, generation, Worker);
    StalePresent(slots, pods, generation, Master);
    StalePresent(slots, pods, generation, Worker);
    forall id | id in StaleOf(slots, pods, generation, Worker) ensures id !in StaleOf(slots, pods, generation, Master) {
      var i :| 0 <= i < |pods| && pods[i] == Listed(id, Worker);
      assert forall j :: 0 <= j < |pods| && pods[j].id == id ==> j == i;
    }
  }

  lemma CompleteIds(slots: map<PodId, Slot>, pods: seq<Listed>, ids: seq<PodId>, rtype: ReplicaType, ctx: PassContext)
    requires rtype != AIMaster && ids == StaleOf(slots, pods, ctx.generation, rtype) && AllPresent(slots, ids)
    ensures AllComplete(slots, ids, ctx) <==>
              forall id :: StaleListed(slots, pods, ctx.generation, Listed(id, rtype)) ==> Result(slots, id, ctx).completed
  {
    if AllComplete(slots, ids, ctx) {
      forall id | StaleListed(slots, pods, ctx.generation, Listed(id, rtype)) ensures Result(slots, id, ctx).completed {
        assert id in ids;
      }
    } else {
      var i :| 0 <= i < |ids| && !Result(slots, ids[i], ctx).completed;
      assert ids[i] in ids;
      assert StaleListed(slots, pods, ctx.generation, Listed(ids[i], rtype));
    }
  }

  lemma SameResults(before: map<PodId, Slot>, now: map<PodId, Slot>, ids: seq<PodId>, ctx: PassContext)
    requires AllPresent(before, ids) && forall i :: 0 <= i < |ids| ==> ids[i] in now && now[ids[i]] == before[ids[i]]
    ensures AllPresent(now, ids) && (AllComplete(now, ids, ctx) <==> AllComplete(before, ids, ctx))
    ensures forall i :: 0 <= i < |ids| ==> Result(now, ids[i], ctx) == Result(before, ids[i], ctx)
  {
  }

  /** A pass gets to the pods: no patch before them fails that it has to make, and the workers may be restarted. */
  predicate Enters(service: Option<MasterService>, flagged: bool, state: ScaleState, generation: int, f: JobFaults) {
    && (f.service ==> service.None? || service.value == MasterService(Gen(generation), Gen(generation)))
    && flagged
    && (f.inflight ==> state == Inflight)
  }

  /** What comes before any pod: the master service, the readiness flags, and the mark that scaling is in flight. */
  method EnterScaling(job: ElasticJob, generation: int, jobFaults: JobFaults) returns (entered: bool, err: bool)
    modifies job`service, job`scaleState
    ensures entered <==> Enters(old(job.service), job.readyToStartWorker || job.immediatelyStartWorker, old(job.scaleState),
                                generation, jobFaults)
    ensures err ==> !entered && (jobFaults.service || jobFaults.inflight)
    ensures entered ==> job.scaleState == Inflight
    ensures entered && job.service.Some? ==> job.service.value == MasterService(Gen(generation), Gen(generation))
    ensures !entered ==> job.scaleState == old(job.scaleState)
    ensures job.service.Some? <==> old(job.service).Some?
    ensures job.service.Some? && !jobFaults.service ==> job.service.value == MasterService(Gen(generation), Gen(generation))
    ensures !err && !entered ==> !job.readyToStartWorker && !job.immediatelyStartWorker
  {
    entered, err := false, false;
    if job.service.Some? {
      err := RefreshStaleService(job, generation, jobFaults.service);
      if err {
        return;
      }
    }
    if !job.readyToStartWorker && !job.immediatelyStartWorker {
      return;
    }
    if job.scaleState != Inflight {
      if jobFaults.inflight {
        err := true;
        return;
      }
      job.scaleState := Inflight;
    }
    entered := true;
  }

  /** What a pass reads and writes: the job's annotations, the master service and the pods. */
  datatype View = View(ready: bool, immediate: bool, state: ScaleState, service: Option<MasterService>, slots: map<PodId, Slot>)
  {
    predicate Flagged() {
      ready || immediate
    }
  }

  ghost function ViewOf(job: ElasticJob, cluster: Cluster): View
    reads job, cluster
  {
    View(job.readyToStartWorker, job.immediatelyStartWorker, job.scaleState, job.service, cluster.slots)
  }

  /** No patch of the job or its service fails that the pass has to make on the way to the end of a round. */
  predicate Patched(view: View, generation: int, f: JobFaults) {
    Enters(view.service, true, view.state, generation, f) && !f.done
  }

  /** The flags stay until a round is marked done. */
  predicate FlagsAfter(before: View, after: View, finished: bool) {
    && (finished ==> after.state == Done && !after.Flagged())
    && (!finished ==> after.ready == before.ready && after.immediate == before.immediate)
  }

  /** The part of a pass after its entry. */
  method RefreshAndMark(job: ElasticJob, cluster: Cluster, pods: seq<Listed>, ctx: PassContext, doneFails: bool)
    returns (finished: bool, err: bool, ghost run: seq<Counter>, ghost schedule: seq<nat>)
    requires DistinctIds(pods)
    modifies job`readyToStartWorker, job`immediatelyStartWorker, job`scaleState, cluster
    ensures PodsRefreshed(old(cluster.slots), cluster.slots, pods, ctx, run, schedule)
    ensures finished <==> !doneFails && AllStaleComplete(old(cluster.slots), pods, ctx) && !Races(run)
    ensures finished ==> !err && !job.readyToStartWorker && !job.immediatelyStartWorker && job.scaleState == Done
    ensures !finished ==>
      && job.readyToStartWorker == old(job.readyToStartWorker)
      && job.immediatelyStartWorker == old(job.immediatelyStartWorker)
      && job.scaleState == old(job.scaleState)
  {
    finished := false;
    ghost var before := cluster.slots;
    var stale := AnyStale(cluster.slots, pods, ctx.generation);
    var total, masterCompleted;
    total, masterCompleted, err, run, schedule := RefreshStalePods(cluster, pods, ctx);
    if err || !masterCompleted {
      assert !AllStaleComplete(before, pods, ctx);
      return;
    }
    if !stale {
      NothingToRace(run, schedule, before, pods, ctx);
    }
    if !stale || total == 0 {
      err := MarkDone(job, doneFails);
      finished := !err;
    }
  }

  /** What one call of scale does to the job, its service and its pods. */
  ghost predicate PassDid(before: View, after: View, pods: seq<Listed>, ctx: PassContext, f: JobFaults, finished: bool,
                          run: seq<Counter>, schedule: seq<nat>)
  {
    var enters := Enters(before.service, before.Flagged(), before.state, ctx.generation, f);
    && (if enters
        then && PodsRefreshed(before.slots, after.slots, pods, ctx, run, schedule)
             && after.state == (if finished then Done else Inflight)
             && (after.service.Some? ==> after.service.value == MasterService(Gen(ctx.generation), Gen(ctx.generation)))
        else after.slots == before.slots && after.state == before.state && run == [])
    && (after.service.Some? <==> before.service.Some?)
    && (after.service.Some? && !f.service ==> after.service.value == MasterService(Gen(ctx.generation), Gen(ctx.generation)))
    && FlagsAfter(before, after, finished)
    && (finished <==> enters && !f.done && AllStaleComplete(before.slots, pods, ctx) && !Races(run))
  }

  /**
   On the annotations: without one of the two flags a pass does nothing to the pods; with one, and without failing
   patches, it finishes exactly if every stale pod completed without a race. Finishing clears both flags, and nothing
   else does.
   */
  lemma FlagsMeaning(before: View, after: View, pods: seq<Listed>, ctx: PassContext, f: JobFaults, finished: bool,
                     run: seq<Counter>, schedule: seq<nat>)
    requires PassDid(before, after, pods, ctx, f, finished, run, schedule)
    ensures !before.ready && !before.immediate ==> !finished && after.slots == before.slots
    ensures (before.ready || before.immediate) && f == JobFaults(false, false, false) ==>
              && (finished <==> AllStaleComplete(before.slots, pods, ctx) && !Races(run))
              && (MastersComplete(before.slots, pods, ctx) ==> StaleAsResults(before.slots, after.slots, pods, ctx))
    ensures after.slots != before.slots ==>
              && (after.state == Inflight || finished)
              && (after.service == None || after.service == Some(MasterService(Gen(ctx.generation), Gen(ctx.generation))))
    ensures before.service.Some? && f == JobFaults(false, false, false) ==>
              after.service == Some(MasterService(Gen(ctx.generation), Gen(ctx.generation)))
    ensures f.inflight && before.state != Inflight ==> !finished && after.slots == before.slots
    ensures f.service && before.service.Some? && before.service.value != MasterService(Gen(ctx.generation), Gen(ctx.generation)) ==>
              !finished && after.slots == before.slots
    ensures f.done ==> !finished
    ensures finished ==> after.state == Done && !after.ready && !after.immediate
    ensures !finished ==> after.ready == before.ready && after.immediate == before.immediate
  {
  }

  /**
   One call of scale. Workers change only in a pass in which every stale master completed. The round is marked done
   exactly if no patch fails, every stale pod completed, and no two goroutines raced for the counter; each stale pod
   is then gone, being deleted, or labelled with the generation.
   */
  method ScalePass(job: ElasticJob, cluster: Cluster, pods: seq<Listed>, ctx: PassContext, jobFaults: JobFaults)
    returns (finished: bool, err: bool, ghost run: seq<Counter>, ghost schedule: seq<nat>)
    requires DistinctIds(pods)
    requires ctx.immediate == job.immediatelyStartWorker
    modifies job, cluster
    ensures PassDid(old(ViewOf(job, cluster)), ViewOf(job, cluster), pods, ctx, jobFaults, finished, run, schedule)
    ensures finished ==> !err && cluster.slots.Keys == old(cluster.slots).Keys
                         && StaleAreRefreshed(old(cluster.slots), cluster.slots, pods, ctx.generation)
  {
    finished, run, schedule := false, [], [];
    var entered;
    entered, err := EnterScaling(job, ctx.generation, jobFaults);
    if !entered {
      return;
    }
    ghost var before := cluster.slots;
    finished, err, run, schedule := RefreshAndMark(job, cluster, pods, ctx, jobFaults.done);
    if finished {
      ResultsAreRefreshed(before, cluster.slots, pods, ctx);
    }
  }

  lemma NothingToRace(run: seq<Counter>, schedule: seq<nat>, slots: map<PodId, Slot>, pods: seq<Listed>, ctx: PassContext)
    requires FanOutRun(run, schedule, slots, pods, ctx) && forall p :: !StaleListed(slots, pods, ctx.generation, p)
    ensures !Races(run)
  {
    UnstaleNeverRaces(slots, pods, ctx);
    if Races(run) {
      RaceNeedsTwo(run, schedule, slots, pods, ctx);
    }
  }

  /** Whether the map of stale pods by type has an entry. */
  method AnyStale(slots: map<PodId, Slot>, pods: seq<Listed>, generation: int) returns (any: bool)
    ensures any <==> exists p :: StaleListed(slots, pods, generation, p)
  {
    for i := 0 to |pods|
      invariant forall k :: 0 <= k < i ==> !StaleIn(slots, pods[k], generation)
    {
      if StaleIn(slots, pods[i], generation) {
        assert StaleListed(slots, pods, generation, pods[i]);
        return true;
      }
    }
    return false;
  }
}
