/**
 The elastic part of one pass of ReconcileJobs (pkg/job_controller/job.go): first the checkpoint, and only then the
 scaling gate. The job's annotations and pods are those of module Scale; its protocol state is that of the API server.
 */
module ElasticPass {
  import opened Common
  import opened Refresh
  import opened Scale
  import opened ScaleCounter
  import opened ScaleGate
  import C = Checkpoint
  import CC = CheckpointController

  /** The checkpoint call, after which the object in hand has the ready annotation of the job that it saved. */
  method CheckpointFirst(api: CC.ApiServer, job: ElasticJob, faults: CC.ApiFaults) returns (done: bool, err: bool, hangs: bool)
    requires api.Valid() && api.controller == C.Idle && job.readyToStartWorker == api.job.readyToStartWorker
    modifies api, job`readyToStartWorker
    ensures api.Valid() && old(api.run) <= api.run
    ensures !done ==> job.readyToStartWorker == old(job.readyToStartWorker)
    ensures var requested, completed := old(api.job).requested, old(api.job).completed;
      (completed != C.Malformed && old(api.victims) == {}
       && (requested == C.Absent || (requested.Ckpt? && requested.status == C.CkptSucceeded
                                     && completed.Ckpt? && completed.version == requested.version))) ==> done
    ensures done ==> !err && !hangs && api.controller == C.Scaling && old(api.job).completed != C.Malformed
    ensures var requested, completed := old(api.job).requested, old(api.job).completed;
      done && (requested == C.Absent || (requested.Ckpt? && requested.status == C.CkptSucceeded)) ==>
        && old(api.victims) == {} && (requested.Ckpt? ==> completed.Ckpt? && completed.version == requested.version)
        && api.job == old(api.job) && api.log == old(api.log) && job.readyToStartWorker == old(job.readyToStartWorker)
    ensures var requested, completed := old(api.job).requested, old(api.job).completed;
      done && !(requested == C.Absent || (requested.Ckpt? && requested.status == C.CkptSucceeded)) ==>
        && requested.Ckpt? && requested.status == C.InProgress && completed.Ckpt? && completed.version == requested.version
        && C.Bumped(requested.version) in api.log && api.job.generation == old(api.job).generation + 1
        && job.readyToStartWorker
  {
    ghost var conflict;
    CC.RecordedRunIsDisciplined(api);
    done, err, hangs, conflict := CC.CheckpointIfNecessary(api, faults);
    if done {
      job.readyToStartWorker := api.job.readyToStartWorker;
    }
  }

  /** Scaling, if the gate is open; otherwise the pass goes on to the pods of the job. */
  method ScaleNext(api: CC.ApiServer, job: ElasticJob, cluster: Cluster, x: Input)
    returns (called: bool, finished: bool, err: bool)
    requires api.Valid() && api.controller == C.Scaling
    requires DistinctIds(x.pods) && x.ctx.immediate == job.immediatelyStartWorker
    modifies api, job, cluster
    ensures api.Valid() && api.controller == C.Idle && old(api.run) <= api.run && api.job.generation == old(api.job).generation
    ensures api.log == if called then old(api.log) + [C.ScaleCalled] else old(api.log)
    ensures called <==> x.running && x.elastic && x.checkpointed && x.ctx.generation > 1
                        && Labelled(old(cluster.slots), x.pods, x.ctx.generation) != Total(x.replicas)
    ensures !called ==> !finished && ViewOf(job, cluster) == old(ViewOf(job, cluster))
    ensures !finished ==> job.readyToStartWorker == old(job.readyToStartWorker)
    ensures finished ==> !job.readyToStartWorker
  {
    ghost var run, schedule;
    called, finished, err, run, schedule := ScaleIfNecessary(job, cluster, x);
    if called {
      api.ScaleReturned(job.readyToStartWorker);
    } else {
      api.GiveUp();
    }
  }

  /** `x` gives the job's conditions, listing and replicas; checkpoint state and generation are those the call leaves. */
  method ReconcileElastic(api: CC.ApiServer, job: ElasticJob, cluster: Cluster, x: Input, faults: CC.ApiFaults)
    returns (called: bool, finished: bool, err: bool, hangs: bool)
    requires api.Valid() && api.controller == C.Idle
    requires DistinctIds(x.pods) && x.ctx.immediate == job.immediatelyStartWorker
    requires job.readyToStartWorker == api.job.readyToStartWorker
    modifies api, job, cluster
    ensures api.Valid() && old(api.run) <= api.run
    // Pods, service and the other annotations change, and a round is finished, only in a pass that calls scaling.
    ensures !called ==>
              && cluster.slots == old(cluster.slots) && job.service == old(job.service) && job.scaleState == old(job.scaleState)
              && job.immediatelyStartWorker == old(job.immediatelyStartWorker) && !finished
    // That takes a running elastic job of a changed spec, either without open request and without victims, or with a
    // round that this very pass has wound up.
    ensures called ==> x.running && x.elastic && api.log != [] && api.log[|api.log| - 1] == C.ScaleCalled
    ensures var requested, completed := old(api.job).requested, old(api.job).completed;
      called ==>
        && completed != C.Malformed
        && (requested == C.Absent || (requested.Ckpt? && completed.Ckpt? && completed.version == requested.version))
        && (if requested == C.Absent || requested.status == C.CkptSucceeded
            then old(api.victims) == {} && old(api.job).generation > 1
            else requested.status == C.InProgress && C.Bumped(requested.version) in api.log)
    // In the first case it is called as soon as replicas and labelled pods differ.
    ensures var requested, completed, generation := old(api.job).requested, old(api.job).completed, old(api.job).generation;
      (x.running && x.elastic && completed != C.Malformed && old(api.victims) == {} && generation > 1
       && (requested == C.Absent || (requested.Ckpt? && requested.status == C.CkptSucceeded
                                     && completed.Ckpt? && completed.version == requested.version))
       && Labelled(old(cluster.slots), x.pods, generation) != Total(x.replicas)) ==> called
    // A job that is not running or not elastic is left alone altogether.
    ensures !x.running || !x.elastic ==> api.job == old(api.job) && api.log == old(api.log) && !called && !err && !hangs
    // Only finishing a round takes the ready annotation back, and only winding one up sets it.
    ensures old(job.readyToStartWorker) && !job.readyToStartWorker ==> finished
    ensures !old(job.readyToStartWorker) && job.readyToStartWorker ==>
              && old(api.job).requested.Ckpt? && old(api.job).requested.status == C.InProgress
              && C.Bumped(old(api.job).requested.version) in api.log
  {
    called, finished, err, hangs := false, false, false, false;
    if x.running && x.elastic {
      var done;
      done, err, hangs := CheckpointFirst(api, job, faults);
      if done {
        called, finished, err :=
          ScaleNext(api, job, cluster, x.(checkpointed := done, ctx := x.ctx.(generation := api.job.generation)));
      }
    }
  }
}
