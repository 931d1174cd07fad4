/**
 The code of the checkpoint pass (controllers/pytorch/elastic_scale.go) over an API server that other actors
 use at the same time. The server keeps, as ghost state, the run of the transition system in module Checkpoint
 that has happened so far; each operation extends that run by one of its steps.
 */
module CheckpointController {
  import opened Common
  import opened Checkpoint
  import Pods

  /** Which API operations fail in this pass. One that is lost was applied although an error is reported. */
  datatype ApiFaults = ApiFaults(
    patchFails: bool, patchLost: bool, deleteFails: set<PodId>, deleteLost: set<PodId>, updateFails: bool, updateLost: bool)

  /** Victims whose deletion reports an error. */
  function FailedDeletions(victims: set<PodId>, faults: ApiFaults): set<PodId> {
    victims * (faults.deleteFails + faults.deleteLost)
  }

  /** Capacity of the channel that collects the errors of the deletions. */
  const ERRORS_CAPACITY := 10

  /** No event is ever forgotten. */
  ghost predicate Keeps(before: seq<Event>, after: seq<Event>) {
    forall e :: e in before ==> e in after
  }

  class ApiServer {
    var job: Job
    var victims: set<PodId>
    ghost var controller: Controller
    ghost var log: seq<Event>
    ghost var run: seq<System>

    ghost function View(): System
      reads this
    {
      System(job, victims, controller, log)
    }

    ghost predicate Valid()
      reads this
    {
      IsRun(run) && Last(run) == View()
    }

    constructor (generation: int)
      requires 0 < generation < 0x8000_0000
      ensures Valid() && controller == Idle && log == []
      ensures job == Job(generation, Absent, Absent, None, false, 0) && victims == {}
    {
      job := Job(generation, Absent, Absent, None, false, 0);
      victims := {};
      controller, log := Idle, [];
      run := [System(Job(generation, Absent, Absent, None, false, 0), {}, Idle, [])];
    }

    /** Records that the current view is the next state of the run. */
    ghost method Record()
      requires IsRun(run) && Step(Last(run), View())
      modifies this`run
      ensures Valid() && run == old(run) + [View()]
    {
      AppendStep(run, View());
      run := run + [View()];
    }

    /** Other actors may take any number of steps here. The body takes none; callers only learn the postcondition. */
    method Interfere()
      requires Valid()
      modifies this
      ensures Valid() && controller == old(controller) && old(run) <= run && Keeps(old(log), log)
    {
    }

    /** The start of a pass: the job is read from the API server, not from a cache, together with the victims. */
    method Read() returns (snap: Job, listed: set<PodId>)
      requires Valid() && controller == Idle
      modifies this`controller, this`run
      ensures Valid() && old(run) <= run
      ensures snap == job && listed == victims
      ensures controller == match Decide(job, victims)
                            case NothingToDo => Scaling
                            case Trigger => Triggering(job)
                            case WindUp => Deleting(job, victims)
                            case _ => Idle
    {
      snap, listed := job, victims;
      Generations();
      controller := match Decide(job, victims)
        case NothingToDo => Scaling
        case Trigger => Triggering(job)
        case WindUp => Deleting(job, victims)
        case _ => Idle;
      assert Begin(Last(run), View());
      Record();
    }

    /** The pass ends early. */
    ghost method GiveUp()
      requires Valid()
      modifies this`controller, this`run
      ensures Valid() && controller == Idle && old(run) <= run
    {
      Generations();
      controller := Idle;
      assert Abandon(Last(run), View());
      Record();
    }

    lemma Generations()
      requires Valid()
      ensures Inv(View()) && job.generation < 0x8000_0000
    {
      RunKeepsInv(run);
    }

    /** The pass has called ScaleOut or ScaleIn, which may have rewritten the ready annotation. */
    method ScaleReturned(readyToStartWorker: bool)
      requires Valid() && controller == Scaling
      modifies this
      ensures Valid() && controller == Idle && old(run) <= run && log == old(log) + [ScaleCalled]
      ensures job.generation == old(job).generation && job.readyToStartWorker == readyToStartWorker
    {
      Generations();
      job := job.(readyToStartWorker := readyToStartWorker, resourceVersion := job.resourceVersion + 1);
      log := log + [ScaleCalled];
      controller := Idle;
      assert Scale(Last(run), View());
      Record();
    }

    /** A merge patch of the requested-version annotation: no precondition on the resource version. */
    method PatchRequested(version: int, faults: ApiFaults) returns (err: bool)
      requires Valid() && controller.Triggering? && version == Int32(controller.snap.generation)
      modifies this
      ensures Valid() && controller == Idle && old(run) <= run
      ensures err <==> faults.patchFails || faults.patchLost
      ensures !faults.patchFails ==>
                log == old(log) + [Triggered(version)] && job.requested == Ckpt(version, InProgress)
    {
      err := faults.patchFails || faults.patchLost;
      Generations();
      if faults.patchFails {
        GiveUp();
      } else {
        job := job.(requested := Ckpt(version, InProgress), resourceVersion := job.resourceVersion + 1);
        log := log + [Triggered(version)];
        controller := Idle;
        assert TriggerPatch(Last(run), View());
        Record();
      }
    }

    method DeletePod(pod: PodId, faults: ApiFaults) returns (err: bool)
      requires Valid() && controller.Deleting? && pod in controller.victims && controller.snap.requested.Ckpt?
      modifies this
      ensures Valid() && controller == old(controller) && old(run) <= run && Keeps(old(log), log)
      ensures err <==> pod in faults.deleteFails || pod in faults.deleteLost
      ensures pod !in faults.deleteFails ==> pod !in victims && Deleted(controller.snap.requested.version, pod) in log
    {
      err := pod in faults.deleteFails || pod in faults.deleteLost;
      Generations();
      if pod !in faults.deleteFails {
        victims := victims - {pod};
        log := log + [Deleted(controller.snap.requested.version, pod)];
        assert DeleteVictim(Last(run), View(), pod);
        Record();
      }
    }

    /** Goroutines and semaphore are gone: every deletion has returned. */
    ghost method CleanupReturned()
      requires Valid() && controller.Deleting?
      modifies this`controller, this`run
      ensures Valid() && controller == Bumping(old(controller).snap) && old(run) <= run
    {
      Generations();
      controller := Bumping(controller.snap);
      assert CleanupDone(Last(run), View());
      Record();
    }

    /**
     A full update with optimistic locking. The server keeps the generation unless the spec differs from what it
     stores. (The model ends where the next generation would no longer fit int32.)
     */
    method Update(updated: Job, faults: ApiFaults) returns (err: bool)
      requires Valid() && controller.Bumping? && controller.snap.requested.Ckpt?
      requires updated == MarkedJob(controller.snap)
      modifies this
      ensures Valid() && old(run) <= run && Keeps(old(log), log)
      ensures var rejected := faults.updateFails || old(job).resourceVersion != updated.resourceVersion
                              || old(job).generation + 1 >= 0x8000_0000;
        && (err <==> rejected || faults.updateLost)
        && (rejected ==> job == old(job))
        && (!rejected ==> job == updated.(generation := updated.generation + 1, resourceVersion := updated.resourceVersion + 1)
                          && log == old(log) + [Bumped(updated.requested.version)])
      ensures controller == if err then Idle else Scaling
    {
      var rejected := faults.updateFails || job.resourceVersion != updated.resourceVersion || job.generation + 1 >= 0x8000_0000;
      err := rejected || faults.updateLost;
      Generations();
      if rejected {
        GiveUp();
      } else {
        var generation := if updated.generationToIncrease == job.generationToIncrease then job.generation else job.generation + 1;
        job := updated.(generation := generation, resourceVersion := job.resourceVersion + 1);
        log := log + [Bumped(updated.requested.version)];
        controller := Scaling;
        assert Bump(Last(run), View());
        Record();
        if faults.updateLost {
          GiveUp();
        }
      }
    }
  }

  /** The in-memory edit of increaseGenerationAndMarkAsSucceeded. */
  function MarkedJob(snap: Job): Job
    requires snap.requested.Ckpt?
  {
    snap.(requested := snap.requested.(status := CkptSucceeded),
          readyToStartWorker := true,
          generationToIncrease := Some(snap.generation + 1))
  }

  method TriggerJobCheckpoint(api: ApiServer, pytorchJob: Job, faults: ApiFaults) returns (err: bool)
    requires api.Valid() && api.controller == Triggering(pytorchJob)
    modifies api
    ensures api.Valid() && api.controller == Idle && old(api.run) <= api.run
    ensures err <==> faults.patchFails || faults.patchLost
    ensures !faults.patchFails ==>
              && Triggered(Int32(pytorchJob.generation)) in api.log
              && api.job.requested == Ckpt(Int32(pytorchJob.generation), InProgress)
  {
    var version := Int32(pytorchJob.generation);
    err := api.PatchRequested(version, faults);
  }

  /** The error channel holds one error for each of `failing` among the `done`. */
  ghost predicate Collected(errs: seq<PodId>, failing: set<PodId>, done: set<PodId>) {
    Distinct(errs) && forall pod :: pod in errs <==> pod in failing && pod in done
  }

  lemma {:induction false} CollectedSize(errs: seq<PodId>, failing: set<PodId>)
    requires Distinct(errs) && forall pod :: pod in errs ==> pod in failing
    ensures |errs| <= |failing|
    ensures (forall pod :: pod in failing ==> pod in errs) ==> |errs| == |failing|
  {
    if errs == [] {
      assert (forall pod :: pod in failing ==> pod in errs) ==> failing == {};
    } else {
      var front, last := errs[..|errs| - 1], errs[|errs| - 1];
      assert forall pod :: pod in errs <==> pod in front || pod == last;
      CollectedSize(front, failing - {last});
    }
  }

  /** Every one of `pods` was deleted in the round of `version`. */
  ghost predicate AllDeleted(log: seq<Event>, version: int, pods: set<PodId>) {
    forall pod :: pod in pods ==> Deleted(version, pod) in log
  }

  /** One deletion, and whatever happens until the next one. */
  method DeleteVictimPod(api: ApiServer, pod: PodId, faults: ApiFaults, ghost done: set<PodId>) returns (err: bool)
    requires api.Valid() && api.controller.Deleting? && pod in api.controller.victims && api.controller.snap.requested.Ckpt?
    requires AllDeleted(api.log, api.controller.snap.requested.version, done - faults.deleteFails)
    modifies api
    ensures api.Valid() && api.controller == old(api.controller) && old(api.run) <= api.run && Keeps(old(api.log), api.log)
    ensures err <==> pod in faults.deleteFails || pod in faults.deleteLost
    ensures AllDeleted(api.log, api.controller.snap.requested.version, done + {pod} - faults.deleteFails)
  {
    err := api.DeletePod(pod, faults);
    api.Interfere();
  }

  /**
   The deletions run concurrently, so in any order and with anything in between; errors are collected. The channel
   for them holds ten, and nobody reads it before all goroutines have returned: with one error more the call `hangs`.
   */
  method CleanupVictimPods(api: ApiServer, victims: set<PodId>, faults: ApiFaults) returns (err: bool, hangs: bool)
    requires api.Valid() && api.controller.Deleting? && api.controller.victims == victims && api.controller.snap.requested.Ckpt?
    modifies api
    ensures api.Valid() && api.controller == old(api.controller) && old(api.run) <= api.run && Keeps(old(api.log), api.log)
    ensures err <==> FailedDeletions(victims, faults) != {}
    ensures hangs <==> |FailedDeletions(victims, faults)| > 10
    ensures !hangs ==> AllDeleted(api.log, api.controller.snap.requested.version, victims - faults.deleteFails)
  {
    hangs := false;
    var errs: seq<PodId> := [];
    var rest := victims;
    ghost var done, failing := {}, FailedDeletions(victims, faults);
    while rest != {}
      invariant rest <= victims && done == victims - rest
      invariant api.Valid() && api.controller == old(api.controller) && old(api.run) <= api.run && Keeps(old(api.log), api.log)
      invariant Collected(errs, failing, done) && |errs| <= ERRORS_CAPACITY
      invariant AllDeleted(api.log, api.controller.snap.requested.version, done - faults.deleteFails)
    {
      var pod :| pod in rest;
      var failed := DeleteVictimPod(api, pod, faults, done);
      rest, done := rest - {pod}, done + {pod};
      if failed {
        if |errs| == ERRORS_CAPACITY {
          CollectedSize(errs + [pod], failing);
          return true, true;
        }
        errs := errs + [pod];
      }
    }
    CollectedSize(errs, failing);
    err := |errs| > 0;
  }

  method IncreaseGenerationAndMarkAsSucceeded(api: ApiServer, pytorchJob: Job, faults: ApiFaults) returns (err: bool)
    requires api.Valid() && api.controller == Bumping(pytorchJob) && pytorchJob.requested.Ckpt?
    modifies api
    ensures api.Valid() && old(api.run) <= api.run && Keeps(old(api.log), api.log)
    ensures api.controller == if err then Idle else Scaling
    ensures var rejected := faults.updateFails || old(api.job).resourceVersion != pytorchJob.resourceVersion
                            || old(api.job).generation + 1 >= 0x8000_0000;
      && (err <==> rejected || faults.updateLost)
      && (rejected ==> api.job == old(api.job))
      && (!rejected ==>
            && api.job.generation == pytorchJob.generation + 1 && api.job.readyToStartWorker
            && api.job.requested == Ckpt(pytorchJob.requested.version, CkptSucceeded)
            && Bumped(pytorchJob.requested.version) in api.log)
  {
    var updated := pytorchJob;
    updated := updated.(requested := updated.requested.(status := CkptSucceeded));
    updated := updated.(readyToStartWorker := true);
    updated := updated.(generationToIncrease := Some(updated.generation + 1));
    err := api.Update(updated, faults);
  }

  /** What the second stage did, whether it ended or hangs. */
  ghost predicate WoundUp(job: Job, victims: set<PodId>, faults: ApiFaults, after: System, completed: bool, err: bool,
                          hangs: bool, conflict: bool)
  {
    && (err <==> FailedDeletions(victims, faults) != {})
    && (hangs <==> |FailedDeletions(victims, faults)| > 10)
    && (completed <==> !err && !faults.updateFails && !faults.updateLost && !conflict)
    && (conflict ==> after.job.resourceVersion != job.resourceVersion || after.job.generation + 1 >= 0x8000_0000)
    && (!hangs && job.requested.Ckpt? ==> forall pod :: pod in victims - faults.deleteFails ==>
          Deleted(job.requested.version, pod) in after.log)
    && (!err && !faults.updateFails && !conflict && job.requested.Ckpt? ==>
          && after.job.generation == job.generation + 1 && after.job.readyToStartWorker
          && after.job.requested == Ckpt(job.requested.version, CkptSucceeded) && Bumped(job.requested.version) in after.log)
  }

  /**
   The second stage: clean up the victims, then bump the generation. A failed bump is not reported as an error. A
   pass that hangs never returns, so the controller stays where it is.
   */
  method WindUpCheckpoint(api: ApiServer, pytorchJob: Job, victims: set<PodId>, faults: ApiFaults)
    returns (completed: bool, err: bool, hangs: bool, ghost conflict: bool)
    requires api.Valid() && api.controller == Deleting(pytorchJob, victims) && pytorchJob.requested.Ckpt?
    modifies api
    ensures api.Valid() && old(api.run) <= api.run
    ensures api.controller == if hangs then old(api.controller) else if completed then Scaling else Idle
    ensures WoundUp(pytorchJob, victims, faults, api.View(), completed, err, hangs, conflict)
  {
    completed, conflict := false, false;
    err, hangs := CleanupVictimPods(api, victims, faults);
    if hangs {
      return;
    }
    if err {
      api.GiveUp();
      return;
    }
    api.CleanupReturned();
    api.Interfere();
    conflict := api.job.resourceVersion != pytorchJob.resourceVersion || api.job.generation + 1 >= 0x8000_0000;
    var failed := IncreaseGenerationAndMarkAsSucceeded(api, pytorchJob, faults);
    completed := !failed;
  }

  /**
   One call. It is a sequence of steps of the transition system, so all theorems about runs apply to it; the result
   depends on the job and victims read at its start, on the API faults, and on whether the job changed meanwhile.
   */
  method CheckpointIfNecessary(api: ApiServer, faults: ApiFaults)
    returns (completed: bool, err: bool, hangs: bool, ghost conflict: bool)
    requires api.Valid() && api.controller == Idle
    modifies api
    ensures api.Valid() && old(api.run) <= api.run
    ensures api.controller ==
      if hangs then Deleting(old(api.job), old(api.victims)) else if completed then Scaling else Idle
    ensures old(api.job).completed == Malformed ==>
              !completed && err && !hangs && api.job == old(api.job) && api.log == old(api.log)
    ensures var requested, done := old(api.job).requested, old(api.job).completed;
      var answered := requested.Ckpt? && done.Ckpt? && done.version == requested.version;
      var free := requested == Absent || (answered && requested.status == CkptSucceeded);
      done != Malformed ==>
        && (free && old(api.victims) == {} ==>
              completed && !err && !hangs && api.job == old(api.job) && api.log == old(api.log))
        && (free && old(api.victims) != {} ==>
              && !completed && !hangs && (err <==> faults.patchFails || faults.patchLost)
              && (!faults.patchFails ==> api.job.requested == Ckpt(old(api.job).generation, InProgress)))
        && (answered && requested.status == InProgress ==>
              WoundUp(old(api.job), old(api.victims), faults, api.View(), completed, err, hangs, conflict))
        && (requested.Ckpt? && !answered ==>
              !completed && !err && !hangs && api.job == old(api.job) && api.log == old(api.log))
    ensures old(api.job).requested.Ckpt? ==> old(api.job).requested.status in {InProgress, CkptSucceeded}
  {
    api.Generations();
    var pytorchJob, victims := api.Read();
    completed, err, hangs, conflict := false, false, false, false;
    var ckptReqVersion, ckptCompletedVersion := pytorchJob.requested, pytorchJob.completed;
    if ckptReqVersion == Malformed || ckptCompletedVersion == Malformed {
      err := true;
      return;
    }
    var syncCheckpoint := ckptReqVersion == Absent
      || (ckptCompletedVersion != Absent && ckptReqVersion.version == ckptCompletedVersion.version);
    if syncCheckpoint {
      if ckptReqVersion == Absent || ckptReqVersion.status == CkptSucceeded {
        if |victims| == 0 {
          completed := true;
          return;
        }
        api.Interfere();
        err := TriggerJobCheckpoint(api, pytorchJob, faults);
      } else if ckptReqVersion.status == InProgress {
        completed, err, hangs, conflict := WindUpCheckpoint(api, pytorchJob, victims, faults);
      }
    }
  }

  /** What a caller may conclude at any time from the run an API server has recorded. */
  lemma RecordedRunIsDisciplined(api: ApiServer)
    requires api.Valid()
    ensures Disciplined(api.log)
    ensures api.job.requested != Malformed
    ensures api.job.completed.Ckpt? ==>
              api.job.requested.Ckpt? && api.job.completed.version <= api.job.requested.version <= api.job.generation
  {
    HistoriesAreDisciplined(api.run, |api.run| - 1);
    VersionDiscipline(api.run, |api.run| - 1);
  }
}
