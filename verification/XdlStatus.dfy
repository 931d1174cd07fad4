/**
 The verdict on an XDL job (controllers/xdl/status.go).

 The loop ranges over a Go map, so it meets the replica types in any order and may stop at any failed one.
 The assignment `rtype :| ...` below is that arbitrary choice, so what is proved holds for every order.
 */
module XdlStatus {
  import opened Common
  import opened Conditions
  import opened Pods
  import Names

  /** The part of the job spec that decides when enough workers are done. */
  datatype XdlJob = XdlJob(minFinishWorkerPercentage: Option<int>, minFinishWorkerNum: Option<int>)

  function Ceil(x: real): int {
    -((-x).Floor)
  }

  function CalculateMinFinish(job: XdlJob, workersNum: int): int {
    if job.minFinishWorkerPercentage.Some?
    then Int32(Ceil(Int32(workersNum * job.minFinishWorkerPercentage.value) as real / 100.0))
    else if job.minFinishWorkerNum.Some? then job.minFinishWorkerNum.value
    else workersNum
  }

  lemma CeilHundredth(p: int, n: int)
    ensures Ceil(p as real / 100.0) <= n <==> p <= 100 * n
  {
    var x := -(p as real / 100.0);
    assert x.Floor as real <= x < x.Floor as real + 1.0;
    if p <= 100 * n {
      assert (-n) as real <= x;
    }
    if x.Floor >= -n {
      assert (-n) as real <= x;
    }
  }

  /** With a percentage the threshold is exact: no rounding favours or delays the job. */
  lemma PercentageIsExact(job: XdlJob, workers: int, succeeded: int)
    requires job.minFinishWorkerPercentage.Some?
    requires var product := workers * job.minFinishWorkerPercentage.value;
      -0x8000_0000 <= product < 0x8000_0000
    ensures succeeded >= CalculateMinFinish(job, workers) <==>
              100 * succeeded >= job.minFinishWorkerPercentage.value * workers
  {
    var product := workers * job.minFinishWorkerPercentage.value;
    CeilHundredth(product, 0x7fff_ffff);
    CeilHundredth(product, -0x8000_0001);
    CeilHundredth(product, succeeded);
  }

  predicate CountsAsWorker(t: ReplicaType) {
    t == Worker || t == ExtendRole
  }

  /** Replicas and successes of the worker types met among `met`. */

  function WorkersOf(t: ReplicaType, met: set<ReplicaType>, specs: map<ReplicaType, int>): int {
    if t in met && t in specs then specs[t] else 0
  }

  function WorkerNum(met: set<ReplicaType>, specs: map<ReplicaType, int>): int {
    WorkersOf(Worker, met, specs) + WorkersOf(ExtendRole, met, specs)
  }

  function SuccessesOf(t: ReplicaType, met: set<ReplicaType>, statuses: map<ReplicaType, ReplicaStatus>): int {
    if t in met && t in statuses then statuses[t].succeeded else 0
  }

  function WorkerSucceeded(met: set<ReplicaType>, statuses: map<ReplicaType, ReplicaStatus>): int {
    SuccessesOf(Worker, met, statuses) + SuccessesOf(ExtendRole, met, statuses)
  }

  /** The types the loop looks at: specified, and counted in an earlier step. */
  function Counted(specs: map<ReplicaType, int>, statuses: map<ReplicaType, ReplicaStatus>): set<ReplicaType> {
    specs.Keys * statuses.Keys
  }

  predicate Failing(t: ReplicaType, specs: map<ReplicaType, int>, statuses: map<ReplicaType, ReplicaStatus>) {
    t in Counted(specs, statuses) && statuses[t].failed > 0
  }

  ghost predicate AnyFailing(specs: map<ReplicaType, int>, statuses: map<ReplicaType, ReplicaStatus>) {
    exists t :: Failing(t, specs, statuses)
  }

  ghost function Verdict(job: XdlJob, specs: map<ReplicaType, int>, statuses: map<ReplicaType, ReplicaStatus>,
                         restart: bool): ConditionType
  {
    var all := Counted(specs, statuses);
    if AnyFailing(specs, statuses) then if restart then JobRestarting else JobFailed
    else if WorkerSucceeded(all, statuses) >= CalculateMinFinish(job, WorkerNum(all, specs)) then JobSucceeded
    else JobRunning
  }

  function ReasonFor(t: ConditionType): string {
    match t
    case JobRestarting => "JobRestarting"
    case JobFailed => "JobFailed"
    case JobSucceeded => "JobSucceeded"
    case JobRunning => "JobRunning"
    case _ => ""
  }

  function TypeName(t: ReplicaType): string {
    match t
    case AIMaster => "AIMaster"
    case Master => "Master"
    case Worker => "Worker"
    case PS => "PS"
    case Scheduler => "Scheduler"
    case ExtendRole => "ExtendRole"
    case Other(name) => name
  }

  function FailureMessage(what: string, failed: nat, t: ReplicaType): string {
    what + " because " + Names.Itoa(failed) + " " + TypeName(t) + " replica(s) failed."
  }

  /** The report on the first type found with failed replicas. */
  method ReportFailure(jobStatus: JobStatus, rtype: ReplicaType, failed: nat, restart: bool, now: int)
    returns (ghost report: Report)
    modifies jobStatus`conditions, jobStatus`completionTime
    ensures report.typ == (if restart then JobRestarting else JobFailed) && report.reason == ReasonFor(report.typ)
    ensures jobStatus.conditions == Update(old(jobStatus.conditions), report)
    ensures jobStatus.completionTime ==
      if !restart && old(jobStatus.completionTime) == None then Some(now) else old(jobStatus.completionTime)
  {
    var r;
    if restart {
      r := Report(JobRestarting, ReasonFor(JobRestarting), FailureMessage("is restarting", failed, rtype), now);
    } else {
      r := Report(JobFailed, ReasonFor(JobFailed), FailureMessage("is failed", failed, rtype), now);
      if jobStatus.completionTime == None {
        jobStatus.completionTime := Some(now);
      }
    }
    jobStatus.UpdateJobConditions(r);
    report := r;
  }

  /** The report when no replica has failed. */
  method ReportProgress(jobStatus: JobStatus, succeeds: bool, now: int) returns (ghost report: Report)
    modifies jobStatus`conditions, jobStatus`completionTime
    ensures report.typ == (if succeeds then JobSucceeded else JobRunning) && report.reason == ReasonFor(report.typ)
    ensures jobStatus.conditions == Update(old(jobStatus.conditions), report)
    ensures jobStatus.completionTime ==
      if succeeds && old(jobStatus.completionTime) == None then Some(now) else old(jobStatus.completionTime)
  {
    var r;
    if succeeds {
      if jobStatus.completionTime == None {
        jobStatus.completionTime := Some(now);
      }
      r := Report(JobSucceeded, ReasonFor(JobSucceeded), "is successfully completed", now);
    } else {
      r := Report(JobRunning, ReasonFor(JobRunning), "is running", now);
    }
    jobStatus.UpdateJobConditions(r);
    report := r;
  }

  method UpdateGeneralJobStatus(job: XdlJob, replicaSpecs: map<ReplicaType, int>,
                                statuses: map<ReplicaType, ReplicaStatus>, jobStatus: JobStatus, restart: bool, now: int)
    returns (ghost report: Report)
    modifies jobStatus
    ensures report.typ == Verdict(job, replicaSpecs, statuses, restart) && report.reason == ReasonFor(report.typ)
    ensures jobStatus.conditions == Update(old(jobStatus.conditions), report)
    ensures jobStatus.completionTime ==
      if Terminal(report.typ) && old(jobStatus.completionTime) == None then Some(now) else old(jobStatus.completionTime)
    ensures jobStatus.startTime == old(jobStatus.startTime)
            || (old(jobStatus.startTime) == None && jobStatus.startTime == Some(now)
                && exists t :: t in replicaSpecs && t in statuses && statuses[t].active == replicaSpecs[t])
    ensures !AnyFailing(replicaSpecs, statuses)
            && (exists t :: t in replicaSpecs && t in statuses && statuses[t].active == replicaSpecs[t]) ==>
      jobStatus.startTime.Some?
  {
    var workerNum, workerSucceeded := 0, 0;
    var remaining := replicaSpecs.Keys;
    while remaining != {}
      invariant remaining <= replicaSpecs.Keys
      invariant forall t :: t in replicaSpecs.Keys - remaining ==> !Failing(t, replicaSpecs, statuses)
      invariant workerNum == WorkerNum(Counted(replicaSpecs, statuses) - remaining, replicaSpecs)
      invariant workerSucceeded == WorkerSucceeded(Counted(replicaSpecs, statuses) - remaining, statuses)
      invariant jobStatus.conditions == old(jobStatus.conditions)
      invariant jobStatus.completionTime == old(jobStatus.completionTime)
      invariant jobStatus.startTime == old(jobStatus.startTime)
                || (old(jobStatus.startTime) == None && jobStatus.startTime == Some(now)
                    && exists t :: t in replicaSpecs && t in statuses && statuses[t].active == replicaSpecs[t])
      invariant forall t :: t in replicaSpecs.Keys - remaining && t in statuses && statuses[t].active == replicaSpecs[t] ==>
        jobStatus.startTime.Some?
    {
      var rtype :| rtype in remaining;
      remaining := remaining - {rtype};
      if rtype !in statuses {
        continue;
      }
      var status := statuses[rtype];
      if CountsAsWorker(rtype) {
        workerNum := workerNum + replicaSpecs[rtype];
        workerSucceeded := workerSucceeded + status.succeeded;
      }
      if status.active == replicaSpecs[rtype] && jobStatus.startTime == None {
        assert rtype in replicaSpecs && statuses[rtype].active == replicaSpecs[rtype];
        jobStatus.startTime := Some(now);
      }
      if status.failed > 0 {
        assert Failing(rtype, replicaSpecs, statuses);
        report := ReportFailure(jobStatus, rtype, status.failed, restart, now);
        return;
      }
    }
    assert Counted(replicaSpecs, statuses) - remaining == Counted(replicaSpecs, statuses);
    var workerMinFinish := CalculateMinFinish(job, workerNum);
    report := ReportProgress(jobStatus, workerSucceeded >= workerMinFinish, now);
  }

  /** Whatever order the map was walked in, and so whatever message was chosen, the conditions are the same but for messages and times. */
  lemma OrderDoesNotMatter(job: XdlJob, specs: map<ReplicaType, int>, statuses: map<ReplicaType, ReplicaStatus>,
                           restart: bool, cs: seq<Condition>, r: Report, r': Report)
    requires r.typ == r'.typ == Verdict(job, specs, statuses, restart)
    requires r.reason == ReasonFor(r.typ) && r'.reason == ReasonFor(r'.typ)
    ensures Project(Update(cs, r)) == Project(Update(cs, r'))
  {
    ProjectUpdate(cs, cs, r, r');
  }

  /**
   From any reachable status that is not finished: a failed replica restarts or fails the job, as `restart` says;
   without one the job succeeds if the threshold is met and runs otherwise.
   */
  lemma VerdictDecides(job: XdlJob, specs: map<ReplicaType, int>, statuses: map<ReplicaType, ReplicaStatus>,
                       restart: bool, reports: seq<Report>, r: Report)
    requires !Finished(Run(reports)) && r.typ == Verdict(job, specs, statuses, restart)
    ensures var cs, all := Update(Run(reports), r), Counted(specs, statuses);
      var met := WorkerSucceeded(all, statuses) >= CalculateMinFinish(job, WorkerNum(all, specs));
      var failing := AnyFailing(specs, statuses);
      && (Holds(cs, JobFailed) <==> failing && !restart)
      && (Holds(cs, JobSucceeded) <==> !failing && met)
      && (failing && restart ==> Lists(cs, JobRestarting) && !Holds(cs, JobRunning))
      && (Holds(cs, JobRunning) <==> !Finished(cs) && !failing && !met)
  {
    assert (reports + [r])[..|reports|] == reports;
    assert Run(reports + [r]) == Update(Run(reports), r);
    RunMeaning(reports);
    RunMeaning(reports + [r]);
    TerminalType(reports);
  }

  /** The workers of a map: the two types that count as workers, where they are specified and have counters. */
  lemma WorkersMeaning(specs: map<ReplicaType, int>, statuses: map<ReplicaType, ReplicaStatus>)
    ensures var all := Counted(specs, statuses);
      && WorkerNum(all, specs) == (if Worker in specs && Worker in statuses then specs[Worker] else 0)
                                  + (if ExtendRole in specs && ExtendRole in statuses then specs[ExtendRole] else 0)
      && WorkerSucceeded(all, statuses) == (if Worker in specs && Worker in statuses then statuses[Worker].succeeded else 0)
                                           + (if ExtendRole in specs && ExtendRole in statuses then statuses[ExtendRole].succeeded else 0)
      && (AnyFailing(specs, statuses) <==> exists t :: t in specs && t in statuses && statuses[t].failed > 0)
  {
    if t :| t in specs && t in statuses && statuses[t].failed > 0 {
      assert Failing(t, specs, statuses);
    }
  }

  /**
   The verdict on the counters, from any reachable unfinished status: any failed replica restarts or fails the job;
   without one it succeeds exactly if enough workers have, and runs otherwise.
   */
  lemma VerdictOnCounters(job: XdlJob, specs: map<ReplicaType, int>, statuses: map<ReplicaType, ReplicaStatus>,
                          restart: bool, reports: seq<Report>, r: Report)
    requires !Finished(Run(reports)) && r.typ == Verdict(job, specs, statuses, restart)
    ensures var cs := Update(Run(reports), r);
      var failing := exists t :: t in specs && t in statuses && statuses[t].failed > 0;
      var workers := (if Worker in specs && Worker in statuses then specs[Worker] else 0)
                     + (if ExtendRole in specs && ExtendRole in statuses then specs[ExtendRole] else 0);
      var succeeded := (if Worker in specs && Worker in statuses then statuses[Worker].succeeded else 0)
                       + (if ExtendRole in specs && ExtendRole in statuses then statuses[ExtendRole].succeeded else 0);
      var product := if job.minFinishWorkerPercentage.Some? then workers * job.minFinishWorkerPercentage.value else 0;
      var enough := if job.minFinishWorkerPercentage.Some? then 100 * succeeded >= product
                    else if job.minFinishWorkerNum.Some? then succeeded >= job.minFinishWorkerNum.value
                    else succeeded >= workers;
      -0x8000_0000 <= product < 0x8000_0000 ==>
        && (Holds(cs, JobFailed) <==> failing && !restart)
        && (Holds(cs, JobSucceeded) <==> !failing && enough)
        && (Holds(cs, JobRunning) <==> !failing && !enough)
        && (failing && restart ==> Lists(cs, JobRestarting) && !Holds(cs, JobRunning))
  {
    WorkersMeaning(specs, statuses);
    VerdictDecides(job, specs, statuses, restart, reports, r);
    EnoughMeaning(job, WorkerNum(Counted(specs, statuses), specs), WorkerSucceeded(Counted(specs, statuses), statuses));
  }

  lemma EnoughMeaning(job: XdlJob, workers: int, succeeded: int)
    ensures var product := if job.minFinishWorkerPercentage.Some? then workers * job.minFinishWorkerPercentage.value else 0;
      -0x8000_0000 <= product < 0x8000_0000 ==>
        (succeeded >= CalculateMinFinish(job, workers) <==>
           if job.minFinishWorkerPercentage.Some? then 100 * succeeded >= product
           else if job.minFinishWorkerNum.Some? then succeeded >= job.minFinishWorkerNum.value
           else succeeded >= workers)
  {
    if job.minFinishWorkerPercentage.Some? {
      var percentage := job.minFinishWorkerPercentage.value;
      if -0x8000_0000 <= workers * percentage < 0x8000_0000 {
        PercentageIsExact(job, workers, succeeded);
        assert percentage * workers == workers * percentage;
      }
    }
  }

  /** The same with the threshold spelt out: the percentage, a fixed number of workers, or all of them. */
  lemma SucceedsIff(job: XdlJob, specs: map<ReplicaType, int>, statuses: map<ReplicaType, ReplicaStatus>,
                    restart: bool, reports: seq<Report>, r: Report)
    requires !Finished(Run(reports)) && r.typ == Verdict(job, specs, statuses, restart)
    requires job.minFinishWorkerPercentage.Some? ==>
               var product := WorkerNum(Counted(specs, statuses), specs) * job.minFinishWorkerPercentage.value;
               -0x8000_0000 <= product < 0x8000_0000
    ensures var succeeded := WorkerSucceeded(Counted(specs, statuses), statuses);
      var workers := WorkerNum(Counted(specs, statuses), specs);
      Holds(Update(Run(reports), r), JobSucceeded) <==>
        && !AnyFailing(specs, statuses)
        && if job.minFinishWorkerPercentage.Some? then 100 * succeeded >= job.minFinishWorkerPercentage.value * workers
           else if job.minFinishWorkerNum.Some? then succeeded >= job.minFinishWorkerNum.value
           else succeeded >= workers
  {
    VerdictDecides(job, specs, statuses, restart, reports, r);
    if job.minFinishWorkerPercentage.Some? {
      PercentageIsExact(job, WorkerNum(Counted(specs, statuses), specs), WorkerSucceeded(Counted(specs, statuses), statuses));
    }
  }

  /** A finished status stays as it is. */
  lemma FinishedStays(reports: seq<Report>, r: Report)
    requires Finished(Run(reports))
    ensures Run(reports + [r]) == Run(reports)
  {
    RunConcat(reports, [r]);
  }
}
